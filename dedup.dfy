// src/dedup/dedup.cpp: the two-tier deduplicator. The remote tier (a Redis
// server reached through hiredis) is the key-value map `remote`; each remote
// command takes a `replyOk` input that says whether hiredis returned a reply,
// so the null-reply path is explicit.

module Dedup {
  import opened Strings
  import opened Decimal
  import opened HashUtils
  import opened UrlUtils

  /** The 64-bit key of a URL: hash_url of its canonical form */
  function UrlHash(url: string): Hash64
  {
    HashUrl(Canonicalize(url))
  }

  /** The remote key of a URL hash: "dedup:url:" + std::to_string(hash) */
  function RemoteUrlKey(h: Hash64): (key: string)
  {
    "dedup:url:" + ToDecimal(h)
  }

  /** The remote key of a content hash string: "dedup:content:" + the string as given */
  function RemoteContentKey(contentHash: string): (key: string)
  {
    "dedup:content:" + contentHash
  }

  /** The local key of a content hash string: its std::stoull value, or hash_content of
      the string when stoull throws */
  function LocalContentKey(contentHash: string): Hash64
  {
    match ParseU64(contentHash)
    case Some(v) => v
    case None => HashContent(contentHash)
  }

  /** URLs that differ only in their fragment share one entry, locally and remotely */
  lemma UrlKeyIgnoresFragment(url: string, fragment: string)
    requires '#' !in url
    ensures UrlHash(url + "#" + fragment) == UrlHash(url)
    ensures RemoteUrlKey(UrlHash(url + "#" + fragment)) == RemoteUrlKey(UrlHash(url))
  {
    CanonicalizeDropsFragment(url, fragment);
    CanonicalizeSpec(url);
  }

  /** Distinct URL hashes have distinct remote keys */
  lemma RemoteUrlKeyInjective(h1: Hash64, h2: Hash64)
    requires RemoteUrlKey(h1) == RemoteUrlKey(h2)
    ensures h1 == h2
  {
    var p := "dedup:url:";
    assert ToDecimal(h1) == RemoteUrlKey(h1)[|p|..];
    assert ToDecimal(h2) == RemoteUrlKey(h2)[|p|..];
    ToDecimalInjective(h1, h2);
  }

  /** A URL key and a content key never name the same remote entry */
  lemma RemoteKeysDisjoint(h: Hash64, contentHash: string)
    ensures RemoteUrlKey(h) != RemoteContentKey(contentHash)
  {
    assert RemoteUrlKey(h)[6] == 'u';
    assert RemoteContentKey(contentHash)[6] == 'c';
  }

  /** The decimal text of a 64-bit hash is stored locally under that hash */
  lemma LocalContentKeyOfDecimal(h: Hash64)
    ensures LocalContentKey(ToDecimal(h)) == h
  {
    ParseToDecimal(h);
  }

  /** Text that stoull rejects is stored locally under its hash_content */
  lemma LocalContentKeyOfText(contentHash: string)
    requires exists i :: 0 <= i < |contentHash| && !IsDigit(contentHash[i])
    ensures LocalContentKey(contentHash) == HashContent(contentHash)
  {
  }

  class Deduplicator {
    var localUrls: set<Hash64>
    var localContent: set<Hash64>
    var useLocalFallback: bool
    var redisAvailable: bool
    /** redis_context_ != nullptr */
    var connected: bool
    /** The key-value entries of the remote server */
    var remote: map<string, string>
    var urlDuplicates: nat
    var contentDuplicates: nat
    var redisHits: nat
    var redisMisses: nat

    /** The remote tier is only ever marked available together with a live connection */
    predicate Valid()
      reads this
    {
      redisAvailable ==> connected
    }

    /** Whether the local sets are consulted: use_local_fallback_ || !redis_available_ */
    predicate LocalActive()
      reads this
    {
      useLocalFallback || !redisAvailable
    }

    constructor()
      ensures Valid()
      ensures localUrls == {} && localContent == {} && remote == map[]
      ensures !useLocalFallback && !redisAvailable && !connected
      ensures urlDuplicates == 0 && contentDuplicates == 0 && redisHits == 0 && redisMisses == 0
    {
      localUrls := {};
      localContent := {};
      useLocalFallback := false;
      redisAvailable := false;
      connected := false;
      remote := map[];
      urlDuplicates := 0;
      contentDuplicates := 0;
      redisHits := 0;
      redisMisses := 0;
    }

    /** Deduplicator::init_redis; connectOk says whether redisConnect gave an error-free context */
    method InitRedis(connectOk: bool) returns (ok: bool)
      modifies this`redisAvailable, this`connected
      ensures ok == connectOk && redisAvailable == connectOk
      ensures connected == (connectOk || old(connected))
      ensures Valid()
    {
      if !connectOk {
        redisAvailable := false;
        return false;
      }
      connected := true;
      redisAvailable := true;
      return true;
    }

    /** Deduplicator::enable_local_fallback */
    method EnableLocalFallback(enable: bool)
      modifies this`useLocalFallback
      ensures useLocalFallback == enable
    {
      useLocalFallback := enable;
    }

    /** check_redis_url and check_redis_content (the same code): EXISTS key */
    method CheckRemote(key: string, replyOk: bool) returns (exists_: bool)
      modifies this`redisAvailable
      ensures exists_ <==> connected && replyOk && key in remote
      ensures redisAvailable == (old(redisAvailable) && !(connected && !replyOk))
    {
      if !connected {
        return false;
      }
      if !replyOk {
        redisAvailable := false;
        return false;
      }
      return key in remote;
    }

    /** mark_redis_url and mark_redis_content: SETEX key 86400 value (expiry not modelled) */
    method MarkRemote(key: string, value: string, replyOk: bool)
      modifies this`redisAvailable, this`remote
      ensures remote == if connected && replyOk then old(remote)[key := value] else old(remote)
      ensures redisAvailable == (old(redisAvailable) && !(connected && !replyOk))
    {
      if !connected {
        return;
      }
      if !replyOk {
        redisAvailable := false;
        return;
      }
      remote := remote[key := value];
    }

    /** Deduplicator::is_url_seen */
    method IsUrlSeen(url: string, replyOk: bool) returns (seen: bool)
      requires Valid()
      modifies this`redisAvailable, this`urlDuplicates, this`redisHits, this`redisMisses
      ensures Valid()
      ensures var hit := old(redisAvailable) && replyOk && RemoteUrlKey(UrlHash(url)) in remote;
        && redisAvailable == (old(redisAvailable) && replyOk)
        && (seen <==> hit || (LocalActive() && UrlHash(url) in localUrls))
        && redisHits == old(redisHits) + (if hit then 1 else 0)
        && redisMisses == old(redisMisses) + (if old(redisAvailable) && !hit then 1 else 0)
      ensures urlDuplicates == old(urlDuplicates) + (if seen then 1 else 0)
    {
      var urlHash := UrlHash(url);
      if redisAvailable {
        var key := RemoteUrlKey(urlHash);
        var hit := CheckRemote(key, replyOk);
        if hit {
          redisHits := redisHits + 1;
          urlDuplicates := urlDuplicates + 1;
          return true;
        }
        redisMisses := redisMisses + 1;
      }
      if useLocalFallback || !redisAvailable {
        if urlHash in localUrls {
          urlDuplicates := urlDuplicates + 1;
          return true;
        }
      }
      return false;
    }

    /** Deduplicator::mark_url_seen */
    method MarkUrlSeen(url: string, replyOk: bool)
      requires Valid()
      modifies this`redisAvailable, this`remote, this`localUrls
      ensures Valid()
      ensures redisAvailable == (old(redisAvailable) && replyOk)
      ensures remote == if old(redisAvailable) && replyOk
        then old(remote)[RemoteUrlKey(UrlHash(url)) := "1"] else old(remote)
      ensures localUrls == if LocalActive() then old(localUrls) + {UrlHash(url)} else old(localUrls)
    {
      var urlHash := UrlHash(url);
      if redisAvailable {
        var key := RemoteUrlKey(urlHash);
        MarkRemote(key, "1", replyOk);
      }
      if useLocalFallback || !redisAvailable {
        localUrls := localUrls + {urlHash};
      }
    }

    /** Deduplicator::is_content_seen */
    method IsContentSeen(contentHash: string, replyOk: bool) returns (seen: bool)
      requires Valid()
      modifies this`redisAvailable, this`contentDuplicates, this`redisHits, this`redisMisses
      ensures Valid()
      ensures var hit := old(redisAvailable) && replyOk && RemoteContentKey(contentHash) in remote;
        && redisAvailable == (old(redisAvailable) && replyOk)
        && (seen <==> hit || (LocalActive() && LocalContentKey(contentHash) in localContent))
        && redisHits == old(redisHits) + (if hit then 1 else 0)
        && redisMisses == old(redisMisses) + (if old(redisAvailable) && !hit then 1 else 0)
      ensures contentDuplicates == old(contentDuplicates) + (if seen then 1 else 0)
    {
      var hash := LocalContentKey(contentHash);
      if redisAvailable {
        var key := RemoteContentKey(contentHash);
        var hit := CheckRemote(key, replyOk);
        if hit {
          redisHits := redisHits + 1;
          contentDuplicates := contentDuplicates + 1;
          return true;
        }
        redisMisses := redisMisses + 1;
      }
      if useLocalFallback || !redisAvailable {
        if hash in localContent {
          contentDuplicates := contentDuplicates + 1;
          return true;
        }
      }
      return false;
    }

    /** Deduplicator::mark_content_seen: the remote entry holds the document id */
    method MarkContentSeen(contentHash: string, docId: string, replyOk: bool)
      requires Valid()
      modifies this`redisAvailable, this`remote, this`localContent
      ensures Valid()
      ensures redisAvailable == (old(redisAvailable) && replyOk)
      ensures remote == if old(redisAvailable) && replyOk
        then old(remote)[RemoteContentKey(contentHash) := docId] else old(remote)
      ensures localContent == if LocalActive() then old(localContent) + {LocalContentKey(contentHash)} else old(localContent)
    {
      var hash := LocalContentKey(contentHash);
      if redisAvailable {
        var key := RemoteContentKey(contentHash);
        MarkRemote(key, docId, replyOk);
      }
      if useLocalFallback || !redisAvailable {
        localContent := localContent + {hash};
      }
    }
  }

  /** Local-only at-least-once: with the remote tier down, a marked URL is then seen,
      and so is any URL that differs from it only in its fragment */
  method LocalOnlyUrlSeen(d: Deduplicator, url: string, fragment: string, r1: bool, r2: bool) returns (seen: bool)
    requires d.Valid() && !d.redisAvailable && '#' !in url
    modifies d
    ensures seen
  {
    d.MarkUrlSeen(url, r1);
    UrlKeyIgnoresFragment(url, fragment);
    seen := d.IsUrlSeen(url + "#" + fragment, r2);
  }

  /** Local-only at-least-once for content */
  method LocalOnlyContentSeen(d: Deduplicator, contentHash: string, docId: string, r1: bool, r2: bool) returns (seen: bool)
    requires d.Valid() && !d.redisAvailable
    modifies d
    ensures seen
  {
    d.MarkContentSeen(contentHash, docId, r1);
    seen := d.IsContentSeen(contentHash, r2);
  }

  /** A remote outage loses marks: a URL marked on the remote tier, then checked when the
      server gives no reply, is reported unseen unless the local fallback is enabled, and
      the deduplicator has dropped to local-only mode */
  method RemoteOutageScenario(url: string, fallback: bool) returns (seen: bool, available: bool)
    ensures seen == fallback
    ensures !available
  {
    var d := new Deduplicator();
    var ok := d.InitRedis(true);
    d.EnableLocalFallback(fallback);
    d.MarkUrlSeen(url, true);
    seen := d.IsUrlSeen(url, false);
    available := d.redisAvailable;
  }

  /** With the remote tier up, a marked URL is found remotely and counted as a hit */
  method RemoteHitScenario(url: string) returns (seen: bool, hits: nat, duplicates: nat, misses: nat)
    ensures seen && hits == 1 && duplicates == 1 && misses == 0
  {
    var d := new Deduplicator();
    var ok := d.InitRedis(true);
    d.MarkUrlSeen(url, true);
    seen := d.IsUrlSeen(url, true);
    hits, duplicates, misses := d.redisHits, d.urlDuplicates, d.redisMisses;
  }
}
