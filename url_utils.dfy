// src/utils/url_utils.cpp: pure string functions over URLs. The two regular
// expressions of the source are written out as the matches they accept.

module UrlUtils {
  import opened Strings

  predicate NoSpace(s: string)
  {
    forall i :: 0 <= i < |s| ==> !IsSpace(s[i])
  }

  /** The position std::string::find('#') reports, with npos read as the end of the URL */
  function FragmentStart(url: string): (n: nat)
    ensures n <= |url|
    ensures n < |url| ==> url[n] == '#'
    ensures '#' !in url[..n]
  {
    if |url| == 0 || url[0] == '#' then 0
    else
      var n := 1 + FragmentStart(url[1..]);
      assert url[..n] == [url[0]] + url[1..][..n - 1];
      n
  }

  /** UrlUtils::canonicalize: the URL up to its first '#' */
  function Canonicalize(url: string): string
  {
    url[..FragmentStart(url)]
  }

  /** canonicalize returns the prefix before the first '#', or the whole URL when there
      is none; the result never holds a '#' */
  lemma CanonicalizeSpec(url: string)
    ensures '#' !in Canonicalize(url)
    ensures Canonicalize(url) <= url
    ensures Canonicalize(url) == url <==> '#' !in url
    ensures Canonicalize(url) != url ==> url[|Canonicalize(url)|] == '#'
  {
    if FragmentStart(url) == |url| {
      assert url[..|url|] == url;
    }
  }

  /** canonicalize is idempotent */
  lemma CanonicalizeIdempotent(url: string)
    ensures Canonicalize(Canonicalize(url)) == Canonicalize(url)
  {
    CanonicalizeSpec(url);
    CanonicalizeSpec(Canonicalize(url));
  }

  /** A fragment appended to a fragment-free URL is dropped, whatever it holds */
  lemma CanonicalizeDropsFragment(url: string, fragment: string)
    requires '#' !in url
    ensures Canonicalize(url + "#" + fragment) == url
  {
    var s := url + "#" + fragment;
    var n := FragmentStart(s);
    assert s[|url|] == '#';
    assert s[..|url|] == url;
  }

  /** The unit test of canonicalize */
  lemma CanonicalizeExample()
    ensures Canonicalize("https://example.com/page#fragment") == "https://example.com/page"
  {
    CanonicalizeDropsFragment("https://example.com/page", "fragment");
    assert "https://example.com/page" + "#" + "fragment" == "https://example.com/page#fragment";
  }

  /** The length of the text `https?://` matches at the start of s: 8, 7, or 0 for no match */
  function SchemeLength(s: string): (k: nat)
    ensures k == 0 || k == 7 || k == 8
    ensures k <= |s|
  {
    if StartsWith(s, "https://") then 8 else if StartsWith(s, "http://") then 7 else 0
  }

  /** The regex https?://([^/]+) matches at the start of s (a scheme, then one character that is not '/') */
  predicate MatchHere(s: string)
  {
    var k := SchemeLength(s);
    k > 0 && k < |s| && s[k] != '/'
  }

  /** The text the greedy group ([^/]+) takes: the longest prefix of s without '/' */
  function HostRun(s: string): (r: string)
    ensures r <= s && '/' !in r
    ensures |r| < |s| ==> s[|r|] == '/'
  {
    match IndexOf(s, '/')
    case None => s
    case Some(k) => s[..k]
  }

  /** UrlUtils::extract_domain: the first group of the leftmost match of https?://([^/]+), or "" */
  function ExtractDomain(url: string): (r: string)
    decreases |url|
    ensures '/' !in r
  {
    if |url| == 0 then ""
    else if MatchHere(url) then HostRun(url[SchemeLength(url)..])
    else ExtractDomain(url[1..])
  }

  /** A suffix of the tail is a suffix of the whole */
  lemma SuffixOfTail(url: string, i: nat)
    requires 1 <= i <= |url|
    ensures url[i..] == url[1..][i - 1..]
  {
  }

  /** A match at the start gives a non-empty host */
  lemma MatchGivesHost(url: string)
    requires MatchHere(url)
    ensures ExtractDomain(url) != ""
  {
    var k := SchemeLength(url);
    assert url[k..][0] == url[k];
  }

  /** extract_domain is empty exactly when no position of the URL starts a match */
  lemma {:induction false} ExtractDomainEmptyIff(url: string)
    decreases |url|
    ensures ExtractDomain(url) == "" <==> forall i :: 0 <= i < |url| ==> !MatchHere(url[i..])
  {
    if |url| == 0 {
    } else if MatchHere(url) {
      assert url[0..] == url;
      MatchGivesHost(url);
    } else {
      ExtractDomainEmptyIff(url[1..]);
      forall i | 1 <= i < |url|
        ensures url[i..] == url[1..][i - 1..]
      {
        SuffixOfTail(url, i);
      }
      assert url[0..] == url;
    }
  }

  /** The regex's leftmost match in url starts at i */
  predicate LeftmostMatchAt(url: string, i: nat)
  {
    && i < |url| && MatchHere(url[i..])
    && forall j :: 0 <= j < i ==> !MatchHere(url[j..])
  }

  /** Without a match at the start, the leftmost match of the tail at i' is the leftmost
      match of the URL at i' + 1 */
  lemma LeftmostShift(url: string, i': nat)
    requires |url| > 0 && !MatchHere(url) && LeftmostMatchAt(url[1..], i')
    ensures LeftmostMatchAt(url, i' + 1)
  {
    SuffixOfTail(url, i' + 1);
    forall j | 0 <= j < i' + 1
      ensures !MatchHere(url[j..])
    {
      if j > 0 {
        SuffixOfTail(url, j);
      } else {
        assert url[0..] == url;
      }
    }
  }

  /** The host after the match at i' of the tail is the host after the match at i' + 1 */
  lemma HostAfterShift(url: string, i': nat)
    requires i' < |url| - 1
    ensures HostRun(url[1..][i' + SchemeLength(url[1..][i'..])..])
      == HostRun(url[i' + 1 + SchemeLength(url[i' + 1..])..])
  {
    var tail := url[1..][i'..];
    SuffixOfTail(url, i' + 1);
    var k := SchemeLength(tail);
    assert url[i' + 1 + k..] == tail[k..];
    assert url[1..][i' + k..] == tail[k..];
  }

  /** A non-empty extract_domain is the host run after the scheme at the leftmost match */
  lemma {:induction false} ExtractDomainAtLeftmost(url: string) returns (i: nat)
    decreases |url|
    requires ExtractDomain(url) != ""
    ensures LeftmostMatchAt(url, i) && ExtractDomain(url) == HostRun(url[i + SchemeLength(url[i..])..])
  {
    if MatchHere(url) {
      assert url[0..] == url;
      i := 0;
    } else {
      var i' := ExtractDomainAtLeftmost(url[1..]);
      LeftmostStep(url, i');
      i := i' + 1;
    }
  }

  /** The inductive step: a leftmost match of the tail is one position further in the URL */
  lemma LeftmostStep(url: string, i': nat)
    requires |url| > 0 && !MatchHere(url) && LeftmostMatchAt(url[1..], i')
    requires ExtractDomain(url[1..]) == HostRun(url[1..][i' + SchemeLength(url[1..][i'..])..])
    ensures LeftmostMatchAt(url, i' + 1)
    ensures ExtractDomain(url) == HostRun(url[i' + 1 + SchemeLength(url[i' + 1..])..])
  {
    HostAfterShift(url, i');
    LeftmostShift(url, i');
  }

  /** extract_domain is empty exactly when no position matches, and otherwise is the
      host run after the scheme at the leftmost matching position, never empty */
  lemma ExtractDomainIsLeftmostMatch(url: string)
    ensures ExtractDomain(url) == "" <==> forall i :: 0 <= i < |url| ==> !MatchHere(url[i..])
    ensures ExtractDomain(url) != "" ==>
      exists i: nat ::
        LeftmostMatchAt(url, i) && ExtractDomain(url) == HostRun(url[i + SchemeLength(url[i..])..])
  {
    ExtractDomainEmptyIff(url);
    if ExtractDomain(url) != "" {
      var i := ExtractDomainAtLeftmost(url);
    }
  }

  /** The host run of a '/'-free text followed by nothing or by a '/' is that text */
  lemma HostRunStopsAtSlash(host: string, rest: string)
    requires '/' !in host
    requires rest == [] || rest[0] == '/'
    ensures HostRun(host + rest) == host
  {
    if rest == [] {
      assert host + rest == host;
    } else {
      FirstIndexAfterPrefix(host, '/', rest[1..]);
      assert host + rest == host + ['/'] + rest[1..];
      assert (host + rest)[..|host|] == host;
    }
  }

  /** A scheme followed by at least one character is matched with its own length */
  lemma SchemeLengthAfterScheme(scheme: string, tail: string)
    requires scheme == "https://" || scheme == "http://"
    requires |tail| > 0
    ensures SchemeLength(scheme + tail) == |scheme|
  {
    var url := scheme + tail;
    assert url[..|scheme|] == scheme;
    if scheme == "http://" {
      assert url[..8][4] == ':';
    }
  }

  /** extract_domain of a URL that starts with a match: the host run after its scheme */
  lemma ExtractDomainAtStart(url: string)
    requires MatchHere(url)
    ensures ExtractDomain(url) == HostRun(url[SchemeLength(url)..])
  {
  }

  /** A scheme followed by a character other than '/' is a match at the start */
  lemma MatchAfterScheme(scheme: string, tail: string)
    requires scheme == "https://" || scheme == "http://"
    requires |tail| > 0 && tail[0] != '/'
    ensures SchemeLength(scheme + tail) == |scheme|
    ensures MatchHere(scheme + tail)
    ensures (scheme + tail)[SchemeLength(scheme + tail)..] == tail
  {
    SchemeLengthAfterScheme(scheme, tail);
    assert (scheme + tail)[|scheme|] == tail[0];
  }

  /** A URL that starts with a scheme and a host has that host as its domain */
  lemma ExtractDomainOfOrigin(scheme: string, host: string, rest: string)
    requires scheme == "https://" || scheme == "http://"
    requires |host| > 0 && '/' !in host
    requires rest == [] || rest[0] == '/'
    ensures SchemeLength(scheme + host + rest) == |scheme|
    ensures MatchHere(scheme + host + rest)
    ensures ExtractDomain(scheme + host + rest) == host
  {
    var tail := host + rest;
    AppendAssoc(scheme, host, rest);
    assert tail[0] == host[0] && host[0] in host;
    MatchAfterScheme(scheme, tail);
    ExtractDomainAtStart(scheme + tail);
    HostRunStopsAtSlash(host, rest);
  }

  /** The unit test of extract_domain */
  lemma ExtractDomainExample()
    ensures ExtractDomain("https://example.com/page") == "example.com"
  {
    assert '/' !in "example.com";
    ExtractDomainOfOrigin("https://", "example.com", "/page");
    assert "https://" + "example.com" + "/page" == "https://example.com/page";
  }

  /** UrlUtils::normalize: lower-case, then drop one trailing '/' unless the URL is that one character */
  function Normalize(url: string): (r: string)
  {
    var lower := Lower(url);
    if |lower| > 1 && lower[|lower| - 1] == '/' then lower[..|lower| - 1] else lower
  }

  /** normalize keeps every character but the dropped slash, lower-cased, and leaves no upper-case letter */
  lemma NormalizeSpec(url: string)
    ensures var drop := |url| > 1 && url[|url| - 1] == '/';
      |Normalize(url)| == (if drop then |url| - 1 else |url|)
    ensures forall i :: 0 <= i < |Normalize(url)| ==> Normalize(url)[i] == ToLower(url[i])
    ensures forall i :: 0 <= i < |Normalize(url)| ==> !IsUpper(Normalize(url)[i])
  {
  }

  /** The unit test of normalize */
  lemma NormalizeExample()
    ensures Normalize("HTTPS://EXAMPLE.COM/PAGE/") == "https://example.com/page"
  {
    var r := Normalize("HTTPS://EXAMPLE.COM/PAGE/");
    NormalizeSpec("HTTPS://EXAMPLE.COM/PAGE/");
    assert |r| == 24;
    forall i | 0 <= i < 24
      ensures r[i] == "https://example.com/page"[i]
    {
    }
  }

  /** UrlUtils::is_valid: the whole string matches https?://[^\s]+ */
  predicate IsValid(url: string)
  {
    || (StartsWith(url, "http://") && |url| > 7 && NoSpace(url[7..]))
    || (StartsWith(url, "https://") && |url| > 8 && NoSpace(url[8..]))
  }

  lemma NoSpaceConcat(a: string, b: string)
    ensures NoSpace(a + b) <==> NoSpace(a) && NoSpace(b)
  {
    if NoSpace(a + b) {
      assert forall i :: 0 <= i < |a| ==> a[i] == (a + b)[i];
      assert forall i :: 0 <= i < |b| ==> b[i] == (a + b)[|a| + i];
    }
  }

  /** is_valid holds iff the URL starts with a scheme, something follows it, and no character is whitespace */
  lemma IsValidIff(url: string)
    ensures IsValid(url) <==>
      SchemeLength(url) > 0 && |url| > SchemeLength(url) && NoSpace(url)
  {
    var k := SchemeLength(url);
    if k > 0 {
      assert url == url[..k] + url[k..];
      NoSpaceConcat(url[..k], url[k..]);
      if k == 8 {
        assert url[..8] == "https://";
        assert NoSpace(url[..8]);
        assert url[..7] == "https:/";
      } else {
        assert url[..7] == "http://";
        assert NoSpace(url[..7]);
      }
    }
  }

  /** The unit tests of is_valid */
  lemma IsValidExamples()
    ensures IsValid("https://example.com")
    ensures !IsValid("not a url")
  {
    var u := "https://example.com";
    assert u[..8] == "https://";
    assert forall i :: 0 <= i < |u[8..]| ==> !IsSpace(u[8..][i]);
    var v := "not a url";
    assert v[..7][0] == 'n' && v[..8][0] == 'n';
  }

  /** UrlUtils::resolve as written */
  function Resolve(base: string, rel: string): (r: string)
    ensures EndsWith(r, rel)
  {
    if |rel| == 0 then base
    else if StartsWith(rel, "http://") || StartsWith(rel, "https://") then rel
    else if rel[0] == '/' then ExtractDomain(base) + rel
    else match LastIndexOf(base, '/')
      case Some(k) => base[..k + 1] + rel
      case None => base + "/" + rel
  }

  /** What resolve returns, case by case: the base for an empty reference, an absolute
      reference unchanged, and otherwise the reference appended to the base's directory
      (the base up to and including its last '/', or the base and a '/') */
  lemma ResolveSpec(base: string, rel: string)
    ensures rel == "" ==> Resolve(base, rel) == base
    ensures rel != "" && (StartsWith(rel, "http://") || StartsWith(rel, "https://")) ==> Resolve(base, rel) == rel
    ensures rel != "" && !StartsWith(rel, "http://") && !StartsWith(rel, "https://") && rel[0] != '/' ==>
      exists dir :: Resolve(base, rel) == dir + rel && |dir| > 0 && dir[|dir| - 1] == '/'
        && (if '/' in base then dir <= base && '/' !in base[|dir|..] else dir == base + "/")
  {
    if rel != "" && !StartsWith(rel, "http://") && !StartsWith(rel, "https://") && rel[0] != '/' {
      var dir := ResolveDirectory(base, rel);
    }
  }

  /** The directory a path-relative reference is appended to */
  lemma ResolveDirectory(base: string, rel: string) returns (dir: string)
    requires rel != "" && !StartsWith(rel, "http://") && !StartsWith(rel, "https://") && rel[0] != '/'
    ensures Resolve(base, rel) == dir + rel && |dir| > 0 && dir[|dir| - 1] == '/'
    ensures if '/' in base then dir <= base && '/' !in base[|dir|..] else dir == base + "/"
  {
    match LastIndexOf(base, '/')
    case Some(k) =>
      dir := base[..k + 1];
      assert dir[k] == '/';
      assert base[|dir|..] == base[k + 1..];
    case None =>
      dir := base + "/";
  }

  /** A valid URL has a ':' at index 4 or 5 with no '/' before it */
  lemma ValidSchemeColon(url: string) returns (p: nat)
    requires IsValid(url)
    ensures 4 <= p <= 5 && p < |url| && url[p] == ':'
    ensures forall i :: 0 <= i <= p ==> url[i] != '/'
  {
    if StartsWith(url, "https://") {
      p := 5;
      assert forall i :: 0 <= i <= 5 ==> url[i] == url[..8][i];
    } else {
      p := 4;
      assert forall i :: 0 <= i <= 4 ==> url[i] == url[..7][i];
    }
  }

  /** A valid URL that is some text followed by a '/'-led reference has a ':' in that text */
  lemma ColonBeforeSlash(d: string, rel: string)
    requires |rel| > 0 && rel[0] == '/'
    requires IsValid(d + rel)
    ensures ':' in d
  {
    var r := d + rel;
    var p := ValidSchemeColon(r);
    assert r[|d|] == '/';
    assert |d| > p;
    assert d[p] == r[p];
  }

  /** A root-relative reference resolves to a text starting with the base's host */
  lemma ResolveRootRelative(base: string, rel: string)
    requires |rel| > 0 && rel[0] == '/'
    ensures Resolve(base, rel) == ExtractDomain(base) + rel
  {
    assert !StartsWith(rel, "http://") && !StartsWith(rel, "https://");
  }

  /** A root-relative reference is resolved to the host and path with no scheme, which is
      never a valid URL when the host holds no ':' */
  lemma ResolveRootRelativeIsInvalid(base: string, rel: string)
    requires |rel| > 0 && rel[0] == '/'
    ensures ':' !in ExtractDomain(base) ==> !IsValid(Resolve(base, rel))
  {
    ResolveRootRelative(base, rel);
    if IsValid(Resolve(base, rel)) {
      ColonBeforeSlash(ExtractDomain(base), rel);
    }
  }

  /** The example: a link "/b" on page https://example.com/a resolves to "example.com/b" */
  lemma ResolveRootRelativeExample()
    ensures Resolve("https://example.com/a", "/b") == "example.com/b"
    ensures !IsValid("example.com/b")
  {
    ExampleBaseDomain();
    ResolveRootRelative("https://example.com/a", "/b");
    assert "example.com" + "/b" == "example.com/b";
    ExampleResolvedIsInvalid();
  }

  lemma ExampleBaseDomain()
    ensures ExtractDomain("https://example.com/a") == "example.com"
  {
    assert '/' !in "example.com";
    ExtractDomainOfOrigin("https://", "example.com", "/a");
    assert "https://" + "example.com" + "/a" == "https://example.com/a";
  }

  lemma ExampleResolvedIsInvalid()
    ensures !IsValid("example.com/b")
  {
    assert "example.com/b"[..7][0] == 'e' && "example.com/b"[..8][0] == 'e';
  }

  /** The scheme and host of a base URL that starts with a match of https?://([^/]+) */
  function Origin(base: string): (r: string)
    requires MatchHere(base)
  {
    base[..SchemeLength(base)] + ExtractDomain(base)
  }

  /** resolve with a root-relative reference resolved against the base's scheme and host */
  function ResolveKeepingScheme(base: string, rel: string): (r: string)
    ensures EndsWith(r, rel)
  {
    if |rel| > 0 && rel[0] == '/' && !StartsWith(rel, "http://") && !StartsWith(rel, "https://")
       && MatchHere(base)
    then Origin(base) + rel
    else Resolve(base, rel)
  }

  /** The corrected resolution of a root-relative reference is a valid URL on the base's host */
  lemma ResolveKeepingSchemeIsValid(base: string, rel: string)
    requires IsValid(base) && MatchHere(base)
    requires |rel| > 0 && rel[0] == '/' && NoSpace(rel)
    ensures IsValid(ResolveKeepingScheme(base, rel))
    ensures ExtractDomain(ResolveKeepingScheme(base, rel)) == ExtractDomain(base)
  {
    OriginParts(base);
    var k := SchemeLength(base);
    var scheme := base[..k];
    var host := ExtractDomain(base);
    assert !StartsWith(rel, "http://") && !StartsWith(rel, "https://");
    var r := ResolveKeepingScheme(base, rel);
    assert r == scheme + host + rel;
    ExtractDomainOfOrigin(scheme, host, rel);
    NoSpaceConcat(scheme + host, rel);
    IsValidIff(r);
  }

  /** A valid base that starts with a match splits into its scheme, a non-empty '/'-free
      host without whitespace, and the rest */
  lemma OriginParts(base: string)
    requires IsValid(base) && MatchHere(base)
    ensures var k := SchemeLength(base);
      && (base[..k] == "https://" || base[..k] == "http://")
      && |ExtractDomain(base)| > 0 && '/' !in ExtractDomain(base)
      && NoSpace(base[..k] + ExtractDomain(base))
  {
    var k := SchemeLength(base);
    var scheme := base[..k];
    var host := ExtractDomain(base);
    assert host == HostRun(base[k..]);
    assert |host| > 0 && host <= base[k..];
    IsValidIff(base);
    assert base == scheme + base[k..];
    NoSpaceConcat(scheme, base[k..]);
    assert base[k..] == host + base[k + |host|..];
    NoSpaceConcat(host, base[k + |host|..]);
    NoSpaceConcat(scheme, host);
  }
}
