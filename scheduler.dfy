// src/scheduler/scheduler.cpp: the crawl frontier. The steady clock is the
// parameter `now` (milliseconds); the priority queue is a multiset whose top
// is any task of maximal priority, since std::priority_queue leaves the order
// of equal priorities unspecified.

module Scheduling {
  import opened Strings
  import opened UrlUtils

  /** CrawlTask; next_retry_time is a steady-clock instant in milliseconds */
  datatype CrawlTask = CrawlTask(url: string, priority: int, retryCount: int, nextRetryTime: int)

  /** The cool-down update_domain_backoff puts on a domain: std::chrono::seconds(1) */
  const DomainCooldownMs: int := 1000

  /** t is a task of maximal priority in q: one std::priority_queue::top may return,
      since CrawlTask::operator< compares priorities only */
  predicate IsTop(t: CrawlTask, q: multiset<CrawlTask>)
  {
    t in q && forall u :: u in q ==> u.priority <= t.priority
  }

  /** Every non-empty queue has a top */
  lemma {:induction false} TopExists(q: multiset<CrawlTask>)
    decreases |q|
    requires |q| > 0
    ensures exists t :: IsTop(t, q)
  {
    var x :| x in q;
    var rest := q - multiset{x};
    assert q == rest + multiset{x};
    if |rest| == 0 {
      assert rest == multiset{};
      assert IsTop(x, q);
    } else {
      TopExists(rest);
      var t :| IsTop(t, rest);
      assert forall u :: u in q ==> u == x || u in rest;
      if x.priority > t.priority {
        assert IsTop(x, q);
      } else {
        assert IsTop(t, q);
      }
    }
  }

  /** The task add_url queues for a URL: retry count 0, due now */
  function NewTask(url: string, priority: int, now: int): (t: CrawlTask)
    ensures t.retryCount == 0 && t.nextRetryTime == now
  {
    CrawlTask(Canonicalize(url), priority, 0, now)
  }

  /** add_url takes the URL iff its canonical form is valid */
  predicate Accepts(url: string)
  {
    IsValid(Canonicalize(url))
  }

  /** The number of URLs add_seed_urls adds: those before the first rejected one */
  function AcceptedPrefixLength(urls: seq<string>): (n: nat)
    ensures n <= |urls|
  {
    if |urls| == 0 || !Accepts(urls[0]) then 0 else 1 + AcceptedPrefixLength(urls[1..])
  }

  /** The accepted prefix is every URL before the first rejected one */
  lemma {:induction false} AcceptedPrefixSpec(urls: seq<string>)
    decreases |urls|
    ensures forall i :: 0 <= i < AcceptedPrefixLength(urls) ==> Accepts(urls[i])
    ensures AcceptedPrefixLength(urls) < |urls| ==> !Accepts(urls[AcceptedPrefixLength(urls)])
    ensures AcceptedPrefixLength(urls) == |urls| <==> forall i :: 0 <= i < |urls| ==> Accepts(urls[i])
  {
    if |urls| > 0 && Accepts(urls[0]) {
      AcceptedPrefixSpec(urls[1..]);
      forall i | 1 <= i < AcceptedPrefixLength(urls)
        ensures Accepts(urls[i])
      {
        assert urls[i] == urls[1..][i - 1];
      }
    }
  }

  /** One step of add_seed_urls: an accepted URL extends the accepted prefix, a rejected one ends it */
  lemma AcceptedPrefixStep(urls: seq<string>, i: nat)
    requires i < |urls|
    ensures Accepts(urls[i]) ==> AcceptedPrefixLength(urls[i..]) == 1 + AcceptedPrefixLength(urls[i + 1..])
    ensures !Accepts(urls[i]) ==> AcceptedPrefixLength(urls[i..]) == 0
  {
    assert urls[i..][0] == urls[i];
    assert urls[i..][1..] == urls[i + 1..];
  }

  /** The tasks seed URLs become: each canonical URL at the default priority 0 */
  function SeedTasks(urls: seq<string>, now: int): (ts: multiset<CrawlTask>)
    ensures |ts| == |urls|
  {
    if |urls| == 0 then multiset{}
    else SeedTasks(urls[..|urls| - 1], now) + multiset{NewTask(urls[|urls| - 1], 0, now)}
  }

  /** Seed tasks are fresh: priority 0, no retry, due at once */
  lemma {:induction false} SeedTasksAreFresh(urls: seq<string>, now: int)
    decreases |urls|
    ensures forall t :: t in SeedTasks(urls, now) ==> t.priority == 0 && t.retryCount == 0 && t.nextRetryTime == now
  {
    if |urls| > 0 {
      SeedTasksAreFresh(urls[..|urls| - 1], now);
    }
  }

  lemma SeedTasksSnoc(urls: seq<string>, i: nat, now: int)
    requires i < |urls|
    ensures SeedTasks(urls[..i + 1], now) == SeedTasks(urls[..i], now) + multiset{NewTask(urls[i], 0, now)}
  {
    assert urls[..i + 1][..i] == urls[..i];
  }

  /** The invariant of the add_seed_urls loop after the first i URLs, all accepted: their
      tasks are queued and counted, and the accepted prefix runs at least to i */
  ghost predicate SeedLoop(urls: seq<string>, now: int, i: nat, q0: multiset<CrawlTask>, q: multiset<CrawlTask>,
                           n0: nat, n: nat)
  {
    && i <= |urls|
    && AcceptedPrefixLength(urls) == i + AcceptedPrefixLength(urls[i..])
    && q == q0 + SeedTasks(urls[..i], now)
    && n == n0 + i
  }

  /** Adding an accepted URL keeps the loop invariant */
  lemma SeedLoopStep(urls: seq<string>, now: int, i: nat, q0: multiset<CrawlTask>, n0: nat)
    requires i < |urls| && Accepts(urls[i])
    requires AcceptedPrefixLength(urls) == i + AcceptedPrefixLength(urls[i..])
    ensures SeedLoop(urls, now, i + 1, q0, q0 + SeedTasks(urls[..i], now) + multiset{NewTask(urls[i], 0, now)},
                     n0, n0 + i + 1)
  {
    AcceptedPrefixStep(urls, i);
    SeedTasksSnoc(urls, i, now);
  }

  /** A rejected URL ends the accepted prefix */
  lemma SeedLoopStop(urls: seq<string>, now: int, i: nat, q0: multiset<CrawlTask>, q: multiset<CrawlTask>,
                     n0: nat, n: nat)
    requires SeedLoop(urls, now, i, q0, q, n0, n) && i < |urls| && !Accepts(urls[i])
    ensures AcceptedPrefixLength(urls) == i < |urls|
    ensures q == q0 + SeedTasks(urls[..AcceptedPrefixLength(urls)], now)
    ensures n == n0 + AcceptedPrefixLength(urls)
  {
    AcceptedPrefixStep(urls, i);
  }

  /** With every URL accepted, all of them are queued */
  lemma SeedLoopDone(urls: seq<string>, now: int, q0: multiset<CrawlTask>, q: multiset<CrawlTask>, n0: nat, n: nat)
    requires SeedLoop(urls, now, |urls|, q0, q, n0, n)
    ensures AcceptedPrefixLength(urls) == |urls|
    ensures q == q0 + SeedTasks(urls[..AcceptedPrefixLength(urls)], now)
    ensures n == n0 + AcceptedPrefixLength(urls)
  {
    assert urls[|urls|..] == [];
  }

  /** Scheduler::can_fetch_domain over the back-off map: no entry, or the entry has passed */
  predicate CanFetchDomain(backoff: map<string, int>, domain: string, now: int)
  {
    domain !in backoff || now >= backoff[domain]
  }

  /** After a cool-down is put on domain d at `start`, d may be fetched again exactly
      from start + 1 s on, and every other domain is as before */
  lemma CooldownWindow(backoff: map<string, int>, d: string, start: int, e: string, now: int)
    ensures CanFetchDomain(backoff[d := start + DomainCooldownMs], e, now)
      <==> if e == d then now >= start + DomainCooldownMs else CanFetchDomain(backoff, e, now)
  {
  }

  class Scheduler {
    var queue: multiset<CrawlTask>
    var domainBackoff: map<string, int>
    var totalScheduled: nat
    var totalCompleted: nat
    var totalFailed: nat
    var running: bool
    const retryBackoffMs: int

    /** Scheduler::Scheduler with the retry back-off read from the configuration */
    constructor(retryBackoffMs: int)
      ensures queue == multiset{} && domainBackoff == map[]
      ensures totalScheduled == 0 && totalCompleted == 0 && totalFailed == 0
      ensures !running && this.retryBackoffMs == retryBackoffMs
    {
      queue := multiset{};
      domainBackoff := map[];
      totalScheduled := 0;
      totalCompleted := 0;
      totalFailed := 0;
      running := false;
      this.retryBackoffMs := retryBackoffMs;
    }

    /** Scheduler::add_url */
    method AddUrl(url: string, priority: int, now: int) returns (added: bool)
      modifies this`queue, this`totalScheduled
      ensures added <==> Accepts(url)
      ensures added ==> queue == old(queue) + multiset{NewTask(url, priority, now)}
      ensures added ==> totalScheduled == old(totalScheduled) + 1
      ensures !added ==> queue == old(queue) && totalScheduled == old(totalScheduled)
      ensures QueueSize() == old(QueueSize()) + (if added then 1 else 0)
    {
      var normalized := Canonicalize(url);
      if !IsValid(normalized) {
        return false;
      }
      var task := CrawlTask(normalized, priority, 0, now);
      queue := queue + multiset{task};
      totalScheduled := totalScheduled + 1;
      return true;
    }

    /** Scheduler::add_seed_urls: adds in order and stops at the first rejected URL */
    method AddSeedUrls(urls: seq<string>, now: int) returns (ok: bool)
      modifies this`queue, this`totalScheduled
      ensures ok <==> AcceptedPrefixLength(urls) == |urls|
      ensures queue == old(queue) + SeedTasks(urls[..AcceptedPrefixLength(urls)], now)
      ensures totalScheduled == old(totalScheduled) + AcceptedPrefixLength(urls)
      ensures QueueSize() == old(QueueSize()) + AcceptedPrefixLength(urls)
    {
      for i := 0 to |urls|
        invariant SeedLoop(urls, now, i, old(queue), queue, old(totalScheduled), totalScheduled)
      {
        var added := AddUrl(urls[i], 0, now);
        if !added {
          SeedLoopStop(urls, now, i, old(queue), queue, old(totalScheduled), totalScheduled);
          return false;
        }
        SeedLoopStep(urls, now, i, old(queue), old(totalScheduled));
      }
      SeedLoopDone(urls, now, old(queue), queue, old(totalScheduled), totalScheduled);
      return true;
    }

    /** Scheduler::get_next_task on its non-blocking paths (a queued task, or a stopped
        scheduler). `current` is the caller's task, left as it is on an empty queue. */
    method GetNextTask(now: int, current: CrawlTask) returns (found: bool, task: CrawlTask)
      requires |queue| > 0 || !running
      modifies this`queue
      ensures |old(queue)| == 0 ==> !found && task == current && queue == old(queue)
      ensures |old(queue)| > 0 ==> IsTop(task, old(queue))
      ensures |old(queue)| > 0 ==>
        (found <==> now >= task.nextRetryTime && CanFetchDomain(domainBackoff, ExtractDomain(task.url), now))
      ensures found ==> queue == old(queue) - multiset{task}
      ensures !found ==> queue == old(queue)
      ensures QueueSize() == old(QueueSize()) - (if found then 1 else 0)
    {
      if |queue| == 0 {
        return false, current;
      }
      TopExists(queue);
      task :| task in queue && IsTop(task, queue);
      queue := queue - multiset{task};
      if now < task.nextRetryTime {
        queue := queue + multiset{task};
        return false, task;
      }
      var domain := ExtractDomain(task.url);
      if !CanFetchDomain(domainBackoff, domain, now) {
        queue := queue + multiset{task};
        return false, task;
      }
      return true, task;
    }

    /** Scheduler::mark_completed (the optional callback is not modelled) */
    method MarkCompleted(url: string)
      modifies this`totalCompleted
      ensures totalCompleted == old(totalCompleted) + 1
    {
      totalCompleted := totalCompleted + 1;
    }

    /** Scheduler::mark_failed */
    method MarkFailed(url: string, willRetry: bool, now: int)
      modifies this`queue, this`totalFailed, this`domainBackoff
      ensures !willRetry ==> totalFailed == old(totalFailed) + 1
      ensures !willRetry ==> queue == old(queue) && domainBackoff == old(domainBackoff)
      ensures willRetry ==> totalFailed == old(totalFailed)
      ensures willRetry ==> queue == old(queue) + multiset{CrawlTask(url, 0, 1, now + retryBackoffMs)}
      ensures willRetry ==> domainBackoff == old(domainBackoff)[ExtractDomain(url) := now + DomainCooldownMs]
      ensures QueueSize() == old(QueueSize()) + (if willRetry then 1 else 0)
    {
      if !willRetry {
        totalFailed := totalFailed + 1;
        return;
      }
      var task := CrawlTask(url, 0, 1, now + retryBackoffMs);
      queue := queue + multiset{task};
      UpdateDomainBackoff(ExtractDomain(url), now);
    }

    /** Scheduler::update_domain_backoff */
    method UpdateDomainBackoff(domain: string, now: int)
      modifies this`domainBackoff
      ensures domainBackoff == old(domainBackoff)[domain := now + DomainCooldownMs]
    {
      domainBackoff := domainBackoff[domain := now + DomainCooldownMs];
    }

    /** Scheduler::queue_size */
    function QueueSize(): (n: nat)
      reads this`queue
      ensures n == 0 <==> queue == multiset{}
      ensures forall t :: t in queue ==> queue[t] <= n
    {
      |queue|
    }

    /** Scheduler::start, without the worker threads */
    method Start()
      modifies this`running
      ensures running
    {
      running := true;
    }

    /** Scheduler::stop, without joining the worker threads */
    method Stop()
      modifies this`running
      ensures !running
    {
      running := false;
    }
  }

  /** Handing out a due task on an uncooled domain whose priority beats the rest of the queue */
  method PopHighest(s: Scheduler, t: CrawlTask, rest: multiset<CrawlTask>, now: int) returns (task: CrawlTask)
    requires s.queue == rest + multiset{t}
    requires forall u :: u in rest ==> u.priority < t.priority
    requires t.nextRetryTime <= now && s.domainBackoff == map[]
    modifies s`queue
    ensures task == t && s.queue == rest
  {
    var found;
    found, task := s.GetNextTask(now, t);
    assert task in rest + multiset{t};
  }

  /** A fresh scheduler with the four URLs of PriorityOrderScenario queued */
  method QueueFour(u1: string, u2: string, u3: string, u4: string, now: int) returns (s: Scheduler)
    requires Accepts(u1) && Accepts(u2) && Accepts(u3) && Accepts(u4)
    ensures fresh(s) && s.domainBackoff == map[]
    ensures s.queue == multiset{NewTask(u1, 1, now), NewTask(u3, 5, now), NewTask(u4, 3, now)}
                       + multiset{NewTask(u2, 9, now)}
  {
    s := new Scheduler(1000);
    var a1 := s.AddUrl(u1, 1, now);
    var a2 := s.AddUrl(u2, 9, now);
    var a3 := s.AddUrl(u3, 5, now);
    var a4 := s.AddUrl(u4, 3, now);
  }

  /** Tasks come out highest priority first: four accepted URLs queued with priorities
      1, 9, 5, 3 are handed out in the order 9, 5, 3, 1, and the queue is then empty */
  method PriorityOrderScenario(u1: string, u2: string, u3: string, u4: string, now: int)
    returns (order: seq<int>, left: nat)
    requires Accepts(u1) && Accepts(u2) && Accepts(u3) && Accepts(u4)
    ensures order == [9, 5, 3, 1]
    ensures left == 0
  {
    var t1, t2, t3, t4 := NewTask(u1, 1, now), NewTask(u2, 9, now), NewTask(u3, 5, now), NewTask(u4, 3, now);
    var s := QueueFour(u1, u2, u3, u4, now);
    var first := PopHighest(s, t2, multiset{t1, t3, t4}, now);
    assert s.queue == multiset{t1, t4} + multiset{t3};
    var second := PopHighest(s, t3, multiset{t1, t4}, now);
    assert s.queue == multiset{t1} + multiset{t4};
    var third := PopHighest(s, t4, multiset{t1}, now);
    var fourth := PopHighest(s, t1, multiset{}, now);
    order := [first.priority, second.priority, third.priority, fourth.priority];
    assert s.queue == multiset{};
    left := s.QueueSize();
  }

  /** A failed URL marked for retry is not handed out before its back-off has passed,
      and is handed out once it has: the task is held back at `now` and returned at
      now + 1000 with retry count 1 */
  method RetryScenario(url: string, now: int) returns (early: bool, late: bool, retried: CrawlTask)
    ensures !early && late
    ensures retried == CrawlTask(url, 0, 1, now + 1000)
  {
    var s := new Scheduler(1000);
    s.MarkFailed(url, true, now);
    var t := CrawlTask(url, 0, 1, now + 1000);
    assert s.queue == multiset{t};
    var task;
    early, task := s.GetNextTask(now, t);
    late, retried := s.GetNextTask(now + 1000, task);
  }
}
