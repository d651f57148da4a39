/** What the retry_after of a denied check is worth. */
module SlidingWindowRetry {
  import opened Wrappers
  import opened SlidingWindow
  import opened SlidingWindowRuns
  import opened SlidingWindowPromises

  lemma {:induction false} WithinFirst(q: seq<real>, lo: real, hi: real)
    requires Within(q, lo, hi) != []
    ensures lo < Within(q, lo, hi)[0] <= hi
  {
    if Within(q[..|q| - 1], lo, hi) != [] {
      WithinFirst(q[..|q| - 1], lo, hi);
    }
  }

  /** A denied check has a full window. */
  lemma DeniedIsFull(c: Config, reqs: seq<Request>, r: Request, live: seq<real>)
    requires c.Valid() && OrderedUpTo(reqs, r.now)
    requires live == Live(c, reqs, r.key, r.now) && !Next(c, reqs, r).decision.allowed
    ensures |live| == c.maxRequests
    ensures Next(c, reqs, r).decision.retryAfter == RetryAfter(live[0] + c.Window() - r.now)
    ensures r.now - c.Window() < live[0] <= r.now
  {
    hide Check, Run;
    NextDecision(c, reqs, r);
    WithinFirst(Remembered(Run(c, reqs).journal, r.key), r.now - c.Window(), r.now);
  }

  lemma RetryAfterBounds(w: real, n: int, window: int)
    requires n == RetryAfter(w) && 0.0 < w <= window as real && window >= 1
    ensures 1 <= n <= window
    ensures w < n as real + 1.0
    ensures n as real <= w || w < 1.0
    ensures w <= n as real <==> w <= 1.0 || w == w.Floor as real
  {
  }

  /** Main result: retry_after lies in [1, W] and is the true wait w to within
      one second. */
  lemma RetryAfterIsTight(c: Config, reqs: seq<Request>, r: Request, w: real, n: int)
    requires c.Valid() && OrderedUpTo(reqs, r.now)
    requires !Next(c, reqs, r).decision.allowed && n == Next(c, reqs, r).decision.retryAfter
    requires Live(c, reqs, r.key, r.now) != [] && w == Live(c, reqs, r.key, r.now)[0] + c.windowSeconds as real - r.now
    ensures 0.0 < w <= c.windowSeconds as real && 1 <= n <= c.windowSeconds
    ensures w < n as real + 1.0
    ensures n as real <= w || w < 1.0
  {
    hide Check, Run, Within;
    DeniedIsFull(c, reqs, r, Live(c, reqs, r.key, r.now));
    RetryAfterBounds(w, n, c.windowSeconds);
  }

  // ----- the horizon -----

  lemma {:induction false} WithinTwice(q: seq<real>, lo: real, hi: real, lo': real, hi': real)
    requires AtMost(q, hi) && lo <= lo' && hi <= hi'
    ensures Within(Within(q, lo, hi), lo', hi') == Within(q, lo', hi')
  {
    if q != [] {
      WithinTwice(q[..|q| - 1], lo, hi, lo', hi');
      WithinSnoc(Within(q[..|q| - 1], lo, hi), q[|q| - 1], lo', hi');
    }
  }

  /** The same events looked at later: all of them until the first one leaves
      the window, fewer from then on. */
  lemma LookLater(live: seq<real>, cutoff: real, now: real)
    requires Sorted(live) && live != [] && live[|live| - 1] <= now
    ensures cutoff < live[0] ==> Within(live, cutoff, now) == live
    ensures live[0] <= cutoff ==> |Within(live, cutoff, now)| < |live|
  {
    if cutoff < live[0] {
      WithinAll(live, cutoff, now);
    } else {
      assert live == [live[0]] + live[1..];
      WithinConcat([live[0]], live[1..], cutoff, now);
      WithinNone([live[0]], cutoff, now);
      WithinShrinks(live[1..], cutoff, cutoff, now, now);
    }
  }

  lemma LiveIsSorted(c: Config, reqs: seq<Request>, k: Key, now: real)
    requires c.Valid() && OrderedUpTo(reqs, now)
    ensures Sorted(Live(c, reqs, k, now)) && AtMost(Live(c, reqs, k, now), now)
  {
    var h, cutoff := Run(c, reqs), now - c.Window();
    hide Check, Run, Remembered, Covers;
    RunKeepsInvariant(c, reqs, now);
    LiveQueue(c, h, now, k);
    QueuesPrune(c, h.table, now, cutoff);
    QueueBounds(c, Prune(h.table, cutoff), now, k);
    SortedDrop(Queue(Prune(h.table, cutoff), k), cutoff);
    AtMostDrop(Queue(Prune(h.table, cutoff), k), cutoff, now);
  }

  lemma RunNoLater(c: Config, reqs: seq<Request>, now: real)
    requires c.Valid() && OrderedUpTo(reqs, now)
    ensures NoLater(Run(c, reqs).journal, now)
  {
    hide Check, Run;
    RunKeepsInvariant(c, reqs, now);
  }

  /** A window of remembered events, looked at later. */
  lemma WindowLater(q: seq<real>, window: real, now: real, later: real, live: seq<real>)
    requires AtMost(q, now) && now <= later
    requires live == Within(q, now - window, now) && live != [] && Sorted(live) && AtMost(live, now)
    ensures later < live[0] + window ==> Within(q, later - window, later) == live
    ensures live[0] + window <= later ==> |Within(q, later - window, later)| < |live|
  {
    hide Within, Sorted;
    WithinTwice(q, now - window, now, later - window, later);
    LookLater(live, later - window, later);
  }

  /** What a run remembered of a key at `now`, looked at from `later`. */
  lemma LiveLater(c: Config, reqs: seq<Request>, k: Key, now: real, later: real, live: seq<real>)
    requires c.Valid() && OrderedUpTo(reqs, now) && now <= later
    requires live == Live(c, reqs, k, now) && live != []
    ensures later < live[0] + c.Window() ==> Live(c, reqs, k, later) == live
    ensures live[0] + c.Window() <= later ==> |Live(c, reqs, k, later)| < |live|
  {
    hide Check, Run, Within, Remembered, Sorted, AtMost, NoLater, Ordered, UpTo;
    RunNoLater(c, reqs, now);
    TimesAtMost(Run(c, reqs).journal, k, now);
    LiveIsSorted(c, reqs, k, now);
    WindowLater(Remembered(Run(c, reqs).journal, k), c.Window(), now, later, live);
  }

  /** How often a run has evicted a key. */
  function Evictions(c: Config, reqs: seq<Request>, k: Key): nat
    requires c.Valid()
  {
    |EvictionTimes(Run(c, reqs).journal, k)|
  }

  lemma EvictionsOfNext(c: Config, reqs: seq<Request>, x: Request, k: Key)
    requires c.Valid()
    ensures Evictions(c, reqs + [x], k) == Evictions(c, reqs, k) + (if Next(c, reqs, x).victim == Some(k) then 1 else 0)
    ensures Remembered(Run(c, reqs + [x]).journal, k) ==
            if Next(c, reqs, x).victim == Some(k)
            then (if x.key == k && Next(c, reqs, x).decision.allowed then [x.now] else [])
            else if x.key == k && Next(c, reqs, x).decision.allowed then Remembered(Run(c, reqs).journal, k) + [x.now]
            else Remembered(Run(c, reqs).journal, k)
  {
    var h, o := Run(c, reqs), Next(c, reqs, x);
    hide Check, Record, Remembered, EvictionTimes;
    NextOfRun(c, reqs, x);
    RecordViews(h.journal, o, x, k, if o.victim == Some(k) then [] else Remembered(h.journal, k));
  }

  lemma {:induction false} EvictionsGrow(c: Config, reqs: seq<Request>, later: seq<Request>, k: Key)
    requires c.Valid()
    ensures Evictions(c, reqs, k) <= Evictions(c, reqs + later, k)
  {
    hide Check, Run;
    if later == [] {
      assert reqs + later == reqs;
    } else {
      var init, x := later[..|later| - 1], later[|later| - 1];
      EvictionsGrow(c, reqs, init, k);
      assert reqs + later == (reqs + init) + [x];
      EvictionsOfNext(c, reqs + init, x, k);
    }
  }

  ghost predicate AllBefore(later: seq<Request>, k: Key, horizon: real) {
    forall i :: 0 <= i < |later| && later[i].key == k ==> later[i].now < horizon
  }

  /** While a full window has not begun to empty, checks of its key are denied. */
  lemma DeniedWhileFull(c: Config, reqs: seq<Request>, past: seq<Request>, now: real, x: Request, live: seq<real>)
    requires c.Valid() && OrderedUpTo(past, now) && OrderedUpTo(reqs, x.now) && now <= x.now
    requires Remembered(Run(c, reqs).journal, x.key) == Remembered(Run(c, past).journal, x.key)
    requires live == Live(c, past, x.key, now) && |live| == c.maxRequests
    ensures Next(c, reqs, x).decision.allowed <==> live[0] + c.Window() <= x.now
  {
    hide Check, Run, Within, Remembered;
    NextDecision(c, reqs, x);
    LiveLater(c, past, x.key, now, x.now, live);
  }

  lemma OrderedParts(p: seq<Request>, q: seq<Request>, x: Request)
    requires Ordered(p + q + [x])
    ensures OrderedUpTo(p + q, x.now) && OrderedUpTo(p, x.now)
    ensures p != [] ==> p[|p| - 1].now <= x.now
  {
    var all := p + q + [x];
    assert forall i :: 0 <= i < |p + q| ==> (p + q)[i] == all[i];
    assert forall i :: 0 <= i < |p| ==> p[i] == all[i];
    assert all[|all| - 1] == x;
  }

  /** A denied key that is not evicted remembers the same events for as long as
      its checks fall before the horizon. */
  lemma {:induction false} QuietUntilHorizon(
      c: Config, reqs: seq<Request>, r: Request, later: seq<Request>, live: seq<real>)
    requires c.Valid() && Ordered(reqs + [r] + later) && OrderedUpTo(reqs, r.now)
    requires !Next(c, reqs, r).decision.allowed && live == Live(c, reqs, r.key, r.now) && |live| == c.maxRequests
    requires AllBefore(later, r.key, live[0] + c.Window())
    requires Evictions(c, reqs + [r] + later, r.key) == Evictions(c, reqs, r.key)
    ensures Remembered(Run(c, reqs + [r] + later).journal, r.key) == Remembered(Run(c, reqs).journal, r.key)
  {
    hide Check, Run, Remembered, Within;
    EvictionsOfNext(c, reqs, r, r.key);
    if later == [] {
      assert reqs + [r] + later == reqs + [r];
    } else {
      var init, x := later[..|later| - 1], later[|later| - 1];
      var before := reqs + [r] + init;
      assert reqs + [r] + later == before + [x];
      OrderedParts(reqs + [r], init, x);
      EvictionsGrow(c, reqs + [r], init, r.key);
      EvictionsOfNext(c, before, x, r.key);
      QuietUntilHorizon(c, reqs, r, init, live);
      if x.key == r.key {
        DeniedWhileFull(c, before, reqs, r.now, x, live);
      }
    }
  }

  /** Main result: after a denial at `now` with true wait w, and absent an
      eviction of the key, its checks are denied before now + w and the first
      one from now + w on is allowed. */
  lemma RetryHorizon(c: Config, reqs: seq<Request>, r: Request, later: seq<Request>, x: Request, live: seq<real>)
    requires c.Valid() && Ordered(reqs + [r] + later + [x]) && x.key == r.key
    requires !Next(c, reqs, r).decision.allowed && live == Live(c, reqs, r.key, r.now) && live != []
    requires AllBefore(later, r.key, live[0] + c.windowSeconds as real)
    requires Evictions(c, reqs + [r] + later, r.key) == Evictions(c, reqs, r.key)
    ensures Next(c, reqs + [r] + later, x).decision.allowed <==> live[0] + c.windowSeconds as real <= x.now
  {
    hide Check, Run, Remembered, Within;
    OrderedParts(reqs + [r], later, x);
    assert reqs + [] + [r] == reqs + [r];
    OrderedParts(reqs, [], r);
    DeniedIsFull(c, reqs, r, live);
    QuietUntilHorizon(c, reqs, r, later, live);
    DeniedWhileFull(c, reqs + [r] + later, reqs, r.now, x, live);
  }

  /** Retrying after exactly retry_after seconds, whether or not the key was
      checked before then, is not always enough: int() drops the fraction of the
      wait. It is enough exactly when the wait is at most one second or a whole
      number of seconds. */
  lemma RetryExactly(c: Config, reqs: seq<Request>, r: Request, later: seq<Request>, x: Request, w: real, n: int)
    requires c.Valid() && Ordered(reqs + [r] + later + [x]) && x.key == r.key
    requires !Next(c, reqs, r).decision.allowed && n == Next(c, reqs, r).decision.retryAfter
    requires Live(c, reqs, r.key, r.now) != [] && w == Live(c, reqs, r.key, r.now)[0] + c.windowSeconds as real - r.now
    requires AllBefore(later, r.key, r.now + w)
    requires Evictions(c, reqs + [r] + later, r.key) == Evictions(c, reqs, r.key)
    requires x.now == r.now + n as real
    ensures Next(c, reqs + [r] + later, x).decision.allowed <==> w <= 1.0 || w == w.Floor as real
  {
    hide Check, Run, Remembered, Within, EvictionTimes;
    OrderedParts(reqs + [r], later, x);
    assert reqs + [] + [r] == reqs + [r];
    OrderedParts(reqs, [], r);
    var live := Live(c, reqs, r.key, r.now);
    DeniedIsFull(c, reqs, r, live);
    RetryAfterBounds(w, n, c.windowSeconds);
    RetryHorizon(c, reqs, r, later, x, live);
  }

  /** A retry that comes too soon: with one request allowed per 10 seconds, an
      event at 0.5 and a denial at 2.0 advertise 8 seconds, and 10.0 is still
      inside the window. */
  lemma RetryTooSoon(c: Config, k: Key, reqs: seq<Request>, r: Request, x: Request)
    requires c == Config(1, 10, 5) && reqs == [Request(k, 0.5)] && r == Request(k, 2.0) && x == Request(k, 10.0)
    ensures Next(c, reqs, r).decision == Decision(false, 8)
    ensures !Next(c, reqs + [r], x).decision.allowed
  {
    OneEvent(c, k, 0.5, 2.0);
    NextDecision(c, reqs, r);
    assert RetryAfter(8.5) == 8;
    assert reqs + [r] == [reqs[0], r];
    NotEvicted(c, reqs, r);
    assert Live(c, reqs, k, 2.0) == [0.5];
    assert reqs + [r] + [] == reqs + [r];
    RetryHorizon(c, reqs, r, [], x, [0.5]);
  }

  lemma NotEvicted(c: Config, reqs: seq<Request>, r: Request)
    requires c.Valid()
    ensures Evictions(c, reqs + [r], r.key) == Evictions(c, reqs, r.key)
  {
    hide Run;
    EvictionsOfNext(c, reqs, r, r.key);
    VictimIsThere(c, Prune(Run(c, reqs).table, r.now - c.Window()), r.key);
  }

  lemma OneEvent(c: Config, k: Key, at: real, now: real)
    requires c.Valid() && c.Window() > now - at >= 0.0
    ensures Live(c, [Request(k, at)], k, now) == [at]
  {
    var r := Request(k, at);
    NextDecision(c, [], r);
    assert Within([], at - c.Window(), at) == [];
    NotEvicted(c, [], r);
    EvictionsOfNext(c, [], r, k);
    assert [] + [r] == [r];
    assert Remembered(Run(c, [r]).journal, k) == [at];
    WithinAll([at], now - c.Window(), now);
  }

  /** Every answer of every run: an admission carries no delay, and a denial one
      between a second and a window. */
  lemma {:induction false} AnswersAreWellFormed(c: Config, reqs: seq<Request>, i: nat, d: Decision)
    requires c.Valid() && Ordered(reqs) && i < |reqs| && d == Run(c, reqs).decisions[i]
    ensures d.allowed ==> d.retryAfter == 0
    ensures !d.allowed ==> 1 <= d.retryAfter <= c.windowSeconds
  {
    var init, r := reqs[..|reqs| - 1], reqs[|reqs| - 1];
    hide Check, Decide, Record;
    if i < |init| {
      AnswersAreWellFormed(c, init, i, d);
    } else {
      assert d == Next(c, init, r).decision;
      AdmissionIsPlain(c, init, r);
      if !d.allowed {
        DeniedIsFull(c, init, r, Live(c, init, r.key, r.now));
        RetryAfterIsTight(c, init, r, Live(c, init, r.key, r.now)[0] + c.Window() - r.now, d.retryAfter);
      }
    }
  }

  lemma AdmissionIsPlain(c: Config, reqs: seq<Request>, r: Request)
    requires c.Valid()
    ensures Next(c, reqs, r).decision.allowed ==> Next(c, reqs, r).decision.retryAfter == 0
  {
    hide Run, Prune, Put, DropStale, Victim, Queue, RetryAfter;
  }
}
