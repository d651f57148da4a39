/** What callers of the sliding-window limiter may rely on, for every run of
    non-decreasing checks. */
module SlidingWindowPromises {
  import opened Wrappers
  import opened SlidingWindow
  import opened SlidingWindowRuns

  /** The check that would follow a run. */
  function Next(c: Config, reqs: seq<Request>, r: Request): Outcome
    requires c.Valid()
  {
    Check(c, Run(c, reqs).table, r.key, r.now)
  }

  ghost predicate OrderedUpTo(reqs: seq<Request>, now: real) {
    Ordered(reqs) && UpTo(reqs, now)
  }

  lemma NextOfRun(c: Config, reqs: seq<Request>, r: Request)
    requires c.Valid()
    ensures Run(c, reqs + [r]) == Advance(c, Run(c, reqs), r)
  {
    assert (reqs + [r])[..|reqs|] == reqs;
  }

  /** The events of a key that a run still remembers in (now - W, now]. */
  function Live(c: Config, reqs: seq<Request>, k: Key, now: real): seq<real>
    requires c.Valid()
  {
    Within(Remembered(Run(c, reqs).journal, k), now - c.windowSeconds as real, now)
  }

  lemma NextDecision(c: Config, reqs: seq<Request>, r: Request)
    requires c.Valid() && OrderedUpTo(reqs, r.now)
    ensures Next(c, reqs, r).decision == Decide(c, Live(c, reqs, r.key, r.now), r.now)
    ensures |Live(c, reqs, r.key, r.now)| <= c.maxRequests
  {
    RunKeepsInvariant(c, reqs, r.now);
    DecisionByWindow(c, Run(c, reqs), r, Live(c, reqs, r.key, r.now));
  }

  // ----- refinement of the never-forgetting reference -----

  lemma {:induction false} NeverEvictedRemembersAll(j: seq<Entry>, k: Key)
    requires EvictionTimes(j, k) == []
    ensures Remembered(j, k) == AcceptedTimes(j, k)
  {
    if j != [] {
      NeverEvictedRemembersAll(j[..|j| - 1], k);
    }
  }

  /** For a key that was never evicted, the two limiters hold the same events. */
  predicate Agree(h: History, ref: ReferenceHistory, k: Key) {
    EvictionTimes(h.journal, k) == [] && AcceptedTimes(h.journal, k) == AcceptedTimes(ref.log, k)
  }

  lemma AgreeOnDecision(c: Config, h: History, ref: ReferenceHistory, r: Request, live: seq<real>)
    requires c.Valid() && Invariant(c, h, r.now) && Agree(h, ref, r.key)
    requires live == Within(AcceptedTimes(ref.log, r.key), r.now - c.Window(), r.now)
    ensures Check(c, h.table, r.key, r.now).decision.allowed <==> |live| < c.maxRequests
  {
    NeverEvictedRemembersAll(h.journal, r.key);
    DecisionByWindow(c, h, r, live);
  }

  lemma NotEvictedByStep(c: Config, h: History, r: Request, k: Key, o: Outcome)
    requires c.Valid() && o == Check(c, h.table, r.key, r.now)
    requires EvictionTimes(Record(h.journal, o, r), k) == []
    ensures EvictionTimes(h.journal, k) == [] && o.victim != Some(k)
  {
    RecordViews(h.journal, o, r, k, if o.victim == Some(k) then [] else Remembered(h.journal, k));
  }

  lemma AgreeAfterStep(c: Config, h: History, ref: ReferenceHistory, r: Request, k: Key, o: Outcome)
    requires c.Valid() && Invariant(c, h, r.now) && Agree(h, ref, k)
    requires o == Check(c, h.table, r.key, r.now) && o.victim != Some(k)
    ensures Agree(Advance(c, h, r), ReferenceStep(c, ref, r), k)
  {
    hide Check, Within, Remembered, Invariant, Record, AcceptedTimes, EvictionTimes;
    RecordViews(h.journal, o, r, k, Remembered(h.journal, k));
    Snoc(ref.log, Accepted(r.key, r.now), k);
    if r.key == k {
      AgreeOnDecision(c, h, ref, r, Within(AcceptedTimes(ref.log, k), r.now - c.Window(), r.now));
    }
  }

  /** As long as a key is not evicted, a run has accepted exactly the events of
      that key that the reference accepted. */
  lemma {:induction false} AcceptsAsReference(c: Config, reqs: seq<Request>, k: Key)
    requires c.Valid() && Ordered(reqs)
    requires EvictionTimes(Run(c, reqs).journal, k) == []
    ensures Agree(Run(c, reqs), Reference(c, reqs), k)
  {
    if reqs != [] {
      var init, r := reqs[..|reqs| - 1], reqs[|reqs| - 1];
      var h := Run(c, init);
      NotEvictedByStep(c, h, r, k, Check(c, h.table, r.key, r.now));
      AcceptsAsReference(c, init, k);
      RunKeepsInvariant(c, init, r.now);
      AgreeAfterStep(c, h, Reference(c, init), r, k, Check(c, h.table, r.key, r.now));
    }
  }

  lemma RefinesAtEnd(c: Config, reqs: seq<Request>, r: Request)
    requires c.Valid() && OrderedUpTo(reqs, r.now)
    requires EvictionTimes(Run(c, reqs).journal, r.key) == []
    ensures Next(c, reqs, r).decision.allowed <==>
            |Within(AcceptedTimes(Reference(c, reqs).log, r.key), r.now - c.windowSeconds as real, r.now)|
            < c.maxRequests
  {
    hide Check, Run, Reference, Within, Invariant, Agree;
    AcceptsAsReference(c, reqs, r.key);
    RunKeepsInvariant(c, reqs, r.now);
    AgreeOnDecision(c, Run(c, reqs), Reference(c, reqs), r,
                    Within(AcceptedTimes(Reference(c, reqs).log, r.key), r.now - c.windowSeconds as real, r.now));
  }

  /** Main result: pruning and lazy dropping never change a decision. The
      verdicts on a key that is never evicted are the reference's. */
  lemma {:induction false} RefinesReference(c: Config, reqs: seq<Request>, k: Key, i: nat)
    requires c.Valid() && Ordered(reqs)
    requires EvictionTimes(Run(c, reqs).journal, k) == []
    requires i < |reqs| && reqs[i].key == k
    ensures Run(c, reqs).decisions[i].allowed == Reference(c, reqs).allowed[i]
  {
    hide Check;
    var init, r := reqs[..|reqs| - 1], reqs[|reqs| - 1];
    NotEvictedByStep(c, Run(c, init), r, k, Next(c, init, r));
    if i < |init| {
      RefinesReference(c, init, k, i);
    } else {
      RefinesAtEnd(c, init, r);
    }
  }

  /** When a key was let in, by the answers that its checks were given. */
  function AllowedTimes(reqs: seq<Request>, decisions: seq<Decision>, k: Key): seq<real>
    requires |decisions| == |reqs|
  {
    if reqs == [] then []
    else
      var n := |reqs| - 1;
      var before := AllowedTimes(reqs[..n], decisions[..n], k);
      if reqs[n].key == k && decisions[n].allowed then before + [reqs[n].now] else before
  }

  /** The journal of a run has exactly what its answers let in. */
  lemma {:induction false} JournalIsAnswers(c: Config, reqs: seq<Request>, k: Key)
    requires c.Valid()
    ensures AcceptedTimes(Run(c, reqs).journal, k) == AllowedTimes(reqs, Run(c, reqs).decisions, k)
  {
    hide Check, Record, Remembered, EvictionTimes;
    if reqs != [] {
      var init, r := reqs[..|reqs| - 1], reqs[|reqs| - 1];
      var h, o := Run(c, init), Next(c, init, r);
      JournalIsAnswers(c, init, k);
      assert (h.decisions + [o.decision])[..|init|] == h.decisions;
      AcceptedByRecord(h.journal, o, r, k);
    }
  }

  lemma AcceptedByRecord(j: seq<Entry>, o: Outcome, r: Request, k: Key)
    ensures AcceptedTimes(Record(j, o, r), k) ==
            if o.decision.allowed && r.key == k then AcceptedTimes(j, k) + [r.now] else AcceptedTimes(j, k)
  {
    if o.victim.Some? {
      Snoc(j, Evicted(o.victim.value, r.now), k);
    }
    Snoc(if o.victim.Some? then j + [Evicted(o.victim.value, r.now)] else j, Accepted(r.key, r.now), k);
  }

  // ----- the bound, with evictions -----

  lemma WithinSnoc(q: seq<real>, x: real, lo: real, hi: real)
    ensures Within(q + [x], lo, hi) == if lo < x <= hi then Within(q, lo, hi) + [x] else Within(q, lo, hi)
  {
    assert (q + [x])[..|q|] == q;
  }

  lemma {:induction false} WithinCap(q: seq<real>, lo: real, now: real, hi: real)
    requires AtMost(q, now) && now <= hi
    ensures Within(q, lo, hi) == Within(q, lo, now)
  {
    if q != [] {
      WithinCap(q[..|q| - 1], lo, now, hi);
    }
  }

  lemma {:induction false} TimesAtMost(j: seq<Entry>, k: Key, clock: real)
    requires NoLater(j, clock)
    ensures AtMost(AcceptedTimes(j, k), clock)
    ensures AtMost(Remembered(j, k), clock)
  {
    if j != [] {
      var init, e := j[..|j| - 1], j[|j| - 1];
      TimesAtMost(init, k, clock);
      assert (AcceptedTimes(init, k) + [e.at])[..|AcceptedTimes(init, k)|] == AcceptedTimes(init, k);
      assert (Remembered(init, k) + [e.at])[..|Remembered(init, k)|] == Remembered(init, k);
    }
  }

  function InWindow(j: seq<Entry>, k: Key, lo: real, hi: real): nat {
    |Within(AcceptedTimes(j, k), lo, hi)|
  }

  function StillRemembered(j: seq<Entry>, k: Key, lo: real, hi: real): nat {
    |Within(Remembered(j, k), lo, hi)|
  }

  function EvictionsIn(j: seq<Entry>, k: Key, lo: real, hi: real): nat {
    |Within(EvictionTimes(j, k), lo, hi)|
  }

  /** The bound that a window keeps while it is still open. */
  predicate OpenWindow(c: Config, j: seq<Entry>, k: Key, lo: real, hi: real) {
    && InWindow(j, k, lo, hi) <= c.maxRequests * EvictionsIn(j, k, lo, hi) + StillRemembered(j, k, lo, hi)
    && StillRemembered(j, k, lo, hi) <= c.maxRequests
  }

  predicate ClosedWindow(c: Config, j: seq<Entry>, k: Key, lo: real, hi: real) {
    InWindow(j, k, lo, hi) <= c.maxRequests * (1 + EvictionsIn(j, k, lo, hi))
  }

  lemma OneMoreAllowance(m: nat, n: nat, a: nat, s: nat)
    requires a <= m * n + s && s <= m
    ensures a <= m * (n + 1)
  {
    assert m * (n + 1) == m * n + m;
  }

  lemma OpenIsClosed(c: Config, j: seq<Entry>, k: Key, lo: real, hi: real)
    requires c.Valid() && OpenWindow(c, j, k, lo, hi)
    ensures ClosedWindow(c, j, k, lo, hi)
  {
    OneMoreAllowance(c.maxRequests, EvictionsIn(j, k, lo, hi), InWindow(j, k, lo, hi), StillRemembered(j, k, lo, hi));
  }

  lemma NoneYet(j: seq<Entry>, k: Key, now: real, lo: real, hi: real)
    requires NoLater(j, now) && now <= lo
    ensures InWindow(j, k, lo, hi) == 0
  {
    TimesAtMost(j, k, now);
    AtMostWeaker(AcceptedTimes(j, k), now, lo);
    WithinNone(AcceptedTimes(j, k), lo, hi);
  }

  /** Evicting a key inside a window starts a new allowance; before the window
      it changes nothing, since nothing was accepted inside yet. */
  lemma OpenWindowEvicts(c: Config, j: seq<Entry>, k: Key, now: real, lo: real, hi: real)
    requires OpenWindow(c, j, k, lo, hi) && NoLater(j, now) && now <= hi && c.Valid()
    ensures OpenWindow(c, j + [Evicted(k, now)], k, lo, hi)
  {
    Snoc(j, Evicted(k, now), k);
    WithinSnoc(EvictionTimes(j, k), now, lo, hi);
    if now <= lo {
      NoneYet(j, k, now, lo, hi);
    } else {
      OneMoreAllowance(c.maxRequests, EvictionsIn(j, k, lo, hi), InWindow(j, k, lo, hi), StillRemembered(j, k, lo, hi));
    }
  }

  lemma RoomForOneMore(c: Config, j: seq<Entry>, k: Key, now: real, lo: real, hi: real)
    requires NoLater(j, now) && now <= hi == lo + c.Window()
    requires |Within(Remembered(j, k), now - c.Window(), now)| < c.maxRequests
    ensures StillRemembered(j, k, lo, hi) < c.maxRequests
  {
    TimesAtMost(j, k, now);
    WithinCap(Remembered(j, k), lo, now, hi);
    WithinShrinks(Remembered(j, k), now - c.Window(), lo, now, now);
  }

  lemma OpenWindowAccepts(c: Config, j: seq<Entry>, k: Key, now: real, lo: real, hi: real)
    requires OpenWindow(c, j, k, lo, hi) && NoLater(j, now) && now <= hi == lo + c.Window()
    requires |Within(Remembered(j, k), now - c.Window(), now)| < c.maxRequests
    ensures OpenWindow(c, j + [Accepted(k, now)], k, lo, hi)
  {
    RoomForOneMore(c, j, k, now, lo, hi);
    Snoc(j, Accepted(k, now), k);
    WithinSnoc(AcceptedTimes(j, k), now, lo, hi);
    WithinSnoc(Remembered(j, k), now, lo, hi);
  }

  lemma OpenWindowOther(c: Config, j: seq<Entry>, e: Entry, k: Key, lo: real, hi: real)
    requires OpenWindow(c, j, k, lo, hi) && e.key != k
    ensures OpenWindow(c, j + [e], k, lo, hi)
  {
    Snoc(j, e, k);
  }

  lemma ClosedWindowStays(c: Config, j: seq<Entry>, e: Entry, k: Key, lo: real, hi: real)
    requires ClosedWindow(c, j, k, lo, hi) && e.at > hi
    ensures ClosedWindow(c, j + [e], k, lo, hi)
  {
    Snoc(j, e, k);
    WithinSnoc(AcceptedTimes(j, k), e.at, lo, hi);
    WithinSnoc(EvictionTimes(j, k), e.at, lo, hi);
  }

  /** The journal between an eviction and the acceptance it made room for. */
  function AfterEviction(j: seq<Entry>, o: Outcome, r: Request): seq<Entry> {
    if o.victim.Some? then j + [Evicted(o.victim.value, r.now)] else j
  }

  lemma OpenAfterEviction(c: Config, j: seq<Entry>, o: Outcome, r: Request, k: Key, lo: real, hi: real)
    requires c.Valid() && OpenWindow(c, j, k, lo, hi) && NoLater(j, r.now) && r.now <= hi
    ensures OpenWindow(c, AfterEviction(j, o, r), k, lo, hi)
    ensures NoLater(AfterEviction(j, o, r), r.now)
  {
    if o.victim.Some? {
      var e := Evicted(o.victim.value, r.now);
      assert (j + [e])[..|j|] == j;
      if o.victim.value == k {
        OpenWindowEvicts(c, j, k, r.now, lo, hi);
      } else {
        OpenWindowOther(c, j, e, k, lo, hi);
      }
    }
  }

  lemma OpenAfterRecord(c: Config, j: seq<Entry>, o: Outcome, r: Request, k: Key, lo: real, hi: real)
    requires c.Valid() && OpenWindow(c, j, k, lo, hi) && NoLater(j, r.now) && r.now <= hi == lo + c.Window()
    requires o.decision.allowed && r.key == k ==>
               o.victim != Some(k) && |Within(Remembered(j, k), r.now - c.Window(), r.now)| < c.maxRequests
    ensures OpenWindow(c, Record(j, o, r), k, lo, hi)
  {
    hide OpenWindow;
    var j1 := AfterEviction(j, o, r);
    OpenAfterEviction(c, j, o, r, k, lo, hi);
    if o.decision.allowed {
      if r.key == k {
        if o.victim.Some? {
          Snoc(j, Evicted(o.victim.value, r.now), k);
        }
        OpenWindowAccepts(c, j1, k, r.now, lo, hi);
      } else {
        OpenWindowOther(c, j1, Accepted(r.key, r.now), k, lo, hi);
      }
    }
  }

  lemma ClosedAfterRecord(c: Config, j: seq<Entry>, o: Outcome, r: Request, k: Key, lo: real, hi: real)
    requires ClosedWindow(c, j, k, lo, hi) && hi < r.now
    ensures ClosedWindow(c, Record(j, o, r), k, lo, hi)
  {
    if o.victim.Some? {
      ClosedWindowStays(c, j, Evicted(o.victim.value, r.now), k, lo, hi);
    }
    if o.decision.allowed {
      ClosedWindowStays(c, AfterEviction(j, o, r), Accepted(r.key, r.now), k, lo, hi);
    }
  }

  /** What a check tells the window bound: it accepts only with room to spare,
      and never evicts its own key. */
  lemma AcceptsWithRoom(c: Config, h: History, r: Request, o: Outcome)
    requires c.Valid() && Invariant(c, h, r.now) && o == Check(c, h.table, r.key, r.now)
    ensures o.decision.allowed ==> |Within(Remembered(h.journal, r.key), r.now - c.Window(), r.now)| < c.maxRequests
    ensures o.victim != Some(r.key)
  {
    DecisionByWindow(c, h, r, Within(Remembered(h.journal, r.key), r.now - c.Window(), r.now));
    VictimIsThere(c, Prune(h.table, r.now - c.Window()), r.key);
  }

  lemma {:induction false} OpenWindowInRun(c: Config, reqs: seq<Request>, k: Key, lo: real, hi: real)
    requires c.Valid() && OrderedUpTo(reqs, hi) && hi == lo + c.Window()
    ensures OpenWindow(c, Run(c, reqs).journal, k, lo, hi)
  {
    if reqs != [] {
      var init, r := reqs[..|reqs| - 1], reqs[|reqs| - 1];
      OpenWindowInRun(c, init, k, lo, hi);
      RunKeepsInvariant(c, init, r.now);
      AcceptsWithRoom(c, Run(c, init), r, Next(c, init, r));
      OpenAfterRecord(c, Run(c, init).journal, Next(c, init, r), r, k, lo, hi);
    }
  }

  /** Main result: in any window (hi - W, hi] of any run, a key has at most
      max_requests accepted events for each of its evictions inside the window
      and max_requests more; with no eviction this is the exact limit. */
  lemma {:induction false} WindowBound(c: Config, reqs: seq<Request>, k: Key, hi: real)
    requires c.Valid() && Ordered(reqs)
    ensures InWindow(Run(c, reqs).journal, k, hi - c.windowSeconds as real, hi)
            <= c.maxRequests * (1 + EvictionsIn(Run(c, reqs).journal, k, hi - c.windowSeconds as real, hi))
  {
    hide Check;
    var lo := hi - c.windowSeconds as real;
    if reqs == [] || reqs[|reqs| - 1].now <= hi {
      OpenWindowInRun(c, reqs, k, lo, hi);
      OpenIsClosed(c, Run(c, reqs).journal, k, lo, hi);
    } else {
      var init, r := reqs[..|reqs| - 1], reqs[|reqs| - 1];
      WindowBound(c, init, k, hi);
      ClosedAfterRecord(c, Run(c, init).journal, Next(c, init, r), r, k, lo, hi);
    }
  }

  lemma {:induction false} RememberedIsAccepted(j: seq<Entry>, k: Key, lo: real, hi: real)
    ensures StillRemembered(j, k, lo, hi) <= InWindow(j, k, lo, hi)
  {
    if j != [] {
      var init, e := j[..|j| - 1], j[|j| - 1];
      RememberedIsAccepted(init, k, lo, hi);
      WithinSnoc(AcceptedTimes(init, k), e.at, lo, hi);
      WithinSnoc(Remembered(init, k), e.at, lo, hi);
    }
  }

  /** A denial is always justified by the run's own journal, evictions or not. */
  lemma DenialsAreJustified(c: Config, reqs: seq<Request>, r: Request)
    requires c.Valid() && OrderedUpTo(reqs, r.now)
    requires !Next(c, reqs, r).decision.allowed
    ensures InWindow(Run(c, reqs).journal, r.key, r.now - c.windowSeconds as real, r.now) >= c.maxRequests
  {
    hide Check, Run;
    NextDecision(c, reqs, r);
    RememberedIsAccepted(Run(c, reqs).journal, r.key, r.now - c.windowSeconds as real, r.now);
  }
}
