/** Exactly when the Redis limiter's counts are exact: the condition on the
    timing of increments is necessary as well as sufficient. */
module RedisTiming {
  import opened Wrappers
  import opened RedisWindow

  // ----- logs by their times -----

  predicate SameTime(e: Landing, f: Landing) {
    e.bucket == f.bucket && e.key == f.key && e.readAt == f.readAt && e.landedAt == f.landedAt
  }

  /** The same increments at the same times, whatever they were counted as. */
  predicate SameTimes(log: seq<Landing>, log': seq<Landing>) {
    |log| == |log'| &&
    (log != [] ==> SameTime(log[|log| - 1], log'[|log| - 1]) && SameTimes(log[..|log| - 1], log'[..|log| - 1]))
  }

  lemma {:induction false} SameTimesAlike(log: seq<Landing>, log': seq<Landing>, b: int, k: string)
    requires SameTimes(log, log')
    ensures First(log, b, k) == First(log', b, k) && Landed(log, b, k) == Landed(log', b, k)
  {
    if log != [] {
      SameTimesAlike(log[..|log| - 1], log'[..|log| - 1], b, k);
    }
  }

  lemma {:induction false} SameTimesJoin(log: seq<Landing>, log': seq<Landing>, log'': seq<Landing>)
    requires SameTimes(log, log') && SameTimes(log', log'')
    ensures SameTimes(log, log'')
  {
    if log != [] {
      SameTimesJoin(log[..|log| - 1], log'[..|log| - 1], log''[..|log| - 1]);
    }
  }

  lemma {:induction false} SameTimesBack(log: seq<Landing>, log': seq<Landing>)
    requires SameTimes(log, log')
    ensures SameTimes(log', log)
  {
    if log != [] {
      SameTimesBack(log[..|log| - 1], log'[..|log| - 1]);
    }
  }

  lemma {:induction false} PunctualByTimes(c: Limits, log: seq<Landing>, log': seq<Landing>)
    requires SameTimes(log, log') && Punctual(c, log)
    ensures Punctual(c, log')
  {
    hide First;
    if log != [] {
      var e := log'[|log| - 1];
      PunctualByTimes(c, log[..|log| - 1], log'[..|log| - 1]);
      SameTimesAlike(log[..|log| - 1], log'[..|log| - 1], e.bucket, e.key);
    }
  }

  /** Some run has these times. */
  ghost predicate Occurs(c: Limits, log: seq<Landing>)
    requires c.Valid()
  {
    exists clock: real, acts: seq<Action> :: SameTimes(log, Run(c, Start(clock), acts).log)
  }

  /** Every run with these times numbers each increment after all earlier ones
      of its bucket and key, whenever the expiries are set and carried out. */
  ghost predicate AlwaysNumbered(c: Limits, log: seq<Landing>)
    requires c.Valid()
  {
    forall clock: real, acts: seq<Action> ::
      SameTimes(log, Run(c, Start(clock), acts).log) ==> Numbered(Run(c, Start(clock), acts).log)
  }

  // ----- a run that sets the expiry of one counter at once -----

  predicate OnPair(c: Limits, call: Call, b: int, k: string)
    requires c.Valid()
  {
    call.key == k && Bucket(call.readAt, c.window) == b
  }

  /** A call with nothing left to do on the counter of this bucket and key. */
  function Done(c: Limits, call: Call, b: int, k: string): Call
    requires c.Valid()
  {
    if call.Counted? && OnPair(c, call, b, k) then Answered(call.key, call.readAt, call.count) else call
  }

  ghost predicate CallsDone(c: Limits, calls: map<nat, Call>, calls': map<nat, Call>, b: int, k: string)
    requires c.Valid()
  {
    && (forall id :: id in calls' <==> id in calls)
    && (forall id :: id in calls ==> calls'[id] == Done(c, calls[id], b, k))
  }

  /** The counter expires two windows after its first increment. */
  predicate DueEarly(c: Limits, counter: Option<Counter>, first: Option<real>, landed: nat, clock: real) {
    && first.Some?
    && (counter.None? ==> first.value + 2.0 * c.window as real <= clock)
    && (counter.Some? ==> counter.value == Counter(landed, Some(first.value + 2.0 * c.window as real)))
  }

  ghost predicate SameElsewhere(a: map<string, Counter>, b: map<string, Counter>, name: string) {
    && (forall n :: n != name ==> (n in a <==> n in b))
    && (forall n :: n != name && n in a ==> a[n] == b[n])
  }

  /** t is like s, but for the counter of one bucket and key: its expiry was set
      as soon as it was created, and no other call will set it again. */
  ghost predicate Shadows(c: Limits, s: State, t: State, b: int, k: string)
    requires c.Valid()
  {
    && t.clock == s.clock && t.log == s.log
    && CallsDone(c, s.calls, t.calls, b, k)
    && SameElsewhere(s.server, t.server, CounterName(c.prefix, b, k))
    && DueEarly(c, CounterAt(t, CounterName(c.prefix, b, k)), First(s.log, b, k), Landed(s.log, b, k), s.clock)
  }

  lemma CallsAfter(c: Limits, calls: map<nat, Call>, calls': map<nat, Call>, id: nat, call: Call, b: int, k: string)
    requires c.Valid() && CallsDone(c, calls, calls', b, k)
    ensures CallsDone(c, calls[id := call], calls'[id := Done(c, call, b, k)], b, k)
  {
    hide Bucket;
  }

  /** A counter other than this one, seen from both. */
  lemma Elsewhere(s: State, t: State, name: string, n: string, counter: Counter)
    requires SameElsewhere(s.server, t.server, name) && n != name
    ensures CountOf(s, n) == CountOf(t, n) && DeadlineOf(s, n) == DeadlineOf(t, n)
    ensures CounterAt(s, n) == CounterAt(t, n)
    ensures SameElsewhere(s.server[n := counter], t.server[n := counter], name)
    ensures CounterAt(t.(server := t.server[n := counter]), name) == CounterAt(t, name)
  {
  }

  /** An increment on another counter does the same in both. */
  lemma ShadowElsewhere(c: Limits, s: State, t: State, id: nat, call: Call, b: int, k: string)
    requires c.Valid() && Shadows(c, s, t, b, k) && call.Reading? && !OnPair(c, call, b, k)
    ensures Shadows(c, AfterIncrement(c, s, id, call.key, call.readAt),
                    AfterIncrement(c, t, id, call.key, call.readAt), b, k)
  {
    var b0 := Bucket(call.readAt, c.window);
    var name := CounterName(c.prefix, b0, call.key);
    var n := CountOf(s, name) + 1;
    hide Bucket, CounterName, Landed, First, DueEarly, CallsDone, SameElsewhere, CountOf, DeadlineOf;
    if name == CounterName(c.prefix, b, k) {
      NamesAreDistinct(c.prefix, b, k, b0, call.key);
    }
    Elsewhere(s, t, CounterName(c.prefix, b, k), name, Counter(n, DeadlineOf(s, name)));
    Snoc(s.log, Landing(b0, call.key, call.readAt, s.clock, n), b, k);
    CallsAfter(c, s.calls, t.calls, id, AfterIncrement(c, s, id, call.key, call.readAt).calls[id], b, k);
  }

  /** An increment on this counter that is in time finds its full count in both. */
  lemma ShadowOnPair(c: Limits, s: State, t: State, id: nat, call: Call, b: int, k: string)
    requires c.Valid() && Shadows(c, s, t, b, k) && PairOk(c, s, b, k) && InTime(c, s.log, b, k, s.clock)
    requires call.Reading? && OnPair(c, call, b, k)
    ensures Shadows(c, AfterIncrement(c, s, id, call.key, call.readAt),
                    AfterIncrement(c, t, id, call.key, call.readAt), b, k)
  {
    var name := CounterName(c.prefix, b, k);
    hide Bucket, CounterName, Landed, First;
    Snoc(s.log, Landing(b, k, call.readAt, s.clock, CountOf(s, name) + 1), b, k);
    assert CountOf(s, name) == Landed(s.log, b, k) == CountOf(t, name);
  }

  lemma ShadowIncrement(c: Limits, s: State, t: State, a: Action, b: int, k: string)
    requires c.Valid() && Shadows(c, s, t, b, k) && PairOk(c, s, b, k) && PunctualStep(c, s, a) && a.Increment?
    ensures Shadows(c, Step(c, s, a), Step(c, t, a), b, k)
  {
    hide Bucket, CounterName, Landed, First, DueEarly, AfterIncrement, PairOk, InTime, SameElsewhere;
    assert a.id in s.calls ==> t.calls[a.id] == Done(c, s.calls[a.id], b, k);
    if Increments(s, a) {
      if OnPair(c, s.calls[a.id], b, k) {
        ShadowOnPair(c, s, t, a.id, s.calls[a.id], b, k);
      } else {
        ShadowElsewhere(c, s, t, a.id, s.calls[a.id], b, k);
      }
    }
  }

  lemma ShadowExpiryElsewhere(c: Limits, s: State, t: State, id: nat, call: Call, b: int, k: string)
    requires c.Valid() && Shadows(c, s, t, b, k) && call.Counted? && !OnPair(c, call, b, k)
    ensures Shadows(c, AfterExpiry(c, s, id, call.key, call.readAt, call.count),
                    AfterExpiry(c, t, id, call.key, call.readAt, call.count), b, k)
  {
    var b0 := Bucket(call.readAt, c.window);
    var name := CounterName(c.prefix, b0, call.key);
    hide Bucket, CounterName, Landed, First, DueEarly, CallsDone, SameElsewhere;
    if name == CounterName(c.prefix, b, k) {
      NamesAreDistinct(c.prefix, b, k, b0, call.key);
    }
    Elsewhere(s, t, CounterName(c.prefix, b, k), name,
              Counter(CountOf(s, name), Some(s.clock + 2.0 * c.window as real)));
    CallsAfter(c, s.calls, t.calls, id, Answered(call.key, call.readAt, call.count), b, k);
  }

  lemma ShadowExpiry(c: Limits, s: State, t: State, a: Action, b: int, k: string)
    requires c.Valid() && Shadows(c, s, t, b, k) && a.SetExpiry?
    ensures Shadows(c, Step(c, s, a), Step(c, t, a), b, k)
  {
    hide Bucket, CounterName, Landed, First, DueEarly;
    assert a.id in s.calls ==> t.calls[a.id] == Done(c, s.calls[a.id], b, k);
    if a.id in s.calls && s.calls[a.id].Counted? && !OnPair(c, s.calls[a.id], b, k) {
      hide AfterExpiry;
      ShadowExpiryElsewhere(c, s, t, a.id, s.calls[a.id], b, k);
    }
  }

  lemma ShadowDrop(c: Limits, s: State, t: State, a: Action, b: int, k: string)
    requires c.Valid() && Shadows(c, s, t, b, k) && a.ExpireCounter?
    ensures Shadows(c, Step(c, s, a), Step(c, t, a), b, k)
  {
    hide Bucket, CounterName, Landed, First, CallsDone;
    assert a.name != CounterName(c.prefix, b, k) ==> CounterAt(s, a.name) == CounterAt(t, a.name);
  }

  lemma ShadowRest(c: Limits, s: State, t: State, a: Action, b: int, k: string)
    requires c.Valid() && Shadows(c, s, t, b, k) && (a.Tick? || a.ReadClock?)
    ensures Shadows(c, Step(c, s, a), Step(c, t, a), b, k)
  {
    hide Bucket, CounterName, Landed, First;
  }

  lemma StepShadows(c: Limits, s: State, t: State, a: Action, b: int, k: string)
    requires c.Valid() && Shadows(c, s, t, b, k) && PairOk(c, s, b, k) && PunctualStep(c, s, a)
    ensures Shadows(c, Step(c, s, a), Step(c, t, a), b, k)
  {
    hide Shadows, Step, PunctualStep, PairOk;
    match a
    case Increment(_) => ShadowIncrement(c, s, t, a, b, k);
    case SetExpiry(_) => ShadowExpiry(c, s, t, a, b, k);
    case ExpireCounter(_) => ShadowDrop(c, s, t, a, b, k);
    case _ => ShadowRest(c, s, t, a, b, k);
  }

  /** A call that has its count has landed. */
  ghost predicate CountedLanded(c: Limits, s: State)
    requires c.Valid()
  {
    forall id :: id in s.calls && s.calls[id].Counted? ==>
                   First(s.log, Bucket(s.calls[id].readAt, c.window), s.calls[id].key).Some?
  }

  lemma StepKeepsLanded(c: Limits, s: State, a: Action)
    requires c.Valid() && CountedLanded(c, s)
    ensures CountedLanded(c, Step(c, s, a))
  {
    hide Bucket, CounterName, First;
    var t := Step(c, s, a);
    LogOfStep(c, s, a);
    forall id | id in t.calls && t.calls[id].Counted?
      ensures First(t.log, Bucket(t.calls[id].readAt, c.window), t.calls[id].key).Some?
    {
      if Increments(s, a) {
        var call := s.calls[a.id];
        var b := Bucket(call.readAt, c.window);
        Snoc(s.log, Landing(b, call.key, call.readAt, s.clock, CountOf(s, CounterName(c.prefix, b, call.key)) + 1),
             Bucket(t.calls[id].readAt, c.window), t.calls[id].key);
      }
    }
  }

  lemma {:induction false} RunKeepsLanded(c: Limits, clock: real, acts: seq<Action>)
    requires c.Valid()
    ensures CountedLanded(c, Run(c, Start(clock), acts))
  {
    hide Step;
    if acts != [] {
      RunKeepsLanded(c, clock, acts[..|acts| - 1]);
      StepKeepsLanded(c, Run(c, Start(clock), acts[..|acts| - 1]), acts[|acts| - 1]);
    }
  }

  /** The first increment of a bucket and key, and its expiry at once. */
  lemma ShadowBegins(c: Limits, s: State, a: Action, b: int, k: string)
    requires c.Valid() && PairOk(c, s, b, k) && CountedLanded(c, s)
    requires First(s.log, b, k).None? && Increments(s, a) && OnPair(c, s.calls[a.id], b, k)
    ensures Shadows(c, Step(c, s, a), Step(c, Step(c, s, a), SetExpiry(a.id)), b, k)
  {
    hide Bucket, CounterName, Landed, First;
    var call := s.calls[a.id];
    Snoc(s.log, Landing(b, k, call.readAt, s.clock, 1), b, k);
  }

  /** Every punctual run that has reached a counter has a shadow with the same
      log: the run in which its expiry is set at once. */
  lemma {:induction false} Shadow(c: Limits, clock: real, acts: seq<Action>, b: int, k: string)
    returns (acts': seq<Action>)
    requires c.Valid() && Punctual(c, Run(c, Start(clock), acts).log)
    requires First(Run(c, Start(clock), acts).log, b, k).Some?
    ensures Shadows(c, Run(c, Start(clock), acts), Run(c, Start(clock), acts'), b, k)
  {
    hide Step, Shadows, First, Punctual, PunctualStep, PairOk, CountedLanded, OnPair, Bucket, CounterName;
    if acts == [] {
      NothingLanded(b, k);
      assert false;
    }
    var init, a := acts[..|acts| - 1], acts[|acts| - 1];
    var s := Run(c, Start(clock), init);
    PunctualRun(c, s, a);
    CountersNeverReset(c, clock, init);
    assert PairOk(c, s, b, k);
    if First(s.log, b, k).Some? {
      acts' := Shadow(c, clock, init, b, k);
      StepShadows(c, s, Run(c, Start(clock), acts'), a, b, k);
      RunSnoc(c, Start(clock), acts', a);
      acts' := acts' + [a];
    } else {
      RunKeepsLanded(c, clock, init);
      FirstByStep(c, s, a, b, k);
      ShadowBegins(c, s, a, b, k);
      acts' := acts + [SetExpiry(a.id)];
      RunSnoc(c, Start(clock), acts, SetExpiry(a.id));
    }
  }

  lemma NothingLanded(b: int, k: string)
    ensures First([], b, k) == None
  {
  }

  lemma FirstByStep(c: Limits, s: State, a: Action, b: int, k: string)
    requires c.Valid() && First(s.log, b, k).None? && First(Step(c, s, a).log, b, k).Some?
    ensures Increments(s, a) && OnPair(c, s.calls[a.id], b, k)
  {
    hide Bucket, CounterName, First, Step;
    LogOfStep(c, s, a);
    if Increments(s, a) {
      var call := s.calls[a.id];
      var b0 := Bucket(call.readAt, c.window);
      var n := CountOf(s, CounterName(c.prefix, b0, call.key)) + 1;
      Snoc(s.log, Landing(b0, call.key, call.readAt, s.clock, n), b, k);
    }
  }

  // ----- the late increment -----

  /** The step that first breaks the timing. */
  lemma {:induction false} LateStep(c: Limits, clock: real, acts: seq<Action>) returns (n: nat)
    requires c.Valid() && !Punctual(c, Run(c, Start(clock), acts).log)
    ensures n < |acts| && Punctual(c, Run(c, Start(clock), acts[..n]).log)
    ensures !PunctualStep(c, Run(c, Start(clock), acts[..n]), acts[n])
  {
    hide Step, PunctualStep;
    n := |acts| - 1;
    PunctualRun(c, Run(c, Start(clock), acts[..n]), acts[n]);
    if !Punctual(c, Run(c, Start(clock), acts[..n]).log) {
      n := LateStep(c, clock, acts[..n]);
      assert acts[..|acts| - 1][..n] == acts[..n];
    }
  }

  /** Same clock, same times in the log, same clock readings outstanding. */
  ghost predicate Tracks(s: State, t: State) {
    && s.clock == t.clock && SameTimes(s.log, t.log)
    && (forall id :: id in s.calls <==> id in t.calls)
    && (forall id :: id in s.calls && (s.calls[id].Reading? || t.calls[id].Reading?) ==> s.calls[id] == t.calls[id])
  }

  /** When increments land does not depend on what they are counted as. */
  lemma StepTracks(c: Limits, s: State, t: State, a: Action)
    requires c.Valid() && Tracks(s, t)
    ensures Tracks(Step(c, s, a), Step(c, t, a))
  {
    hide Bucket, CounterName;
    LogOfStep(c, s, a);
    LogOfStep(c, t, a);
  }

  lemma {:induction false} RunTracks(c: Limits, s: State, t: State, acts: seq<Action>)
    requires c.Valid() && Tracks(s, t)
    ensures Tracks(Run(c, s, acts), Run(c, t, acts))
  {
    hide Step, Tracks;
    if acts != [] {
      RunTracks(c, s, t, acts[..|acts| - 1]);
      StepTracks(c, Run(c, s, acts[..|acts| - 1]), Run(c, t, acts[..|acts| - 1]), acts[|acts| - 1]);
    }
  }

  lemma {:induction false} LogGrows(c: Limits, s: State, acts: seq<Action>)
    requires c.Valid()
    ensures |s.log| <= |Run(c, s, acts).log| && Run(c, s, acts).log[..|s.log|] == s.log
  {
    hide Step, Bucket, CounterName;
    if acts != [] {
      LogGrows(c, s, acts[..|acts| - 1]);
      LogOfStep(c, Run(c, s, acts[..|acts| - 1]), acts[|acts| - 1]);
    }
  }

  lemma {:induction false} NumberedAt(log: seq<Landing>, i: nat)
    requires Numbered(log) && i < |log|
    ensures log[i].count == Landed(log[..i], log[i].bucket, log[i].key) + 1
  {
    if i < |log| - 1 {
      NumberedAt(log[..|log| - 1], i);
      assert log[..|log| - 1][..i] == log[..i];
    }
  }

  lemma {:induction false} SameTimesItself(log: seq<Landing>)
    ensures SameTimes(log, log)
  {
    if log != [] {
      SameTimesItself(log[..|log| - 1]);
    }
  }

  /** A counter that was due early is gone by the time of a late increment. */
  lemma LateIsDropped(c: Limits, s: State, t: State, b: int, k: string, dropped: State)
    requires c.Valid() && Shadows(c, s, t, b, k) && !InTime(c, s.log, b, k, s.clock)
    requires dropped == Step(c, t, ExpireCounter(CounterName(c.prefix, b, k)))
    ensures dropped.clock == s.clock && dropped.calls == t.calls && dropped.log == s.log
    ensures CountOf(dropped, CounterName(c.prefix, b, k)) == 0
  {
    hide Bucket, CounterName, Landed, First, SameElsewhere, CallsDone;
  }

  /** So the increment is numbered 1. */
  lemma LateFindsNothing(c: Limits, s: State, t: State, a: Action, b: int, k: string, dropped: State)
    requires c.Valid() && Shadows(c, s, t, b, k) && Increments(s, a) && OnPair(c, s.calls[a.id], b, k)
    requires !InTime(c, s.log, b, k, s.clock)
    requires dropped == Step(c, t, ExpireCounter(CounterName(c.prefix, b, k)))
    ensures Step(c, dropped, a).log == s.log + [Landing(b, k, s.calls[a.id].readAt, s.clock, 1)]
    ensures Tracks(Step(c, s, a), Step(c, dropped, a))
  {
    LateIsDropped(c, s, t, b, k, dropped);
    hide Bucket, CounterName, Landed, First, Step, CountOf, SameElsewhere, DueEarly, InTime;
    assert t.calls[a.id] == Done(c, s.calls[a.id], b, k);
    LogOfStep(c, dropped, a);
    SameTimesItself(s.log);
    StepTracks(c, s, dropped, a);
  }

  /** Two runs that go on alike after their n-th step and its counterpart. */
  lemma GoingOn(c: Limits, clock: real, acts: seq<Action>, n: nat, early: seq<Action>, drop: Action)
    requires c.Valid() && n < |acts|
    ensures Run(c, Start(clock), acts) == Run(c, Step(c, Run(c, Start(clock), acts[..n]), acts[n]), acts[n + 1..])
    ensures Run(c, Start(clock), early + [drop] + [acts[n]] + acts[n + 1..]) ==
            Run(c, Step(c, Step(c, Run(c, Start(clock), early), drop), acts[n]), acts[n + 1..])
  {
    hide Run, Step;
    RunSnoc(c, Start(clock), acts[..n], acts[n]);
    RunConcat(c, Start(clock), acts[..n] + [acts[n]], acts[n + 1..]);
    assert acts[..n] + [acts[n]] + acts[n + 1..] == acts;
    RunSnoc(c, Start(clock), early, drop);
    RunSnoc(c, Start(clock), early + [drop], acts[n]);
    RunConcat(c, Start(clock), early + [drop] + [acts[n]], acts[n + 1..]);
  }

  lemma NumberedOne(c: Limits, log: seq<Landing>, e: Landing)
    requires c.Valid() && e.count == 1
    ensures Admitted(c, log + [e], e.bucket, e.key) == Admitted(c, log, e.bucket, e.key) + 1
  {
    assert (log + [e])[..|log|] == log;
  }

  /** What a late step finds, in some run with the same log so far. */
  lemma LateStepOne(c: Limits, clock: real, acts: seq<Action>, a: Action, s: State, e: Landing)
    returns (early: seq<Action>, drop: Action, t: State)
    requires c.Valid() && s == Run(c, Start(clock), acts) && Punctual(c, s.log) && !PunctualStep(c, s, a)
    requires e == Landing(Bucket(s.calls[a.id].readAt, c.window), s.calls[a.id].key, s.calls[a.id].readAt, s.clock, 1)
    ensures t == Step(c, Step(c, Run(c, Start(clock), early), drop), a)
    ensures t.log == s.log + [e] && Tracks(Step(c, s, a), t) && Landed(s.log, e.bucket, e.key) > 0
  {
    hide Step, Shadows, First, Punctual, Landed, Bucket, CounterName, Run, Tracks;
    early := Shadow(c, clock, acts, e.bucket, e.key);
    drop := ExpireCounter(CounterName(c.prefix, e.bucket, e.key));
    t := Step(c, Step(c, Run(c, Start(clock), early), drop), a);
    LateFindsNothing(c, s, Run(c, Start(clock), early), a, e.bucket, e.key, Step(c, Run(c, Start(clock), early), drop));
    CountersNeverReset(c, clock, acts);
    assert PairOk(c, s, e.bucket, e.key);
  }

  /** Main result: take any run in which some increment lands two windows or
      more after the first of its bucket and key. There is a run with the very
      same clock readings and landings in which such an increment is numbered 1
      and admitted, on top of the min(n, max_requests) admitted before it. */
  lemma LateIncrementIsAdmitted(c: Limits, clock: real, acts: seq<Action>)
    returns (acts': seq<Action>, log': seq<Landing>, i: nat)
    requires c.Valid() && !Punctual(c, Run(c, Start(clock), acts).log)
    ensures log' == Run(c, Start(clock), acts').log && SameTimes(Run(c, Start(clock), acts).log, log')
    ensures i < |log'| && log'[i].count == 1 && Numbered(log'[..i])
    ensures Landed(log'[..i], log'[i].bucket, log'[i].key) > 0
    ensures Admitted(c, log'[..i + 1], log'[i].bucket, log'[i].key) ==
            (if Landed(log'[..i], log'[i].bucket, log'[i].key) < c.maxRequests
             then Landed(log'[..i], log'[i].bucket, log'[i].key) else c.maxRequests) + 1
  {
    hide Step, Punctual, Landed, Bucket, CounterName, SameTimes, Admitted, Run, Numbered;
    var n := LateStep(c, clock, acts);
    var s, a := Run(c, Start(clock), acts[..n]), acts[n];
    var e := Landing(Bucket(s.calls[a.id].readAt, c.window), s.calls[a.id].key, s.calls[a.id].readAt, s.clock, 1);
    var early, drop, t := LateStepOne(c, clock, acts[..n], a, s, e);
    acts' := early + [drop] + [a] + acts[n + 1..];
    GoingOn(c, clock, acts, n, early, drop);
    RunTracks(c, Step(c, s, a), t, acts[n + 1..]);
    LogGrows(c, t, acts[n + 1..]);
    log', i := Run(c, Start(clock), acts').log, |s.log|;
    assert log'[..i + 1] == s.log + [e];
    assert log'[..i] == s.log && log'[i] == e;
    CountersNeverReset(c, clock, acts[..n]);
    AdmittedByNumber(c, s.log, e.bucket, e.key);
    NumberedOne(c, s.log, e);
  }

  /** Main result: at given times, every run's counts are right, whenever its
      expiries are set and carried out, if and only if every increment lands
      less than two windows after the first of its bucket and key. */
  lemma ExactWhenPunctual(c: Limits, log: seq<Landing>)
    requires c.Valid() && Occurs(c, log)
    ensures AlwaysNumbered(c, log) <==> Punctual(c, log)
  {
    hide Step, Punctual, Landed, Admitted, Run, Numbered, SameTimes;
    if Punctual(c, log) {
      forall clock: real, acts: seq<Action> | SameTimes(log, Run(c, Start(clock), acts).log)
        ensures Numbered(Run(c, Start(clock), acts).log)
      {
        PunctualByTimes(c, log, Run(c, Start(clock), acts).log);
        CountersNeverReset(c, clock, acts);
      }
    } else {
      var clock: real, acts: seq<Action> :| SameTimes(log, Run(c, Start(clock), acts).log);
      var seen := Run(c, Start(clock), acts).log;
      SameTimesBack(log, seen);
      if Punctual(c, seen) {
        PunctualByTimes(c, seen, log);
      }
      var acts', log', i := LateIncrementIsAdmitted(c, clock, acts);
      SameTimesJoin(log, seen, log');
      if Numbered(log') {
        NumberedAt(log', i);
      }
    }
  }

  // ----- two calls -----

  /** Time passes and a call reads the clock. */
  lemma ReadAt(c: Limits, clock: real, acts: seq<Action>, s: State, id: nat, k: string, now: real)
    returns (acts': seq<Action>)
    requires c.Valid() && s == Run(c, Start(clock), acts) && id !in s.calls && s.clock <= now
    ensures Run(c, Start(clock), acts') == s.(clock := now, calls := s.calls[id := Reading(k, now)])
  {
    hide Run;
    acts' := acts + [Tick(now - s.clock)] + [ReadClock(id, k)];
    RunSnoc(c, Start(clock), acts, Tick(now - s.clock));
    RunSnoc(c, Start(clock), acts + [Tick(now - s.clock)], ReadClock(id, k));
  }

  /** Time passes and a call increments. */
  lemma LandAt(c: Limits, clock: real, acts: seq<Action>, s: State, id: nat, now: real)
    returns (acts': seq<Action>, t: State, n: nat)
    requires c.Valid() && s == Run(c, Start(clock), acts) && s.clock <= now
    requires id in s.calls && s.calls[id].Reading?
    ensures t == Run(c, Start(clock), acts') && t.clock == now
    ensures var call := s.calls[id];
            t.log == s.log + [Landing(Bucket(call.readAt, c.window), call.key, call.readAt, now, n)]
    ensures forall other :: other != id ==> (other in t.calls <==> other in s.calls)
    ensures forall other :: other != id && other in s.calls ==> t.calls[other] == s.calls[other]
  {
    hide Run, Bucket, CounterName;
    acts' := acts + [Tick(now - s.clock)] + [Increment(id)];
    RunSnoc(c, Start(clock), acts, Tick(now - s.clock));
    RunSnoc(c, Start(clock), acts + [Tick(now - s.clock)], Increment(id));
    t := Run(c, Start(clock), acts');
    n := t.log[|s.log|].count;
  }

  /** Two increments with their clock readings, numbered as told. */
  function Two(b: int, k: string, r0: real, t0: real, n0: nat, r1: real, t1: real, n1: nat): seq<Landing> {
    [Landing(b, k, r0, t0, n0), Landing(b, k, r1, t1, n1)]
  }

  lemma SameTwo(b: int, k: string, r0: real, t0: real, n0: nat, r1: real, t1: real, n1: nat, m0: nat, m1: nat)
    ensures SameTimes(Two(b, k, r0, t0, n0, r1, t1, n1), Two(b, k, r0, t0, m0, r1, t1, m1))
  {
    var log, log' := Two(b, k, r0, t0, n0, r1, t1, n1), Two(b, k, r0, t0, m0, r1, t1, m1);
    assert SameTimes(log[..1][..0], log'[..1][..0]);
    assert SameTimes(log[..1], log'[..1]);
  }

  /** Any two calls, however their readings and landings interleave, occur. */
  lemma TwoOccur(c: Limits, b: int, k: string, r0: real, t0: real, r1: real, t1: real)
    returns (clock: real, acts: seq<Action>, n0: nat, n1: nat)
    requires c.Valid() && Bucket(r0, c.window) == b == Bucket(r1, c.window) && r0 <= t0 <= t1 && r1 <= t1
    ensures Run(c, Start(clock), acts).log == Two(b, k, r0, t0, n0, r1, t1, n1)
  {
    hide Run, Bucket;
    clock := if r0 <= r1 then r0 else r1;
    acts := [];
    assert Run(c, Start(clock), []) == Start(clock) by {
      RunNothing(c, clock);
    }
    var s;
    if r1 < r0 {
      acts := ReadAt(c, clock, acts, Start(clock), 1, k, r1);
      acts := ReadAt(c, clock, acts, Run(c, Start(clock), acts), 0, k, r0);
      acts, s, n0 := LandAt(c, clock, acts, Run(c, Start(clock), acts), 0, t0);
    } else if r1 <= t0 {
      acts := ReadAt(c, clock, acts, Start(clock), 0, k, r0);
      acts := ReadAt(c, clock, acts, Run(c, Start(clock), acts), 1, k, r1);
      acts, s, n0 := LandAt(c, clock, acts, Run(c, Start(clock), acts), 0, t0);
    } else {
      acts := ReadAt(c, clock, acts, Start(clock), 0, k, r0);
      acts, s, n0 := LandAt(c, clock, acts, Run(c, Start(clock), acts), 0, t0);
      acts := ReadAt(c, clock, acts, s, 1, k, r1);
      s := Run(c, Start(clock), acts);
    }
    acts, s, n1 := LandAt(c, clock, acts, s, 1, t1);
  }

  lemma RunNothing(c: Limits, clock: real)
    requires c.Valid()
    ensures Run(c, Start(clock), []) == Start(clock)
  {
  }

  lemma TwoPunctual(c: Limits, b: int, k: string, r0: real, t0: real, n0: nat, r1: real, t1: real, n1: nat)
    requires c.Valid()
    ensures Punctual(c, Two(b, k, r0, t0, n0, r1, t1, n1)) <==> t1 < t0 + 2.0 * c.window as real
  {
    var log := Two(b, k, r0, t0, n0, r1, t1, n1);
    assert First(log[..1][..0], b, k) == None;
    assert First(log[..1], b, k) == Some(t0);
    assert Punctual(c, log[..1][..0]);
    assert Punctual(c, log[..1]);
  }

  /** Two calls in one bucket on one key are numbered 1 and 2 in every run if
      and only if they land less than two windows apart; otherwise some run
      numbers them both 1. */
  lemma TwoIncrements(c: Limits, b: int, k: string, r0: real, t0: real, r1: real, t1: real)
    returns (clock: real, acts: seq<Action>)
    requires c.Valid() && Bucket(r0, c.window) == b == Bucket(r1, c.window) && r0 <= t0 <= t1 && r1 <= t1
    ensures AlwaysNumbered(c, Two(b, k, r0, t0, 1, r1, t1, 2)) <==> t1 < t0 + 2.0 * c.window as real
    ensures t1 >= t0 + 2.0 * c.window as real ==>
              Run(c, Start(clock), acts).log == Two(b, k, r0, t0, 1, r1, t1, 1)
  {
    hide Run, Bucket, Punctual, SameTimes, AlwaysNumbered, Two, Admitted;
    var n0, n1;
    clock, acts, n0, n1 := TwoOccur(c, b, k, r0, t0, r1, t1);
    SameTwo(b, k, r0, t0, 1, r1, t1, 2, n0, n1);
    ExactWhenPunctual(c, Two(b, k, r0, t0, 1, r1, t1, 2));
    TwoPunctual(c, b, k, r0, t0, 1, r1, t1, 2);
    TwoPunctual(c, b, k, r0, t0, n0, r1, t1, n1);
    if t1 >= t0 + 2.0 * c.window as real {
      var log', i;
      acts, log', i := LateIncrementIsAdmitted(c, clock, acts);
      BothOne(b, k, r0, t0, n0, r1, t1, n1, log', i);
    }
  }

  lemma BothOne(b: int, k: string, r0: real, t0: real, n0: nat, r1: real, t1: real, n1: nat, log: seq<Landing>, i: nat)
    requires SameTimes(Two(b, k, r0, t0, n0, r1, t1, n1), log)
    requires i < |log| && log[i].count == 1 && Numbered(log[..i])
    requires Landed(log[..i], log[i].bucket, log[i].key) > 0
    ensures log == Two(b, k, r0, t0, 1, r1, t1, 1)
  {
    assert i == 1;
    assert Numbered(log[..1]);
    assert log[..1][..0] == [];
    assert log == [log[0], log[1]];
    assert SameTimes(Two(b, k, r0, t0, n0, r1, t1, n1)[..1], log[..1]);
  }
}
