/** The fixed-window limiter over Redis: the arithmetic of its buckets, the
    names of its counters, and the protocol that its instances and the server
    run step by step. */
module RedisWindow {
  import opened Wrappers
  import opened Text

  // ----- buckets -----

  /** int(now // window) */
  function Bucket(now: real, window: int): int
    requires window >= 1
  {
    (now / window as real).Floor
  }

  /** window - int(now) % window, and 1 should that not be positive */
  function RetryAfter(now: real, window: int): int
    requires window >= 1
  {
    var remaining := window - now.Floor % window;
    if remaining > 0 then remaining else 1
  }

  /** The first instant of a bucket. */
  function BucketStart(b: int, window: int): real {
    b as real * window as real
  }

  lemma NextStart(b: int, window: int)
    ensures BucketStart(b + 1, window) == BucketStart(b, window) + window as real
    ensures BucketStart(b + 2, window) == BucketStart(b + 1, window) + window as real
    ensures BucketStart(b, window) == (b * window) as real
  {
  }

  lemma MulMonotone(a: real, b: real, w: real)
    requires w > 0.0
    ensures a <= b <==> a * w <= b * w
  {
    if a <= b {
      assert (b - a) * w >= 0.0;
    } else {
      assert (a - b) * w > 0.0;
    }
  }

  lemma StartUpTo(now: real, window: int, b: int)
    requires window >= 1
    ensures b as real <= now / window as real <==> BucketStart(b, window) <= now
  {
    var x := now / window as real;
    assert x * window as real == now;
    MulMonotone(b as real, x, window as real);
  }

  lemma FloorBounds(x: real, b: int)
    ensures x.Floor == b <==> b as real <= x < (b + 1) as real
  {
  }

  /** A time lies in bucket b exactly when it lies between its start and the next. */
  lemma BucketBounds(now: real, window: int, b: int)
    requires window >= 1
    ensures Bucket(now, window) == b <==> BucketStart(b, window) <= now < BucketStart(b + 1, window)
  {
    StartUpTo(now, window, b);
    StartUpTo(now, window, b + 1);
    FloorBounds(now / window as real, b);
  }

  /** floor(now / W) == floor(floor(now) / W) */
  lemma BucketOfFloor(now: real, window: int)
    requires window >= 1
    ensures Bucket(now, window) == now.Floor / window
  {
    var q := now.Floor / window;
    assert q * window <= now.Floor < (q + 1) * window;
    NextStart(q, window);
    NextStart(q + 1, window);
    BucketBounds(now, window, q);
  }

  lemma BucketMonotone(t: real, u: real, window: int)
    requires window >= 1 && t <= u
    ensures Bucket(t, window) <= Bucket(u, window)
  {
    StartUpTo(t, window, Bucket(t, window));
    StartUpTo(u, window, Bucket(t, window));
  }

  /** Main result: retry_after lies in [1, W], and it is the least whole delay
      that leaves the bucket; it leads into exactly the next one. */
  lemma RetryReachesNextBucket(now: real, window: int, delay: nat)
    requires now >= 0.0 && window >= 1
    ensures 1 <= RetryAfter(now, window) <= window
    ensures Bucket(now + RetryAfter(now, window) as real, window) == Bucket(now, window) + 1
    ensures Bucket(now + delay as real, window) > Bucket(now, window) <==> delay >= RetryAfter(now, window)
  {
    var n, r := now.Floor, RetryAfter(now, window);
    var b := n / window;
    BucketOfFloor(now, window);
    assert n + r == (b + 1) * window;
    NextStart(b, window);
    NextStart(b + 1, window);
    assert (n + r) as real == BucketStart(b + 1, window);
    BucketBounds(now + r as real, window, b + 1);
    BucketBounds(now, window, b);
    if delay < r {
      BucketBounds(now + delay as real, window, b);
    } else {
      BucketMonotone(now + r as real, now + delay as real, window);
    }
  }

  /** Two times at most a window apart fall in the same or adjacent buckets. */
  lemma AdjacentBuckets(t: real, u: real, window: int)
    requires window >= 1 && t <= u <= t + window as real
    ensures Bucket(u, window) == Bucket(t, window) || Bucket(u, window) == Bucket(t, window) + 1
  {
    var b := Bucket(t, window);
    BucketBounds(t, window, b);
    NextStart(b, window);
    if u < BucketStart(b + 1, window) {
      BucketBounds(u, window, b);
    } else {
      BucketBounds(u, window, b + 1);
    }
  }

  // ----- counter names -----

  function CounterName(prefix: string, bucket: int, key: string): string {
    prefix + ":" + Integer(bucket) + ":" + key
  }

  /** Main result: under one prefix, no two (bucket, key) pairs share a counter,
      whatever characters the keys contain. */
  lemma NamesAreDistinct(prefix: string, b: int, k: string, b': int, k': string)
    requires CounterName(prefix, b, k) == CounterName(prefix, b', k')
    ensures b == b' && k == k'
  {
    var p := prefix + ":";
    hide Integer;
    assert CounterName(prefix, b, k)[|p|..] == Integer(b) + [':'] + k;
    assert CounterName(prefix, b', k')[|p|..] == Integer(b') + [':'] + k';
    IntegerHas(':', b);
    IntegerHas(':', b');
    FirstOccurrence(':', Integer(b), Integer(b'), k, k');
    IntegersAreDistinct(b, b');
  }

  /** Two prefixes can share a counter only if one begins with the other and a
      colon. */
  lemma PrefixesSeparate(prefix: string, b: int, k: string, prefix': string, b': int, k': string)
    requires CounterName(prefix, b, k) == CounterName(prefix', b', k')
    ensures prefix == prefix' || prefix + ":" <= prefix' || prefix' + ":" <= prefix
  {
    var name := CounterName(prefix, b, k);
    hide Integer;
    assert name[..|prefix|] == prefix && name[|prefix|] == ':';
    assert name[..|prefix'|] == prefix' && name[|prefix'|] == ':';
  }

  /** prefix:bucket:key, for one */
  lemma CounterNameExample()
    ensures CounterName("rate", 27, "ip:::1") == "rate:27:ip:::1"
    ensures CounterName("rate", -1, "") == "rate:-1:"
  {
    assert Decimal(2) == "2" && Decimal(27) == "27" && Decimal(1) == "1";
  }

  // ----- the protocol -----

  datatype Limits = Limits(prefix: string, maxRequests: int, window: int) {
    predicate Valid() {
      maxRequests >= 1 && window >= 1
    }
  }

  datatype Decision = Decision(allowed: bool, retryAfter: int)

  /** The verdict on a count. */
  function Decide(c: Limits, readAt: real, count: nat): Decision
    requires c.Valid()
  {
    if count > c.maxRequests then Decision(false, RetryAfter(readAt, c.window)) else Decision(true, 0)
  }

  /** After this whole delay the bucket is the same. */
  predicate StillIn(now: real, delay: nat, window: int)
    requires window >= 1
  {
    Bucket(now + delay as real, window) == Bucket(now, window)
  }

  /** Main result: the retry_after of a denial leads into exactly the next bucket,
      and no smaller whole delay leaves the present one. */
  lemma DenialReachesNextBucket(c: Limits, now: real, count: nat, delay: nat, d: Decision)
    requires c.Valid() && now >= 0.0 && d == Decide(c, now, count) && !d.allowed
    ensures count > c.maxRequests && 1 <= d.retryAfter <= c.window
    ensures Bucket(now + d.retryAfter as real, c.window) == Bucket(now, c.window) + 1
    ensures delay < d.retryAfter ==> StillIn(now, delay, c.window)
  {
    hide Bucket, RetryAfter;
    RetryReachesNextBucket(now, c.window, delay);
    BucketMonotone(now, now + delay as real, c.window);
  }

  datatype Counter = Counter(count: nat, deadline: Option<real>)

  /** One call of check, by where it stands: it has read the clock, or it has
      its count and owes the server an expiry, or it has its answer. A call
      that is never stepped again is an instance that stopped there. */
  datatype Call =
    | Reading(key: string, readAt: real)
    | Counted(key: string, readAt: real, count: nat)
    | Answered(key: string, readAt: real, count: nat)

  /** An increment as it landed on the server. */
  datatype Landing = Landing(bucket: int, key: string, readAt: real, landedAt: real, count: nat)

  datatype State = State(clock: real, server: map<string, Counter>, calls: map<nat, Call>, log: seq<Landing>)

  datatype Action =
    | Tick(elapsed: real)
    | ReadClock(id: nat, key: string)
    | Increment(id: nat)
    | SetExpiry(id: nat)
    | ExpireCounter(name: string)

  function Start(clock: real): State {
    State(clock, map[], map[], [])
  }

  function CountOf(s: State, name: string): nat {
    if name in s.server then s.server[name].count else 0
  }

  function DeadlineOf(s: State, name: string): Option<real> {
    if name in s.server then s.server[name].deadline else None
  }

  /** INCR creates a missing counter at 1 and keeps the deadline of a present one. */
  function AfterIncrement(c: Limits, s: State, id: nat, key: string, readAt: real): State
    requires c.Valid()
  {
    var b := Bucket(readAt, c.window);
    var name := CounterName(c.prefix, b, key);
    var n := CountOf(s, name) + 1;
    s.(server := s.server[name := Counter(n, DeadlineOf(s, name))],
       calls := s.calls[id := if n == 1 then Counted(key, readAt, n) else Answered(key, readAt, n)],
       log := s.log + [Landing(b, key, readAt, s.clock, n)])
  }

  /** EXPIRE does nothing to a missing counter. */
  function AfterExpiry(c: Limits, s: State, id: nat, key: string, readAt: real, count: nat): State
    requires c.Valid()
  {
    var name := CounterName(c.prefix, Bucket(readAt, c.window), key);
    s.(server := if name in s.server
                 then s.server[name := Counter(s.server[name].count, Some(s.clock + 2.0 * c.window as real))]
                 else s.server,
       calls := s.calls[id := Answered(key, readAt, count)])
  }

  predicate Increments(s: State, a: Action) {
    a.Increment? && a.id in s.calls && s.calls[a.id].Reading?
  }

  /** One atomic step; an action that is not possible changes nothing. The
      server may drop a counter at any time from its deadline on. */
  function Step(c: Limits, s: State, a: Action): State
    requires c.Valid()
  {
    match a
    case Tick(elapsed) => if elapsed >= 0.0 then s.(clock := s.clock + elapsed) else s
    case ReadClock(id, key) => if id in s.calls then s else s.(calls := s.calls[id := Reading(key, s.clock)])
    case Increment(id) =>
      if Increments(s, a)
      then AfterIncrement(c, s, id, s.calls[id].key, s.calls[id].readAt) else s
    case SetExpiry(id) =>
      if id in s.calls && s.calls[id].Counted?
      then AfterExpiry(c, s, id, s.calls[id].key, s.calls[id].readAt, s.calls[id].count) else s
    case ExpireCounter(name) =>
      if name in s.server && DeadlineOf(s, name).Some? && DeadlineOf(s, name).value <= s.clock
      then s.(server := s.server - {name}) else s
  }

  function Run(c: Limits, s: State, acts: seq<Action>): State
    requires c.Valid()
  {
    if acts == [] then s else Step(c, Run(c, s, acts[..|acts| - 1]), acts[|acts| - 1])
  }

  lemma RunSnoc(c: Limits, s: State, acts: seq<Action>, a: Action)
    requires c.Valid()
    ensures Run(c, s, acts + [a]) == Step(c, Run(c, s, acts), a)
  {
    assert (acts + [a])[..|acts|] == acts;
  }

  lemma {:induction false} RunConcat(c: Limits, s: State, before: seq<Action>, acts: seq<Action>)
    requires c.Valid()
    ensures Run(c, s, before + acts) == Run(c, Run(c, s, before), acts)
  {
    hide Step;
    if acts == [] {
      assert before + acts == before;
    } else {
      RunConcat(c, s, before, acts[..|acts| - 1]);
      assert (before + acts)[..|before + acts| - 1] == before + acts[..|acts| - 1];
    }
  }

  // ----- reading the log -----

  predicate Matches(e: Landing, b: int, k: string) {
    e.bucket == b && e.key == k
  }

  predicate Allowed(c: Limits, e: Landing) {
    c.Valid() && Decide(c, e.readAt, e.count).allowed
  }

  /** How many increments landed on a bucket and key. */
  function Landed(log: seq<Landing>, b: int, k: string): nat {
    if log == [] then 0
    else Landed(log[..|log| - 1], b, k) + (if Matches(log[|log| - 1], b, k) then 1 else 0)
  }

  function Admitted(c: Limits, log: seq<Landing>, b: int, k: string): nat {
    if log == [] then 0
    else
      var e := log[|log| - 1];
      Admitted(c, log[..|log| - 1], b, k) + (if Matches(e, b, k) && Allowed(c, e) then 1 else 0)
  }

  /** The requests of a key that were admitted with a clock reading in [lo, hi]. */
  function AdmittedBetween(c: Limits, log: seq<Landing>, k: string, lo: real, hi: real): nat {
    if log == [] then 0
    else
      var e := log[|log| - 1];
      AdmittedBetween(c, log[..|log| - 1], k, lo, hi)
      + (if e.key == k && lo <= e.readAt <= hi && Allowed(c, e) then 1 else 0)
  }

  /** When the first increment of a bucket and key landed. */
  function First(log: seq<Landing>, b: int, k: string): Option<real> {
    if log == [] then None
    else
      var before, e := First(log[..|log| - 1], b, k), log[|log| - 1];
      if before.None? && Matches(e, b, k) then Some(e.landedAt) else before
  }

  /** No increment of a bucket and key comes this late: two windows or more
      after the first one landed. */
  predicate InTime(c: Limits, log: seq<Landing>, b: int, k: string, now: real) {
    First(log, b, k).Some? ==> now < First(log, b, k).value + 2.0 * c.window as real
  }

  /** Every increment lands less than two windows after the first landing of its
      bucket and key. */
  predicate Punctual(c: Limits, log: seq<Landing>) {
    log != [] ==>
      var init, e := log[..|log| - 1], log[|log| - 1];
      InTime(c, init, e.bucket, e.key, e.landedAt) && Punctual(c, init)
  }

  /** Each increment is counted after all earlier ones of its bucket and key. */
  predicate Numbered(log: seq<Landing>) {
    log != [] ==>
      var init, e := log[..|log| - 1], log[|log| - 1];
      e.count == Landed(init, e.bucket, e.key) + 1 && Numbered(init)
  }

  // ----- counters never reset under the feet of their bucket -----

  function CounterAt(s: State, name: string): Option<Counter> {
    if name in s.server then Some(s.server[name]) else None
  }

  /** What holds of a counter by when its first increment landed and how many
      did: it holds every increment so far, and can be gone only two windows
      after the first of them. */
  predicate CounterOk(c: Limits, counter: Option<Counter>, first: Option<real>, landed: nat, clock: real) {
    && (first.Some? <==> landed > 0)
    && (first.None? ==> counter.None?)
    && (first.Some? ==>
          && first.value <= clock
          && (counter.None? ==> first.value + 2.0 * c.window as real <= clock)
          && (counter.Some? ==> counter.value.count == landed)
          && (counter.Some? && counter.value.deadline.Some? ==>
                first.value + 2.0 * c.window as real <= counter.value.deadline.value))
  }

  ghost predicate PairOk(c: Limits, s: State, b: int, k: string) {
    CounterOk(c, CounterAt(s, CounterName(c.prefix, b, k)), First(s.log, b, k), Landed(s.log, b, k), s.clock)
  }

  ghost predicate PairsOk(c: Limits, s: State) {
    forall b: int, k: string :: PairOk(c, s, b, k)
  }

  ghost predicate CallsOk(s: State) {
    forall id :: id in s.calls ==> s.calls[id].readAt <= s.clock
  }

  ghost predicate Invariant(c: Limits, s: State) {
    PairsOk(c, s) && Numbered(s.log)
  }

  lemma Snoc(log: seq<Landing>, e: Landing, b: int, k: string)
    ensures Landed(log + [e], b, k) == Landed(log, b, k) + (if Matches(e, b, k) then 1 else 0)
    ensures First(log + [e], b, k) ==
            if First(log, b, k).None? && Matches(e, b, k) then Some(e.landedAt) else First(log, b, k)
  {
    assert (log + [e])[..|log|] == log;
  }

  /** An increment that lands in time finds the full count of its own bucket. */
  lemma IncrementFindsCount(c: Limits, s: State, b: int, k: string)
    requires c.Valid() && PairOk(c, s, b, k) && InTime(c, s.log, b, k, s.clock)
    ensures CountOf(s, CounterName(c.prefix, b, k)) == Landed(s.log, b, k)
  {
    hide CounterName, Landed, First;
  }

  /** An increment that is in time keeps its own counter, */
  lemma CounterAfterIncrement(c: Limits, s: State, name: string, first: Option<real>, landed: nat)
    requires c.Valid() && CounterOk(c, CounterAt(s, name), first, landed, s.clock)
    requires first.Some? ==> s.clock < first.value + 2.0 * c.window as real
    ensures CounterOk(c, Some(Counter(CountOf(s, name) + 1, DeadlineOf(s, name))),
                      if first.Some? then first else Some(s.clock), landed + 1, s.clock)
  {
  }

  /** and leaves the others alone. */
  lemma PairAfterIncrement(c: Limits, s: State, id: nat, key: string, readAt: real, b: int, k: string)
    requires c.Valid() && PairsOk(c, s)
    requires InTime(c, s.log, Bucket(readAt, c.window), key, s.clock)
    ensures PairOk(c, AfterIncrement(c, s, id, key, readAt), b, k)
  {
    var b0 := Bucket(readAt, c.window);
    var name := CounterName(c.prefix, b0, key);
    hide Bucket, CounterName, Landed, First, CounterOk;
    assert PairOk(c, s, b, k);
    Snoc(s.log, Landing(b0, key, readAt, s.clock, CountOf(s, name) + 1), b, k);
    if b == b0 && k == key {
      CounterAfterIncrement(c, s, name, First(s.log, b, k), Landed(s.log, b, k));
    } else if CounterName(c.prefix, b, k) == name {
      NamesAreDistinct(c.prefix, b, k, b0, key);
    }
  }

  lemma PairAfterExpiry(c: Limits, s: State, id: nat, key: string, readAt: real, count: nat, b: int, k: string)
    requires c.Valid() && PairsOk(c, s)
    ensures PairOk(c, AfterExpiry(c, s, id, key, readAt, count), b, k)
  {
    hide Bucket, CounterName, Landed, First;
    assert PairOk(c, s, b, k);
  }

  /** What makes a step punctual: an increment is in time. */
  predicate PunctualStep(c: Limits, s: State, a: Action)
    requires c.Valid()
  {
    Increments(s, a) ==> InTime(c, s.log, Bucket(s.calls[a.id].readAt, c.window), s.calls[a.id].key, s.clock)
  }

  lemma StepKeepsPair(c: Limits, s: State, a: Action, b: int, k: string)
    requires c.Valid() && PairsOk(c, s) && PunctualStep(c, s, a)
    ensures PairOk(c, Step(c, s, a), b, k)
  {
    hide Bucket, CounterName, Landed, First, InTime, AfterIncrement, AfterExpiry;
    assert PairOk(c, s, b, k);
    match a
    case Increment(id) =>
      if id in s.calls && s.calls[id].Reading? {
        PairAfterIncrement(c, s, id, s.calls[id].key, s.calls[id].readAt, b, k);
      }
    case SetExpiry(id) =>
      if id in s.calls && s.calls[id].Counted? {
        PairAfterExpiry(c, s, id, s.calls[id].key, s.calls[id].readAt, s.calls[id].count, b, k);
      }
    case _ =>
  }

  /** Only an increment writes to the log, one landing at the end. */
  lemma LogOfStep(c: Limits, s: State, a: Action)
    requires c.Valid()
    ensures !Increments(s, a) ==> Step(c, s, a).log == s.log
    ensures Increments(s, a) ==>
              var call := s.calls[a.id];
              var b := Bucket(call.readAt, c.window);
              var e := Landing(b, call.key, call.readAt, s.clock, CountOf(s, CounterName(c.prefix, b, call.key)) + 1);
              Step(c, s, a).log == s.log + [e] && (s.log + [e])[..|s.log|] == s.log
  {
    hide Bucket, CounterName;
  }

  lemma StepKeepsNumbers(c: Limits, s: State, a: Action)
    requires c.Valid() && PairsOk(c, s) && Numbered(s.log) && PunctualStep(c, s, a)
    ensures Numbered(Step(c, s, a).log)
  {
    hide Bucket, CounterName, Landed, First, InTime, Step;
    LogOfStep(c, s, a);
    if Increments(s, a) {
      var call := s.calls[a.id];
      var b := Bucket(call.readAt, c.window);
      assert PairOk(c, s, b, call.key);
      IncrementFindsCount(c, s, b, call.key);
    }
  }

  /** The log only grows, and it is punctual as long as each step is. */
  lemma PunctualRun(c: Limits, s: State, a: Action)
    requires c.Valid()
    ensures Punctual(c, Step(c, s, a).log) <==> Punctual(c, s.log) && PunctualStep(c, s, a)
  {
    hide Bucket, CounterName, InTime, Step;
    LogOfStep(c, s, a);
  }

  /** Main result: over every interleaving of any number of calls, stopped
      ones included, in which increments land less than two windows after the
      first of their bucket and key, no counter resets while its bucket still
      receives requests. */
  lemma {:induction false} CountersNeverReset(c: Limits, clock: real, acts: seq<Action>)
    requires c.Valid() && Punctual(c, Run(c, Start(clock), acts).log)
    ensures Invariant(c, Run(c, Start(clock), acts))
  {
    hide Bucket, CounterName, Step, Punctual, PunctualStep;
    if acts != [] {
      var s, a := Run(c, Start(clock), acts[..|acts| - 1]), acts[|acts| - 1];
      PunctualRun(c, s, a);
      CountersNeverReset(c, clock, acts[..|acts| - 1]);
      forall b: int, k: string ensures PairOk(c, Step(c, s, a), b, k) {
        StepKeepsPair(c, s, a, b, k);
      }
      StepKeepsNumbers(c, s, a);
    }
  }

  // ----- what is admitted -----

  lemma {:induction false} AdmittedByNumber(c: Limits, log: seq<Landing>, b: int, k: string)
    requires c.Valid() && Numbered(log)
    ensures Admitted(c, log, b, k) == if Landed(log, b, k) < c.maxRequests then Landed(log, b, k) else c.maxRequests
  {
    if log != [] {
      AdmittedByNumber(c, log[..|log| - 1], b, k);
    }
  }

  /** The i-th increment is admitted exactly when fewer than max_requests landed
      on its bucket and key before it. */
  lemma {:induction false} AdmittedInOrder(c: Limits, log: seq<Landing>, i: nat)
    requires c.Valid() && Numbered(log) && i < |log|
    ensures Allowed(c, log[i]) <==> Landed(log[..i], log[i].bucket, log[i].key) < c.maxRequests
  {
    if i < |log| - 1 {
      AdmittedInOrder(c, log[..|log| - 1], i);
      assert log[..|log| - 1][..i] == log[..i];
    }
  }

  /** Main result: of the n increments of a bucket and key, min(n, max_requests)
      are admitted, */
  lemma ExactAdmission(c: Limits, clock: real, acts: seq<Action>, b: int, k: string)
    requires c.Valid() && Punctual(c, Run(c, Start(clock), acts).log)
    ensures Admitted(c, Run(c, Start(clock), acts).log, b, k) ==
            if Landed(Run(c, Start(clock), acts).log, b, k) < c.maxRequests
            then Landed(Run(c, Start(clock), acts).log, b, k) else c.maxRequests
  {
    hide Run, Landed, Admitted, Punctual;
    CountersNeverReset(c, clock, acts);
    AdmittedByNumber(c, Run(c, Start(clock), acts).log, b, k);
  }

  /** and they are the first ones to land. */
  lemma FirstComeFirstAdmitted(c: Limits, clock: real, acts: seq<Action>, i: nat, log: seq<Landing>)
    requires c.Valid() && log == Run(c, Start(clock), acts).log && Punctual(c, log) && i < |log|
    ensures Allowed(c, log[i]) <==> Landed(log[..i], log[i].bucket, log[i].key) < c.maxRequests
  {
    hide Run, Landed, Punctual;
    CountersNeverReset(c, clock, acts);
    AdmittedInOrder(c, log, i);
  }

  /** The log has each increment under the bucket of its clock reading, and no
      earlier than that reading. */
  predicate Bucketed(c: Limits, log: seq<Landing>)
    requires c.Valid()
  {
    log != [] ==>
      var e := log[|log| - 1];
      e.bucket == Bucket(e.readAt, c.window) && e.readAt <= e.landedAt && Bucketed(c, log[..|log| - 1])
  }

  lemma StepKeepsCalls(c: Limits, s: State, a: Action)
    requires c.Valid() && CallsOk(s)
    ensures CallsOk(Step(c, s, a))
  {
    hide Bucket, CounterName;
  }

  lemma {:induction false} RunIsBucketed(c: Limits, clock: real, acts: seq<Action>)
    requires c.Valid()
    ensures Bucketed(c, Run(c, Start(clock), acts).log) && CallsOk(Run(c, Start(clock), acts))
  {
    hide Bucket, CounterName, Step;
    if acts != [] {
      var s, a := Run(c, Start(clock), acts[..|acts| - 1]), acts[|acts| - 1];
      RunIsBucketed(c, clock, acts[..|acts| - 1]);
      LogOfStep(c, s, a);
      StepKeepsCalls(c, s, a);
    }
  }

  lemma {:induction false} TwoBucketsCover(c: Limits, log: seq<Landing>, k: string, lo: real, hi: real, b: int)
    requires c.Valid() && Bucketed(c, log) && lo <= hi <= lo + c.window as real && b == Bucket(lo, c.window)
    ensures AdmittedBetween(c, log, k, lo, hi) <= Admitted(c, log, b, k) + Admitted(c, log, b + 1, k)
  {
    hide Bucket;
    if log != [] {
      var e := log[|log| - 1];
      TwoBucketsCover(c, log[..|log| - 1], k, lo, hi, b);
      if lo <= e.readAt <= hi {
        AdjacentBuckets(lo, e.readAt, c.window);
      }
    }
  }

  /** Main result: in any interval no longer than a window, by clock readings,
      at most 2 * max_requests requests of a key are admitted. */
  lemma TwiceTheLimit(c: Limits, clock: real, acts: seq<Action>, k: string, lo: real, hi: real)
    requires c.Valid() && Punctual(c, Run(c, Start(clock), acts).log) && lo <= hi <= lo + c.window as real
    ensures AdmittedBetween(c, Run(c, Start(clock), acts).log, k, lo, hi) <= 2 * c.maxRequests
  {
    hide Run, Landed, Admitted, AdmittedBetween, Punctual, Bucket;
    var log, b := Run(c, Start(clock), acts).log, Bucket(lo, c.window);
    CountersNeverReset(c, clock, acts);
    RunIsBucketed(c, clock, acts);
    TwoBucketsCover(c, log, k, lo, hi, b);
    AdmittedByNumber(c, log, b, k);
    AdmittedByNumber(c, log, b + 1, k);
  }

  // ----- what makes a log punctual -----

  /** Every increment lands before the end of the bucket after its own. */
  predicate Timely(c: Limits, log: seq<Landing>) {
    log != [] ==>
      log[|log| - 1].landedAt < BucketStart(log[|log| - 1].bucket + 2, c.window) && Timely(c, log[..|log| - 1])
  }

  /** Every increment lands within a window of its clock reading. */
  predicate Prompt(c: Limits, log: seq<Landing>) {
    log != [] ==> log[|log| - 1].landedAt <= log[|log| - 1].readAt + c.window as real && Prompt(c, log[..|log| - 1])
  }

  /** Nothing lands on a bucket before it starts. */
  lemma {:induction false} FirstInBucket(c: Limits, log: seq<Landing>, b: int, k: string)
    requires c.Valid() && Bucketed(c, log) && First(log, b, k).Some?
    ensures BucketStart(b, c.window) <= First(log, b, k).value
  {
    hide Bucket, BucketStart;
    var init, e := log[..|log| - 1], log[|log| - 1];
    if First(init, b, k).Some? {
      FirstInBucket(c, init, b, k);
    } else {
      BucketBounds(e.readAt, c.window, b);
    }
  }

  /** Increments that land before the end of the bucket after their own are
      punctual. */
  lemma {:induction false} TimelyIsPunctual(c: Limits, log: seq<Landing>)
    requires c.Valid() && Bucketed(c, log) && Timely(c, log)
    ensures Punctual(c, log)
  {
    hide Bucket, BucketStart;
    if log != [] {
      var init, e := log[..|log| - 1], log[|log| - 1];
      TimelyIsPunctual(c, init);
      NextStart(e.bucket, c.window);
      if First(init, e.bucket, e.key).Some? {
        FirstInBucket(c, init, e.bucket, e.key);
      }
    }
  }

  /** Increments that land within a window of their clock reading are timely. */
  lemma {:induction false} PromptIsTimely(c: Limits, log: seq<Landing>)
    requires c.Valid() && Bucketed(c, log) && Prompt(c, log)
    ensures Timely(c, log)
  {
    hide Bucket, BucketStart;
    if log != [] {
      var e := log[|log| - 1];
      PromptIsTimely(c, log[..|log| - 1]);
      BucketBounds(e.readAt, c.window, e.bucket);
      NextStart(e.bucket, c.window);
    }
  }

  /** So no counter of a run resets as long as every increment lands within a
      window of its own clock reading. */
  lemma PromptRunsCount(c: Limits, clock: real, acts: seq<Action>)
    requires c.Valid() && Prompt(c, Run(c, Start(clock), acts).log)
    ensures Punctual(c, Run(c, Start(clock), acts).log) && Numbered(Run(c, Start(clock), acts).log)
  {
    hide Run, Prompt, Timely, Punctual;
    RunIsBucketed(c, clock, acts);
    PromptIsTimely(c, Run(c, Start(clock), acts).log);
    TimelyIsPunctual(c, Run(c, Start(clock), acts).log);
    CountersNeverReset(c, clock, acts);
  }
}
