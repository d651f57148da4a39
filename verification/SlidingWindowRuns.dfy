/** What every run of the sliding-window limiter keeps, and the promises that
    follow from it. */
module SlidingWindowRuns {
  import opened Wrappers
  import opened SlidingWindow

  // ----- filtering times -----

  predicate Sorted(q: seq<real>) {
    |q| >= 2 ==> q[|q| - 2] <= q[|q| - 1] && Sorted(q[..|q| - 1])
  }

  predicate AtMost(q: seq<real>, bound: real) {
    q != [] ==> q[|q| - 1] <= bound && AtMost(q[..|q| - 1], bound)
  }

  lemma {:induction false} SortedTail(q: seq<real>)
    requires Sorted(q) && q != []
    ensures Sorted(q[1..])
    ensures q[0] <= q[|q| - 1]
  {
    if |q| >= 2 {
      SortedTail(q[..|q| - 1]);
      assert q[1..][..|q| - 2] == q[..|q| - 1][1..];
    }
  }

  lemma {:induction false} AtMostWeaker(q: seq<real>, bound: real, bound': real)
    requires AtMost(q, bound) && bound <= bound'
    ensures AtMost(q, bound')
  {
    if q != [] {
      AtMostWeaker(q[..|q| - 1], bound, bound');
    }
  }

  lemma {:induction false} WithinConcat(p: seq<real>, q: seq<real>, lo: real, hi: real)
    ensures Within(p + q, lo, hi) == Within(p, lo, hi) + Within(q, lo, hi)
  {
    if q == [] {
      assert p + q == p;
    } else {
      WithinConcat(p, q[..|q| - 1], lo, hi);
      assert (p + q)[..|p + q| - 1] == p + q[..|q| - 1];
    }
  }

  lemma {:induction false} WithinNone(q: seq<real>, lo: real, hi: real)
    requires AtMost(q, lo)
    ensures Within(q, lo, hi) == []
  {
    if q != [] {
      WithinNone(q[..|q| - 1], lo, hi);
    }
  }

  /** A sorted queue that starts inside a window and ends inside it is inside it. */
  lemma {:induction false} WithinAll(q: seq<real>, lo: real, hi: real)
    requires Sorted(q) && (q != [] ==> lo < q[0] && q[|q| - 1] <= hi)
    ensures Within(q, lo, hi) == q
  {
    if q != [] {
      SortedTail(q);
      WithinAll(q[..|q| - 1], lo, hi);
    }
  }

  /** A narrower window keeps no more. */
  lemma {:induction false} WithinShrinks(q: seq<real>, lo: real, lo': real, hi: real, hi': real)
    requires lo <= lo' && hi' <= hi
    ensures |Within(q, lo', hi')| <= |Within(q, lo, hi)| <= |q|
  {
    if q != [] {
      WithinShrinks(q[..|q| - 1], lo, lo', hi, hi');
    }
  }

  /** Dropping stale heads of a sorted queue is the window filter. */
  lemma {:induction false} DropStaleIsWithin(q: seq<real>, lo: real, hi: real)
    requires Sorted(q) && (q != [] ==> q[|q| - 1] <= hi)
    ensures DropStale(q, lo) == Within(q, lo, hi)
    decreases |q|
  {
    if q != [] && q[0] <= lo {
      SortedTail(q);
      DropStaleIsWithin(q[1..], lo, hi);
      assert q == [q[0]] + q[1..];
      WithinConcat([q[0]], q[1..], lo, hi);
    } else {
      WithinAll(q, lo, hi);
    }
  }

  // ----- appending to a journal -----

  lemma Snoc(j: seq<Entry>, e: Entry, k: Key)
    ensures AcceptedTimes(j + [e], k) ==
            if e == Accepted(k, e.at) then AcceptedTimes(j, k) + [e.at] else AcceptedTimes(j, k)
    ensures EvictionTimes(j + [e], k) ==
            if e == Evicted(k, e.at) then EvictionTimes(j, k) + [e.at] else EvictionTimes(j, k)
    ensures Remembered(j + [e], k) ==
            if e == Evicted(k, e.at) then []
            else if e == Accepted(k, e.at) then Remembered(j, k) + [e.at]
            else Remembered(j, k)
  {
    assert (j + [e])[..|j + [e]| - 1] == j;
  }

  /** The effect of one check on everything the journal says about a key. */
  lemma RecordViews(j: seq<Entry>, o: Outcome, r: Request, k: Key, kept: seq<real>)
    requires kept == if o.victim == Some(k) then [] else Remembered(j, k)
    ensures AcceptedTimes(Record(j, o, r), k) ==
            if o.decision.allowed && r.key == k then AcceptedTimes(j, k) + [r.now] else AcceptedTimes(j, k)
    ensures EvictionTimes(Record(j, o, r), k) ==
            if o.victim == Some(k) then EvictionTimes(j, k) + [r.now] else EvictionTimes(j, k)
    ensures Remembered(Record(j, o, r), k) == if o.decision.allowed && r.key == k then kept + [r.now] else kept
  {
    var evicted := if o.victim.Some? then j + [Evicted(o.victim.value, r.now)] else j;
    if o.victim.Some? {
      Snoc(j, Evicted(o.victim.value, r.now), k);
    }
    Snoc(evicted, Accepted(r.key, r.now), k);
  }

  // ----- the table as a dictionary -----

  lemma {:induction false} HasPrune(t: Table, cutoff: real, k: Key)
    requires Distinct(t)
    ensures Has(Prune(t, cutoff), k) <==> Has(t, k) && Fresh(Queue(t, k), cutoff)
    ensures Queue(Prune(t, cutoff), k) == if Fresh(Queue(t, k), cutoff) then Queue(t, k) else []
    ensures Has(Prune(t, cutoff), k) ==> Seen(Prune(t, cutoff), k) == Seen(t, k)
  {
    if t != [] {
      var init, s := t[..|t| - 1], t[|t| - 1];
      HasPrune(init, cutoff, k);
      assert (Prune(init, cutoff) + [s])[..|Prune(init, cutoff)|] == Prune(init, cutoff);
      if s.key == k {
        HasQueue(init, k);
      }
    }
  }

  lemma {:induction false} HasQueue(t: Table, k: Key)
    ensures Queue(t, k) != [] ==> Has(t, k)
  {
    if t != [] {
      HasQueue(t[..|t| - 1], k);
    }
  }

  lemma {:induction false} HasWithout(t: Table, v: Key, k: Key)
    ensures Has(Without(t, v), k) <==> Has(t, k) && k != v
    ensures k != v ==> Queue(Without(t, v), k) == Queue(t, k)
    ensures k != v && Has(t, k) ==> Seen(Without(t, v), k) == Seen(t, k)
  {
    if t != [] {
      var init, s := t[..|t| - 1], t[|t| - 1];
      HasWithout(init, v, k);
      assert (Without(init, v) + [s])[..|Without(init, v)|] == Without(init, v);
    }
  }

  lemma {:induction false} HasPut(t: Table, s: Slot, k: Key)
    ensures Has(Put(t, s), k) <==> Has(t, k) || k == s.key
    ensures Queue(Put(t, s), k) == if k == s.key then s.queue else Queue(t, k)
    ensures Has(Put(t, s), k) ==> Seen(Put(t, s), k) == if k == s.key then s.seen else Seen(t, k)
    ensures |Put(t, s)| == if Has(t, s.key) then |t| else |t| + 1
  {
    if Has(t, s.key) {
      var init, last := t[..|t| - 1], t[|t| - 1];
      assert (init + [s])[..|init|] == init;
      if last.key != s.key {
        HasPut(init, s, k);
        assert (Put(init, s) + [last])[..|Put(init, s)|] == Put(init, s);
      }
    } else {
      assert (t + [s])[..|t|] == t;
    }
  }

  lemma {:induction false} DistinctPrune(t: Table, cutoff: real)
    requires Distinct(t)
    ensures Distinct(Prune(t, cutoff)) && |Prune(t, cutoff)| <= |t|
  {
    if t != [] {
      var init, s := t[..|t| - 1], t[|t| - 1];
      DistinctPrune(init, cutoff);
      HasPrune(init, cutoff, s.key);
      assert (Prune(init, cutoff) + [s])[..|Prune(init, cutoff)|] == Prune(init, cutoff);
    }
  }

  lemma {:induction false} DistinctWithout(t: Table, v: Key)
    requires Distinct(t)
    ensures Distinct(Without(t, v))
    ensures |Without(t, v)| == if Has(t, v) then |t| - 1 else |t|
  {
    if t != [] {
      var init, s := t[..|t| - 1], t[|t| - 1];
      DistinctWithout(init, v);
      HasWithout(init, v, s.key);
      assert (Without(init, v) + [s])[..|Without(init, v)|] == Without(init, v);
    }
  }

  lemma {:induction false} DistinctPut(t: Table, s: Slot)
    requires Distinct(t)
    ensures Distinct(Put(t, s))
  {
    if Has(t, s.key) {
      var init, last := t[..|t| - 1], t[|t| - 1];
      assert (init + [s])[..|init|] == init;
      if last.key != s.key {
        DistinctPut(init, s);
        HasPut(init, s, last.key);
        assert (Put(init, s) + [last])[..|Put(init, s)|] == Put(init, s);
      }
    } else {
      assert (t + [s])[..|t|] == t;
    }
  }

  lemma {:induction false} OldestIsLeast(t: Table, k: Key)
    requires Has(t, k)
    ensures Has(t, Oldest(t).key) && Oldest(t).seen <= Seen(t, k)
    ensures Distinct(t) ==> Seen(t, Oldest(t).key) == Oldest(t).seen
  {
    var init := t[..|t| - 1];
    if |t| > 1 {
      OldestIsLeast(init, if t[|t| - 1].key == k then init[|init| - 1].key else k);
    }
  }

  // ----- the invariant -----

  predicate QueueOk(c: Config, s: Slot, clock: real) {
    s.queue != [] && |s.queue| <= c.maxRequests && Sorted(s.queue) && s.queue[|s.queue| - 1] <= s.seen <= clock
  }

  predicate QueuesOk(c: Config, t: Table, clock: real) {
    t != [] ==> QueueOk(c, t[|t| - 1], clock) && QueuesOk(c, t[..|t| - 1], clock)
  }

  /** The representation invariant: at most max_keys keys, each with one
      bounded, sorted, non-empty queue no newer than the key's last check. */
  predicate TableOk(c: Config, t: Table, clock: real) {
    Distinct(t) && |t| <= c.maxKeys && QueuesOk(c, t, clock)
  }

  /** q is r without a head that has left the window. */
  predicate Covers(r: seq<real>, q: seq<real>, cutoff: real) {
    if q == [] then AtMost(r, cutoff)
    else r != [] && r[|r| - 1] == q[|q| - 1] && Covers(r[..|r| - 1], q[..|q| - 1], cutoff)
  }

  lemma {:induction false} CoversWithin(r: seq<real>, q: seq<real>, cutoff: real, hi: real)
    requires Covers(r, q, cutoff)
    ensures Within(r, cutoff, hi) == Within(q, cutoff, hi)
  {
    if q == [] {
      WithinNone(r, cutoff, hi);
    } else {
      CoversWithin(r[..|r| - 1], q[..|q| - 1], cutoff, hi);
    }
  }

  lemma {:induction false} CoversAges(r: seq<real>, q: seq<real>, cutoff: real, later: real)
    requires Covers(r, q, cutoff) && cutoff <= later
    ensures Covers(r, q, later)
  {
    if q == [] {
      AtMostWeaker(r, cutoff, later);
    } else {
      CoversAges(r[..|r| - 1], q[..|q| - 1], cutoff, later);
    }
  }

  lemma {:induction false} CoversPop(r: seq<real>, q: seq<real>, cutoff: real)
    requires Covers(r, q, cutoff) && q != [] && q[0] <= cutoff
    ensures Covers(r, q[1..], cutoff)
  {
    if |q| >= 2 {
      CoversPop(r[..|r| - 1], q[..|q| - 1], cutoff);
      assert q[1..][..|q| - 2] == q[..|q| - 1][1..];
    }
  }

  lemma {:induction false} CoversDrop(r: seq<real>, q: seq<real>, cutoff: real)
    requires Covers(r, q, cutoff)
    ensures Covers(r, DropStale(q, cutoff), cutoff)
    decreases |q|
  {
    if q != [] && q[0] <= cutoff {
      CoversPop(r, q, cutoff);
      CoversDrop(r, q[1..], cutoff);
    }
  }

  lemma {:induction false} CoversNone(r: seq<real>, q: seq<real>, cutoff: real)
    requires Covers(r, q, cutoff) && AtMost(q, cutoff)
    ensures Covers(r, [], cutoff)
  {
    if q != [] {
      CoversNone(r[..|r| - 1], q[..|q| - 1], cutoff);
    }
  }

  predicate NoLater(j: seq<Entry>, clock: real) {
    j != [] ==> j[|j| - 1].at <= clock && NoLater(j[..|j| - 1], clock)
  }

  ghost predicate Faithful(c: Config, h: History, clock: real) {
    forall k :: Covers(Remembered(h.journal, k), Queue(h.table, k), clock - c.Window())
  }

  ghost predicate Invariant(c: Config, h: History, clock: real) {
    TableOk(c, h.table, clock) && Faithful(c, h, clock) && NoLater(h.journal, clock)
  }

  lemma {:induction false} NoLaterAges(j: seq<Entry>, clock: real, later: real)
    requires NoLater(j, clock) && clock <= later
    ensures NoLater(j, later)
  {
    if j != [] {
      NoLaterAges(j[..|j| - 1], clock, later);
    }
  }

  lemma {:induction false} QueuesAge(c: Config, t: Table, clock: real, later: real)
    requires QueuesOk(c, t, clock) && clock <= later
    ensures QueuesOk(c, t, later)
  {
    if t != [] {
      QueuesAge(c, t[..|t| - 1], clock, later);
    }
  }

  lemma InvariantAges(c: Config, h: History, clock: real, later: real)
    requires Invariant(c, h, clock) && clock <= later
    ensures Invariant(c, h, later)
  {
    NoLaterAges(h.journal, clock, later);
    QueuesAge(c, h.table, clock, later);
    forall k ensures Covers(Remembered(h.journal, k), Queue(h.table, k), later - c.Window()) {
      CoversAges(Remembered(h.journal, k), Queue(h.table, k), clock - c.Window(), later - c.Window());
    }
  }

  // ----- one check against the journal -----

  lemma {:induction false} SortedAtMost(q: seq<real>, bound: real)
    requires Sorted(q) && (q != [] ==> q[|q| - 1] <= bound)
    ensures AtMost(q, bound)
  {
    if q != [] {
      SortedAtMost(q[..|q| - 1], bound);
    }
  }

  lemma {:induction false} QueueIsOk(c: Config, t: Table, clock: real, k: Key)
    requires QueuesOk(c, t, clock)
    ensures Has(t, k) ==> QueueOk(c, Slot(k, Queue(t, k), Seen(t, k)), clock)
    ensures !Has(t, k) ==> Queue(t, k) == []
  {
    if t != [] {
      QueueIsOk(c, t[..|t| - 1], clock, k);
    }
  }

  lemma QueueBounds(c: Config, t: Table, clock: real, k: Key)
    requires c.Valid() && QueuesOk(c, t, clock)
    ensures Sorted(Queue(t, k)) && |Queue(t, k)| <= c.maxRequests
    ensures AtMost(Queue(t, k), clock)
  {
    QueueIsOk(c, t, clock, k);
    SortedAtMost(Queue(t, k), clock);
  }

  /** Pruning loses nothing of the window. */
  lemma PruneCovers(r: seq<real>, t: Table, cutoff: real, k: Key)
    requires Distinct(t) && Sorted(Queue(t, k)) && Covers(r, Queue(t, k), cutoff)
    ensures Covers(r, Queue(Prune(t, cutoff), k), cutoff)
    ensures Queue(Prune(t, cutoff), k) in {[], Queue(t, k)}
  {
    HasPrune(t, cutoff, k);
    if !Fresh(Queue(t, k), cutoff) {
      SortedAtMost(Queue(t, k), cutoff);
      CoversNone(r, Queue(t, k), cutoff);
    }
  }

  /** Nor does dropping stale heads. */
  lemma DropKeepsWindow(r: seq<real>, q: seq<real>, cutoff: real, now: real)
    requires Covers(r, q, cutoff) && Sorted(q) && AtMost(q, now)
    ensures DropStale(q, cutoff) == Within(r, cutoff, now)
    ensures |Within(r, cutoff, now)| <= |q|
  {
    CoversWithin(r, q, cutoff, now);
    DropStaleIsWithin(q, cutoff, now);
    WithinShrinks(q, cutoff, cutoff, now, now);
  }

  /** What a check works on: the queue after pruning and popping is the
      remembered part of the window. */
  lemma LiveQueue(c: Config, h: History, now: real, k: Key)
    requires c.Valid() && Invariant(c, h, now)
    ensures DropStale(Queue(Prune(h.table, now - c.windowSeconds as real), k), now - c.windowSeconds as real)
            == Within(Remembered(h.journal, k), now - c.windowSeconds as real, now)
    ensures |Within(Remembered(h.journal, k), now - c.windowSeconds as real, now)| <= c.maxRequests
  {
    var r, cutoff := Remembered(h.journal, k), now - c.windowSeconds as real;
    QueueBounds(c, h.table, now, k);
    PruneCovers(r, h.table, cutoff, k);
    DropKeepsWindow(r, Queue(Prune(h.table, cutoff), k), cutoff, now);
  }

  /** A check decides by the events it remembers in (now - W, now]. */
  lemma DecisionByWindow(c: Config, h: History, r: Request, live: seq<real>)
    requires c.Valid() && Invariant(c, h, r.now)
    requires live == Within(Remembered(h.journal, r.key), r.now - c.windowSeconds as real, r.now)
    ensures |live| <= c.maxRequests
    ensures Check(c, h.table, r.key, r.now).decision == Decide(c, live, r.now)
  {
    LiveQueue(c, h, r.now, r.key);
  }

  // ----- a check keeps the invariant -----

  lemma {:induction false} QueuesPrune(c: Config, t: Table, clock: real, cutoff: real)
    requires QueuesOk(c, t, clock)
    ensures QueuesOk(c, Prune(t, cutoff), clock)
  {
    if t != [] {
      var before, s := Prune(t[..|t| - 1], cutoff), t[|t| - 1];
      QueuesPrune(c, t[..|t| - 1], clock, cutoff);
      assert (before + [s])[..|before|] == before;
    }
  }

  lemma {:induction false} QueuesWithout(c: Config, t: Table, clock: real, v: Key)
    requires QueuesOk(c, t, clock)
    ensures QueuesOk(c, Without(t, v), clock)
  {
    if t != [] {
      var before, s := Without(t[..|t| - 1], v), t[|t| - 1];
      QueuesWithout(c, t[..|t| - 1], clock, v);
      assert (before + [s])[..|before|] == before;
    }
  }

  lemma {:induction false} QueuesPut(c: Config, t: Table, clock: real, s: Slot)
    requires QueuesOk(c, t, clock) && QueueOk(c, s, clock)
    ensures QueuesOk(c, Put(t, s), clock)
  {
    if Has(t, s.key) {
      var init, last := t[..|t| - 1], t[|t| - 1];
      assert (init + [s])[..|init|] == init;
      if last.key != s.key {
        QueuesPut(c, init, clock, s);
        assert (Put(init, s) + [last])[..|Put(init, s)|] == Put(init, s);
      }
    } else {
      assert (t + [s])[..|t|] == t;
    }
  }

  lemma {:induction false} SortedDrop(q: seq<real>, cutoff: real)
    requires Sorted(q)
    ensures Sorted(DropStale(q, cutoff))
    decreases |q|
  {
    if q != [] && q[0] <= cutoff {
      SortedTail(q);
      SortedDrop(q[1..], cutoff);
    }
  }

  lemma {:induction false} AtMostDrop(q: seq<real>, cutoff: real, bound: real)
    requires AtMost(q, bound)
    ensures AtMost(DropStale(q, cutoff), bound)
    ensures |DropStale(q, cutoff)| <= |q|
    decreases |q|
  {
    if q != [] && q[0] <= cutoff {
      AtMostTail(q, bound);
      AtMostDrop(q[1..], cutoff, bound);
    }
  }

  lemma {:induction false} AtMostTail(q: seq<real>, bound: real)
    requires AtMost(q, bound) && q != []
    ensures AtMost(q[1..], bound)
  {
    if |q| >= 2 {
      AtMostTail(q[..|q| - 1], bound);
      assert q[1..][..|q| - 2] == q[..|q| - 1][1..];
    }
  }

  lemma StoredOk(c: Config, k: Key, live: seq<real>, now: real)
    requires c.Valid() && Sorted(live) && AtMost(live, now) && |live| <= c.maxRequests
    ensures QueueOk(c, Slot(k, Stored(c, live, now), now), now)
  {
    assert (live + [now])[..|live|] == live;
  }

  /** The victim is in the pruned table and is not the incoming key. */
  lemma VictimIsThere(c: Config, pruned: Table, key: Key)
    requires c.Valid()
    ensures var v := Victim(c, pruned, key); v.Some? ==> Has(pruned, v.value) && v.value != key
  {
    if Victim(c, pruned, key).Some? {
      OldestIsLeast(pruned, pruned[|pruned| - 1].key);
    }
  }

  lemma RoomOk(c: Config, pruned: Table, key: Key, now: real)
    requires c.Valid() && TableOk(c, pruned, now)
    ensures TableOk(c, Room(pruned, Victim(c, pruned, key)), now)
    ensures Has(Room(pruned, Victim(c, pruned, key)), key) || |Room(pruned, Victim(c, pruned, key))| < c.maxKeys
  {
    var v := Victim(c, pruned, key);
    if v.Some? {
      VictimIsThere(c, pruned, key);
      DistinctWithout(pruned, v.value);
      QueuesWithout(c, pruned, now, v.value);
    }
  }

  lemma PutOk(c: Config, t: Table, s: Slot, now: real)
    requires TableOk(c, t, now) && QueueOk(c, s, now) && (Has(t, s.key) || |t| < c.maxKeys)
    ensures TableOk(c, Put(t, s), now)
  {
    DistinctPut(t, s);
    QueuesPut(c, t, now, s);
    HasPut(t, s, s.key);
  }

  lemma SlotOk(c: Config, pruned: Table, key: Key, cutoff: real, now: real)
    requires c.Valid() && QueuesOk(c, pruned, now)
    ensures QueueOk(c, Slot(key, Stored(c, DropStale(Queue(pruned, key), cutoff), now), now), now)
  {
    var q := Queue(pruned, key);
    QueueBounds(c, pruned, now, key);
    SortedDrop(q, cutoff);
    AtMostDrop(q, cutoff, now);
    StoredOk(c, key, DropStale(q, cutoff), now);
  }

  lemma CheckKeepsTable(c: Config, t: Table, key: Key, now: real)
    requires c.Valid() && TableOk(c, t, now)
    ensures TableOk(c, Check(c, t, key, now).table, now)
  {
    var pruned := Prune(t, now - c.Window());
    DistinctPrune(t, now - c.Window());
    QueuesPrune(c, t, now, now - c.Window());
    RoomOk(c, pruned, key, now);
    SlotOk(c, pruned, key, now - c.Window(), now);
    var live := DropStale(Queue(pruned, key), now - c.Window());
    PutOk(c, Room(pruned, Victim(c, pruned, key)), Slot(key, Stored(c, live, now), now), now);
  }

  lemma CoversSnoc(r: seq<real>, q: seq<real>, cutoff: real, x: real)
    requires Covers(r, q, cutoff)
    ensures Covers(r + [x], q + [x], cutoff)
  {
    assert (r + [x])[..|r|] == r && (q + [x])[..|q|] == q;
  }

  lemma {:induction false} EvictedIsGone(t: Table, v: Key)
    ensures Queue(Without(t, v), v) == []
  {
    HasWithout(t, v, v);
    HasQueue(Without(t, v), v);
  }

  /** The queue of each key after a check. */
  lemma QueueAfterCheck(c: Config, t: Table, key: Key, now: real, k: Key, pruned: Table, live: seq<real>, o: Outcome)
    requires c.Valid() && o == Check(c, t, key, now)
    requires pruned == Prune(t, now - c.Window()) && live == DropStale(Queue(pruned, key), now - c.Window())
    ensures k == key ==> Queue(o.table, k) == Stored(c, live, now) && o.victim != Some(k)
    ensures k != key && o.victim == Some(k) ==> Queue(o.table, k) == []
    ensures k != key && o.victim != Some(k) ==> Queue(o.table, k) == Queue(pruned, k)
  {
    VictimIsThere(c, pruned, key);
    HasPut(Room(pruned, o.victim), Slot(key, Stored(c, live, now), now), k);
    if o.victim.Some? {
      HasWithout(pruned, o.victim.value, k);
      EvictedIsGone(pruned, o.victim.value);
    }
  }

  lemma CoversStored(c: Config, r: seq<real>, q: seq<real>, cutoff: real, now: real)
    requires c.Valid() && Covers(r, q, cutoff)
    ensures Covers(if Decide(c, DropStale(q, cutoff), now).allowed then r + [now] else r,
                   Stored(c, DropStale(q, cutoff), now), cutoff)
  {
    CoversDrop(r, q, cutoff);
    CoversSnoc(r, DropStale(q, cutoff), cutoff, now);
  }

  lemma PrunedCovers(c: Config, h: History, now: real, k: Key)
    requires c.Valid() && Invariant(c, h, now)
    ensures Covers(Remembered(h.journal, k), Queue(Prune(h.table, now - c.Window()), k), now - c.Window())
  {
    hide Prune, Remembered, QueuesOk;
    QueueBounds(c, h.table, now, k);
    PruneCovers(Remembered(h.journal, k), h.table, now - c.Window(), k);
  }

  /** A check keeps every key's queue faithful to what the journal remembers:
      the incoming key, whose stale heads it pops, */
  lemma FaithIncoming(c: Config, h: History, r: Request, o: Outcome, pruned: Table)
    requires c.Valid() && Invariant(c, h, r.now)
    requires o == Check(c, h.table, r.key, r.now) && pruned == Prune(h.table, r.now - c.Window())
    ensures Covers(Remembered(Record(h.journal, o, r), r.key), Queue(o.table, r.key), r.now - c.Window())
  {
    var cutoff, q := r.now - c.Window(), Queue(pruned, r.key);
    PrunedCovers(c, h, r.now, r.key);
    QueueAfterCheck(c, h.table, r.key, r.now, r.key, pruned, DropStale(q, cutoff), o);
    RecordViews(h.journal, o, r, r.key, Remembered(h.journal, r.key));
    CoversStored(c, Remembered(h.journal, r.key), q, cutoff, r.now);
  }

  /** and every other key, pruned, evicted or kept. */
  lemma FaithOther(c: Config, h: History, r: Request, k: Key, o: Outcome, pruned: Table)
    requires c.Valid() && Invariant(c, h, r.now) && k != r.key
    requires o == Check(c, h.table, r.key, r.now) && pruned == Prune(h.table, r.now - c.Window())
    ensures Covers(Remembered(Record(h.journal, o, r), k), Queue(o.table, k), r.now - c.Window())
  {
    hide Check, Record, Prune, Remembered, Invariant;
    PrunedCovers(c, h, r.now, k);
    RecordViews(h.journal, o, r, k, if o.victim == Some(k) then [] else Remembered(h.journal, k));
    QueueAfterCheck(c, h.table, r.key, r.now, k, pruned, DropStale(Queue(pruned, r.key), r.now - c.Window()), o);
  }

  lemma RecordNoLater(j: seq<Entry>, o: Outcome, r: Request)
    requires NoLater(j, r.now)
    ensures NoLater(Record(j, o, r), r.now)
  {
    var evicted := if o.victim.Some? then j + [Evicted(o.victim.value, r.now)] else j;
    if o.victim.Some? {
      assert evicted[..|j|] == j;
    }
    assert (evicted + [Accepted(r.key, r.now)])[..|evicted|] == evicted;
  }

  lemma CheckKeepsInvariant(c: Config, h: History, r: Request)
    requires c.Valid() && Invariant(c, h, r.now)
    ensures Invariant(c, Advance(c, h, r), r.now)
  {
    var o := Check(c, h.table, r.key, r.now);
    CheckKeepsTable(c, h.table, r.key, r.now);
    RecordNoLater(h.journal, o, r);
    forall k ensures Covers(Remembered(Record(h.journal, o, r), k), Queue(o.table, k), r.now - c.Window()) {
      if k == r.key {
        FaithIncoming(c, h, r, o, Prune(h.table, r.now - c.Window()));
      } else {
        FaithOther(c, h, r, k, o, Prune(h.table, r.now - c.Window()));
      }
    }
  }

  /** Every run of non-decreasing checks keeps the invariant. */
  lemma {:induction false} RunKeepsInvariant(c: Config, reqs: seq<Request>, clock: real)
    requires c.Valid() && Ordered(reqs) && UpTo(reqs, clock)
    ensures Invariant(c, Run(c, reqs), clock)
  {
    if reqs != [] {
      var init, r := reqs[..|reqs| - 1], reqs[|reqs| - 1];
      RunKeepsInvariant(c, init, r.now);
      CheckKeepsInvariant(c, Run(c, init), r);
      InvariantAges(c, Run(c, reqs), r.now, clock);
    }
  }
}
