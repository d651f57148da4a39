/** How many timestamps the sliding-window limiter stores, which key it evicts,
    and exactly when it has to. */
module SlidingWindowEviction {
  import opened Wrappers
  import opened SlidingWindow
  import opened SlidingWindowRuns
  import opened SlidingWindowPromises

  // ----- storage -----

  function Timestamps(t: Table): nat {
    if t == [] then 0 else Timestamps(t[..|t| - 1]) + |t[|t| - 1].queue|
  }

  lemma {:induction false} TimestampsBound(c: Config, t: Table, clock: real)
    requires QueuesOk(c, t, clock)
    ensures Timestamps(t) <= |t| * c.maxRequests
  {
    if t != [] {
      TimestampsBound(c, t[..|t| - 1], clock);
      assert |t| * c.maxRequests == (|t| - 1) * c.maxRequests + c.maxRequests;
    }
  }

  lemma Product(a: nat, b: nat, m: nat)
    requires a <= b
    ensures a * m <= b * m
  {
  }

  /** Main result: the memory of a run is bounded whatever the keys. */
  lemma StorageBound(c: Config, reqs: seq<Request>, now: real)
    requires c.Valid() && OrderedUpTo(reqs, now)
    ensures TableOk(c, Run(c, reqs).table, now)
    ensures Timestamps(Run(c, reqs).table) <= c.maxKeys * c.maxRequests
  {
    hide Check, Run;
    RunKeepsInvariant(c, reqs, now);
    TimestampsBound(c, Run(c, reqs).table, now);
    Product(|Run(c, reqs).table|, c.maxKeys, c.maxRequests);
  }

  // ----- last-seen times -----

  lemma SeenAfterCheck(c: Config, t: Table, r: Request, k: Key, o: Outcome, pruned: Table)
    requires c.Valid() && Distinct(t)
    requires o == Check(c, t, r.key, r.now) && pruned == Prune(t, r.now - c.Window())
    ensures Has(o.table, k) <==> k == r.key || (Has(pruned, k) && o.victim != Some(k))
    ensures Has(o.table, k) ==> k == r.key || Has(t, k)
    ensures Has(o.table, k) ==> Seen(o.table, k) == if k == r.key then r.now else Seen(t, k)
  {
    hide Prune, Put, Without, Decide, Victim, DropStale;
    var live := DropStale(Queue(pruned, r.key), r.now - c.Window());
    var room := Room(pruned, o.victim);
    VictimIsThere(c, pruned, r.key);
    HasPrune(t, r.now - c.Window(), k);
    if o.victim.Some? {
      HasWithout(pruned, o.victim.value, k);
    }
    HasPut(room, Slot(r.key, Stored(c, live, r.now), r.now), k);
  }

  /** The last-seen time of a stored key is the time of its last check. */
  lemma {:induction false} SeenIsLastCheck(c: Config, reqs: seq<Request>, k: Key)
    requires c.Valid() && Ordered(reqs)
    ensures Has(Run(c, reqs).table, k) ==> LastCheck(reqs, k) == Some(Seen(Run(c, reqs).table, k))
  {
    if reqs != [] {
      var init, r := reqs[..|reqs| - 1], reqs[|reqs| - 1];
      var t := Run(c, init).table;
      hide Check;
      SeenIsLastCheck(c, init, k);
      RunKeepsInvariant(c, init, r.now);
      SeenAfterCheck(c, t, r, k, Next(c, init, r), Prune(t, r.now - c.Window()));
    }
  }

  // ----- which key is evicted -----

  lemma PrunedIsLive(c: Config, reqs: seq<Request>, now: real, k: Key)
    requires c.Valid() && OrderedUpTo(reqs, now)
    ensures Has(Prune(Run(c, reqs).table, now - c.Window()), k) <==> Live(c, reqs, k, now) != []
  {
    hide Check, Run;
    var h := Run(c, reqs);
    RunKeepsInvariant(c, reqs, now);
    LiveQueue(c, h, now, k);
    LiveHead(h.table, now - c.Window(), k);
    PrunedQueue(c, h, now, k);
  }

  /** A pruned table holds exactly the keys whose queue has a live event. */
  lemma LiveHead(t: Table, cutoff: real, k: Key)
    requires Distinct(t)
    ensures Has(Prune(t, cutoff), k) <==> Fresh(Queue(Prune(t, cutoff), k), cutoff)
  {
    HasPrune(t, cutoff, k);
    HasQueue(t, k);
  }

  lemma PrunedQueue(c: Config, h: History, now: real, k: Key)
    requires c.Valid() && Invariant(c, h, now)
    ensures Fresh(Queue(Prune(h.table, now - c.Window()), k), now - c.Window())
            <==> DropStale(Queue(Prune(h.table, now - c.Window()), k), now - c.Window()) != []
  {
    var q := Queue(Prune(h.table, now - c.Window()), k);
    QueuesPrune(c, h.table, now, now - c.Window());
    QueueBounds(c, Prune(h.table, now - c.Window()), now, k);
    DropAll(q, now - c.Window());
  }

  lemma {:induction false} DropAll(q: seq<real>, cutoff: real)
    requires Sorted(q)
    ensures DropStale(q, cutoff) != [] <==> Fresh(q, cutoff)
    decreases |q|
  {
    if q != [] {
      SortedTail(q);
      if q[0] <= cutoff {
        DropAll(q[1..], cutoff);
      }
    }
  }

  lemma VictimOfNext(c: Config, reqs: seq<Request>, r: Request)
    requires c.Valid()
    ensures Next(c, reqs, r).victim == Victim(c, Prune(Run(c, reqs).table, r.now - c.Window()), r.key)
  {
    hide Run, Prune, Put, Victim, Decide, DropStale, Queue, Stored, Room;
  }

  /** Among the keys that survive pruning, the victim was seen longest ago. */
  lemma VictimIsOldest(c: Config, t: Table, cutoff: real, key: Key, v: Key, k: Key)
    requires c.Valid() && Distinct(t) && Victim(c, Prune(t, cutoff), key) == Some(v)
    requires Has(Prune(t, cutoff), k)
    ensures v != key && Has(Prune(t, cutoff), v) && Has(t, v) && Has(t, k) && Seen(t, v) <= Seen(t, k)
  {
    hide Prune, Seen, Fresh, Queue, Oldest;
    VictimIsThere(c, Prune(t, cutoff), key);
    DistinctPrune(t, cutoff);
    OldestIsLeast(Prune(t, cutoff), k);
    HasPrune(t, cutoff, k);
    HasPrune(t, cutoff, v);
  }

  /** Main result: the victim is not the incoming key, and among the keys with
      a remembered event in the window it is one checked longest ago, denied
      checks counting. */
  lemma EvictsLeastRecentlyChecked(c: Config, reqs: seq<Request>, r: Request, v: Key, k: Key)
    requires c.Valid() && OrderedUpTo(reqs, r.now)
    requires Next(c, reqs, r).victim == Some(v)
    requires Live(c, reqs, k, r.now) != []
    ensures v != r.key && Live(c, reqs, v, r.now) != []
    ensures LastCheck(reqs, v).Some? && LastCheck(reqs, k).Some? && LastCheck(reqs, v).value <= LastCheck(reqs, k).value
  {
    hide Check, Run, Prune, Victim, Within, Remembered, LastCheck, Has;
    RunKeepsInvariant(c, reqs, r.now);
    VictimOfNext(c, reqs, r);
    PrunedIsLive(c, reqs, r.now, k);
    VictimIsOldest(c, Run(c, reqs).table, r.now - c.Window(), r.key, v, k);
    PrunedIsLive(c, reqs, r.now, v);
    SeenIsLastCheck(c, reqs, k);
    SeenIsLastCheck(c, reqs, v);
  }

  // ----- when a key is evicted -----

  function KeysOf(t: Table): set<Key> {
    if t == [] then {} else KeysOf(t[..|t| - 1]) + {t[|t| - 1].key}
  }

  lemma {:induction false} KeysOfHas(t: Table, k: Key)
    ensures k in KeysOf(t) <==> Has(t, k)
  {
    if t != [] {
      KeysOfHas(t[..|t| - 1], k);
    }
  }

  lemma {:induction false} KeysOfSize(t: Table)
    requires Distinct(t)
    ensures |KeysOf(t)| == |t|
  {
    if t != [] {
      KeysOfSize(t[..|t| - 1]);
      KeysOfHas(t[..|t| - 1], t[|t| - 1].key);
    }
  }

  lemma {:induction false} SomeEntry(j: seq<Entry>, k: Key)
    ensures AcceptedTimes(j, k) != [] || Remembered(j, k) != [] ==> exists e :: e in j && e.key == k
  {
    if j != [] {
      SomeEntry(j[..|j| - 1], k);
      assert j == j[..|j| - 1] + [j[|j| - 1]];
    }
  }

  /** The keys of which the run remembers an event in the window. */
  function LiveKeys(c: Config, reqs: seq<Request>, now: real): set<Key>
    requires c.Valid()
  {
    set e | e in Run(c, reqs).journal && Live(c, reqs, e.key, now) != [] :: e.key
  }

  lemma LiveHas(c: Config, reqs: seq<Request>, now: real, k: Key)
    requires c.Valid()
    ensures k in LiveKeys(c, reqs, now) <==> Live(c, reqs, k, now) != []
  {
    hide Run;
    if Live(c, reqs, k, now) != [] {
      SomeEntry(Run(c, reqs).journal, k);
    }
  }

  lemma LiveIsPruned(c: Config, reqs: seq<Request>, now: real)
    requires c.Valid() && OrderedUpTo(reqs, now)
    ensures LiveKeys(c, reqs, now) == KeysOf(Prune(Run(c, reqs).table, now - c.Window()))
  {
    hide Run, Prune, KeysOf, LiveKeys, Live, Has;
    forall k ensures k in LiveKeys(c, reqs, now) <==> k in KeysOf(Prune(Run(c, reqs).table, now - c.Window())) {
      LiveHas(c, reqs, now, k);
      PrunedIsLive(c, reqs, now, k);
      KeysOfHas(Prune(Run(c, reqs).table, now - c.Window()), k);
    }
  }

  lemma OverflowByTable(c: Config, pruned: Table, key: Key)
    requires c.Valid() && Distinct(pruned) && |pruned| <= c.maxKeys
    ensures Victim(c, pruned, key) == None <==> |KeysOf(pruned) + {key}| <= c.maxKeys
  {
    hide KeysOf, Distinct, Oldest;
    KeysOfSize(pruned);
    KeysOfHas(pruned, key);
    if key in KeysOf(pruned) {
      assert KeysOf(pruned) + {key} == KeysOf(pruned);
    } else {
      assert |KeysOf(pruned) + {key}| == |KeysOf(pruned)| + 1;
    }
  }

  /** Main result: in any run, whatever it has evicted before, a check evicts
      exactly when the keys with a remembered event in the window and the
      incoming key no longer fit. */
  lemma EvictsWhenFull(c: Config, reqs: seq<Request>, r: Request)
    requires c.Valid() && OrderedUpTo(reqs, r.now)
    ensures Next(c, reqs, r).victim == None <==> |LiveKeys(c, reqs, r.now) + {r.key}| <= c.maxKeys
  {
    hide Check, Run, Prune, Victim, LiveKeys, KeysOf;
    RunKeepsInvariant(c, reqs, r.now);
    DistinctPrune(Run(c, reqs).table, r.now - c.Window());
    VictimOfNext(c, reqs, r);
    LiveIsPruned(c, reqs, r.now);
    OverflowByTable(c, Prune(Run(c, reqs).table, r.now - c.Window()), r.key);
  }

  // ----- by the reference -----

  lemma ActiveHas(j: seq<Entry>, lo: real, hi: real, k: Key)
    ensures k in ActiveKeys(j, lo, hi) <==> Within(AcceptedTimes(j, k), lo, hi) != []
  {
    if Within(AcceptedTimes(j, k), lo, hi) != [] {
      SomeEntry(j, k);
    }
  }

  /** The keys that matter to the reference when r arrives: those with an
      accepted event in the window, and r's own. */
  function Crowd(c: Config, reqs: seq<Request>, r: Request): set<Key> {
    ActiveKeys(Reference(c, reqs).log, r.now - c.windowSeconds as real, r.now) + {r.key}
  }

  lemma {:induction false} EvictionFreeKeys(j: seq<Entry>, k: Key)
    requires EvictionFree(j)
    ensures EvictionTimes(j, k) == []
  {
    if j != [] {
      EvictionFreeKeys(j[..|j| - 1], k);
    }
  }

  /** A run that has evicted nothing remembers what the reference does. */
  lemma LiveIsActive(c: Config, reqs: seq<Request>, now: real)
    requires c.Valid() && OrderedUpTo(reqs, now) && EvictionFree(Run(c, reqs).journal)
    ensures LiveKeys(c, reqs, now) == ActiveKeys(Reference(c, reqs).log, now - c.Window(), now)
  {
    var log := Reference(c, reqs).log;
    hide Check, Run, Reference, Within, LiveKeys, ActiveKeys;
    forall k ensures k in LiveKeys(c, reqs, now) <==> k in ActiveKeys(log, now - c.Window(), now) {
      LiveHas(c, reqs, now, k);
      EvictionFreeKeys(Run(c, reqs).journal, k);
      AcceptsAsReference(c, reqs, k);
      NeverEvictedRemembersAll(Run(c, reqs).journal, k);
      ActiveHas(log, now - c.Window(), now, k);
    }
  }

  /** Absent earlier evictions, a check evicts exactly when the crowd no longer
      fits. */
  lemma EvictsWhenCrowded(c: Config, reqs: seq<Request>, r: Request)
    requires c.Valid() && OrderedUpTo(reqs, r.now) && EvictionFree(Run(c, reqs).journal)
    ensures Next(c, reqs, r).victim == None <==> |Crowd(c, reqs, r)| <= c.maxKeys
  {
    hide Check, Run, LiveKeys, ActiveKeys, Reference;
    EvictsWhenFull(c, reqs, r);
    LiveIsActive(c, reqs, r.now);
  }

  lemma EvictionFreeNext(c: Config, reqs: seq<Request>, r: Request)
    requires c.Valid()
    ensures EvictionFree(Run(c, reqs + [r]).journal) <==>
            EvictionFree(Run(c, reqs).journal) && Next(c, reqs, r).victim == None
  {
    hide Check, Run;
    NextOfRun(c, reqs, r);
    var j, o := Run(c, reqs).journal, Next(c, reqs, r);
    var j' := Record(j, o, r);
    assert forall i :: 0 <= i < |j| ==> j'[i] == j[i];
    if o.victim.Some? {
      assert j'[|j|] == Evicted(o.victim.value, r.now);
    }
  }

  ghost predicate NeverCrowded(c: Config, reqs: seq<Request>) {
    forall i :: 0 <= i < |reqs| ==> |Crowd(c, reqs[..i], reqs[i])| <= c.maxKeys
  }

  lemma CrowdedPrefix(c: Config, reqs: seq<Request>, r: Request)
    ensures NeverCrowded(c, reqs + [r]) <==> NeverCrowded(c, reqs) && |Crowd(c, reqs, r)| <= c.maxKeys
  {
    hide Crowd;
    var all := reqs + [r];
    assert forall i :: 0 <= i < |reqs| ==> all[..i] == reqs[..i] && all[i] == reqs[i];
    assert all[..|reqs|] == reqs && all[|reqs|] == r;
  }

  lemma EvictionFreeStep(c: Config, reqs: seq<Request>, r: Request)
    requires c.Valid() && OrderedUpTo(reqs, r.now)
    requires EvictionFree(Run(c, reqs).journal) <==> NeverCrowded(c, reqs)
    ensures EvictionFree(Run(c, reqs + [r]).journal) <==> NeverCrowded(c, reqs + [r])
  {
    hide Check, Run, Crowd, EvictionFree, NeverCrowded, Ordered, UpTo;
    EvictionFreeNext(c, reqs, r);
    CrowdedPrefix(c, reqs, r);
    if EvictionFree(Run(c, reqs).journal) {
      EvictsWhenCrowded(c, reqs, r);
    }
  }

  /** Main result: a run evicts nothing if and only if at every check the keys
      with an accepted event in the window, plus the incoming key, number at
      most max_keys. The condition speaks of the reference alone. */
  lemma {:induction false} EvictionFreeIff(c: Config, reqs: seq<Request>)
    requires c.Valid() && Ordered(reqs)
    ensures EvictionFree(Run(c, reqs).journal) <==> NeverCrowded(c, reqs)
  {
    hide Check, Advance, Crowd, Reference, ActiveKeys;
    if reqs != [] {
      var init, r := reqs[..|reqs| - 1], reqs[|reqs| - 1];
      EvictionFreeIff(c, init);
      assert reqs == init + [r];
      EvictionFreeStep(c, init, r);
    }
  }

  /** So a limiter that is never crowded is the reference, decision by decision. */
  lemma UncrowdedIsReference(c: Config, reqs: seq<Request>, i: nat)
    requires c.Valid() && Ordered(reqs) && NeverCrowded(c, reqs) && i < |reqs|
    ensures Run(c, reqs).decisions[i].allowed == Reference(c, reqs).allowed[i]
  {
    hide Check, Run, Reference, NeverCrowded;
    EvictionFreeIff(c, reqs);
    EvictionFreeKeys(Run(c, reqs).journal, reqs[i].key);
    RefinesReference(c, reqs, reqs[i].key, i);
  }
}
