/** The limiter object: two dictionaries changed in place by loops, proved to
    take exactly the steps of the specification. */
module SlidingWindowLimiter {
  import opened Wrappers
  import opened SlidingWindow
  import opened SlidingWindowRuns
  import opened SlidingWindowPromises
  import opened SlidingWindowEviction

  // ----- two dictionaries as one table -----

  /** The table that two dictionaries with a common insertion order stand for. */
  function Zip(order: seq<Key>, events: map<Key, seq<real>>, lastSeen: map<Key, real>): (t: Table)
    ensures |t| == |order|
    ensures forall i :: 0 <= i < |order| ==> t[i].key == order[i]
  {
    if order == [] then []
    else
      var k := order[|order| - 1];
      Zip(order[..|order| - 1], events, lastSeen)
      + [Slot(k, if k in events then events[k] else [], if k in lastSeen then lastSeen[k] else 0.0)]
  }

  /** Both dictionaries hold exactly the keys of the insertion order. */
  predicate InStep(order: seq<Key>, events: map<Key, seq<real>>, lastSeen: map<Key, real>) {
    var t := Zip(order, events, lastSeen);
    Distinct(t) && KeysOf(t) == events.Keys && events.Keys == lastSeen.Keys
  }

  function DropKey(order: seq<Key>, k: Key): seq<Key> {
    if order == [] then []
    else
      var before, last := DropKey(order[..|order| - 1], k), order[|order| - 1];
      if last == k then before else before + [last]
  }

  lemma {:induction false} ZipPrefix(order: seq<Key>, events: map<Key, seq<real>>, lastSeen: map<Key, real>, n: nat)
    requires n <= |order|
    ensures Zip(order[..n], events, lastSeen) == Zip(order, events, lastSeen)[..n]
  {
    if n < |order| {
      ZipPrefix(order[..|order| - 1], events, lastSeen, n);
      assert order[..|order| - 1][..n] == order[..n];
    } else {
      assert order[..n] == order;
    }
  }

  lemma {:induction false} ZipQueue(order: seq<Key>, events: map<Key, seq<real>>, lastSeen: map<Key, real>, k: Key)
    ensures Has(Zip(order, events, lastSeen), k) ==>
              Queue(Zip(order, events, lastSeen), k) == if k in events then events[k] else []
  {
    if order != [] {
      ZipQueue(order[..|order| - 1], events, lastSeen, k);
    }
  }

  /** Popping a key from both dictionaries. */
  lemma {:induction false} ZipDrop(order: seq<Key>, events: map<Key, seq<real>>, lastSeen: map<Key, real>, k: Key)
    ensures Zip(DropKey(order, k), events - {k}, lastSeen - {k}) == Without(Zip(order, events, lastSeen), k)
  {
    if order != [] {
      var before, last := DropKey(order[..|order| - 1], k), order[|order| - 1];
      ZipDrop(order[..|order| - 1], events, lastSeen, k);
      assert (before + [last])[..|before|] == before;
    }
  }

  lemma {:induction false} ZipElsewhere(order: seq<Key>, events: map<Key, seq<real>>, lastSeen: map<Key, real>, s: Slot)
    requires !Has(Zip(order, events, lastSeen), s.key)
    ensures Zip(order, events[s.key := s.queue], lastSeen[s.key := s.seen]) == Zip(order, events, lastSeen)
  {
    if order != [] {
      ZipElsewhere(order[..|order| - 1], events, lastSeen, s);
    }
  }

  /** Assigning a key in both dictionaries. */
  lemma {:induction false} ZipPut(order: seq<Key>, events: map<Key, seq<real>>, lastSeen: map<Key, real>, s: Slot)
    requires Distinct(Zip(order, events, lastSeen))
    ensures Zip(if Has(Zip(order, events, lastSeen), s.key) then order else order + [s.key],
                events[s.key := s.queue], lastSeen[s.key := s.seen])
            == Put(Zip(order, events, lastSeen), s)
  {
    if Has(Zip(order, events, lastSeen), s.key) {
      var init, last := order[..|order| - 1], order[|order| - 1];
      if last == s.key {
        ZipElsewhere(init, events, lastSeen, s);
      } else {
        ZipPut(init, events, lastSeen, s);
      }
    } else {
      ZipElsewhere(order, events, lastSeen, s);
      assert (order + [s.key])[..|order|] == order;
    }
  }

  lemma KeysAfterWithout(t: Table, k: Key)
    ensures KeysOf(Without(t, k)) == KeysOf(t) - {k}
  {
    forall x ensures x in KeysOf(Without(t, k)) <==> x in KeysOf(t) && x != k {
      KeysOfHas(Without(t, k), x);
      KeysOfHas(t, x);
      HasWithout(t, k, x);
    }
  }

  lemma KeysAfterPut(t: Table, s: Slot)
    ensures KeysOf(Put(t, s)) == KeysOf(t) + {s.key}
  {
    forall x ensures x in KeysOf(Put(t, s)) <==> x in KeysOf(t) || x == s.key {
      KeysOfHas(Put(t, s), x);
      KeysOfHas(t, x);
      HasPut(t, s, x);
    }
  }

  lemma InStepAfterDrop(order: seq<Key>, events: map<Key, seq<real>>, lastSeen: map<Key, real>, k: Key)
    requires InStep(order, events, lastSeen)
    ensures InStep(DropKey(order, k), events - {k}, lastSeen - {k})
  {
    ZipDrop(order, events, lastSeen, k);
    DistinctWithout(Zip(order, events, lastSeen), k);
    KeysAfterWithout(Zip(order, events, lastSeen), k);
  }

  lemma InStepAfterPut(
      order: seq<Key>, events: map<Key, seq<real>>, lastSeen: map<Key, real>, s: Slot, order': seq<Key>)
    requires InStep(order, events, lastSeen)
    requires order' == if s.key in lastSeen then order else order + [s.key]
    ensures Zip(order', events[s.key := s.queue], lastSeen[s.key := s.seen]) == Put(Zip(order, events, lastSeen), s)
    ensures InStep(order', events[s.key := s.queue], lastSeen[s.key := s.seen])
  {
    hide Zip, Put, Distinct, KeysOf, Has;
    KeysOfHas(Zip(order, events, lastSeen), s.key);
    ZipPut(order, events, lastSeen, s);
    DistinctPut(Zip(order, events, lastSeen), s);
    KeysAfterPut(Zip(order, events, lastSeen), s);
  }

  // ----- pruning key by key -----

  /** The stale keys of a table, in order. */
  function StaleKeys(t: Table, cutoff: real): seq<Key> {
    if t == [] then []
    else
      var before, s := StaleKeys(t[..|t| - 1], cutoff), t[|t| - 1];
      if Fresh(s.queue, cutoff) then before else before + [s.key]
  }

  function WithoutAll(t: Table, ks: seq<Key>): Table {
    if ks == [] then t else Without(WithoutAll(t, ks[..|ks| - 1]), ks[|ks| - 1])
  }

  lemma {:induction false} StaleKeysAreThere(t: Table, cutoff: real, k: Key)
    requires k in StaleKeys(t, cutoff)
    ensures Has(t, k)
  {
    if k in StaleKeys(t[..|t| - 1], cutoff) {
      StaleKeysAreThere(t[..|t| - 1], cutoff, k);
    }
  }

  lemma {:induction false} WithoutAbsent(t: Table, k: Key)
    requires !Has(t, k)
    ensures Without(t, k) == t
  {
    if t != [] {
      WithoutAbsent(t[..|t| - 1], k);
    }
  }

  lemma WithoutSnoc(t: Table, s: Slot, k: Key)
    ensures Without(t + [s], k) == if s.key == k then Without(t, k) else Without(t, k) + [s]
  {
    assert (t + [s])[..|t|] == t;
  }

  lemma {:induction false} WithoutAllSnoc(t: Table, s: Slot, ks: seq<Key>)
    requires s.key !in ks
    ensures WithoutAll(t + [s], ks) == WithoutAll(t, ks) + [s]
  {
    if ks != [] {
      WithoutAllSnoc(t, s, ks[..|ks| - 1]);
      WithoutSnoc(WithoutAll(t, ks[..|ks| - 1]), s, ks[|ks| - 1]);
    }
  }

  lemma {:induction false} HasWithoutAll(t: Table, ks: seq<Key>, k: Key)
    ensures Has(WithoutAll(t, ks), k) ==> Has(t, k)
  {
    if ks != [] {
      HasWithoutAll(t, ks[..|ks| - 1], k);
      HasWithout(WithoutAll(t, ks[..|ks| - 1]), ks[|ks| - 1], k);
    }
  }

  /** Popping the stale keys one after the other is pruning. */
  lemma {:induction false} PopStaleIsPrune(t: Table, cutoff: real)
    requires Distinct(t)
    ensures WithoutAll(t, StaleKeys(t, cutoff)) == Prune(t, cutoff)
  {
    if t != [] {
      var init, s := t[..|t| - 1], t[|t| - 1];
      var ks := StaleKeys(init, cutoff);
      assert t == init + [s];
      PopStaleIsPrune(init, cutoff);
      if s.key in ks {
        StaleKeysAreThere(init, cutoff, s.key);
      }
      WithoutAllSnoc(init, s, ks);
      if !Fresh(s.queue, cutoff) {
        PopLast(init, s, ks);
      }
    }
  }

  lemma PopLast(init: Table, s: Slot, ks: seq<Key>)
    requires !Has(init, s.key) && s.key !in ks
    ensures WithoutAll(init + [s], ks + [s.key]) == WithoutAll(init, ks)
  {
    var w := WithoutAll(init, ks);
    assert (ks + [s.key])[..|ks|] == ks;
    WithoutAllSnoc(init, s, ks);
    WithoutSnoc(w, s, s.key);
    if Has(w, s.key) {
      HasWithoutAll(init, ks, s.key);
    }
    WithoutAbsent(w, s.key);
  }

  // ----- the limiter -----

  class SlidingWindowRateLimiter {
    const config: Config
    var order: seq<Key>
    var events: map<Key, seq<real>>
    var lastSeen: map<Key, real>
    ghost var requests: seq<Request>

    ghost function Contents(): Table
      reads this
    {
      Zip(order, events, lastSeen)
    }

    /** The dictionaries are in step, and hold what a run of the checks so far leaves. */
    ghost predicate Valid()
      reads this
    {
      && config.Valid()
      && InStep(order, events, lastSeen)
      && Ordered(requests)
      && Contents() == Run(config, requests).table
    }

    constructor (maxRequests: int, windowSeconds: int, maxKeys: int)
      requires maxRequests >= 1 && windowSeconds >= 1 && maxKeys >= 1
      ensures Valid() && config == Config(maxRequests, windowSeconds, maxKeys)
      ensures requests == [] && Contents() == []
    {
      config := Config(maxRequests, windowSeconds, maxKeys);
      order, events, lastSeen := [], map[], map[];
      requests := [];
    }

    method Pop(k: Key)
      requires InStep(order, events, lastSeen)
      modifies this`order, this`events, this`lastSeen
      ensures InStep(order, events, lastSeen)
      ensures Contents() == Without(old(Contents()), k)
    {
      ZipDrop(order, events, lastSeen, k);
      InStepAfterDrop(order, events, lastSeen, k);
      order, events, lastSeen := DropKey(order, k), events - {k}, lastSeen - {k};
    }

    /** What the dictionaries hold for the i-th key. */
    lemma SlotAt(i: nat)
      requires InStep(order, events, lastSeen) && i < |order|
      ensures order[i] in events && order[i] in lastSeen
      ensures Contents()[i] == Slot(order[i], events[order[i]], lastSeen[order[i]])
    {
      ZipPrefix(order, events, lastSeen, i + 1);
      KeysOfAt(Contents(), i);
    }

    /** The list of stale keys, collected before any is popped. */
    method FindStale(cutoff: real) returns (staleKeys: seq<Key>)
      requires InStep(order, events, lastSeen)
      ensures staleKeys == StaleKeys(Contents(), cutoff)
    {
      hide InStep, Zip, StaleKeys, Distinct;
      staleKeys := [];
      StaleKeysNone(Contents(), cutoff);
      for i := 0 to |order|
        invariant |Contents()| == |order|
        invariant staleKeys == StaleKeys(Contents()[..i], cutoff)
      {
        var k := order[i];
        SlotAt(i);
        StaleKeysSnoc(Contents(), cutoff, i);
        if events[k] == [] || events[k][|events[k]| - 1] <= cutoff {
          staleKeys := staleKeys + [k];
        }
      }
      assert Contents()[..|order|] == Contents();
    }

    method PruneStaleKeys(cutoff: real)
      requires InStep(order, events, lastSeen)
      modifies this`order, this`events, this`lastSeen
      ensures InStep(order, events, lastSeen)
      ensures Contents() == Prune(old(Contents()), cutoff)
    {
      hide StaleKeys, Prune, Zip, Without;
      var staleKeys := FindStale(cutoff);
      PopStaleIsPrune(Contents(), cutoff);
      for i := 0 to |staleKeys|
        invariant InStep(order, events, lastSeen)
        invariant Contents() == WithoutAll(old(Contents()), staleKeys[..i])
      {
        assert staleKeys[..i + 1][..i] == staleKeys[..i];
        Pop(staleKeys[i]);
      }
      assert staleKeys[..|staleKeys|] == staleKeys;
    }

    /** The first key, in insertion order, with the least last-seen time. */
    method FindOldest() returns (oldest: Key)
      requires InStep(order, events, lastSeen) && order != []
      ensures Contents() != [] && oldest == Oldest(Contents()).key
    {
      hide InStep, Zip, Oldest;
      oldest := order[0];
      SlotAt(0);
      OldestSnoc(Contents(), 0);
      for i := 1 to |order|
        invariant |Contents()| == |order|
        invariant oldest in lastSeen
        invariant oldest == Oldest(Contents()[..i]).key && lastSeen[oldest] == Oldest(Contents()[..i]).seen
      {
        SlotAt(i);
        OldestSnoc(Contents(), i);
        if lastSeen[order[i]] < lastSeen[oldest] {
          oldest := order[i];
        }
      }
      assert Contents()[..|order|] == Contents();
    }

    method EvictOldestKey()
      requires InStep(order, events, lastSeen)
      modifies this`order, this`events, this`lastSeen
      ensures InStep(order, events, lastSeen)
      ensures Contents() == if old(Contents()) == [] then [] else Without(old(Contents()), Oldest(old(Contents())).key)
    {
      if order != [] {
        var oldest := FindOldest();
        Pop(oldest);
      }
    }

    /** Popping stale heads off a queue. */
    static method PopStale(found: seq<real>, cutoff: real) returns (queue: seq<real>)
      ensures queue == DropStale(found, cutoff)
    {
      queue := found;
      while queue != [] && queue[0] <= cutoff
        invariant DropStale(queue, cutoff) == DropStale(found, cutoff)
        decreases |queue|
      {
        queue := queue[1..];
      }
    }

    /** The end of a check: the verdict on a queue whose stale heads are gone,
        and the two dictionary assignments. */
    method Admit(key: Key, now: real, live: seq<real>) returns (d: Decision)
      requires config.Valid() && InStep(order, events, lastSeen)
      modifies this`order, this`events, this`lastSeen
      ensures InStep(order, events, lastSeen)
      ensures d == Decide(config, live, now)
      ensures Contents() == Put(old(Contents()), Slot(key, Stored(config, live, now), now))
    {
      hide InStep, Zip, Put;
      var queue := live;
      if |queue| >= config.maxRequests {
        d := Decision(false, RetryAfter(queue[0] + config.Window() - now));
      } else {
        queue := queue + [now];
        d := Decision(true, 0);
      }
      InStepAfterPut(order, events, lastSeen, Slot(key, queue, now), if key in lastSeen then order else order + [key]);
      if key !in lastSeen {
        order := order + [key];
      }
      events := events[key := queue];
      lastSeen := lastSeen[key := now];
    }

    /** Finding the key's queue in the pruned dictionaries, making room if the
        key is new. */
    method Find(key: Key) returns (queue: seq<real>)
      requires config.Valid() && InStep(order, events, lastSeen)
      modifies this`order, this`events, this`lastSeen
      ensures InStep(order, events, lastSeen)
      ensures queue == Queue(old(Contents()), key)
      ensures Contents() == Room(old(Contents()), Victim(config, old(Contents()), key))
    {
      KeysOfHas(Contents(), key);
      KeysOfSize(Contents());
      ZipQueue(order, events, lastSeen, key);
      HasQueue(Contents(), key);
      if key in events {
        queue := events[key];
      } else {
        queue := [];
        if |events| >= config.maxKeys {
          EvictOldestKey();
        }
      }
    }

    /** One check is one step of the run. */
    method Check(key: Key, now: real) returns (d: Decision)
      requires Valid() && UpTo(requests, now)
      modifies this
      ensures Valid() && requests == old(requests) + [Request(key, now)]
      ensures Contents() == SlidingWindow.Check(config, old(Contents()), key, now).table
      ensures d == SlidingWindow.Check(config, old(Contents()), key, now).decision
      ensures d == Run(config, requests).decisions[|requests| - 1]
    {
      hide InStep, Zip, Put, Prune, Victim, Queue, DropStale, Decide, Stored, Room, Run;
      var cutoff := now - config.Window();
      PruneStaleKeys(cutoff);
      var queue := Find(key);
      queue := PopStale(queue, cutoff);
      d := Admit(key, now, queue);
      requests := requests + [Request(key, now)];
      NextOfRun(config, old(requests), Request(key, now));
    }
  }

  lemma StaleKeysNone(t: Table, cutoff: real)
    ensures StaleKeys(t[..0], cutoff) == []
  {
  }

  lemma StaleKeysSnoc(t: Table, cutoff: real, i: nat)
    requires i < |t|
    ensures StaleKeys(t[..i + 1], cutoff) ==
            if Fresh(t[i].queue, cutoff) then StaleKeys(t[..i], cutoff) else StaleKeys(t[..i], cutoff) + [t[i].key]
  {
    assert t[..i + 1][..i] == t[..i];
  }

  lemma OldestSnoc(t: Table, i: nat)
    requires i < |t|
    ensures i == 0 ==> Oldest(t[..i + 1]) == t[i]
    ensures i > 0 ==> Oldest(t[..i + 1]) == if t[i].seen < Oldest(t[..i]).seen then t[i] else Oldest(t[..i])
  {
    assert t[..i + 1][..i] == t[..i];
  }

  lemma {:induction false} KeysOfAt(t: Table, i: nat)
    requires i < |t|
    ensures t[i].key in KeysOf(t)
  {
    if i < |t| - 1 {
      KeysOfAt(t[..|t| - 1], i);
    }
  }
}
