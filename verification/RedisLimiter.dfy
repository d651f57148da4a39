/** The limiter object over a server that other calls use at the same time. */
module RedisLimiter {
  import opened Wrappers
  import opened RedisWindow

  predicate IsBy(a: Action, id: nat) {
    (a.ReadClock? || a.Increment? || a.SetExpiry?) && a.id == id
  }

  predicate NoneBy(acts: seq<Action>, id: nat) {
    acts != [] ==> !IsBy(acts[|acts| - 1], id) && NoneBy(acts[..|acts| - 1], id)
  }

  /** A call stands where it stands while others act. */
  lemma {:induction false} OthersLeaveCall(c: Limits, s: State, acts: seq<Action>, id: nat)
    requires c.Valid() && NoneBy(acts, id) && id in s.calls
    ensures id in Run(c, s, acts).calls && Run(c, s, acts).calls[id] == s.calls[id]
  {
    hide CounterName, Bucket;
    if acts != [] {
      OthersLeaveCall(c, s, acts[..|acts| - 1], id);
    }
  }

  /** The server: a clock and counters, with the calls in progress and the log
      of increments that the model keeps beside them. */
  class Server {
    var clock: real
    var counters: map<string, Counter>
    var calls: map<nat, Call>
    var log: seq<Landing>

    ghost function View(): State
      reads this
    {
      State(clock, counters, calls, log)
    }

    constructor (now: real)
      ensures View() == Start(now)
    {
      clock, counters, calls, log := now, map[], map[], [];
    }

    /** time.time() in a call that begins here */
    method ReadTime(c: Limits, id: nat, key: string) returns (now: real)
      requires c.Valid() && id !in calls
      modifies this`calls
      ensures id in calls && calls[id] == Reading(key, now)
      ensures now == clock && View() == Step(c, old(View()), ReadClock(id, key))
    {
      now := clock;
      calls := calls[id := Reading(key, clock)];
    }

    /** INCR */
    method Incr(c: Limits, name: string, id: nat) returns (count: nat)
      requires c.Valid() && id in calls && calls[id].Reading?
      requires name == CounterName(c.prefix, Bucket(calls[id].readAt, c.window), calls[id].key)
      modifies this`counters, this`calls, this`log
      ensures View() == Step(c, old(View()), Increment(id))
      ensures id in calls && calls[id].key == old(calls[id].key) && calls[id].readAt == old(calls[id].readAt)
      ensures !calls[id].Reading? && calls[id].count == count && (calls[id].Counted? <==> count == 1)
    {
      hide CounterName, Bucket;
      count := 1;
      if name in counters {
        count := counters[name].count + 1;
        counters := counters[name := Counter(count, counters[name].deadline)];
      } else {
        counters := counters[name := Counter(count, None)];
      }
      var call := calls[id];
      log := log + [Landing(Bucket(call.readAt, c.window), call.key, call.readAt, clock, count)];
      calls := calls[id := if count == 1 then Counted(call.key, call.readAt, count)
                           else Answered(call.key, call.readAt, count)];
    }

    /** EXPIRE */
    method Expire(c: Limits, name: string, seconds: int, id: nat)
      requires c.Valid() && id in calls && calls[id].Counted? && seconds == c.window * 2
      requires name == CounterName(c.prefix, Bucket(calls[id].readAt, c.window), calls[id].key)
      modifies this`counters, this`calls
      ensures View() == Step(c, old(View()), SetExpiry(id))
      ensures id in calls && calls[id] == Answered(old(calls[id].key), old(calls[id].readAt), old(calls[id].count))
    {
      hide CounterName, Bucket;
      if name in counters {
        counters := counters[name := Counter(counters[name].count, Some(clock + seconds as real))];
      }
      calls := calls[id := Answered(calls[id].key, calls[id].readAt, calls[id].count)];
    }

    /** Whatever everybody else does meanwhile. */
    method Others(c: Limits, acts: seq<Action>, id: nat)
      requires c.Valid() && id in calls && NoneBy(acts, id)
      modifies this
      ensures View() == Run(c, old(View()), acts)
      ensures id in calls && calls[id] == old(calls[id])
    {
      hide Run, Step;
      var s := Run(c, State(clock, counters, calls, log), acts);
      OthersLeaveCall(c, View(), acts, id);
      clock, counters, calls, log := s.clock, s.server, s.calls, s.log;
    }
  }

  /** One call of check among others: what it did, step by step, and its answer. */
  class RedisFixedWindowRateLimiter {
    const limits: Limits
    const server: Server

    constructor (limits: Limits, server: Server)
      requires limits.Valid()
      ensures this.limits == limits && this.server == server
    {
      this.limits, this.server := limits, server;
    }

    /** The call reads the clock, others act, it increments, others act again,
        and if it was first it sets the expiry: a run of the protocol. It
        answers from its own count and its own clock reading. */
    method Check(key: string, id: nat, before: seq<Action>, after: seq<Action>)
      returns (d: Decision, ghost steps: seq<Action>)
      requires limits.Valid() && id !in server.calls && NoneBy(before, id) && NoneBy(after, id)
      modifies server
      ensures server.View() == Run(limits, old(server.View()), steps)
      ensures id in server.calls && server.calls[id].Answered? && server.calls[id].key == key
      ensures server.calls[id].readAt == old(server.clock)
      ensures d == Decide(limits, old(server.clock), server.calls[id].count)
      ensures d.allowed <==> server.calls[id].count <= limits.maxRequests
      ensures d.allowed ==> d.retryAfter == 0
      ensures !d.allowed && old(server.clock) >= 0.0 ==>
                && 1 <= d.retryAfter <= limits.window
                && Bucket(old(server.clock) + d.retryAfter as real, limits.window)
                   == Bucket(old(server.clock), limits.window) + 1
                && forall delay: nat :: delay < d.retryAfter ==> StillIn(old(server.clock), delay, limits.window)
      ensures steps == [ReadClock(id, key)] + before + [Increment(id)] + after
                       + (if server.calls[id].count == 1 then [SetExpiry(id)] else [])
    {
      hide Run, Step, CounterName, Bucket, RedisWindow.RetryAfter, Decide;
      ghost var s0 := server.View();
      var now := server.ReadTime(limits, id, key);
      steps := [] + [ReadClock(id, key)];
      RunNothing(limits, s0);
      RunSnoc(limits, s0, [], ReadClock(id, key));

      server.Others(limits, before, id);
      RunConcat(limits, s0, steps, before);
      steps := steps + before;

      var name := CounterName(limits.prefix, Bucket(now, limits.window), key);
      var count := server.Incr(limits, name, id);
      RunSnoc(limits, s0, steps, Increment(id));
      steps := steps + [Increment(id)];

      server.Others(limits, after, id);
      RunConcat(limits, s0, steps, after);
      steps := steps + after;

      if count == 1 {
        server.Expire(limits, name, limits.window * 2, id);
        RunSnoc(limits, s0, steps, SetExpiry(id));
        steps := steps + [SetExpiry(id)];
      }
      d := Decide(limits, now, count);
      DecidesByCount(limits, now, count);
      if !d.allowed && now >= 0.0 {
        forall delay: nat ensures delay < d.retryAfter ==> StillIn(now, delay, limits.window) {
          DenialReachesNextBucket(limits, now, count, delay, d);
        }
        DenialReachesNextBucket(limits, now, count, 0, d);
      }
    }
  }

  lemma DecidesByCount(c: Limits, now: real, count: nat)
    requires c.Valid()
    ensures Decide(c, now, count).allowed <==> count <= c.maxRequests
    ensures Decide(c, now, count).allowed ==> Decide(c, now, count).retryAfter == 0
  {
  }

  lemma RunNothing(c: Limits, s: State)
    requires c.Valid()
    ensures Run(c, s, []) == s
  {
  }
}
