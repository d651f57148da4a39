/** The in-memory limiter as a step on values: what one check does to the two
    dictionaries, the journal that a run of checks leaves behind, and the
    never-forgetting reference that the limiter is measured against. */
module SlidingWindow {
  import opened Wrappers

  // The limiter only ever compares keys.
  type Key(==, !new)

  datatype Config = Config(maxRequests: int, windowSeconds: int, maxKeys: int) {
    // The bounds that the settings validator enforces.
    predicate Valid() {
      maxRequests >= 1 && windowSeconds >= 1 && maxKeys >= 1
    }

    function Window(): real {
      windowSeconds as real
    }
  }

  datatype Decision = Decision(allowed: bool, retryAfter: int)

  /** One key with its queue of accepted times and its last-seen time. */
  datatype Slot = Slot(key: Key, queue: seq<real>, seen: real)

  /** The two dictionaries side by side, in insertion order. Keys enter and
      leave both together, so one order serves for both. */
  type Table = seq<Slot>

  predicate Has(t: Table, k: Key) {
    t != [] && (t[|t| - 1].key == k || Has(t[..|t| - 1], k))
  }

  function Queue(t: Table, k: Key): seq<real> {
    if t == [] then []
    else if t[|t| - 1].key == k then t[|t| - 1].queue
    else Queue(t[..|t| - 1], k)
  }

  function Seen(t: Table, k: Key): real
    requires Has(t, k)
  {
    if t[|t| - 1].key == k then t[|t| - 1].seen else Seen(t[..|t| - 1], k)
  }

  predicate Distinct(t: Table) {
    t != [] ==> !Has(t[..|t| - 1], t[|t| - 1].key) && Distinct(t[..|t| - 1])
  }

  // ----- one check -----

  predicate Fresh(q: seq<real>, cutoff: real) {
    q != [] && q[|q| - 1] > cutoff
  }

  /** The keys whose newest event is still in the window. */
  function Prune(t: Table, cutoff: real): Table {
    if t == [] then []
    else
      var before, s := Prune(t[..|t| - 1], cutoff), t[|t| - 1];
      if Fresh(s.queue, cutoff) then before + [s] else before
  }

  function Without(t: Table, k: Key): Table {
    if t == [] then []
    else
      var before, s := Without(t[..|t| - 1], k), t[|t| - 1];
      if s.key == k then before else before + [s]
  }

  /** The slot with the smallest last-seen time, the earliest inserted on a tie. */
  function Oldest(t: Table): Slot
    requires t != []
  {
    if |t| == 1 then t[0]
    else if t[|t| - 1].seen < Oldest(t[..|t| - 1]).seen then t[|t| - 1]
    else Oldest(t[..|t| - 1])
  }

  /** Dictionary assignment: in place when the key is there, at the end when not. */
  function Put(t: Table, s: Slot): Table {
    if !Has(t, s.key) then t + [s]
    else if t[|t| - 1].key == s.key then t[..|t| - 1] + [s]
    else Put(t[..|t| - 1], s) + [t[|t| - 1]]
  }

  function DropStale(q: seq<real>, cutoff: real): seq<real> {
    if q != [] && q[0] <= cutoff then DropStale(q[1..], cutoff) else q
  }

  /** max(1, int(wait)); int() rounds a positive wait down. */
  function RetryAfter(wait: real): int {
    if wait.Floor > 1 then wait.Floor else 1
  }

  /** The verdict on a queue that holds only the window. */
  function Decide(c: Config, queue: seq<real>, now: real): Decision
    requires c.Valid()
  {
    if |queue| >= c.maxRequests then Decision(false, RetryAfter(queue[0] + c.Window() - now))
    else Decision(true, 0)
  }

  /** The key that a check must evict from the pruned table, if any. */
  function Victim(c: Config, pruned: Table, key: Key): Option<Key>
    requires c.Valid()
  {
    if !Has(pruned, key) && |pruned| >= c.maxKeys then Some(Oldest(pruned).key) else None
  }

  function Room(pruned: Table, victim: Option<Key>): Table {
    if victim.Some? then Without(pruned, victim.value) else pruned
  }

  /** The queue that a check stores. */
  function Stored(c: Config, live: seq<real>, now: real): seq<real>
    requires c.Valid()
  {
    if Decide(c, live, now).allowed then live + [now] else live
  }

  datatype Outcome = Outcome(table: Table, decision: Decision, victim: Option<Key>)

  /** Prune, look the key up, make room if it is new, pop its stale heads, decide. */
  function Check(c: Config, t: Table, key: Key, now: real): Outcome
    requires c.Valid()
  {
    var pruned := Prune(t, now - c.Window());
    var victim := Victim(c, pruned, key);
    var live := DropStale(Queue(pruned, key), now - c.Window());
    Outcome(Put(Room(pruned, victim), Slot(key, Stored(c, live, now), now)), Decide(c, live, now), victim)
  }

  // ----- runs -----

  datatype Request = Request(key: Key, now: real)

  datatype Entry = Accepted(key: Key, at: real) | Evicted(key: Key, at: real)

  /** What a run leaves: the table, the journal of accepted events and
      evictions, and the decisions handed out. */
  datatype History = History(table: Table, journal: seq<Entry>, decisions: seq<Decision>)

  ghost predicate Ordered(reqs: seq<Request>) {
    forall i, j :: 0 <= i < j < |reqs| ==> reqs[i].now <= reqs[j].now
  }

  ghost predicate UpTo(reqs: seq<Request>, clock: real) {
    forall i :: 0 <= i < |reqs| ==> reqs[i].now <= clock
  }

  /** The journal entries of one check: an eviction comes before the event
      whose key it made room for. */
  function Record(j: seq<Entry>, o: Outcome, r: Request): seq<Entry> {
    var evicted := if o.victim.Some? then j + [Evicted(o.victim.value, r.now)] else j;
    if o.decision.allowed then evicted + [Accepted(r.key, r.now)] else evicted
  }

  function Advance(c: Config, h: History, r: Request): History
    requires c.Valid()
  {
    var o := Check(c, h.table, r.key, r.now);
    History(o.table, Record(h.journal, o, r), h.decisions + [o.decision])
  }

  function Run(c: Config, reqs: seq<Request>): (h: History)
    requires c.Valid()
    ensures |h.decisions| == |reqs|
  {
    if reqs == [] then History([], [], [])
    else Advance(c, Run(c, reqs[..|reqs| - 1]), reqs[|reqs| - 1])
  }

  // ----- reading a journal -----

  /** The elements of q in the half-open interval (lo, hi]. */
  function Within(q: seq<real>, lo: real, hi: real): seq<real> {
    if q == [] then []
    else
      var before, x := Within(q[..|q| - 1], lo, hi), q[|q| - 1];
      if lo < x <= hi then before + [x] else before
  }

  /** Every accepted time of a key. */
  function AcceptedTimes(j: seq<Entry>, k: Key): seq<real> {
    if j == [] then []
    else
      var before, e := AcceptedTimes(j[..|j| - 1], k), j[|j| - 1];
      if e.Accepted? && e.key == k then before + [e.at] else before
  }

  /** The accepted times of a key since it was last evicted. */
  function Remembered(j: seq<Entry>, k: Key): seq<real> {
    if j == [] then []
    else
      var before, e := Remembered(j[..|j| - 1], k), j[|j| - 1];
      if e.key != k then before
      else if e.Accepted? then before + [e.at]
      else []
  }

  function EvictionTimes(j: seq<Entry>, k: Key): seq<real> {
    if j == [] then []
    else
      var before, e := EvictionTimes(j[..|j| - 1], k), j[|j| - 1];
      if e.Evicted? && e.key == k then before + [e.at] else before
  }

  /** The keys with an accepted event in (lo, hi]. */
  function ActiveKeys(j: seq<Entry>, lo: real, hi: real): set<Key> {
    set e | e in j && Within(AcceptedTimes(j, e.key), lo, hi) != [] :: e.key
  }

  ghost predicate EvictionFree(j: seq<Entry>) {
    forall i :: 0 <= i < |j| ==> j[i].Accepted?
  }

  /** The time of a key's most recent check, denied ones included. */
  function LastCheck(reqs: seq<Request>, k: Key): Option<real> {
    if reqs == [] then None
    else if reqs[|reqs| - 1].key == k then Some(reqs[|reqs| - 1].now)
    else LastCheck(reqs[..|reqs| - 1], k)
  }

  // ----- the reference -----

  datatype ReferenceHistory = ReferenceHistory(log: seq<Entry>, allowed: seq<bool>)

  function ReferenceStep(c: Config, h: ReferenceHistory, r: Request): ReferenceHistory {
    var ok := |Within(AcceptedTimes(h.log, r.key), r.now - c.windowSeconds as real, r.now)| < c.maxRequests;
    ReferenceHistory(if ok then h.log + [Accepted(r.key, r.now)] else h.log, h.allowed + [ok])
  }

  /** A limiter that keeps every accepted event for ever and counts. */
  function Reference(c: Config, reqs: seq<Request>): (h: ReferenceHistory)
    ensures |h.allowed| == |reqs|
  {
    if reqs == [] then ReferenceHistory([], [])
    else ReferenceStep(c, Reference(c, reqs[..|reqs| - 1]), reqs[|reqs| - 1])
  }
}
