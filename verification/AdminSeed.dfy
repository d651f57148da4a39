/** Seeding the admin user: any number of concurrent calls insert a row under a
    unique index on usernames; a violation rolls back and looks the row up. */
module AdminSeed {
  import opened Wrappers

  type Name(==, !new)

  /** A committed user row and the call that inserted it, if any did. */
  datatype Row = Row(name: Name, creator: Option<nat>)

  /** One call by where it stands. */
  datatype Call =
    | Called(name: Name)
    | Inserted(name: Name)
    | Committed(name: Name)
    | Violated(name: Name)
    | RolledBack(name: Name)
    | Returned(name: Name, created: bool)
    | Reraised(name: Name)
    | Crashed

  datatype State = State(rows: seq<Row>, pending: map<Name, nat>, calls: map<nat, Call>)

  datatype Action =
    | Begin(id: nat, name: Name)
    | Flush(id: nat)
    | Commit(id: nat)
    | Refresh(id: nat)
    | Rollback(id: nat)
    | LookUp(id: nat)
    | Crash(id: nat)

  function RowsNamed(rows: seq<Row>, name: Name): nat {
    if rows == [] then 0
    else RowsNamed(rows[..|rows| - 1], name) + (if rows[|rows| - 1].name == name then 1 else 0)
  }

  function Put(s: State, id: nat, call: Call): State {
    s.(calls := s.calls[id := call])
  }

  function Release(pending: map<Name, nat>, id: nat): map<Name, nat> {
    map n | n in pending && pending[n] != id :: pending[n]
  }

  function CallStep(s: State, a: Action, id: nat, call: Call): State {
    match (a, call)
    case (Flush(_), Called(name)) =>
      // The unique index: a committed name violates it, a pending one blocks.
      if RowsNamed(s.rows, name) > 0 then Put(s, id, Violated(name))
      else if name in s.pending then s
      else Put(s.(pending := s.pending[name := id]), id, Inserted(name))
    case (Commit(_), Inserted(name)) =>
      Put(s.(rows := s.rows + [Row(name, Some(id))], pending := Release(s.pending, id)), id, Committed(name))
    case (Refresh(_), Committed(name)) => Put(s, id, Returned(name, true))
    case (Rollback(_), Violated(name)) => Put(s, id, RolledBack(name))
    case (LookUp(_), RolledBack(name)) =>
      if RowsNamed(s.rows, name) > 0 then Put(s, id, Returned(name, false)) else Put(s, id, Reraised(name))
    case (Crash(_), _) =>
      if call.Returned? || call.Reraised? then s
      else Put(s.(pending := Release(s.pending, id)), id, Crashed)
    case _ => s
  }

  /** One atomic step of any call; one that is not possible changes nothing. */
  function Step(s: State, a: Action): State {
    match a
    case Begin(id, name) => if id in s.calls then s else Put(s, id, Called(name))
    case _ => if a.id in s.calls then CallStep(s, a, a.id, s.calls[a.id]) else s
  }

  function Run(s: State, acts: seq<Action>): State {
    if acts == [] then s else Step(Run(s, acts[..|acts| - 1]), acts[|acts| - 1])
  }

  /** A database at rest: no calls yet, and no two rows of one name. */
  ghost predicate AtRest(s: State) {
    s.pending == map[] && s.calls == map[] && forall name :: RowsNamed(s.rows, name) <= 1
  }

  // ----- the invariant -----

  predicate Holds(rows: seq<Row>, r: Row) {
    rows != [] && (rows[|rows| - 1] == r || Holds(rows[..|rows| - 1], r))
  }

  lemma {:induction false} HoldsCounts(rows: seq<Row>, r: Row)
    requires Holds(rows, r)
    ensures RowsNamed(rows, r.name) >= 1
  {
    if rows[|rows| - 1] != r {
      HoldsCounts(rows[..|rows| - 1], r);
    }
  }

  lemma {:induction false} OnlyRow(rows: seq<Row>, r: Row, q: Row)
    requires Holds(rows, r) && Holds(rows, q) && r.name == q.name && RowsNamed(rows, r.name) <= 1
    ensures r == q
  {
    var init, last := rows[..|rows| - 1], rows[|rows| - 1];
    if r != last {
      HoldsCounts(init, r);
    }
    if q != last {
      HoldsCounts(init, q);
    }
    if r != last && q != last {
      OnlyRow(init, r, q);
    }
  }

  predicate CallOk(s: State, id: nat, call: Call) {
    match call
    case Inserted(name) => name in s.pending && s.pending[name] == id && RowsNamed(s.rows, name) == 0
    case Committed(name) => Holds(s.rows, Row(name, Some(id)))
    case Violated(name) => RowsNamed(s.rows, name) > 0
    case RolledBack(name) => RowsNamed(s.rows, name) > 0
    case Returned(name, created) =>
      RowsNamed(s.rows, name) > 0 && (created ==> Holds(s.rows, Row(name, Some(id))))
    case Reraised(_) => false
    case _ => true
  }

  ghost predicate Invariant(s: State) {
    && (forall id :: id in s.calls ==> CallOk(s, id, s.calls[id]))
    && (forall name :: RowsNamed(s.rows, name) <= 1)
  }

  lemma Snoc(rows: seq<Row>, r: Row, name: Name, q: Row)
    ensures RowsNamed(rows + [r], name) == RowsNamed(rows, name) + (if r.name == name then 1 else 0)
    ensures Holds(rows + [r], q) <==> r == q || Holds(rows, q)
  {
    assert (rows + [r])[..|rows|] == rows;
  }

  /** A commit leaves every other call as good as it was. */
  lemma OtherCallOk(s: State, id: nat, r: Row, t: State, other: nat, call: Call)
    requires CallOk(s, other, call) && other != id && r.name in s.pending && s.pending[r.name] == id
    requires t.rows == s.rows + [r] && t.pending == Release(s.pending, id)
    ensures CallOk(t, other, call)
  {
    hide RowsNamed, Holds;
    if !call.Crashed? {
      Snoc(s.rows, r, call.name, Row(call.name, Some(other)));
    }
  }

  lemma CommitKeepsInvariant(s: State, id: nat, t: State)
    requires Invariant(s) && id in s.calls && s.calls[id].Inserted? && t == CallStep(s, Commit(id), id, s.calls[id])
    ensures Invariant(t)
  {
    var name := s.calls[id].name;
    var r := Row(name, Some(id));
    hide RowsNamed, Holds, Release;
    assert CallOk(s, id, s.calls[id]);
    Snoc(s.rows, r, name, r);
    forall other | other in t.calls ensures CallOk(t, other, t.calls[other]) {
      if other != id {
        assert CallOk(s, other, s.calls[other]);
        OtherCallOk(s, id, r, t, other, s.calls[other]);
      }
    }
    forall n ensures RowsNamed(t.rows, n) <= 1 {
      Snoc(s.rows, r, n, r);
    }
  }

  lemma RestKeepsInvariant(s: State, a: Action, id: nat, t: State)
    requires Invariant(s) && id in s.calls && !(a.Commit? && s.calls[id].Inserted?)
    requires t == CallStep(s, a, id, s.calls[id])
    ensures Invariant(t)
  {
    hide RowsNamed, Holds;
    assert CallOk(s, id, s.calls[id]);
    if s.calls[id].Committed? {
      HoldsCounts(s.rows, Row(s.calls[id].name, Some(id)));
    }
    forall other | other in t.calls ensures CallOk(t, other, t.calls[other]) {
      if other != id {
        assert CallOk(s, other, s.calls[other]);
      }
    }
  }

  lemma StepKeepsInvariant(s: State, a: Action)
    requires Invariant(s)
    ensures Invariant(Step(s, a))
  {
    hide RowsNamed, Holds, CallStep;
    if a.Begin? {
      var t := Step(s, a);
      forall other | other in t.calls ensures CallOk(t, other, t.calls[other]) {
        assert other in s.calls ==> CallOk(s, other, s.calls[other]);
      }
    } else if a.id in s.calls {
      if a.Commit? && s.calls[a.id].Inserted? {
        CommitKeepsInvariant(s, a.id, Step(s, a));
      } else {
        RestKeepsInvariant(s, a, a.id, Step(s, a));
      }
    }
  }

  lemma {:induction false} RunKeepsInvariant(s: State, acts: seq<Action>)
    requires AtRest(s)
    ensures Invariant(Run(s, acts))
  {
    hide Step, RowsNamed;
    if acts != [] {
      RunKeepsInvariant(s, acts[..|acts| - 1]);
      StepKeepsInvariant(Run(s, acts[..|acts| - 1]), acts[|acts| - 1]);
    }
  }

  /** Main result: over every interleaving, as soon as any call for a name has
      returned exactly one such row exists, and no call fails to find the row
      that it collided with. */
  lemma SeededOnReturn(s: State, acts: seq<Action>, id: nat)
    requires AtRest(s) && id in Run(s, acts).calls
    ensures !Run(s, acts).calls[id].Reraised?
    ensures Run(s, acts).calls[id].Returned? ==> RowsNamed(Run(s, acts).rows, Run(s, acts).calls[id].name) == 1
  {
    var t := Run(s, acts);
    hide Run, RowsNamed, Holds, AtRest;
    RunKeepsInvariant(s, acts);
    assert CallOk(t, id, t.calls[id]);
  }

  predicate ReturnedTrue(s: State, id: nat, name: Name) {
    id in s.calls && s.calls[id] == Returned(name, true)
  }

  /** Main result: at most one call for a name returns true. */
  lemma SeedsOnce(s: State, acts: seq<Action>, id: nat, other: nat, name: Name)
    requires AtRest(s) && ReturnedTrue(Run(s, acts), id, name) && ReturnedTrue(Run(s, acts), other, name)
    ensures id == other
  {
    var t := Run(s, acts);
    hide Run, RowsNamed, Holds, AtRest;
    RunKeepsInvariant(s, acts);
    assert CallOk(t, id, t.calls[id]) && CallOk(t, other, t.calls[other]);
    OnlyRow(t.rows, Row(name, Some(id)), Row(name, Some(other)));
  }

  // ----- what becomes of one call -----

  lemma {:induction false} NamedIsThere(rows: seq<Row>, name: Name)
    ensures RowsNamed(rows, name) > 0 <==> exists r :: r in rows && r.name == name
  {
    if rows != [] {
      var init, last := rows[..|rows| - 1], rows[|rows| - 1];
      NamedIsThere(init, name);
      assert forall r :: r in rows <==> r in init || r == last by {
        assert rows == init + [last];
      }
    }
  }

  /** The INSERT violates the index exactly when a row of the name is committed,
      and waits exactly when another one is pending. */
  lemma FlushVerdict(s: State, id: nat, name: Name, t: State)
    requires id in s.calls && s.calls[id] == Called(name) && t == Step(s, Flush(id))
    ensures id in t.calls && t.rows == s.rows
    ensures t.calls[id] == Violated(name) <==> exists r :: r in s.rows && r.name == name
    ensures t == s <==> (forall r :: r in s.rows ==> r.name != name) && name in s.pending
    ensures (forall r :: r in s.rows ==> r.name != name) && name !in s.pending ==> t.calls[id] == Inserted(name)
  {
    hide RowsNamed;
    NamedIsThere(s.rows, name);
    assert t == s ==> t.calls[id] == Called(name);
  }

  /** A violated call that is not cut short returns false if the row is there when
      it is looked up, and raises the error again if it is not. */
  lemma ViolatedReturns(s: State, id: nat, name: Name, t: State)
    requires id in s.calls && s.calls[id] == Violated(name) && t == Step(Step(s, Rollback(id)), LookUp(id))
    ensures t.rows == s.rows && id in t.calls
    ensures t.calls[id] == if exists r :: r in s.rows && r.name == name then Returned(name, false) else Reraised(name)
  {
    hide RowsNamed;
    NamedIsThere(s.rows, name);
  }

  /** An inserted call that is not cut short adds its row and returns true. */
  lemma InsertedReturns(s: State, id: nat, name: Name, t: State)
    requires id in s.calls && s.calls[id] == Inserted(name) && t == Step(Step(s, Commit(id)), Refresh(id))
    ensures t.rows == s.rows + [Row(name, Some(id))]
    ensures id in t.calls && t.calls[id] == Returned(name, true)
    ensures forall other :: other != id && other in s.calls ==> other in t.calls && t.calls[other] == s.calls[other]
    ensures name in s.pending && s.pending[name] == id ==> name !in t.pending
  {
  }

  /** A call that has not answered can be cut short, and then holds no name. */
  lemma CrashReleases(s: State, id: nat, t: State)
    requires id in s.calls && !s.calls[id].Returned? && !s.calls[id].Reraised? && t == Step(s, Crash(id))
    ensures t.rows == s.rows && id in t.calls && t.calls[id] == Crashed
    ensures forall n :: n in t.pending <==> n in s.pending && s.pending[n] != id
    ensures forall other :: other != id && other in s.calls ==> other in t.calls && t.calls[other] == s.calls[other]
  {
  }

  /** Main result: a call whose INSERT is blocked waits for the other session; if
      that one commits it violates the index and returns false, and if that one
      is cut short it inserts and returns true. */
  lemma BlockedCallReturns(
      s: State, acts: seq<Action>, id: nat, other: nat, name: Name, s0: State, s1: State, s2: State)
    requires AtRest(s) && s0 == Run(s, acts)
    requires id in s0.calls && other in s0.calls && id != other
    requires s0.calls[id] == Called(name) && s0.calls[other] == Inserted(name)
    requires s1 == Step(Step(Step(s0, Flush(id)), Commit(other)), Refresh(other))
    requires s2 == Step(Step(s0, Flush(id)), Crash(other))
    ensures var t := Step(Step(Step(s1, Flush(id)), Rollback(id)), LookUp(id));
            t.rows == s0.rows + [Row(name, Some(other))] && id in t.calls && t.calls[id] == Returned(name, false)
    ensures var t := Step(Step(Step(s2, Flush(id)), Commit(id)), Refresh(id));
            t.rows == s0.rows + [Row(name, Some(id))] && id in t.calls && t.calls[id] == Returned(name, true)
  {
    RunKeepsInvariant(s, acts);
    hide Run, RowsNamed, Holds, AtRest, Step;
    assert CallOk(s0, other, s0.calls[other]);
    NamedIsThere(s0.rows, name);
    FlushVerdict(s0, id, name, Step(s0, Flush(id)));
    InsertedReturns(s0, other, name, s1);
    assert Row(name, Some(other)) in s1.rows;
    FlushVerdict(s1, id, name, Step(s1, Flush(id)));
    ViolatedReturns(Step(s1, Flush(id)), id, name, Step(Step(Step(s1, Flush(id)), Rollback(id)), LookUp(id)));
    CrashReleases(s0, other, s2);
    FlushVerdict(s2, id, name, Step(s2, Flush(id)));
    InsertedReturns(Step(s2, Flush(id)), id, name, Step(Step(Step(s2, Flush(id)), Commit(id)), Refresh(id)));
  }

  predicate IsPrefix(p: seq<Row>, q: seq<Row>) {
    |p| <= |q| && p == q[..|p|]
  }

  /** Rows are only ever added, never changed: a call that finds the name taken
      leaves its row alone, and if the name was there from the start no call
      for it returns true. */
  lemma {:induction false} RowsAreKept(s: State, acts: seq<Action>)
    ensures IsPrefix(s.rows, Run(s, acts).rows)
  {
    hide RowsNamed;
    if acts != [] {
      RowsAreKept(s, acts[..|acts| - 1]);
      var t := Run(s, acts[..|acts| - 1]);
      assert Step(t, acts[|acts| - 1]).rows == t.rows || |Step(t, acts[|acts| - 1]).rows| == |t.rows| + 1;
    }
  }

  lemma {:induction false} PrefixHolds(p: seq<Row>, q: seq<Row>, r: Row)
    requires IsPrefix(p, q) && Holds(p, r)
    ensures Holds(q, r)
  {
    if |q| > |p| {
      PrefixHolds(p, q[..|q| - 1], r);
    } else {
      assert p == q;
    }
  }

  /** A name that was seeded before is never seeded again. */
  lemma ExistingNameIsKept(s: State, acts: seq<Action>, r: Row, id: nat)
    requires AtRest(s) && Holds(s.rows, r) && r.creator == None
    requires id in Run(s, acts).calls && Run(s, acts).calls[id].Returned? && Run(s, acts).calls[id].name == r.name
    ensures !Run(s, acts).calls[id].created && Holds(Run(s, acts).rows, r)
  {
    var t := Run(s, acts);
    hide Run, RowsNamed, Holds, AtRest, IsPrefix;
    RunKeepsInvariant(s, acts);
    RowsAreKept(s, acts);
    PrefixHolds(s.rows, t.rows, r);
    assert CallOk(t, id, t.calls[id]);
    if t.calls[id].created {
      OnlyRow(t.rows, r, Row(r.name, Some(id)));
    }
  }
}
