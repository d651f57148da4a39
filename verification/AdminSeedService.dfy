/** Seeding the admin user as an object: calls that change the user table in
    place while other calls act between any two of them. */
module AdminSeedService {
  import opened Wrappers
  import opened AdminSeed

  lemma RunSnoc(s: State, acts: seq<Action>, a: Action)
    ensures Run(s, acts + [a]) == Step(Run(s, acts), a)
  {
    assert (acts + [a])[..|acts|] == acts;
  }

  lemma RunOne(s: State, a: Action)
    ensures Run(s, [a]) == Step(s, a)
  {
    assert [a][..0] == [];
  }

  lemma {:induction false} RunConcat(s: State, before: seq<Action>, acts: seq<Action>)
    ensures Run(s, before + acts) == Run(Run(s, before), acts)
  {
    hide Step;
    if acts == [] {
      assert before + acts == before;
    } else {
      RunConcat(s, before, acts[..|acts| - 1]);
      assert (before + acts)[..|before + acts| - 1] == before + acts[..|acts| - 1];
    }
  }

  predicate NoneBy(acts: seq<Action>, id: nat) {
    acts != [] ==> acts[|acts| - 1].id != id && NoneBy(acts[..|acts| - 1], id)
  }

  lemma {:induction false} OthersLeaveCall(s: State, acts: seq<Action>, id: nat)
    requires NoneBy(acts, id) && id in s.calls
    ensures id in Run(s, acts).calls && Run(s, acts).calls[id] == s.calls[id]
  {
    hide RowsNamed, Release;
    if acts != [] {
      OthersLeaveCall(s, acts[..|acts| - 1], id);
    }
  }

  /** True, False, the error raised again, or a call that was cut short while it
      waited for another session's insert. */
  datatype Reply = Created | Existing | Missing | Interrupted

  /** A run that ends with a call given up while another insert blocked its own. */
  predicate CutShort(s: State, steps: seq<Action>, id: nat, name: Name) {
    steps != [] && steps[|steps| - 1] == Crash(id) && name in Run(s, steps[..|steps| - 1]).pending
  }

  lemma CuttingShort(s: State, steps: seq<Action>, id: nat, name: Name)
    requires name in Run(s, steps).pending
    ensures CutShort(s, steps + [Crash(id)], id, name)
  {
    assert (steps + [Crash(id)])[..|steps|] == steps;
  }

  /** The INSERT of a call, tried again after each of `waits`: what others do
      while another session's insert blocks it. */
  function Waiting(id: nat, waits: seq<seq<Action>>): seq<Action> {
    if waits == [] then [Flush(id)]
    else Waiting(id, waits[..|waits| - 1]) + waits[|waits| - 1] + [Flush(id)]
  }

  lemma WaitingOnce(s: State, id: nat, waits: seq<seq<Action>>)
    ensures Run(s, Waiting(id, waits[..0])) == Step(s, Flush(id))
  {
    hide Step;
    assert [Flush(id)][..0] == [];
  }

  lemma WaitingSnoc(id: nat, waits: seq<seq<Action>>, i: nat)
    requires i < |waits|
    ensures Waiting(id, waits[..i + 1]) == Waiting(id, waits[..i]) + waits[i] + [Flush(id)]
  {
    assert waits[..i + 1][..i] == waits[..i];
  }

  /** It is tried again only as long as another insert of the name is pending. */
  ghost predicate KeptWaiting(s: State, id: nat, name: Name, waits: seq<seq<Action>>, n: nat)
    requires n <= |waits|
  {
    forall m :: 0 <= m < n ==> name in Run(s, Waiting(id, waits[..m])).pending
  }

  /** The statements that a call with this reply has run, in order and with what
      others did in between; `waits` are those that it waited for. */
  predicate Script(
      reply: Reply, steps: seq<Action>, id: nat, name: Name, waits: seq<seq<Action>>, patient: bool,
      between: seq<Action>, later: seq<Action>)
  {
    var inserting := [Begin(id, name)] + Waiting(id, waits);
    match reply
    case Created => steps == inserting + between + [Commit(id)] + later + [Refresh(id)]
    case Interrupted => patient && steps == inserting + [Crash(id)]
    case _ => steps == inserting + between + [Rollback(id)] + later + [LookUp(id)]
  }

  /** The user table as one session sees it. */
  class UserTable {
    const id: nat
    var rows: seq<Row>
    var pending: map<Name, nat>
    var calls: map<nat, Call>

    function View(): State
      reads this
    {
      State(rows, pending, calls)
    }

    constructor (id: nat, rows: seq<Row>)
      ensures View() == State(rows, map[], map[]) && this.id == id
    {
      this.id, this.rows, pending, calls := id, rows, map[], map[];
    }

    method Others(acts: seq<Action>)
      requires NoneBy(acts, id) && id in calls
      modifies this
      ensures View() == Run(old(View()), acts)
      ensures id in calls && calls[id] == old(calls[id])
    {
      hide Run;
      OthersLeaveCall(View(), acts, id);
      var s := Run(View(), acts);
      rows, pending, calls := s.rows, s.pending, s.calls;
    }

    /** Whether a row of this name is committed. */
    method Find(name: Name) returns (found: bool)
      ensures found <==> RowsNamed(rows, name) > 0
    {
      found := false;
      for i := 0 to |rows|
        invariant found <==> RowsNamed(rows[..i], name) > 0
      {
        assert rows[..i + 1][..i] == rows[..i];
        found := found || rows[i].name == name;
      }
      assert rows[..|rows|] == rows;
    }

    /** The INSERT, against the unique index. */
    method AddUser() returns (blocked: bool)
      requires id in calls && calls[id].Called?
      modifies this`pending, this`calls
      ensures View() == Step(old(View()), Flush(id)) && id in calls
      ensures blocked ==> calls[id] == old(calls[id]) && calls[id].name in pending
      ensures !blocked ==> calls[id] == Inserted(old(calls[id].name)) || calls[id] == Violated(old(calls[id].name))
    {
      hide RowsNamed;
      var name := calls[id].name;
      blocked := false;
      var taken := Find(name);
      if taken {
        calls := calls[id := Violated(name)];
      } else if name in pending {
        blocked := true;
      } else {
        pending := pending[name := id];
        calls := calls[id := Inserted(name)];
      }
    }

    method AddUserWaiting(waits: seq<seq<Action>>) returns (blocked: bool, ghost n: nat)
      requires id in calls && calls[id].Called?
      requires forall i :: 0 <= i < |waits| ==> NoneBy(waits[i], id)
      modifies this
      ensures n <= |waits| && View() == Run(old(View()), Waiting(id, waits[..n])) && id in calls
      ensures KeptWaiting(old(View()), id, old(calls[id].name), waits, n)
      ensures blocked ==> n == |waits| && calls[id] == old(calls[id]) && calls[id].name in pending
      ensures !blocked ==> calls[id] == Inserted(old(calls[id].name)) || calls[id] == Violated(old(calls[id].name))
    {
      hide Run, Step, NoneBy, Waiting;
      ghost var s0, name := View(), calls[id].name;
      blocked := AddUser();
      WaitingOnce(s0, id, waits);
      var i := 0;
      while blocked && i < |waits|
        invariant 0 <= i <= |waits|
        invariant View() == Run(s0, Waiting(id, waits[..i])) && id in calls
        invariant KeptWaiting(s0, id, name, waits, i)
        invariant blocked ==> calls[id] == old(calls[id]) && name in pending
        invariant !blocked ==> calls[id] == Inserted(name) || calls[id] == Violated(name)
      {
        Others(waits[i]);
        RunConcat(s0, Waiting(id, waits[..i]), waits[i]);
        blocked := AddUser();
        RunSnoc(s0, Waiting(id, waits[..i]) + waits[i], Flush(id));
        WaitingSnoc(id, waits, i);
        i := i + 1;
      }
      n := i;
    }

    method BeginCall(name: Name)
      requires id !in calls
      modifies this`calls
      ensures View() == Step(old(View()), Begin(id, name)) && id in calls && calls[id] == Called(name)
    {
      calls := calls[id := Called(name)];
    }

    method CommitUser()
      requires id in calls && calls[id].Inserted?
      modifies this
      ensures View() == Step(old(View()), Commit(id))
      ensures id in calls && calls[id] == Committed(old(calls[id].name))
    {
      var name := calls[id].name;
      rows := rows + [Row(name, Some(id))];
      pending := Release(pending, id);
      calls := calls[id := Committed(name)];
    }

    /** The refresh of the new row. */
    method RefreshUser()
      requires id in calls && calls[id].Committed?
      modifies this`calls
      ensures View() == Step(old(View()), Refresh(id))
      ensures id in calls && calls[id] == Returned(old(calls[id].name), true)
    {
      calls := calls[id := Returned(calls[id].name, true)];
    }

    /** The handler of an integrity error rolls back, */
    method RollBack()
      requires id in calls && calls[id].Violated?
      modifies this`calls
      ensures View() == Step(old(View()), Rollback(id))
      ensures id in calls && calls[id] == RolledBack(old(calls[id].name))
    {
      calls := calls[id := RolledBack(calls[id].name)];
    }

    /** then looks the row up. */
    method GetUserByUsername() returns (found: bool)
      requires id in calls && calls[id].RolledBack?
      modifies this`calls
      ensures View() == Step(old(View()), LookUp(id))
      ensures id in calls
      ensures calls[id] == if found then Returned(old(calls[id].name), false) else Reraised(old(calls[id].name))
    {
      hide RowsNamed;
      var name := calls[id].name;
      found := Find(name);
      calls := calls[id := if found then Returned(name, false) else Reraised(name)];
    }

    method Interrupt()
      requires id in calls && calls[id].Called?
      modifies this`pending, this`calls
      ensures View() == Step(old(View()), Crash(id)) && id in calls && calls[id] == Crashed
    {
      pending := Release(pending, id);
      calls := calls[id := Crashed];
    }

    /** ensure_admin_user, with what others do while its insert is blocked, before
        it commits or rolls back, and after that. A wait that outlasts `waits`
        interrupts the call. */
    method EnsureAdminUser(name: Name, waits: seq<seq<Action>>, between: seq<Action>, later: seq<Action>)
      returns (reply: Reply, ghost steps: seq<Action>, ghost n: nat)
      requires id !in calls && NoneBy(between, id) && NoneBy(later, id)
      requires forall i :: 0 <= i < |waits| ==> NoneBy(waits[i], id)
      modifies this
      ensures View() == Run(old(View()), steps) && id in calls
      ensures n <= |waits| && Script(reply, steps, id, name, waits[..n], n == |waits|, between, later)
      ensures KeptWaiting(Step(old(View()), Begin(id, name)), id, name, waits, n)
      ensures calls[id] == match reply
                           case Created => Returned(name, true)
                           case Existing => Returned(name, false)
                           case Missing => Reraised(name)
                           case Interrupted => Crashed
      ensures reply.Interrupted? ==> CutShort(old(View()), steps, id, name)
    {
      hide Run, Step, NoneBy, Waiting, KeptWaiting;
      ghost var s0 := View();
      BeginCall(name);
      RunOne(s0, Begin(id, name));

      var blocked;
      blocked, n := AddUserWaiting(waits);
      RunConcat(s0, [Begin(id, name)], Waiting(id, waits[..n]));
      steps := [Begin(id, name)] + Waiting(id, waits[..n]);
      if blocked {
        CuttingShort(s0, steps, id, name);
        RunSnoc(s0, steps, Crash(id));
        Interrupt();
        reply, steps := Interrupted, steps + [Crash(id)];
        return;
      }

      Others(between);
      RunConcat(s0, steps, between);
      steps := steps + between;
      if calls[id].Inserted? {
        CommitUser();
        RunSnoc(s0, steps, Commit(id));
        Others(later);
        RunConcat(s0, steps + [Commit(id)], later);
        RefreshUser();
        RunSnoc(s0, steps + [Commit(id)] + later, Refresh(id));
        reply, steps := Created, steps + [Commit(id)] + later + [Refresh(id)];
      } else {
        RollBack();
        RunSnoc(s0, steps, Rollback(id));
        Others(later);
        RunConcat(s0, steps + [Rollback(id)], later);
        var found := GetUserByUsername();
        RunSnoc(s0, steps + [Rollback(id)] + later, LookUp(id));
        reply := if found then Existing else Missing;
        steps := steps + [Rollback(id)] + later + [LookUp(id)];
      }
    }
  }
}
