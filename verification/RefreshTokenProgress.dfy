/** Locks and waiting: whoever is waited for is an unfinished transaction, and
    the transactions never deadlock. */
module RefreshTokenProgress {
  import opened Wrappers
  import opened RefreshTokens
  import opened RefreshTokenPromises

  // ----- every lock has an owner at work -----

  predicate LockOwned(s: State, h: Hash) {
    h in s.locks ==> s.locks[h] in s.txs && Holds(s.txs[s.locks[h]]) == Some(h)
  }

  predicate EntryOwned(s: State, h: Hash) {
    h in s.pending ==> s.pending[h] in s.txs && Inserts(s.txs[s.pending[h]]) == Some(h)
  }

  /** Every row lock belongs to a transaction that holds it, and every
      uncommitted index entry to one that inserts it; neither has ended. */
  ghost predicate Owned(s: State) {
    (forall h :: LockOwned(s, h)) && (forall h :: EntryOwned(s, h))
  }

  /** A transaction that moves on keeps what it has. */
  lemma PutKeepsOwners(s: State, id: nat, tx: Tx)
    requires Owned(s)
    requires id in s.txs ==> Holds(tx) == Holds(s.txs[id]) && Inserts(tx) == Inserts(s.txs[id])
    ensures Owned(Put(s, id, tx))
  {
    hide Holds, Inserts;
    forall h ensures LockOwned(Put(s, id, tx), h) && EntryOwned(Put(s, id, tx), h) {
      assert LockOwned(s, h) && EntryOwned(s, h);
    }
  }

  lemma LockKeepsOwners(s: State, id: nat, token: Hash, tx: Tx)
    requires Owned(s) && id in s.txs && Holds(s.txs[id]) == None && Inserts(s.txs[id]) == None
    requires Holds(tx) == Some(token)
    ensures Owned(Put(s.(locks := s.locks[token := id]), id, tx))
  {
    hide Holds, Inserts;
    var t := Put(s.(locks := s.locks[token := id]), id, tx);
    forall h ensures LockOwned(t, h) && EntryOwned(t, h) {
      assert LockOwned(s, h) && EntryOwned(s, h);
    }
  }

  lemma PendKeepsOwners(s: State, id: nat, token: Hash, tx: Tx)
    requires Owned(s) && id in s.txs && Holds(s.txs[id]) == Holds(tx) && Inserts(s.txs[id]) == None
    requires Inserts(tx) == Some(token)
    ensures Owned(Put(s.(pending := s.pending[token := id]), id, tx))
  {
    hide Holds, Inserts;
    var t := Put(s.(pending := s.pending[token := id]), id, tx);
    forall h ensures LockOwned(t, h) && EntryOwned(t, h) {
      assert LockOwned(s, h) && EntryOwned(s, h);
    }
  }

  lemma FinishKeepsOwners(s: State, id: nat, outcome: Outcome, t: State)
    requires Owned(s) && id in s.txs
    requires t == Finish(s, id, outcome).(tokens := t.tokens, journal := t.journal)
    ensures Owned(t)
  {
    hide Holds, Inserts;
    forall h ensures LockOwned(t, h) && EntryOwned(t, h) {
      assert LockOwned(s, h) && EntryOwned(s, h);
    }
  }

  lemma UpdateKeepsOwners(s: State, id: nat, tx: Tx)
    requires Owned(s) && id in s.txs && s.txs[id] == tx
    ensures Owned(UpdateStep(s, id, tx))
  {
    hide Put, Owned, Usable, Unrevoked;
    if tx.Rotating? || tx.Revoking? {
      PutKeepsOwners(s, id, Ended(NoMatch));
      if tx.token in s.tokens {
        var user := s.tokens[tx.token].user;
        LockKeepsOwners(s, id, tx.token, if tx.Rotating? then Consumed(tx.token, tx.now, user)
                                         else Revoked(tx.token, tx.now, user));
      } else {
        NotThere(s, tx.token, tx.now);
      }
    }
  }

  lemma NotThere(s: State, token: Hash, now: Time)
    requires token !in s.tokens
    ensures !Usable(s, token, now) && !Unrevoked(s, token)
  {
  }

  lemma LookupKeepsOwners(lifetime: Time, s: State, id: nat, tx: Tx)
    requires Owned(s) && id in s.txs && s.txs[id] == tx
    ensures Owned(LookupStep(lifetime, s, id, tx))
  {
    hide Put, Owned;
    if tx.Consumed? {
      PutKeepsOwners(s, id, Succeeding(tx.token, tx.now, tx.user, s.clock + lifetime));
      PutKeepsOwners(s, id, Burning(tx.token, tx.now, tx.user));
    }
  }

  lemma InsertKeepsOwners(s: State, id: nat, tx: Tx, token: Hash)
    requires Owned(s) && id in s.txs && s.txs[id] == tx
    ensures Owned(InsertStep(s, id, tx, token))
  {
    hide Put, Owned;
    if tx.Issuing? || tx.Succeeding? {
      PutKeepsOwners(s, id, Failed(Holds(tx)));
      PendKeepsOwners(s, id, token, if tx.Issuing? then Issued(tx.user, tx.expiresAt, token)
                                    else Succeeded(tx.token, tx.now, tx.user, tx.expiresAt, token));
    }
  }

  lemma EndingsKeepOwners(s: State, id: nat, tx: Tx)
    requires Owned(s) && id in s.txs && s.txs[id] == tx
    ensures Owned(CommitStep(s, id, tx)) && Owned(AbortStep(s, id, tx))
  {
    hide Owned, NotBy, RevokeRow;
    if Entry(id, tx).Some? {
      FinishKeepsOwners(s, id, Told(tx), CommitStep(s, id, tx));
    }
    FinishKeepsOwners(s, id, RolledBack, Finish(s, id, RolledBack));
  }

  lemma StepKeepsOwners(lifetime: Time, s: State, a: Action)
    requires Owned(s)
    ensures Owned(Step(lifetime, s, a))
  {
    hide UpdateStep, LookupStep, InsertStep, CommitStep, AbortStep;
    if a.Begin? {
      hide Owned;
      if a.id !in s.txs {
        PutKeepsOwners(s, a.id, Opening(lifetime, s.clock, a.job));
      }
    } else if a.Tick? || a.SetActive? {
      var t := Step(lifetime, s, a);
      forall h ensures LockOwned(t, h) && EntryOwned(t, h) {
        assert LockOwned(s, h) && EntryOwned(s, h);
      }
    } else if a.id in s.txs {
      hide Owned;
      var tx := s.txs[a.id];
      EndingsKeepOwners(s, a.id, tx);
      UpdateKeepsOwners(s, a.id, tx);
      LookupKeepsOwners(lifetime, s, a.id, tx);
      if a.Insert? {
        InsertKeepsOwners(s, a.id, tx, a.token);
      }
    }
  }

  lemma {:induction false} RunKeepsOwners(lifetime: Time, s: State, acts: seq<Action>)
    requires Owned(s)
    ensures Owned(Run(lifetime, s, acts))
  {
    hide Step, Owned;
    if acts != [] {
      RunKeepsOwners(lifetime, s, acts[..|acts| - 1]);
      StepKeepsOwners(lifetime, Run(lifetime, s, acts[..|acts| - 1]), acts[|acts| - 1]);
    }
  }

  lemma NothingIsOwned(clock: Time, users: map<UserId, bool>)
    ensures Owned(Start(clock, users))
  {
  }

  /** Main result: in every reachable state, whoever is waited for is at work:
      the lock or index entry is its own, and it has not ended. */
  lemma ReachableIsOwned(lifetime: Time, s: State)
    requires Reachable(lifetime, s)
    ensures Owned(s)
  {
    hide Run, Start, Owned;
    var clock: Time, users: map<UserId, bool>, acts: seq<Action> :| s == Run(lifetime, Start(clock, users), acts);
    NothingIsOwned(clock, users);
    RunKeepsOwners(lifetime, Start(clock, users), acts);
  }

  /** The transactions that have not ended. */
  function Unfinished(s: State): set<nat> {
    set id | id in s.txs && !s.txs[id].Ended?
  }

  /** Nobody at work, nothing locked: this is what the promises about calls that
      nobody disturbs start from. */
  lemma QuietIsFree(s: State)
    requires Owned(s) && Unfinished(s) == {}
    ensures s.locks == map[] && s.pending == map[]
  {
    forall h ensures h !in s.locks && h !in s.pending {
      assert LockOwned(s, h) && EntryOwned(s, h);
      assert forall id :: id in s.txs ==> id !in Unfinished(s);
    }
  }

  // ----- no deadlock -----

  /** The next statement of a transaction, as the service has them: it rolls back
      only after a violated constraint. `token` is what it would insert. */
  function NextAction(id: nat, tx: Tx, token: Hash): Action {
    match tx
    case Issuing(_, _) => Insert(id, token)
    case Succeeding(_, _, _, _) => Insert(id, token)
    case Rotating(_, _) => Update(id)
    case Revoking(_, _) => Update(id)
    case Consumed(_, _, _) => Lookup(id)
    case Failed(_) => Abort(id)
    case _ => CommitTx(id)
  }

  /** Transactions take turns, each with its next statement. */
  function TakeTurns(lifetime: Time, s: State, ids: seq<nat>, propose: nat -> Hash): State {
    if ids == [] then s
    else
      var t, id := TakeTurns(lifetime, s, ids[..|ids| - 1], propose), ids[|ids| - 1];
      if id in t.txs then Step(lifetime, t, NextAction(id, t.txs[id], propose(id))) else t
  }

  lemma {:induction false} TurnsConcat(lifetime: Time, s: State, before: seq<nat>, ids: seq<nat>, propose: nat -> Hash)
    ensures TakeTurns(lifetime, s, before + ids, propose)
            == TakeTurns(lifetime, TakeTurns(lifetime, s, before, propose), ids, propose)
  {
    hide Step, NextAction;
    if ids == [] {
      assert before + ids == before;
    } else {
      TurnsConcat(lifetime, s, before, ids[..|ids| - 1], propose);
      assert (before + ids)[..|before + ids| - 1] == before + ids[..|ids| - 1];
    }
  }

  lemma OneTurn(lifetime: Time, s: State, id: nat, propose: nat -> Hash)
    requires id in s.txs
    ensures TakeTurns(lifetime, s, [id], propose) == Step(lifetime, s, NextAction(id, s.txs[id], propose(id)))
  {
    assert [id][..0] == [];
  }

  lemma {:induction false} TurnsKeepOwners(lifetime: Time, s: State, ids: seq<nat>, propose: nat -> Hash)
    requires Owned(s)
    ensures Owned(TakeTurns(lifetime, s, ids, propose))
  {
    hide Step, Owned, NextAction;
    if ids != [] {
      var t, id := TakeTurns(lifetime, s, ids[..|ids| - 1], propose), ids[|ids| - 1];
      TurnsKeepOwners(lifetime, s, ids[..|ids| - 1], propose);
      if id in t.txs {
        StepKeepsOwners(lifetime, t, NextAction(id, t.txs[id], propose(id)));
      }
    }
  }

  /** How far a transaction is from being able to end on its own. */
  function Distance(tx: Tx): nat {
    match tx
    case Rotating(_, _) => 4
    case Revoking(_, _) => 4
    case Consumed(_, _, _) => 3
    case Issuing(_, _) => 2
    case Succeeding(_, _, _, _) => 2
    case Ended(_) => 0
    case _ => 1
  }

  /** Whom a transaction waits for, if it has to wait. */
  function WaitsFor(s: State, tx: Tx, token: Hash): Option<nat> {
    match tx
    case Rotating(h, now) => if Usable(s, h, now) && h in s.locks then Some(s.locks[h]) else None
    case Revoking(h, now) => if Unrevoked(s, h) && h in s.locks then Some(s.locks[h]) else None
    case Issuing(user, _) =>
      if user in s.users && token !in s.tokens && token in s.pending then Some(s.pending[token]) else None
    case Succeeding(_, _, user, _) =>
      if user in s.users && token !in s.tokens && token in s.pending then Some(s.pending[token]) else None
    case _ => None
  }

  /** Whoever is waited for is nearer its end. */
  lemma WaitsForNearer(s: State, id: nat, token: Hash)
    requires Owned(s) && id in s.txs && WaitsFor(s, s.txs[id], token).Some?
    ensures WaitsFor(s, s.txs[id], token).value in s.txs
    ensures 0 < Distance(s.txs[WaitsFor(s, s.txs[id], token).value]) < Distance(s.txs[id])
  {
    var tx := s.txs[id];
    if tx.Rotating? || tx.Revoking? {
      assert LockOwned(s, tx.token);
    } else {
      assert EntryOwned(s, token);
    }
  }

  /** A transaction is nearer its end than it was, and the others stay. */
  predicate MovedOn(s: State, id: nat, t: State)
    requires id in s.txs
  {
    id in t.txs && Distance(t.txs[id]) < Distance(s.txs[id]) && t.txs == s.txs[id := t.txs[id]]
  }

  lemma PutMovesOn(s: State, id: nat, tx: Tx, t: State)
    requires id in s.txs && Distance(tx) < Distance(s.txs[id]) && t.txs == s.txs[id := tx]
    ensures MovedOn(s, id, t)
  {
  }

  lemma UpdateMovesOn(s: State, id: nat, tx: Tx, token: Hash, t: State)
    requires id in s.txs && s.txs[id] == tx && (tx.Rotating? || tx.Revoking?) && WaitsFor(s, tx, token).None?
    requires t == UpdateStep(s, id, tx)
    ensures MovedOn(s, id, t)
  {
    hide MovedOn;
    if (if tx.Rotating? then Usable(s, tx.token, tx.now) else Unrevoked(s, tx.token)) {
      var user := s.tokens[tx.token].user;
      hide Usable, Unrevoked;
      PutMovesOn(s, id, if tx.Rotating? then Consumed(tx.token, tx.now, user) else Revoked(tx.token, tx.now, user), t);
    } else {
      hide Usable, Unrevoked;
      PutMovesOn(s, id, Ended(NoMatch), t);
    }
  }

  lemma LookupMovesOn(lifetime: Time, s: State, id: nat, tx: Tx, t: State)
    requires id in s.txs && s.txs[id] == tx && tx.Consumed? && t == LookupStep(lifetime, s, id, tx)
    ensures MovedOn(s, id, t)
  {
  }

  lemma InsertMovesOn(s: State, id: nat, tx: Tx, token: Hash, t: State)
    requires id in s.txs && s.txs[id] == tx && (tx.Issuing? || tx.Succeeding?) && WaitsFor(s, tx, token).None?
    requires t == InsertStep(s, id, tx, token)
    ensures MovedOn(s, id, t)
  {
    hide MovedOn;
    if tx.user !in s.users || token in s.tokens {
      PutMovesOn(s, id, Failed(Holds(tx)), t);
    } else {
      PutMovesOn(s, id, if tx.Issuing? then Issued(tx.user, tx.expiresAt, token)
                        else Succeeded(tx.token, tx.now, tx.user, tx.expiresAt, token), t);
    }
  }

  lemma EndingsMoveOn(s: State, id: nat, tx: Tx)
    requires id in s.txs && s.txs[id] == tx && Distance(tx) == 1
    ensures if tx.Failed? then MovedOn(s, id, AbortStep(s, id, tx)) else MovedOn(s, id, CommitStep(s, id, tx))
  {
    hide NotBy, RevokeRow;
  }

  /** A transaction that need not wait gets nearer its end. */
  lemma TurnMovesOn(lifetime: Time, s: State, id: nat, token: Hash, t: State)
    requires id in s.txs && !s.txs[id].Ended? && WaitsFor(s, s.txs[id], token).None?
    requires t == Step(lifetime, s, NextAction(id, s.txs[id], token))
    ensures MovedOn(s, id, t)
  {
    hide MovedOn, UpdateStep, LookupStep, InsertStep, CommitStep, AbortStep, WaitsFor;
    var tx := s.txs[id];
    if tx.Rotating? || tx.Revoking? {
      UpdateMovesOn(s, id, tx, token, t);
    } else if tx.Consumed? {
      LookupMovesOn(lifetime, s, id, tx, t);
    } else if tx.Issuing? || tx.Succeeding? {
      InsertMovesOn(s, id, tx, token, t);
    } else {
      EndingsMoveOn(s, id, tx);
    }
  }

  lemma EndedIsNear(tx: Tx)
    ensures tx.Ended? <==> Distance(tx) == 0
  {
  }

  /** Some turns later, one more transaction has ended and none has begun. */
  lemma {:induction false} OneMoreEnds(lifetime: Time, s: State, id: nat, propose: nat -> Hash)
    returns (ids: seq<nat>)
    requires Owned(s) && id in s.txs && !s.txs[id].Ended?
    ensures Unfinished(TakeTurns(lifetime, s, ids, propose)) < Unfinished(s)
    decreases Distance(s.txs[id])
  {
    hide Step, Owned, Distance, WaitsFor, NextAction, TakeTurns;
    var tx := s.txs[id];
    if WaitsFor(s, tx, propose(id)).Some? {
      var other := WaitsFor(s, tx, propose(id)).value;
      WaitsForNearer(s, id, propose(id));
      EndedIsNear(s.txs[other]);
      ids := OneMoreEnds(lifetime, s, other, propose);
    } else {
      var t := Step(lifetime, s, NextAction(id, tx, propose(id)));
      OneTurn(lifetime, s, id, propose);
      TurnMovesOn(lifetime, s, id, propose(id), t);
      StepKeepsOwners(lifetime, s, NextAction(id, tx, propose(id)));
      if t.txs[id].Ended? {
        ids := [id];
        assert id in Unfinished(s) && id !in Unfinished(t);
      } else {
        var rest := OneMoreEnds(lifetime, t, id, propose);
        TurnsConcat(lifetime, s, [id], rest, propose);
        ids := [id] + rest;
        assert Unfinished(t) == Unfinished(s);
      }
    }
  }

  lemma {:induction false} AllCanEnd(lifetime: Time, s: State, propose: nat -> Hash) returns (ids: seq<nat>)
    requires Owned(s)
    ensures Unfinished(TakeTurns(lifetime, s, ids, propose)) == {}
    decreases |Unfinished(s)|
  {
    hide Step, Owned, TakeTurns;
    if Unfinished(s) == {} {
      ids := [];
      NoTurns(lifetime, s, propose);
    } else {
      var id :| id in Unfinished(s);
      var first := OneMoreEnds(lifetime, s, id, propose);
      var t := TakeTurns(lifetime, s, first, propose);
      TurnsKeepOwners(lifetime, s, first, propose);
      Smaller(Unfinished(t), Unfinished(s));
      var rest := AllCanEnd(lifetime, t, propose);
      TurnsConcat(lifetime, s, first, rest, propose);
      ids := first + rest;
    }
  }

  lemma NoTurns(lifetime: Time, s: State, propose: nat -> Hash)
    ensures TakeTurns(lifetime, s, [], propose) == s
  {
  }

  lemma Smaller(a: set<nat>, b: set<nat>)
    requires a < b
    ensures |a| < |b|
  {
    assert |b| == |a| + |b - a| by {
      assert b == a + (b - a);
    }
    assert b - a != {};
  }

  lemma {:induction false} TurnsAreARun(lifetime: Time, s: State, ids: seq<nat>, propose: nat -> Hash)
    returns (acts: seq<Action>)
    ensures TakeTurns(lifetime, s, ids, propose) == Run(lifetime, s, acts)
  {
    hide Step, NextAction;
    acts := [];
    if ids != [] {
      var t, id := TakeTurns(lifetime, s, ids[..|ids| - 1], propose), ids[|ids| - 1];
      acts := TurnsAreARun(lifetime, s, ids[..|ids| - 1], propose);
      if id in t.txs {
        RunSnoc(lifetime, s, acts, NextAction(id, t.txs[id], propose(id)));
        acts := acts + [NextAction(id, t.txs[id], propose(id))];
      }
    }
  }

  /** Main result: the transactions never deadlock. From every reachable state,
      whatever hashes they propose, some order of their own next statements ends
      every one of them, and then nothing is locked. */
  lemma NoDeadlock(lifetime: Time, s: State, propose: nat -> Hash)
    returns (ids: seq<nat>, acts: seq<Action>, t: State)
    requires Reachable(lifetime, s)
    ensures t == TakeTurns(lifetime, s, ids, propose) == Run(lifetime, s, acts)
    ensures Unfinished(t) == {} && t.locks == map[] && t.pending == map[]
  {
    hide Reachable, Owned, TakeTurns, Run, Unfinished;
    ReachableIsOwned(lifetime, s);
    ids := AllCanEnd(lifetime, s, propose);
    t := TakeTurns(lifetime, s, ids, propose);
    acts := TurnsAreARun(lifetime, s, ids, propose);
    TurnsKeepOwners(lifetime, s, ids, propose);
    QuietIsFree(t);
  }
}
