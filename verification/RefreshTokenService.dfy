/** The repository and the service as objects: each repository call changes the
    shared database in place, other sessions act between any two calls, and the
    service strings the calls together. */
module RefreshTokenService {
  import opened Wrappers
  import opened RefreshTokens
  import opened RefreshTokenPromises

  predicate IsBy(a: Action, id: nat) {
    !a.Tick? && !a.SetActive? && a.id == id
  }

  predicate NoneBy(acts: seq<Action>, id: nat) {
    acts != [] ==> !IsBy(acts[|acts| - 1], id) && NoneBy(acts[..|acts| - 1], id)
  }

  predicate SameTx(s: State, t: State, id: nat)
    requires id in s.txs
  {
    id in t.txs && t.txs[id] == s.txs[id]
  }

  lemma UpdateLeavesTx(s: State, id: nat, tx: Tx, other: nat)
    requires other in s.txs && other != id
    ensures SameTx(s, UpdateStep(s, id, tx), other)
  {
    hide Usable, Unrevoked;
  }

  lemma LookupLeavesTx(lifetime: Time, s: State, id: nat, tx: Tx, other: nat)
    requires other in s.txs && other != id
    ensures SameTx(s, LookupStep(lifetime, s, id, tx), other)
  {
  }

  lemma InsertLeavesTx(s: State, id: nat, tx: Tx, token: Hash, other: nat)
    requires other in s.txs && other != id
    ensures SameTx(s, InsertStep(s, id, tx, token), other)
  {
  }

  lemma EndingsLeaveTx(s: State, id: nat, tx: Tx, other: nat)
    requires other in s.txs && other != id
    ensures SameTx(s, CommitStep(s, id, tx), other)
    ensures SameTx(s, AbortStep(s, id, tx), other)
  {
    hide NotBy, RevokeRow;
  }

  lemma StepLeavesTx(lifetime: Time, s: State, a: Action, id: nat)
    requires !IsBy(a, id) && id in s.txs
    ensures SameTx(s, Step(lifetime, s, a), id)
  {
    hide UpdateStep, LookupStep, InsertStep, CommitStep, AbortStep, Opening;
    if !a.Tick? && !a.SetActive? && !a.Begin? && a.id in s.txs {
      EndingsLeaveTx(s, a.id, s.txs[a.id], id);
      match a
      case Insert(_, token) => InsertLeavesTx(s, a.id, s.txs[a.id], token, id);
      case Lookup(_) => LookupLeavesTx(lifetime, s, a.id, s.txs[a.id], id);
      case Update(_) => UpdateLeavesTx(s, a.id, s.txs[a.id], id);
      case _ =>
    }
  }

  /** A transaction stands where it stands while others act. */
  lemma {:induction false} OthersLeaveTx(lifetime: Time, s: State, acts: seq<Action>, id: nat)
    requires NoneBy(acts, id) && id in s.txs
    ensures id in Run(lifetime, s, acts).txs && Run(lifetime, s, acts).txs[id] == s.txs[id]
  {
    hide Step;
    if acts != [] {
      OthersLeaveTx(lifetime, s, acts[..|acts| - 1], id);
      StepLeavesTx(lifetime, Run(lifetime, s, acts[..|acts| - 1]), acts[|acts| - 1], id);
    }
  }

  /** Runs from reachable states stay reachable, so whatever is promised of
      reachable states holds after any sequence of service calls. */
  lemma ReachableRuns(lifetime: Time, s: State, acts: seq<Action>)
    requires Reachable(lifetime, s)
    ensures Reachable(lifetime, Run(lifetime, s, acts))
  {
    hide Run, Start;
    var clock: Time, users: map<UserId, bool>, earlier: seq<Action> :| s == Run(lifetime, Start(clock, users), earlier);
    RunConcat(lifetime, Start(clock, users), earlier, acts);
    assert Run(lifetime, s, acts) == Run(lifetime, Start(clock, users), earlier + acts);
  }

  class Database {
    const lifetime: Time
    var clock: Time
    var users: map<UserId, bool>
    var tokens: map<Hash, Row>
    var locks: map<Hash, nat>
    var pending: map<Hash, nat>
    var txs: map<nat, Tx>
    var journal: seq<Commit>

    function View(): State
      reads this
    {
      State(clock, users, tokens, locks, pending, txs, journal)
    }

    constructor (lifetime: Time, now: Time, users: map<UserId, bool>)
      ensures View() == Start(now, users) && this.lifetime == lifetime
    {
      this.lifetime, clock, this.users := lifetime, now, users;
      tokens, locks, pending, txs, journal := map[], map[], map[], map[], [];
    }

    /** Whatever other sessions, and the clock, do meanwhile. */
    method Others(acts: seq<Action>, id: nat)
      requires NoneBy(acts, id) && id in txs
      modifies this
      ensures View() == Run(lifetime, old(View()), acts)
      ensures id in txs && txs[id] == old(txs[id])
    {
      hide Run;
      OthersLeaveTx(lifetime, View(), acts, id);
      var s := Run(lifetime, View(), acts);
      clock, users, tokens := s.clock, s.users, s.tokens;
      locks, pending, txs, journal := s.locks, s.pending, s.txs, s.journal;
    }
  }

  datatype Match = Waits | NoRow | OneRow(user: UserId)

  datatype Insertion = Blocked | Violation | Done

  /** A session's UPDATE that finds its row matching but locked. */
  predicate AtLock(s: State, id: nat) {
    id in s.txs &&
    match s.txs[id]
    case Rotating(token, now) => Usable(s, token, now) && token in s.locks
    case Revoking(token, _) => Unrevoked(s, token) && token in s.locks
    case _ => false
  }

  /** What can keep a session from going on: a matching row that is locked, an
      insert that another session's insert blocks, or a violated constraint. */
  predicate Stuck(s: State, id: nat, token: Hash) {
    || AtLock(s, id)
    || (id in s.txs && (s.txs[id].Issuing? || s.txs[id].Succeeding?) && token in s.pending)
    || (id in s.txs && s.txs[id].Failed?)
  }

  /** A run that ends with a session rolling back because it was stuck. */
  ghost predicate GaveUp(lifetime: Time, s: State, steps: seq<Action>, id: nat, token: Hash) {
    steps != [] && steps[|steps| - 1] == Abort(id) && Stuck(Run(lifetime, s, steps[..|steps| - 1]), id, token)
  }

  lemma GivingUp(lifetime: Time, s: State, steps: seq<Action>, id: nat, token: Hash)
    requires Stuck(Run(lifetime, s, steps), id, token)
    ensures GaveUp(lifetime, s, steps + [Abort(id)], id, token)
  {
    assert (steps + [Abort(id)])[..|steps|] == steps;
  }

  /** The UPDATE of a session, tried again after each of `waits`: what others do
      while it waits once more. */
  function Waiting(id: nat, waits: seq<seq<Action>>): seq<Action> {
    if waits == [] then [Update(id)]
    else Waiting(id, waits[..|waits| - 1]) + waits[|waits| - 1] + [Update(id)]
  }

  lemma WaitingSnoc(id: nat, waits: seq<seq<Action>>, i: nat)
    requires i < |waits|
    ensures Waiting(id, waits[..i + 1]) == Waiting(id, waits[..i]) + waits[i] + [Update(id)]
  {
    assert waits[..i + 1][..i] == waits[..i];
  }

  /** It is tried again only as long as it finds its row locked. */
  ghost predicate KeptWaiting(lifetime: Time, s: State, id: nat, waits: seq<seq<Action>>, n: nat)
    requires n <= |waits|
  {
    forall m :: 0 <= m < n ==> AtLock(Run(lifetime, s, Waiting(id, waits[..m])), id)
  }

  lemma KeepsWaiting(lifetime: Time, s: State, id: nat, waits: seq<seq<Action>>, n: nat)
    requires n < |waits| && KeptWaiting(lifetime, s, id, waits, n)
    requires AtLock(Run(lifetime, s, Waiting(id, waits[..n])), id)
    ensures KeptWaiting(lifetime, s, id, waits, n + 1)
  {
  }

  lemma WaitingOnce(lifetime: Time, s: State, id: nat, waits: seq<seq<Action>>)
    ensures Run(lifetime, s, Waiting(id, waits[..0])) == Step(lifetime, s, Update(id))
    ensures KeptWaiting(lifetime, s, id, waits, 0)
  {
    hide Step;
    assert [Update(id)][..0] == [];
  }

  lemma GivingUpLater(lifetime: Time, s: State, before: seq<Action>, steps: seq<Action>, id: nat, token: Hash)
    requires GaveUp(lifetime, Run(lifetime, s, before), steps, id, token)
    ensures GaveUp(lifetime, s, before + steps, id, token)
  {
    hide Run, Stuck;
    RunConcat(lifetime, s, before, steps[..|steps| - 1]);
    assert (before + steps)[..|before + steps| - 1] == before + steps[..|steps| - 1];
  }

  lemma LockedIsStuck(s: State, id: nat, token: Hash)
    requires AtLock(s, id)
    ensures Stuck(s, id, token)
  {
  }

  /** A session's SELECT of the user, after its UPDATE. */
  function Choosing(id: nat, before: seq<Action>, after: seq<Action>): seq<Action> {
    before + [Lookup(id)] + after
  }

  /** A session's INSERT and COMMIT, or its rollback should the INSERT fail. */
  function Storing(id: nat, token: Hash, after: seq<Action>, stored: bool): seq<Action> {
    if stored then [Insert(id, token)] + after + [CommitTx(id)] else [Insert(id, token)] + [Abort(id)]
  }

  /** One session's repository. */
  class AuthRepository {
    const db: Database
    const id: nat

    constructor (db: Database, id: nat)
      ensures this.db == db && this.id == id
    {
      this.db, this.id := db, id;
    }

    method Begin(job: Job)
      requires id !in db.txs
      modifies db`txs
      ensures db.View() == Step(db.lifetime, old(db.View()), Action.Begin(id, job))
      ensures id in db.txs && db.txs[id] == Opening(db.lifetime, db.clock, job)
    {
      match job
      case Issue(user) => db.txs := db.txs[id := Issuing(user, db.clock + db.lifetime)];
      case Rotate(token) => db.txs := db.txs[id := Rotating(token, db.clock)];
      case Revoke(token) => db.txs := db.txs[id := Revoking(token, db.clock)];
    }

    /** UPDATE … WHERE unrevoked AND unexpired … RETURNING user_id */
    method ConsumeRefreshToken() returns (r: Match)
      requires id in db.txs && db.txs[id].Rotating?
      modifies db`locks, db`txs
      ensures db.View() == Step(db.lifetime, old(db.View()), Update(id))
      ensures id in db.txs
      ensures r.Waits? ==> db.txs[id] == old(db.txs[id]) && AtLock(db.View(), id)
      ensures r.NoRow? ==> db.txs[id] == Ended(NoMatch)
      ensures r.NoRow? <==>
                old(db.txs[id].token) !in db.tokens || db.tokens[old(db.txs[id].token)].revokedAt.Some?
                || db.tokens[old(db.txs[id].token)].expiresAt <= old(db.txs[id].now)
      ensures r.OneRow? ==> db.txs[id] == Consumed(old(db.txs[id].token), old(db.txs[id].now), r.user)
    {
      var tx := db.txs[id];
      r := NoRow;
      if tx.token in db.tokens {
        var row := db.tokens[tx.token];
        if row.revokedAt == None && row.expiresAt > tx.now {
          r := if tx.token in db.locks then Waits else OneRow(row.user);
        }
      }
      match r
      case Waits =>
      case NoRow =>
        db.txs := db.txs[id := Ended(NoMatch)];
      case OneRow(user) =>
        db.locks := db.locks[tx.token := id];
        db.txs := db.txs[id := Consumed(tx.token, tx.now, user)];
    }

    /** UPDATE … WHERE unrevoked … RETURNING id */
    method RevokeRefreshToken() returns (r: Match)
      requires id in db.txs && db.txs[id].Revoking?
      modifies db`locks, db`txs
      ensures db.View() == Step(db.lifetime, old(db.View()), Update(id))
      ensures id in db.txs
      ensures r.Waits? ==> db.txs[id] == old(db.txs[id]) && AtLock(db.View(), id)
      ensures r.NoRow? ==> db.txs[id] == Ended(NoMatch)
      ensures r.NoRow? <==>
                old(db.txs[id].token) !in db.tokens || db.tokens[old(db.txs[id].token)].revokedAt.Some?
      ensures r.OneRow? ==> db.txs[id] == Revoked(old(db.txs[id].token), old(db.txs[id].now), r.user)
    {
      var tx := db.txs[id];
      r := NoRow;
      if tx.token in db.tokens && db.tokens[tx.token].revokedAt == None {
        r := if tx.token in db.locks then Waits else OneRow(db.tokens[tx.token].user);
      }
      match r
      case Waits =>
      case NoRow =>
        db.txs := db.txs[id := Ended(NoMatch)];
      case OneRow(user) =>
        db.locks := db.locks[tx.token := id];
        db.txs := db.txs[id := Revoked(tx.token, tx.now, user)];
    }

    /** SELECT of the consumed token's user */
    method GetUserById() returns (active: bool)
      requires id in db.txs && db.txs[id].Consumed?
      modifies db`txs
      ensures db.View() == Step(db.lifetime, old(db.View()), Lookup(id))
      ensures id in db.txs
      ensures var tx := old(db.txs[id]);
              db.txs[id] == if active then Succeeding(tx.token, tx.now, tx.user, db.clock + db.lifetime)
                            else Burning(tx.token, tx.now, tx.user)
    {
      var tx := db.txs[id];
      active := false;
      if tx.user in db.users {
        active := db.users[tx.user];
      }
      db.txs := db.txs[id := if active then Succeeding(tx.token, tx.now, tx.user, db.clock + db.lifetime)
                             else Burning(tx.token, tx.now, tx.user)];
    }

    /** INSERT and flush */
    method CreateRefreshToken(token: Hash) returns (r: Insertion)
      requires id in db.txs && (db.txs[id].Issuing? || db.txs[id].Succeeding?)
      modifies db`pending, db`txs
      ensures db.View() == Step(db.lifetime, old(db.View()), Insert(id, token))
      ensures id in db.txs
      ensures r.Blocked? ==> db.txs[id] == old(db.txs[id])
      ensures !r.Done? ==> Stuck(db.View(), id, token)
      ensures r.Violation? ==> db.txs[id].Failed?
      ensures r.Violation? <==> old(db.txs[id].user) !in db.users || token in db.tokens
      ensures r.Blocked? <==> old(db.txs[id].user) in db.users && token !in db.tokens && token in old(db.pending)
      ensures r.Done? ==> Told(db.txs[id]) ==
                          if old(db.txs[id].Issuing?) then IssuedToken(old(db.txs[id].user), token)
                          else RotatedToken(old(db.txs[id].user), old(db.txs[id].token), token)
      ensures r.Done? ==> db.txs[id].Issued? || db.txs[id].Succeeded?
    {
      var tx := db.txs[id];
      if tx.user !in db.users || token in db.tokens {
        r := Violation;
        db.txs := db.txs[id := Failed(if tx.Succeeding? then Some(tx.token) else None)];
      } else if token in db.pending {
        r := Blocked;
      } else {
        r := Done;
        db.pending := db.pending[token := id];
        db.txs := db.txs[id := if tx.Issuing? then Issued(tx.user, tx.expiresAt, token)
                               else Succeeded(tx.token, tx.now, tx.user, tx.expiresAt, token)];
      }
    }

    method Close(outcome: Outcome)
      modifies db`locks, db`pending, db`txs
      ensures db.View() == Finish(old(db.View()), id, outcome)
      ensures id in db.txs && db.txs[id] == Ended(outcome)
    {
      db.locks := NotBy(db.locks, id);
      db.pending := NotBy(db.pending, id);
      db.txs := db.txs[id := Ended(outcome)];
    }

    /** What the session wrote becomes visible, and its locks go. */
    method Commit()
      requires id in db.txs && Entry(id, db.txs[id]).Some?
      modifies db
      ensures db.View() == Step(db.lifetime, old(db.View()), CommitTx(id))
      ensures id in db.txs && db.txs[id] == Ended(Told(old(db.txs[id])))
    {
      var tx := db.txs[id];
      var outcome := Told(tx);
      match tx {
        case Issued(user, expiresAt, token) =>
          db.tokens := db.tokens[token := Row(user, expiresAt, None)];
          db.journal := db.journal + [Login(id, user, token)];
        case Burning(token, now, user) =>
          db.tokens := RevokeRow(db.tokens, token, now);
          db.journal := db.journal + [Burn(id, user, token)];
        case Succeeded(token, now, user, expiresAt, successor) =>
          db.tokens := RevokeRow(db.tokens, token, now);
          db.tokens := db.tokens[successor := Row(user, expiresAt, None)];
          db.journal := db.journal + [Rotation(id, user, token, successor)];
        case Revoked(token, now, user) =>
          db.tokens := RevokeRow(db.tokens, token, now);
          db.journal := db.journal + [Revocation(id, user, token)];
        case _ =>
      }
      Close(outcome);
    }

    /** What the session wrote is forgotten, and its locks go. */
    method Rollback()
      requires id in db.txs && !db.txs[id].Ended?
      modifies db`locks, db`pending, db`txs
      ensures db.View() == Step(db.lifetime, old(db.View()), Abort(id))
      ensures id in db.txs && db.txs[id] == Ended(RolledBack)
    {
      Close(RolledBack);
    }

    /** The UPDATE of a rotation while its row may be locked. */
    method ConsumeWaiting(waits: seq<seq<Action>>) returns (r: Match, ghost n: nat)
      requires id in db.txs && db.txs[id].Rotating?
      requires forall i :: 0 <= i < |waits| ==> NoneBy(waits[i], id)
      modifies db
      ensures n <= |waits| && db.View() == Run(db.lifetime, old(db.View()), Waiting(id, waits[..n]))
      ensures KeptWaiting(db.lifetime, old(db.View()), id, waits, n)
      ensures id in db.txs
      ensures r.Waits? ==> n == |waits| && db.txs[id] == old(db.txs[id]) && AtLock(db.View(), id)
      ensures r.NoRow? ==> db.txs[id] == Ended(NoMatch)
      ensures r.NoRow? <==>
                old(db.txs[id].token) !in db.tokens || db.tokens[old(db.txs[id].token)].revokedAt.Some?
                || db.tokens[old(db.txs[id].token)].expiresAt <= old(db.txs[id].now)
      ensures r.OneRow? ==> db.txs[id] == Consumed(old(db.txs[id].token), old(db.txs[id].now), r.user)
    {
      hide Run, Step, NoneBy, Waiting, AtLock, KeptWaiting;
      ghost var s0 := db.View();
      r := ConsumeRefreshToken();
      WaitingOnce(db.lifetime, s0, id, waits);
      var i := 0;
      while r.Waits? && i < |waits|
        invariant 0 <= i <= |waits|
        invariant db.View() == Run(db.lifetime, s0, Waiting(id, waits[..i]))
        invariant KeptWaiting(db.lifetime, s0, id, waits, i)
        invariant id in db.txs
        invariant r.Waits? ==> db.txs[id] == old(db.txs[id]) && AtLock(db.View(), id)
        invariant r.NoRow? ==> db.txs[id] == Ended(NoMatch)
        invariant r.NoRow? <==>
                  old(db.txs[id].token) !in db.tokens || db.tokens[old(db.txs[id].token)].revokedAt.Some?
                  || db.tokens[old(db.txs[id].token)].expiresAt <= old(db.txs[id].now)
        invariant r.OneRow? ==> db.txs[id] == Consumed(old(db.txs[id].token), old(db.txs[id].now), r.user)
      {
        KeepsWaiting(db.lifetime, s0, id, waits, i);
        db.Others(waits[i], id);
        RunConcat(db.lifetime, s0, Waiting(id, waits[..i]), waits[i]);
        r := ConsumeRefreshToken();
        RunSnoc(db.lifetime, s0, Waiting(id, waits[..i]) + waits[i], Update(id));
        WaitingSnoc(id, waits, i);
        i := i + 1;
      }
      n := i;
    }

    /** The UPDATE of a revocation while its row may be locked. */
    method RevokeWaiting(waits: seq<seq<Action>>) returns (r: Match, ghost n: nat)
      requires id in db.txs && db.txs[id].Revoking?
      requires forall i :: 0 <= i < |waits| ==> NoneBy(waits[i], id)
      modifies db
      ensures n <= |waits| && db.View() == Run(db.lifetime, old(db.View()), Waiting(id, waits[..n]))
      ensures KeptWaiting(db.lifetime, old(db.View()), id, waits, n)
      ensures id in db.txs
      ensures r.Waits? ==> n == |waits| && db.txs[id] == old(db.txs[id]) && AtLock(db.View(), id)
      ensures r.NoRow? ==> db.txs[id] == Ended(NoMatch)
      ensures r.NoRow? <==>
                old(db.txs[id].token) !in db.tokens || db.tokens[old(db.txs[id].token)].revokedAt.Some?
      ensures r.OneRow? ==> db.txs[id] == Revoked(old(db.txs[id].token), old(db.txs[id].now), r.user)
    {
      hide Run, Step, NoneBy, Waiting, AtLock, KeptWaiting;
      ghost var s0 := db.View();
      r := RevokeRefreshToken();
      WaitingOnce(db.lifetime, s0, id, waits);
      var i := 0;
      while r.Waits? && i < |waits|
        invariant 0 <= i <= |waits|
        invariant db.View() == Run(db.lifetime, s0, Waiting(id, waits[..i]))
        invariant KeptWaiting(db.lifetime, s0, id, waits, i)
        invariant id in db.txs
        invariant r.Waits? ==> db.txs[id] == old(db.txs[id]) && AtLock(db.View(), id)
        invariant r.NoRow? ==> db.txs[id] == Ended(NoMatch)
        invariant r.NoRow? <==>
                  old(db.txs[id].token) !in db.tokens || db.tokens[old(db.txs[id].token)].revokedAt.Some?
        invariant r.OneRow? ==> db.txs[id] == Revoked(old(db.txs[id].token), old(db.txs[id].now), r.user)
      {
        KeepsWaiting(db.lifetime, s0, id, waits, i);
        db.Others(waits[i], id);
        RunConcat(db.lifetime, s0, Waiting(id, waits[..i]), waits[i]);
        r := RevokeRefreshToken();
        RunSnoc(db.lifetime, s0, Waiting(id, waits[..i]) + waits[i], Update(id));
        WaitingSnoc(id, waits, i);
        i := i + 1;
      }
      n := i;
    }

    /** What others do, the SELECT, what others do. */
    method Choose(before: seq<Action>, after: seq<Action>) returns (active: bool)
      requires id in db.txs && db.txs[id].Consumed? && NoneBy(before, id) && NoneBy(after, id)
      modifies db
      ensures db.View() == Run(db.lifetime, old(db.View()), Choosing(id, before, after))
      ensures id in db.txs && if active then db.txs[id].Succeeding? else db.txs[id].Burning?
      ensures db.txs[id].token == old(db.txs[id].token) && db.txs[id].user == old(db.txs[id].user)
    {
      hide Run, Step, NoneBy;
      ghost var s0 := db.View();
      db.Others(before, id);
      active := GetUserById();
      RunSnoc(db.lifetime, s0, before, Lookup(id));
      db.Others(after, id);
      RunConcat(db.lifetime, s0, before + [Lookup(id)], after);
    }

    /** INSERT, what others do, COMMIT; or a rollback. */
    method Store(token: Hash, after: seq<Action>) returns (stored: bool)
      requires id in db.txs && (db.txs[id].Issuing? || db.txs[id].Succeeding?) && NoneBy(after, id)
      modifies db
      ensures db.View() == Run(db.lifetime, old(db.View()), Storing(id, token, after, stored))
      ensures id in db.txs
      ensures db.txs[id] == Ended(if !stored then RolledBack
                                  else if old(db.txs[id].Issuing?) then IssuedToken(old(db.txs[id].user), token)
                                  else RotatedToken(old(db.txs[id].user), old(db.txs[id].token), token))
      ensures !stored ==> GaveUp(db.lifetime, old(db.View()), Storing(id, token, after, stored), id, token)
    {
      hide Run, Step, NoneBy;
      ghost var s0 := db.View();
      var inserted := CreateRefreshToken(token);
      RunOne(db.lifetime, s0, Insert(id, token));
      stored := inserted.Done?;
      if stored {
        db.Others(after, id);
        RunConcat(db.lifetime, s0, [Insert(id, token)], after);
        Commit();
        RunSnoc(db.lifetime, s0, [Insert(id, token)] + after, CommitTx(id));
      } else {
        GivingUp(db.lifetime, s0, [Insert(id, token)], id, token);
        Rollback();
        RunSnoc(db.lifetime, s0, [Insert(id, token)], Abort(id));
      }
    }
  }

  // ----- the service -----

  /** What a service call gives its caller: a value, None or False, or an
      exception after the rollback. */
  datatype Reply =
    | Refreshed(user: UserId, successor: Hash)
    | Issuance(token: Hash)
    | Changed
    | Nothing
    | Failure

  /** A session up to the end of its UPDATE. */
  function Taking(id: nat, job: Job, waits: seq<seq<Action>>): seq<Action> {
    [Begin(id, job)] + Waiting(id, waits)
  }

  /** The statements that a rotation with this outcome has run, in order and with
      what others did in between; `waits` are those that it waited for. */
  predicate RotationScript(
      outcome: Outcome, steps: seq<Action>, id: nat, token: Hash, successor: Hash, waits: seq<seq<Action>>,
      patient: bool, afterUpdate: seq<Action>, afterLookup: seq<Action>, afterInsert: seq<Action>)
  {
    match outcome
    case NoMatch => steps == Taking(id, Rotate(token), waits)
    case BurnedToken(_, h) =>
      h == token &&
      steps == Taking(id, Rotate(token), waits) + Choosing(id, afterUpdate, afterLookup) + [CommitTx(id)]
    case RotatedToken(_, h, g) =>
      h == token && g == successor &&
      steps == Taking(id, Rotate(token), waits) + Choosing(id, afterUpdate, afterLookup)
               + Storing(id, successor, afterInsert, true)
    case RolledBack =>
      || (patient && steps == Taking(id, Rotate(token), waits) + [Abort(id)])
      || steps == Taking(id, Rotate(token), waits) + Choosing(id, afterUpdate, afterLookup)
                  + Storing(id, successor, afterInsert, false)
    case _ => false
  }

  /** rotate_refresh_token, with what others do while it waits for its row and
      between its calls. A wait that outlasts `waits`, like any exception, ends
      in a rollback. */
  method RotateRefreshToken(repo: AuthRepository, token: Hash, successor: Hash,
                            waits: seq<seq<Action>>, afterUpdate: seq<Action>, afterLookup: seq<Action>,
                            afterInsert: seq<Action>)
    returns (reply: Reply, ghost steps: seq<Action>, ghost n: nat)
    requires repo.id !in repo.db.txs
    requires forall i :: 0 <= i < |waits| ==> NoneBy(waits[i], repo.id)
    requires NoneBy(afterUpdate, repo.id) && NoneBy(afterLookup, repo.id) && NoneBy(afterInsert, repo.id)
    modifies repo.db
    ensures repo.db.View() == Run(repo.db.lifetime, old(repo.db.View()), steps)
    ensures repo.id in repo.db.txs && repo.db.txs[repo.id].Ended?
    ensures n <= |waits|
    ensures RotationScript(repo.db.txs[repo.id].outcome, steps, repo.id, token, successor, waits[..n], n == |waits|,
                           afterUpdate, afterLookup, afterInsert)
    ensures KeptWaiting(repo.db.lifetime, Step(repo.db.lifetime, old(repo.db.View()), Begin(repo.id, Rotate(token))),
                        repo.id, waits, n)
    ensures reply.Refreshed? ==> repo.db.txs[repo.id].outcome == RotatedToken(reply.user, token, reply.successor)
    ensures reply.Nothing? ==> repo.db.txs[repo.id].outcome.NoMatch? || repo.db.txs[repo.id].outcome.BurnedToken?
    ensures repo.db.txs[repo.id].outcome.NoMatch? ==>
              token !in repo.db.tokens || repo.db.tokens[token].revokedAt.Some?
              || repo.db.tokens[token].expiresAt <= old(repo.db.clock)
    ensures reply.Failure? ==> repo.db.txs[repo.id].outcome.RolledBack?
    ensures reply.Failure? ==> GaveUp(repo.db.lifetime, old(repo.db.View()), steps, repo.id, successor)
    ensures !reply.Issuance? && !reply.Changed?
  {
    hide Run, Step, NoneBy, KeptWaiting, Waiting, AtLock, Stuck, Choosing, Storing, GaveUp;
    var db, id := repo.db, repo.id;
    ghost var s0 := db.View();
    repo.Begin(Rotate(token));
    RunOne(db.lifetime, s0, Begin(id, Rotate(token)));

    var row;
    row, n := repo.ConsumeWaiting(waits);
    RunConcat(db.lifetime, s0, [Begin(id, Rotate(token))], Waiting(id, waits[..n]));
    steps := Taking(id, Rotate(token), waits[..n]);
    match row
    case NoRow =>
      reply := Nothing;
    case Waits =>
      LockedIsStuck(db.View(), id, successor);
      GivingUp(db.lifetime, s0, steps, id, successor);
      repo.Rollback();
      RunSnoc(db.lifetime, s0, steps, Abort(id));
      steps := steps + [Abort(id)];
      reply := Failure;
    case OneRow(user) =>
      var active := repo.Choose(afterUpdate, afterLookup);
      RunConcat(db.lifetime, s0, steps, Choosing(id, afterUpdate, afterLookup));
      steps := steps + Choosing(id, afterUpdate, afterLookup);
      if active {
        var stored := repo.Store(successor, afterInsert);
        RunConcat(db.lifetime, s0, steps, Storing(id, successor, afterInsert, stored));
        if !stored {
          GivingUpLater(db.lifetime, s0, steps, Storing(id, successor, afterInsert, stored), id, successor);
        }
        steps := steps + Storing(id, successor, afterInsert, stored);
        reply := if stored then Refreshed(user, successor) else Failure;
      } else {
        repo.Commit();
        RunSnoc(db.lifetime, s0, steps, CommitTx(id));
        steps := steps + [CommitTx(id)];
        reply := Nothing;
      }
  }

  /** issue_refresh_token, at login. */
  method IssueRefreshToken(repo: AuthRepository, user: UserId, token: Hash, before: seq<Action>, after: seq<Action>)
    returns (reply: Reply, ghost steps: seq<Action>)
    requires repo.id !in repo.db.txs && NoneBy(before, repo.id) && NoneBy(after, repo.id)
    modifies repo.db
    ensures repo.db.View() == Run(repo.db.lifetime, old(repo.db.View()), steps)
    ensures steps == [Begin(repo.id, Issue(user))] + before + Storing(repo.id, token, after, reply != Failure)
    ensures repo.id in repo.db.txs
    ensures repo.db.txs[repo.id] == Ended(if reply == Failure then RolledBack else IssuedToken(user, token))
    ensures reply == Failure || reply == Issuance(token)
    ensures reply == Failure ==> GaveUp(repo.db.lifetime, old(repo.db.View()), steps, repo.id, token)
  {
    hide Run, Step, NoneBy, Storing, GaveUp;
    var db, id := repo.db, repo.id;
    ghost var s0 := db.View();
    repo.Begin(Issue(user));
    RunOne(db.lifetime, s0, Begin(id, Issue(user)));
    db.Others(before, id);
    RunConcat(db.lifetime, s0, [Begin(id, Issue(user))], before);
    steps := [Begin(id, Issue(user))] + before;

    var stored := repo.Store(token, after);
    RunConcat(db.lifetime, s0, steps, Storing(id, token, after, stored));
    if !stored {
      GivingUpLater(db.lifetime, s0, steps, Storing(id, token, after, stored), id, token);
    }
    steps := steps + Storing(id, token, after, stored);
    reply := if stored then Issuance(token) else Failure;
  }

  predicate RevocationScript(
      outcome: Outcome, steps: seq<Action>, id: nat, token: Hash, waits: seq<seq<Action>>, patient: bool,
      after: seq<Action>)
  {
    var taking := Taking(id, Revoke(token), waits);
    match outcome
    case NoMatch => steps == taking
    case RevokedToken(_, h) => h == token && steps == taking + after + [CommitTx(id)]
    case RolledBack => patient && steps == taking + [Abort(id)]
    case _ => false
  }

  /** revoke_refresh_token */
  method RevokeRefreshToken(repo: AuthRepository, token: Hash, waits: seq<seq<Action>>, after: seq<Action>)
    returns (reply: Reply, ghost steps: seq<Action>, ghost n: nat)
    requires repo.id !in repo.db.txs && NoneBy(after, repo.id)
    requires forall i :: 0 <= i < |waits| ==> NoneBy(waits[i], repo.id)
    modifies repo.db
    ensures repo.db.View() == Run(repo.db.lifetime, old(repo.db.View()), steps)
    ensures repo.id in repo.db.txs && repo.db.txs[repo.id].Ended?
    ensures n <= |waits|
    ensures RevocationScript(repo.db.txs[repo.id].outcome, steps, repo.id, token, waits[..n], n == |waits|, after)
    ensures KeptWaiting(repo.db.lifetime, Step(repo.db.lifetime, old(repo.db.View()), Begin(repo.id, Revoke(token))),
                        repo.id, waits, n)
    ensures reply.Changed? <==> repo.db.txs[repo.id].outcome.RevokedToken?
    ensures reply.Nothing? <==> repo.db.txs[repo.id].outcome == NoMatch
    ensures reply.Nothing? ==> token !in repo.db.tokens || repo.db.tokens[token].revokedAt.Some?
    ensures reply.Failure? <==> repo.db.txs[repo.id].outcome == RolledBack
    ensures reply.Failure? ==> GaveUp(repo.db.lifetime, old(repo.db.View()), steps, repo.id, token)
  {
    hide Run, Step, NoneBy, KeptWaiting, Waiting, AtLock;
    var db, id := repo.db, repo.id;
    ghost var s0 := db.View();
    repo.Begin(Revoke(token));
    RunOne(db.lifetime, s0, Begin(id, Revoke(token)));

    var row;
    row, n := repo.RevokeWaiting(waits);
    RunConcat(db.lifetime, s0, [Begin(id, Revoke(token))], Waiting(id, waits[..n]));
    steps := Taking(id, Revoke(token), waits[..n]);
    if row.NoRow? {
      reply := Nothing;
    } else if row.OneRow? {
      db.Others(after, id);
      RunConcat(db.lifetime, s0, steps, after);
      steps := steps + after;
      repo.Commit();
      RunSnoc(db.lifetime, s0, steps, CommitTx(id));
      steps := steps + [CommitTx(id)];
      reply := Changed;
    } else {
      GivingUp(db.lifetime, s0, steps, id, token);
      repo.Rollback();
      RunSnoc(db.lifetime, s0, steps, Abort(id));
      steps := steps + [Abort(id)];
      reply := Failure;
    }
  }
}
