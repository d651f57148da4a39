/** What every run of the refresh-token transactions promises. */
module RefreshTokenPromises {
  import opened Wrappers
  import opened RefreshTokens

  /** The states that runs from an empty token table reach. */
  ghost predicate Reachable(lifetime: Time, s: State) {
    exists clock: Time, users: map<UserId, bool>, acts: seq<Action> :: s == Run(lifetime, Start(clock, users), acts)
  }

  lemma ReachableKeepsInvariant(lifetime: Time, s: State)
    requires Reachable(lifetime, s)
    ensures Invariant(s)
  {
    hide Run, Start, Invariant;
    var clock: Time, users: map<UserId, bool>, acts: seq<Action> :| s == Run(lifetime, Start(clock, users), acts);
    RunKeepsInvariant(lifetime, clock, users, acts);
  }

  // ----- single use -----

  lemma {:induction false} RecordedSpends(j: seq<Commit>, e: Commit)
    requires Recorded(j, e)
    ensures Spends(e).Some? ==> Spent(j, e.token)
    ensures Creates(e).Some? ==> Created(j, Creates(e).value)
  {
    if j[|j| - 1] != e {
      RecordedSpends(j[..|j| - 1], e);
    }
  }

  /** Two commits that spend the same token are one commit. */
  lemma {:induction false} OneSpender(j: seq<Commit>, e: Commit, f: Commit)
    requires WellFormed(j) && Recorded(j, e) && Recorded(j, f)
    requires Spends(e).Some? && Spends(e) == Spends(f)
    ensures e == f
  {
    var init, last := j[..|j| - 1], j[|j| - 1];
    if e != last {
      RecordedSpends(init, e);
    }
    if f != last {
      RecordedSpends(init, f);
    }
    if e != last && f != last {
      OneSpender(init, e, f);
    }
  }

  /** Two commits that create the same token are one commit. */
  lemma {:induction false} OneCreator(j: seq<Commit>, e: Commit, f: Commit)
    requires WellFormed(j) && Recorded(j, e) && Recorded(j, f)
    requires Creates(e).Some? && Creates(e) == Creates(f)
    ensures e == f
  {
    var init, last := j[..|j| - 1], j[|j| - 1];
    if e != last {
      RecordedSpends(init, e);
    }
    if f != last {
      RecordedSpends(init, f);
    }
    if e != last && f != last {
      OneCreator(init, e, f);
    }
  }

  lemma {:induction false} SpentAtMostOnce(j: seq<Commit>, h: Hash)
    requires WellFormed(j)
    ensures TimesSpent(j, h) == if Spent(j, h) then 1 else 0
  {
    if j != [] {
      SpentAtMostOnce(j[..|j| - 1], h);
    }
  }

  /** The token that a successful call used up. */
  function UsedUp(tx: Tx): Option<Hash> {
    match tx
    case Ended(RotatedToken(_, token, _)) => Some(token)
    case Ended(BurnedToken(_, token)) => Some(token)
    case Ended(RevokedToken(_, token)) => Some(token)
    case _ => None
  }

  lemma UsedUpIsRecorded(j: seq<Commit>, id: nat, tx: Tx, h: Hash)
    requires OutcomeOk(j, id, tx) && UsedUp(tx) == Some(h)
    ensures exists e :: Recorded(j, e) && Spends(e) == Some(h) && e.id == id
  {
    var e := match tx.outcome
      case RotatedToken(user, token, successor) => Rotation(id, user, token, successor)
      case BurnedToken(user, token) => Burn(id, user, token)
      case RevokedToken(user, token) => Revocation(id, user, token);
    assert Recorded(j, e);
  }

  /** Main result: over any concurrent run, at most one transaction uses a token
      up, be it by rotation, by a rotation that found the user inactive, or by
      revocation; and it is spent at most once. */
  lemma SingleUse(lifetime: Time, s: State, id: nat, other: nat, h: Hash)
    requires Reachable(lifetime, s) && id in s.txs && other in s.txs
    requires UsedUp(s.txs[id]) == Some(h) && UsedUp(s.txs[other]) == Some(h)
    ensures id == other && TimesSpent(s.journal, h) == 1
  {
    hide Reachable, Recorded, WellFormed, RowOk, Spent, UsedUp, HeldOk, PendingOk;
    ReachableKeepsInvariant(lifetime, s);
    assert TxOk(s, id, s.txs[id]) && TxOk(s, other, s.txs[other]);
    UsedUpIsRecorded(s.journal, id, s.txs[id], h);
    UsedUpIsRecorded(s.journal, other, s.txs[other], h);
    var e :| Recorded(s.journal, e) && Spends(e) == Some(h) && e.id == id;
    var f :| Recorded(s.journal, f) && Spends(f) == Some(h) && f.id == other;
    OneSpender(s.journal, e, f);
    RecordedSpends(s.journal, e);
    SpentAtMostOnce(s.journal, h);
  }

  lemma {:induction false} RecordedOwners(j: seq<Commit>, e: Commit)
    requires WellFormed(j) && Recorded(j, e)
    ensures Creates(e).Some? ==> Owner(j, Creates(e).value) == Some(e.user)
    ensures Spends(e).Some? ==> Owner(j, e.token) == Some(e.user)
  {
    var init, last := j[..|j| - 1], j[|j| - 1];
    if e != last {
      RecordedOwners(init, e);
      RecordedSpends(init, e);
      if Spends(e).Some? {
        SpentIsCreated(init, e.token);
      }
    }
  }

  /** What a caller was told of a rotation holds from then on: the token it gave
      up is revoked, the successor is there, and both are the same user's. */
  lemma RotatedReplyHolds(lifetime: Time, s: State, id: nat, user: UserId, token: Hash, successor: Hash)
    requires Reachable(lifetime, s) && id in s.txs && s.txs[id] == Ended(RotatedToken(user, token, successor))
    ensures token in s.tokens && s.tokens[token].user == user && s.tokens[token].revokedAt.Some?
    ensures successor in s.tokens && s.tokens[successor].user == user
  {
    hide Reachable, Recorded, WellFormed, Spent, Created, Owner, HeldOk, PendingOk;
    ReachableKeepsInvariant(lifetime, s);
    var e := Rotation(id, user, token, successor);
    assert TxOk(s, id, s.txs[id]);
    assert RowOk(s, token) && RowOk(s, successor);
    RecordedSpends(s.journal, e);
    RecordedOwners(s.journal, e);
    SpentIsCreated(s.journal, token);
  }

  // ----- all or nothing -----

  lemma StepPublishesNothing(lifetime: Time, s: State, a: Action)
    requires !a.CommitTx?
    ensures Step(lifetime, s, a).tokens == s.tokens && Step(lifetime, s, a).journal == s.journal
  {
    hide NotBy, Usable, Unrevoked, Opening;
  }

  predicate CommitFree(acts: seq<Action>) {
    acts != [] ==> !acts[|acts| - 1].CommitTx? && CommitFree(acts[..|acts| - 1])
  }

  /** However long transactions run, roll back and begin again, the committed
      table and the journal stay as they are until one of them commits. */
  lemma {:induction false} OnlyCommitsPublish(lifetime: Time, s: State, acts: seq<Action>)
    requires CommitFree(acts)
    ensures Run(lifetime, s, acts).tokens == s.tokens && Run(lifetime, s, acts).journal == s.journal
  {
    hide Step;
    if acts != [] {
      OnlyCommitsPublish(lifetime, s, acts[..|acts| - 1]);
      StepPublishesNothing(lifetime, Run(lifetime, s, acts[..|acts| - 1]), acts[|acts| - 1]);
    }
  }

  /** Main result: a rotation commits the revocation of its token together with
      exactly one new token for the same user, and changes no other row; and it
      took the old token before it expired. */
  lemma RotationIsAtomic(lifetime: Time, s: State, id: nat, tx: Tx, t: State)
    requires Reachable(lifetime, s) && id in s.txs && tx == s.txs[id] && tx.Succeeded?
    requires t == Step(lifetime, s, CommitTx(id))
    ensures tx.token in s.tokens && s.tokens[tx.token].revokedAt == None && tx.successor !in s.tokens
    ensures tx.now < s.tokens[tx.token].expiresAt
    ensures t.tokens == s.tokens[tx.token := s.tokens[tx.token].(revokedAt := Some(tx.now))]
                                [tx.successor := Row(s.tokens[tx.token].user, tx.expiresAt, None)]
    ensures t.txs[id] == Ended(RotatedToken(s.tokens[tx.token].user, tx.token, tx.successor))
  {
    hide Reachable, Recorded, WellFormed, RowOk, OutcomeOk, NotBy;
    ReachableKeepsInvariant(lifetime, s);
    assert TxOk(s, id, tx);
  }

  /** A rolled-back transaction leaves the table as it was, and the token it had
      consumed can be consumed again at once. */
  lemma RollbackFreesToken(lifetime: Time, s: State, id: nat, h: Hash, again: nat, t: State)
    requires Reachable(lifetime, s) && id in s.txs && !s.txs[id].Ended? && Holds(s.txs[id]) == Some(h)
    requires again !in s.txs && h in s.tokens && s.clock < s.tokens[h].expiresAt
    requires t == Step(lifetime, s, Abort(id))
    ensures t.tokens == s.tokens && t.journal == s.journal && t.txs[id] == Ended(RolledBack)
    ensures Step(lifetime, Step(lifetime, t, Begin(again, Rotate(h))), Update(again)).txs[again]
            == Consumed(h, s.clock, s.tokens[h].user)
  {
    hide Reachable, Recorded, WellFormed, RowOk, OutcomeOk;
    ReachableKeepsInvariant(lifetime, s);
    assert TxOk(s, id, s.txs[id]);
    assert h !in t.locks;
  }

  /** Once a token is spent, every later attempt to rotate or revoke it matches
      no row and changes nothing. */
  lemma SpentTokenIsRefused(lifetime: Time, s: State, id: nat, tx: Tx)
    requires Reachable(lifetime, s) && id in s.txs && tx == s.txs[id] && (tx.Rotating? || tx.Revoking?)
    requires Spent(s.journal, tx.token)
    ensures Step(lifetime, s, Update(id)) == s.(txs := s.txs[id := Ended(NoMatch)])
  {
    hide Reachable, Recorded, WellFormed, Spent, Created, Owner;
    ReachableKeepsInvariant(lifetime, s);
    assert RowOk(s, tx.token);
  }

  // ----- what an update finds, and what a wait comes to -----

  predicate Stands(s: State, id: nat, tx: Tx) {
    id in s.txs && s.txs[id] == tx
  }

  /** A rotation's update matches nothing exactly when its token is absent,
      revoked or expired; a matching row that is locked makes it wait. */
  lemma ConsumptionVerdict(lifetime: Time, s: State, id: nat, h: Hash, now: Time, t: State)
    requires id in s.txs && s.txs[id] == Rotating(h, now) && t == Step(lifetime, s, Update(id))
    ensures id in t.txs && t.tokens == s.tokens
    ensures t.txs[id] == Ended(NoMatch) <==>
            h !in s.tokens || s.tokens[h].revokedAt.Some? || s.tokens[h].expiresAt <= now
    ensures t == s <==> h in s.tokens && s.tokens[h].revokedAt.None? && now < s.tokens[h].expiresAt && h in s.locks
    ensures h in s.tokens && s.tokens[h].revokedAt.None? && now < s.tokens[h].expiresAt && h !in s.locks ==>
              t.txs[id] == Consumed(h, now, s.tokens[h].user)
  {
    assert t == s ==> t.txs[id] == Rotating(h, now);
  }

  /** A revocation's update matches nothing exactly when its token is absent or
      revoked. */
  lemma RevocationVerdict(lifetime: Time, s: State, id: nat, h: Hash, now: Time, t: State)
    requires id in s.txs && s.txs[id] == Revoking(h, now) && t == Step(lifetime, s, Update(id))
    ensures id in t.txs && t.tokens == s.tokens
    ensures t.txs[id] == Ended(NoMatch) <==> h !in s.tokens || s.tokens[h].revokedAt.Some?
    ensures t == s <==> h in s.tokens && s.tokens[h].revokedAt.None? && h in s.locks
    ensures h in s.tokens && s.tokens[h].revokedAt.None? && h !in s.locks ==>
              t.txs[id] == Revoked(h, now, s.tokens[h].user)
  {
    assert t == s ==> t.txs[id] == Revoking(h, now);
  }

  /** A row that a transaction holds is unrevoked, and locked by it alone. */
  lemma HeldRow(lifetime: Time, s: State, other: nat, h: Hash)
    requires Reachable(lifetime, s) && other in s.txs && Holds(s.txs[other]) == Some(h)
    ensures h in s.tokens && s.tokens[h].revokedAt.None? && h in s.locks && s.locks[h] == other
  {
    hide Reachable, Recorded, WellFormed, RowOk, OutcomeOk;
    ReachableKeepsInvariant(lifetime, s);
    assert TxOk(s, other, s.txs[other]);
  }

  lemma AbortFreesRow(lifetime: Time, s: State, other: nat, h: Hash, id: nat, t: State)
    requires other in s.txs && !s.txs[other].Ended? && h in s.locks && s.locks[h] == other
    requires id in s.txs && id != other && t == Step(lifetime, s, Abort(other))
    ensures t.tokens == s.tokens && h !in t.locks && id in t.txs && t.txs[id] == s.txs[id]
  {
  }

  lemma CommitSpendsRow(lifetime: Time, s: State, other: nat, h: Hash, id: nat, t: State)
    requires Reachable(lifetime, s) && other in s.txs && Holds(s.txs[other]) == Some(h)
    requires Entry(other, s.txs[other]).Some?
    requires id in s.txs && id != other && t == Step(lifetime, s, CommitTx(other))
    ensures h in t.tokens && t.tokens[h].revokedAt.Some? && id in t.txs && t.txs[id] == s.txs[id]
  {
    var tx := s.txs[other];
    hide Reachable, Recorded, WellFormed, RowOk, OutcomeOk, CommitStep, NotBy;
    ReachableKeepsInvariant(lifetime, s);
    assert TxOk(s, other, tx);
    CommitPublishes(s, other, tx, Entry(other, tx).value, t);
  }

  /** Main result: a rotation or revocation that finds its row held by another
      transaction waits; if that one rolls back, it takes the row, */
  lemma WaiterTakesFreedRow(lifetime: Time, s: State, id: nat, other: nat, h: Hash, now: Time, t: State)
    requires Reachable(lifetime, s) && id in s.txs && other in s.txs && id != other
    requires Holds(s.txs[other]) == Some(h)
    requires t == Step(lifetime, Step(lifetime, Step(lifetime, s, Update(id)), Abort(other)), Update(id))
    ensures h in s.tokens
    ensures s.txs[id] == Rotating(h, now) && now < s.tokens[h].expiresAt ==>
              t.tokens == s.tokens && Stands(t, id, Consumed(h, now, s.tokens[h].user))
    ensures s.txs[id] == Revoking(h, now) ==>
              t.tokens == s.tokens && Stands(t, id, Revoked(h, now, s.tokens[h].user))
  {
    HeldRow(lifetime, s, other, h);
    hide Step, Reachable;
    var s1 := Step(lifetime, s, Update(id));
    var s2 := Step(lifetime, s1, Abort(other));
    if s.txs[id] == Rotating(h, now) && now < s.tokens[h].expiresAt {
      ConsumptionVerdict(lifetime, s, id, h, now, s1);
      AbortFreesRow(lifetime, s1, other, h, id, s2);
      ConsumptionVerdict(lifetime, s2, id, h, now, t);
    }
    if s.txs[id] == Revoking(h, now) {
      RevocationVerdict(lifetime, s, id, h, now, s1);
      AbortFreesRow(lifetime, s1, other, h, id, s2);
      RevocationVerdict(lifetime, s2, id, h, now, t);
    }
  }

  /** and if that one commits instead, it matches nothing. */
  lemma WaiterLosesSpentRow(lifetime: Time, s: State, id: nat, other: nat, h: Hash, now: Time, t: State)
    requires Reachable(lifetime, s) && id in s.txs && other in s.txs && id != other
    requires Holds(s.txs[other]) == Some(h) && Entry(other, s.txs[other]).Some?
    requires t == Step(lifetime, Step(lifetime, Step(lifetime, s, Update(id)), CommitTx(other)), Update(id))
    ensures h in s.tokens
    ensures s.txs[id] == Revoking(h, now) || (s.txs[id] == Rotating(h, now) && now < s.tokens[h].expiresAt) ==>
              Stands(t, id, Ended(NoMatch))
  {
    HeldRow(lifetime, s, other, h);
    hide Step, Reachable, Entry, Holds;
    var s1 := Step(lifetime, s, Update(id));
    var s2 := Step(lifetime, s1, CommitTx(other));
    if s.txs[id] == Rotating(h, now) && now < s.tokens[h].expiresAt {
      ConsumptionVerdict(lifetime, s, id, h, now, s1);
      CommitSpendsRow(lifetime, s1, other, h, id, s2);
      ConsumptionVerdict(lifetime, s2, id, h, now, t);
    }
    if s.txs[id] == Revoking(h, now) {
      RevocationVerdict(lifetime, s, id, h, now, s1);
      CommitSpendsRow(lifetime, s1, other, h, id, s2);
      RevocationVerdict(lifetime, s2, id, h, now, t);
    }
  }

  /** An insert fails exactly on an unknown user or a committed hash; a pending
      hash makes it wait. */
  lemma InsertionVerdict(lifetime: Time, s: State, id: nat, tx: Tx, h: Hash, t: State)
    requires id in s.txs && tx == s.txs[id] && (tx.Issuing? || tx.Succeeding?) && t == Step(lifetime, s, Insert(id, h))
    ensures id in t.txs && t.tokens == s.tokens && t.users == s.users
    ensures t.txs[id].Failed? <==> tx.user !in s.users || h in s.tokens
    ensures t == s <==> tx.user in s.users && h !in s.tokens && h in s.pending
    ensures tx.user in s.users && h !in s.tokens && h !in s.pending ==>
              h in t.pending && t.pending[h] == id
              && t.txs[id] == if tx.Issuing? then Issued(tx.user, tx.expiresAt, h)
                              else Succeeded(tx.token, tx.now, tx.user, tx.expiresAt, h)
  {
    assert t == s ==> t.txs[id] == tx;
  }

  lemma PendingHash(lifetime: Time, s: State, other: nat, h: Hash)
    requires Reachable(lifetime, s) && other in s.txs && Inserts(s.txs[other]) == Some(h)
    ensures h !in s.tokens && h in s.pending && s.pending[h] == other
  {
    hide Reachable, Recorded, WellFormed, RowOk, OutcomeOk;
    ReachableKeepsInvariant(lifetime, s);
    assert TxOk(s, other, s.txs[other]);
  }

  lemma EndingsFreeHash(lifetime: Time, s: State, other: nat, h: Hash, id: nat)
    requires other in s.txs && Inserts(s.txs[other]) == Some(h) && h in s.pending && s.pending[h] == other
    requires id in s.txs && id != other && h !in s.tokens
    ensures var t := Step(lifetime, s, Abort(other));
            t.tokens == s.tokens && t.users == s.users && h !in t.pending && id in t.txs && t.txs[id] == s.txs[id]
    ensures var t := Step(lifetime, s, CommitTx(other));
            h in t.tokens && t.users == s.users && id in t.txs && t.txs[id] == s.txs[id]
  {
    hide RevokeRow;
  }

  /** An insert of a hash that another transaction is inserting waits; if that one
      rolls back, it goes through, and if that one commits, it fails. */
  lemma WaiterForHash(lifetime: Time, s: State, id: nat, tx: Tx, other: nat, h: Hash)
    requires Reachable(lifetime, s) && id in s.txs && other in s.txs && id != other
    requires tx == s.txs[id] && (tx.Issuing? || tx.Succeeding?) && tx.user in s.users
    requires Inserts(s.txs[other]) == Some(h)
    ensures var t := Step(lifetime, Step(lifetime, Step(lifetime, s, Insert(id, h)), Abort(other)), Insert(id, h));
            Stands(t, id, if tx.Issuing? then Issued(tx.user, tx.expiresAt, h)
                          else Succeeded(tx.token, tx.now, tx.user, tx.expiresAt, h))
    ensures var t := Step(lifetime, Step(lifetime, Step(lifetime, s, Insert(id, h)), CommitTx(other)), Insert(id, h));
            id in t.txs && t.txs[id].Failed?
  {
    PendingHash(lifetime, s, other, h);
    hide Step, Reachable, Inserts;
    var s1 := Step(lifetime, s, Insert(id, h));
    InsertionVerdict(lifetime, s, id, tx, h, s1);
    EndingsFreeHash(lifetime, s, other, h, id);
    InsertionVerdict(lifetime, Step(lifetime, s, Abort(other)), id, tx, h,
                     Step(lifetime, Step(lifetime, s, Abort(other)), Insert(id, h)));
    InsertionVerdict(lifetime, Step(lifetime, s, CommitTx(other)), id, tx, h,
                     Step(lifetime, Step(lifetime, s, CommitTx(other)), Insert(id, h)));
  }

  /** A token that a rotation could take can be taken until its expiry and not
      from then on, by the clock at which the rotation begins. */
  lemma TokensExpire(lifetime: Time, s: State, elapsed: Time, id: nat, h: Hash, t: State)
    requires elapsed >= 0.0 && id !in s.txs && h !in s.locks && h in s.tokens && s.tokens[h].revokedAt.None?
    requires t == Step(lifetime, Step(lifetime, Step(lifetime, s, Tick(elapsed)), Begin(id, Rotate(h))), Update(id))
    ensures Stands(t, id, if s.clock + elapsed < s.tokens[h].expiresAt
                          then Consumed(h, s.clock + elapsed, s.tokens[h].user) else Ended(NoMatch))
  {
    var s1 := Step(lifetime, s, Tick(elapsed));
    var s2 := Step(lifetime, s1, Begin(id, Rotate(h)));
    assert s1 == s.(clock := s.clock + elapsed);
    assert s2 == s1.(txs := s1.txs[id := Rotating(h, s.clock + elapsed)]);
    hide Step;
    ConsumptionVerdict(lifetime, s2, id, h, s.clock + elapsed, t);
  }

  /** A consumed token gets a successor if its user is active when looked up, by
      what was last set, and is burned if the user is inactive or unknown. */
  lemma LookupVerdict(lifetime: Time, s: State, id: nat, tx: Tx, active: bool, t: State)
    requires id in s.txs && tx == s.txs[id] && tx.Consumed?
    requires t == Step(lifetime, Step(lifetime, s, SetActive(tx.user, active)), Lookup(id))
    ensures Stands(t, id, if tx.user in s.users && active
                          then Succeeding(tx.token, tx.now, tx.user, s.clock + lifetime)
                          else Burning(tx.token, tx.now, tx.user))
  {
  }

  // ----- rows are written once -----

  /** t holds every row of s, with its user and expiry, and with its revocation
      time if it had one. */
  ghost predicate Extends(s: map<Hash, Row>, t: map<Hash, Row>) {
    forall h :: h in s ==>
      h in t && t[h].user == s[h].user && t[h].expiresAt == s[h].expiresAt
      && (s[h].revokedAt.Some? ==> t[h].revokedAt == s[h].revokedAt)
  }

  lemma StepExtends(lifetime: Time, s: State, a: Action)
    requires Invariant(s)
    ensures Extends(s.tokens, Step(lifetime, s, a).tokens)
  {
    hide RowOk, WellFormed, TxOk, Publishes, CommitStep;
    if a.CommitTx? && a.id in s.txs {
      var tx := s.txs[a.id];
      assert TxOk(s, a.id, tx);
      CommitExtends(s, a.id, tx);
    } else if a.CommitTx? {
      assert Step(lifetime, s, a) == s;
    } else {
      StepPublishesNothing(lifetime, s, a);
    }
  }

  lemma CommitExtends(s: State, id: nat, tx: Tx)
    requires TxOk(s, id, tx)
    ensures Extends(s.tokens, CommitStep(s, id, tx).tokens)
  {
    hide OutcomeOk, NotBy;
    if Entry(id, tx).Some? {
      CommitPublishes(s, id, tx, Entry(id, tx).value, CommitStep(s, id, tx));
    }
  }

  /** Main result: over any continuation of a run no token row disappears, none
      changes hands, and revoked_at is written at most once. */
  lemma {:induction false} RowsAreWrittenOnce(lifetime: Time, s: State, acts: seq<Action>)
    requires Invariant(s)
    ensures Invariant(Run(lifetime, s, acts)) && Extends(s.tokens, Run(lifetime, s, acts).tokens)
  {
    hide Step, Invariant;
    if acts != [] {
      var t := Run(lifetime, s, acts[..|acts| - 1]);
      RowsAreWrittenOnce(lifetime, s, acts[..|acts| - 1]);
      StepKeepsInvariant(lifetime, t, acts[|acts| - 1]);
      StepExtends(lifetime, t, acts[|acts| - 1]);
    }
  }

  // ----- calls that nobody disturbs -----

  predicate IsActive(s: State, user: UserId) {
    user in s.users && s.users[user]
  }

  lemma ConsumesAlone(lifetime: Time, s: State, id: nat, h: Hash, t: State)
    requires id !in s.txs && h !in s.locks
    requires t == Step(lifetime, Step(lifetime, s, Begin(id, Rotate(h))), Update(id))
    ensures Usable(s, h, s.clock) ==>
              t == s.(locks := s.locks[h := id], txs := s.txs[id := Consumed(h, s.clock, s.tokens[h].user)])
    ensures !Usable(s, h, s.clock) ==> t == s.(txs := s.txs[id := Ended(NoMatch)])
  {
    hide Usable;
    var s1 := Step(lifetime, s, Begin(id, Rotate(h)));
    assert s1 == s.(txs := s.txs[id := Rotating(h, s.clock)]);
    assert Usable(s1, h, s.clock) == Usable(s, h, s.clock) by { SameUsable(s, s1, h, s.clock); }
    assert s1.txs[id := Ended(NoMatch)] == s.txs[id := Ended(NoMatch)];
    if Usable(s, h, s.clock) {
      IsThere(s, h, s.clock);
      var c := Consumed(h, s.clock, s.tokens[h].user);
      assert s1.txs[id := c] == s.txs[id := c];
    }
  }

  lemma SameUsable(s: State, t: State, h: Hash, now: Time)
    requires s.tokens == t.tokens
    ensures Usable(s, h, now) == Usable(t, h, now)
  {
  }

  lemma IsThere(s: State, h: Hash, now: Time)
    requires Usable(s, h, now)
    ensures h in s.tokens
  {
  }

  /** What is left of a rotation once its token is consumed. */
  lemma CompletesAlone(lifetime: Time, s: State, id: nat, tx: Tx, successor: Hash, t: State)
    requires id in s.txs && s.txs[id] == tx && tx.Consumed? && tx.token in s.tokens && successor !in s.pending
    requires t == Step(lifetime, Step(lifetime, Step(lifetime, s, Lookup(id)), Insert(id, successor)), CommitTx(id))
    ensures !IsActive(s, tx.user) ==>
              t.tokens == RevokeRow(s.tokens, tx.token, tx.now) && Stands(t, id, Ended(BurnedToken(tx.user, tx.token)))
    ensures IsActive(s, tx.user) && successor in s.tokens ==>
              t.tokens == s.tokens && Stands(t, id, Failed(Some(tx.token)))
    ensures IsActive(s, tx.user) && successor !in s.tokens ==>
              t.tokens == RevokeRow(s.tokens, tx.token, tx.now)[successor := Row(tx.user, s.clock + lifetime, None)]
              && Stands(t, id, Ended(RotatedToken(tx.user, tx.token, successor)))
  {
    hide RevokeRow, NotBy;
  }

  /** A rotation that nobody disturbs succeeds exactly when its
      token is committed, unrevoked and unexpired and its user is active; it
      then moves the user on to a successor with a full lifetime. A refused
      token changes nothing, and an inactive user's token is used up. */
  lemma RotationAlone(lifetime: Time, s: State, id: nat, h: Hash, successor: Hash, s2: State, t: State)
    requires id !in s.txs && h !in s.locks && successor !in s.pending
    requires s2 == Step(lifetime, Step(lifetime, s, Begin(id, Rotate(h))), Update(id))
    requires t == Step(lifetime, Step(lifetime, Step(lifetime, s2, Lookup(id)), Insert(id, successor)), CommitTx(id))
    ensures !Usable(s, h, s.clock) ==> t.tokens == s.tokens && Stands(t, id, Ended(NoMatch))
    ensures Usable(s, h, s.clock) && !IsActive(s, s.tokens[h].user) ==>
              t.tokens == s.tokens[h := s.tokens[h].(revokedAt := Some(s.clock))]
              && Stands(t, id, Ended(BurnedToken(s.tokens[h].user, h)))
    ensures Usable(s, h, s.clock) && IsActive(s, s.tokens[h].user) && successor in s.tokens ==>
              t.tokens == s.tokens && Stands(t, id, Failed(Some(h)))
    ensures Usable(s, h, s.clock) && IsActive(s, s.tokens[h].user) && successor !in s.tokens ==>
              t.tokens == s.tokens[h := s.tokens[h].(revokedAt := Some(s.clock))]
                                  [successor := Row(s.tokens[h].user, s.clock + lifetime, None)]
              && Stands(t, id, Ended(RotatedToken(s.tokens[h].user, h, successor)))
  {
    hide Step;
    ConsumesAlone(lifetime, s, id, h, s2);
    if Usable(s, h, s.clock) {
      CompletesAlone(lifetime, s2, id, s2.txs[id], successor, t);
    } else {
      EndedStays(lifetime, s2, id, successor, t);
    }
  }

  lemma EndedStays(lifetime: Time, s: State, id: nat, successor: Hash, t: State)
    requires id in s.txs && s.txs[id].Ended?
    requires t == Step(lifetime, Step(lifetime, Step(lifetime, s, Lookup(id)), Insert(id, successor)), CommitTx(id))
    ensures t == s
  {
  }

  /** A login that nobody disturbs issues a usable token with a full lifetime,
      exactly when its user exists and the hash is new. */
  lemma IssueAlone(lifetime: Time, s: State, id: nat, user: UserId, h: Hash, t: State)
    requires id !in s.txs && h !in s.pending
    requires t == Step(lifetime, Step(lifetime, Step(lifetime, s, Begin(id, Issue(user))), Insert(id, h)), CommitTx(id))
    ensures user in s.users && h !in s.tokens ==>
              t.tokens == s.tokens[h := Row(user, s.clock + lifetime, None)]
              && Stands(t, id, Ended(IssuedToken(user, h)))
    ensures !(user in s.users && h !in s.tokens) ==> t.tokens == s.tokens && Stands(t, id, Failed(None))
  {
    hide NotBy;
  }

  /** A revocation that nobody disturbs returns true exactly when the token is
      committed and unrevoked, expired or not, and then revokes that row alone. */
  lemma RevocationAlone(lifetime: Time, s: State, id: nat, h: Hash, t: State)
    requires id !in s.txs && h !in s.locks
    requires t == Step(lifetime, Step(lifetime, Step(lifetime, s, Begin(id, Revoke(h))), Update(id)), CommitTx(id))
    ensures Unrevoked(s, h) ==>
              t.tokens == s.tokens[h := s.tokens[h].(revokedAt := Some(s.clock))]
              && Stands(t, id, Ended(RevokedToken(s.tokens[h].user, h)))
    ensures !Unrevoked(s, h) ==> t.tokens == s.tokens && Stands(t, id, Ended(NoMatch))
  {
    hide NotBy;
  }
}
