/** What holds in every state of every run of the authentication requests. */
module AuthSafety {
  import opened Collections
  import opened Wrappers
  import opened AuthStore
  import opened AuthProtocol

  // ---------------------------------------------------------------- what one transaction does to users and passkeys

  ghost predicate StampsBelow(db: Database) {
    && (forall u :: u in db.users ==> db.users[u].updatedAt < db.clock)
    && (forall p :: p in db.passkeys ==> p < db.nextPasskey)
  }

  lemma ClockAfter(db: Database, tx: Tx, db': Database)
    requires Executed(db, tx) == Ok(db')
    ensures db.clock <= db'.clock
  {
  }

  lemma KnownRowAfter(db: Database, tx: Tx, db': Database, u: UserId)
    requires Executed(db, tx) == Ok(db') && u in db.users
    ensures u in db'.users && (db'.users[u] == db.users[u] || db'.users[u].updatedAt == db.clock < db'.clock)
  {
  }

  lemma NewRowAfter(db: Database, tx: Tx, db': Database, u: UserId)
    requires Executed(db, tx) == Ok(db') && u !in db.users && u in db'.users
    ensures db'.users[u].updatedAt == db.clock < db'.clock && (tx.CreateUser? || tx.Bootstrap?)
  {
  }

  /** A row is as it was, or it carries the stamp of this transaction. */
  lemma RowAfter(db: Database, tx: Tx, db': Database, u: UserId)
    requires Executed(db, tx) == Ok(db')
    ensures db.clock <= db'.clock
    ensures u in db.users ==>
            u in db'.users && (db'.users[u] == db.users[u] || db'.users[u].updatedAt == db.clock < db'.clock)
    ensures u !in db.users && u in db'.users ==>
            db'.users[u].updatedAt == db.clock < db'.clock && (tx.CreateUser? || tx.Bootstrap?)
  {
    ClockAfter(db, tx, db');
    if u in db.users {
      KnownRowAfter(db, tx, db', u);
    } else if u in db'.users {
      NewRowAfter(db, tx, db', u);
    }
  }

  lemma NewPasskeyAfter(db: Database, tx: Tx, db': Database, p: PasskeyId)
    requires Executed(db, tx) == Ok(db')
    ensures db.nextPasskey <= db'.nextPasskey
    ensures p in db'.passkeys && p !in db.passkeys ==> p == db.nextPasskey < db'.nextPasskey
  {
  }

  lemma KnownPasskeyAfter(db: Database, tx: Tx, db': Database, p: PasskeyId)
    requires Executed(db, tx) == Ok(db') && p in db.passkeys && p < db.nextPasskey
    ensures (p in db'.passkeys && db'.passkeys[p] == db.passkeys[p])
            || (tx.DeletePasskey? && p == tx.passkey && db.passkeys[p] == tx.user)
  {
  }

  lemma PasskeyRowAfter(db: Database, tx: Tx, db': Database, p: PasskeyId)
    requires Executed(db, tx) == Ok(db') && StampsBelow(db)
    ensures db.nextPasskey <= db'.nextPasskey
    ensures p in db'.passkeys && p !in db.passkeys ==> p == db.nextPasskey < db'.nextPasskey
    ensures p in db.passkeys ==> (p in db'.passkeys && db'.passkeys[p] == db.passkeys[p])
                                 || (tx.DeletePasskey? && p == tx.passkey && db.passkeys[p] == tx.user)
  {
    NewPasskeyAfter(db, tx, db', p);
    if p in db.passkeys {
      KnownPasskeyAfter(db, tx, db', p);
    }
  }

  lemma StampsStayBelow(db: Database, tx: Tx, db': Database)
    requires Executed(db, tx) == Ok(db') && StampsBelow(db)
    ensures StampsBelow(db')
  {
    forall u | u in db'.users ensures db'.users[u].updatedAt < db'.clock {
      RowAfter(db, tx, db', u);
    }
    forall p | p in db'.passkeys ensures p < db'.nextPasskey {
      PasskeyRowAfter(db, tx, db', p);
    }
  }

  /** A user's passkeys are only ever lost by a deletion, which also moves the user's stamp. */
  lemma PasskeysAfter(db: Database, tx: Tx, db': Database, u: UserId)
    requires Executed(db, tx) == Ok(db') && StampsBelow(db)
    requires PasskeysOf(db, u) != {}
    ensures PasskeysOf(db', u) != {}
            || (tx.DeletePasskey? && tx.user == u && u in db'.users && db'.users[u].updatedAt == db.clock
                && PasswordUsable(db'.users[u], tx.passwordLogin))
  {
    if tx.DeletePasskey? && tx.user == u {
      if |PasskeysOf(db, u)| > 1 {
        Another(PasskeysOf(db, u), tx.passkey);
        var p :| p in PasskeysOf(db, u) && p != tx.passkey;
        PasskeyRowAfter(db, tx, db', p);
        assert p in PasskeysOf(db', u);
      }
    } else {
      var p :| p in PasskeysOf(db, u);
      PasskeyRowAfter(db, tx, db', p);
      assert p in PasskeysOf(db', u);
    }
  }

  // ---------------------------------------------------------------- the invariant on requests

  /** A snapshot whose stamp is still current is still the row. */
  predicate SnapshotHolds(db: Database, user: UserId, before: User) {
    && before.updatedAt < db.clock
    && user in db.users
    && (db.users[user].updatedAt == before.updatedAt ==> db.users[user] == before)
  }

  /** After counting, a passkey exists for as long as the stamp read before the count is current. */
  predicate RequestHolds(db: Database, request: Request) {
    match request
    case Changing(user, before, _, _, _, counted) =>
      SnapshotHolds(db, user, before)
      && (counted && db.users[user].updatedAt == before.updatedAt ==> PasskeysOf(db, user) != {})
    case Disabling(user, before, _) => SnapshotHolds(db, user, before)
    case Confirming(user, before, _) => SnapshotHolds(db, user, before)
    case Dropping(user, before) => SnapshotHolds(db, user, before)
    case _ => true
  }

  ghost predicate Inv(s: State) {
    && StampsBelow(s.db)
    && (forall id :: id in s.requests ==> RequestHolds(s.db, s.requests[id]))
  }

  lemma RequestStillHolds(db: Database, tx: Tx, db': Database, request: Request)
    requires Executed(db, tx) == Ok(db') && StampsBelow(db) && RequestHolds(db, request)
    ensures RequestHolds(db', request)
  {
    RowAfter(db, tx, db', request.user);
    if request.Changing? && request.counted && db.users[request.user].updatedAt == request.before.updatedAt {
      PasskeysAfter(db, tx, db', request.user);
    }
  }

  lemma RanKeepsInv(s: State, tx: Tx)
    requires Inv(s)
    ensures Inv(Ran(s, tx))
  {
    if Executed(s.db, tx).Ok? {
      var db' := Executed(s.db, tx).value;
      StampsStayBelow(s.db, tx, db');
      forall id | id in s.requests ensures RequestHolds(db', s.requests[id]) {
        RequestStillHolds(s.db, tx, db', s.requests[id]);
      }
    }
  }

  /** A step that runs no transaction opens, counts, reads or abandons one request. */
  lemma OpenedHolds(config: Config, s: State, step: Step, id: RequestId)
    requires Inv(s) && Enabled(config, s, step) && StepTx(s, step, config).None?
    requires id in Apply(config, s, step).requests
    ensures RequestHolds(s.db, Apply(config, s, step).requests[id])
  {
    if step.id == id {
      if id in s.requests {
        ReadingHolds(config, s, step);
      } else {
        NewRequestHolds(config, s, step);
      }
    }
  }

  lemma NewRequestHolds(config: Config, s: State, step: Step)
    requires Inv(s) && Enabled(config, s, step) && StepTx(s, step, config).None? && step.id !in s.requests
    requires step.id in Apply(config, s, step).requests
    ensures RequestHolds(s.db, Apply(config, s, step).requests[step.id])
  {
  }

  lemma ReadingHolds(config: Config, s: State, step: Step)
    requires Inv(s) && Enabled(config, s, step) && StepTx(s, step, config).None? && step.id in s.requests
    requires step.id in Apply(config, s, step).requests
    ensures RequestHolds(s.db, Apply(config, s, step).requests[step.id])
  {
    assert step.CountPasskeys? || step.ReadGrant? || step.ReadCredential?;
  }

  lemma StepKeepsInv(config: Config, s: State, step: Step)
    requires Inv(s) && Enabled(config, s, step)
    ensures Inv(Apply(config, s, step))
  {
    var s' := Apply(config, s, step);
    var tx := StepTx(s, step, config);
    StepRuns(config, s, step);
    if tx.Some? {
      RanKeepsInv(s, tx.value);
      NewRequestsHold(config, s, step);
    } else {
      forall id | id in s'.requests ensures RequestHolds(s'.db, s'.requests[id]) {
        OpenedHolds(config, s, step, id);
      }
    }
  }

  /** Beside a transaction a step opens at most a request that holds no snapshot. */
  lemma NewRequestsHold(config: Config, s: State, step: Step)
    requires Enabled(config, s, step) && StepTx(s, step, config).Some?
    requires Inv(Ran(s, StepTx(s, step, config).value))
    ensures var s' := Apply(config, s, step); forall id :: id in s'.requests ==> RequestHolds(s'.db, s'.requests[id])
  {
  }

  lemma {:induction false} RunKeepsInv(config: Config, states: seq<State>, i: nat)
    requires Run(config, states) && i < |states|
    ensures Inv(states[i])
  {
    if i > 0 {
      RunKeepsInv(config, states, i - 1);
      var step := TheStep(config, states, i);
      StepKeepsInv(config, states[i - 1], step);
    }
  }

  /** The step that led to state `i`. */
  lemma TheStep(config: Config, states: seq<State>, i: nat) returns (step: Step)
    requires Run(config, states) && 0 < i < |states|
    ensures Enabled(config, states[i - 1], step) && states[i] == Apply(config, states[i - 1], step)
  {
    assert Follows(config, states, i);
    step :| Enabled(config, states[i - 1], step) && states[i] == Apply(config, states[i - 1], step);
  }

  // ---------------------------------------------------------------- the last sign-in method

  /** The user can sign in: a passkey, or an enabled password while password login is on. */
  predicate CanSignIn(config: Config, db: Database, u: UserId) {
    u in db.users && (PasskeysOf(db, u) != {} || PasswordUsable(db.users[u], config.passwordLogin))
  }

  /** The transactions a step of this configuration may run, with what its reads established. */
  predicate Admitted(config: Config, db: Database, tx: Tx) {
    match tx
    case ChangeUser(user, before, changes, _) =>
      (changes.passwordHash == None && changes.passwordEnabled == None)
      || (changes.passwordHash.Some? && changes.passwordHash.value.Some? && changes.passwordEnabled == Some(true))
      || (Current(db, user, before.updatedAt) ==> PasskeysOf(db, user) != {})
    case DeletePasskey(_, _, passwordLogin) => passwordLogin == config.passwordLogin
    case _ => true
  }

  lemma StepIsAdmitted(config: Config, s: State, step: Step)
    requires Inv(s) && Enabled(config, s, step) && StepTx(s, step, config).Some?
    ensures Admitted(config, s.db, StepTx(s, step, config).value)
  {
    if step.Commit? {
      assert RequestHolds(s.db, s.requests[step.id]);
    }
  }

  /** No transaction takes the password away from a user without passkeys. */
  lemma PasswordAfter(config: Config, db: Database, tx: Tx, db': Database, u: UserId)
    requires Executed(db, tx) == Ok(db') && Admitted(config, db, tx)
    requires u in db.users && PasskeysOf(db, u) == {} && PasswordUsable(db.users[u], config.passwordLogin)
    ensures u in db'.users && PasswordUsable(db'.users[u], config.passwordLogin)
  {
  }

  lemma TxKeepsSignIn(config: Config, db: Database, tx: Tx, db': Database, u: UserId)
    requires Executed(db, tx) == Ok(db') && StampsBelow(db) && Admitted(config, db, tx)
    requires CanSignIn(config, db, u)
    ensures CanSignIn(config, db', u)
  {
    RowAfter(db, tx, db', u);
    if PasskeysOf(db, u) != {} {
      PasskeysAfter(db, tx, db', u);
    } else {
      PasswordAfter(config, db, tx, db', u);
    }
  }

  lemma StepKeepsSignIn(config: Config, s: State, step: Step, u: UserId)
    requires Inv(s) && Enabled(config, s, step) && CanSignIn(config, s.db, u)
    ensures CanSignIn(config, Apply(config, s, step).db, u)
  {
    StepRuns(config, s, step);
    var tx := StepTx(s, step, config);
    if tx.Some? && Executed(s.db, tx.value).Ok? {
      StepIsAdmitted(config, s, step);
      TxKeepsSignIn(config, s.db, tx.value, Executed(s.db, tx.value).value, u);
    }
  }

  /**
    A user who can sign in once can sign in ever after: no interleaving of password changes,
    passkey deletions and anything else removes the last method.
   */
  lemma {:induction false} SignInSurvives(config: Config, states: seq<State>, i: nat, j: nat, u: UserId)
    requires Run(config, states) && i <= j < |states|
    requires CanSignIn(config, states[i].db, u)
    ensures CanSignIn(config, states[j].db, u)
    decreases j
  {
    if i < j {
      SignInSurvives(config, states, i, j - 1, u);
      RunKeepsInv(config, states, j - 1);
      var step := TheStep(config, states, j);
      StepKeepsSignIn(config, states[j - 1], step, u);
    }
  }

  // ---------------------------------------------------------------- an administrator

  predicate HasAdmin(db: Database) {
    db.users != map[] ==> ActiveAdmins(db) != {}
  }

  /** Snapshots a transaction compares with are the rows when their stamp is current. */
  predicate Truthful(db: Database, tx: Tx) {
    match tx
    case ChangeUser(user, before, _, _) => SnapshotHolds(db, user, before)
    case SetDisabled(user, before, _) => SnapshotHolds(db, user, before)
    case CreateUser(_, _, _) => db.users != map[]
    case _ => true
  }

  lemma StepIsTruthful(config: Config, s: State, step: Step)
    requires Inv(s) && Enabled(config, s, step) && StepTx(s, step, config).Some?
    ensures Truthful(s.db, StepTx(s, step, config).value)
  {
    if step.Commit? {
      assert RequestHolds(s.db, s.requests[step.id]);
    }
  }

  /** The transaction takes `u` out of the active administrators. */
  predicate Retires(db: Database, tx: Tx, u: UserId) {
    || (tx.ChangeUser? && tx.user == u && Demotes(tx.before, tx.changes))
    || (tx.SetDisabled? && tx.user == u && tx.disabled && tx.before.role == Admin && !tx.before.disabled)
  }

  lemma AdminAfter(db: Database, tx: Tx, db': Database, u: UserId)
    requires Executed(db, tx) == Ok(db') && Truthful(db, tx)
    requires u in ActiveAdmins(db)
    ensures u in ActiveAdmins(db') || (Retires(db, tx, u) && |ActiveAdmins(db)| > 1)
  {
  }

  lemma RetiresOne(db: Database, tx: Tx, u: UserId, v: UserId)
    requires Retires(db, tx, u) && v != u
    ensures !Retires(db, tx, v)
  {
  }

  lemma TxKeepsAdmin(db: Database, tx: Tx, db': Database)
    requires Executed(db, tx) == Ok(db') && Truthful(db, tx) && HasAdmin(db)
    ensures HasAdmin(db')
  {
    if db.users == map[] {
      FirstUserIsAdmin(db, tx, db');
    } else {
      var u :| u in ActiveAdmins(db);
      AdminAfter(db, tx, db', u);
      if u !in ActiveAdmins(db') {
        Another(ActiveAdmins(db), u);
        var v :| v in ActiveAdmins(db) && v != u;
        RetiresOne(db, tx, u, v);
        AdminAfter(db, tx, db', v);
      }
    }
  }

  lemma FirstUserIsAdmin(db: Database, tx: Tx, db': Database)
    requires Executed(db, tx) == Ok(db') && Truthful(db, tx) && db.users == map[]
    ensures db'.users != map[] ==> tx.Bootstrap? && ActiveAdmins(db') == {tx.user} == db'.users.Keys
  {
    if tx.Bootstrap? {
      assert db'.users.Keys == {tx.user};
    }
  }

  /** In every reachable state with users some administrator is active. */
  lemma {:induction false} ActiveAdminExists(config: Config, states: seq<State>, i: nat)
    requires Run(config, states) && i < |states|
    ensures states[i].db.users != map[] ==> ActiveAdmins(states[i].db) != {}
  {
    if i > 0 {
      ActiveAdminExists(config, states, i - 1);
      RunKeepsInv(config, states, i - 1);
      var step := TheStep(config, states, i);
      var s := states[i - 1];
      StepRuns(config, s, step);
      var tx := StepTx(s, step, config);
      if tx.Some? && Executed(s.db, tx.value).Ok? {
        StepIsTruthful(config, s, step);
        TxKeepsAdmin(s.db, tx.value, Executed(s.db, tx.value).value);
      }
    }
  }

  // ---------------------------------------------------------------- one first user

  /** However many bootstraps race, exactly one commits, and only it can make the first user. */
  lemma {:induction false} OneBootstrapCommits(config: Config, states: seq<State>, i: nat)
    requires Run(config, states) && i < |states|
    ensures |states[i].firsts| <= 1
    ensures states[i].db.users != map[] <==> |states[i].firsts| == 1
    ensures |states[i].firsts| == 1 ==> states[i].firsts[0] in states[i].db.users
  {
    if i > 0 {
      OneBootstrapCommits(config, states, i - 1);
      RunKeepsInv(config, states, i - 1);
      var step := TheStep(config, states, i);
      var s := states[i - 1];
      StepRuns(config, s, step);
      var tx := StepTx(s, step, config);
      if tx.Some? && Executed(s.db, tx.value).Ok? {
        StepIsTruthful(config, s, step);
        FirstsAfter(s, tx.value);
      }
    }
  }

  lemma FirstsAfter(s: State, tx: Tx)
    requires Executed(s.db, tx).Ok? && Truthful(s.db, tx)
    requires |s.firsts| <= 1 && (s.db.users != map[] <==> |s.firsts| == 1)
    requires (|s.firsts| == 1 ==> s.firsts[0] in s.db.users)
    ensures var s' := Ran(s, tx);
            |s'.firsts| <= 1 && (s'.db.users != map[] <==> |s'.firsts| == 1)
            && (|s'.firsts| == 1 ==> s'.firsts[0] in s'.db.users)
  {
    var db' := Executed(s.db, tx).value;
    if s.db.users == map[] {
      FirstUserIsAdmin(s.db, tx, db');
    } else {
      RowAfter(s.db, tx, db', s.firsts[0]);
      var u :| u in s.db.users;
      assert |s.db.users| > 0;
    }
  }
}
