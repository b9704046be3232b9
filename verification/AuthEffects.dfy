/**
  What each authentication transaction needs and what it leaves behind, table by table and column by
  column, and which requests may change which column.
 */
module AuthEffects {
  import opened Wrappers
  import opened AuthStore

  // ---------------------------------------------------------------- tables

  /** No row but the user's changes, and none appears or goes. */
  ghost predicate OtherUsersKept(before: map<UserId, User>, after: map<UserId, User>, user: UserId) {
    && user in before && user in after
    && forall u :: u != user ==> (u in after <==> u in before) && (u in before ==> after[u] == before[u])
  }

  /** Every column but the stamp is the old one, which a stamp never held before replaces. */
  ghost predicate Restamped(db: Database, after: Database, user: UserId) {
    && OtherUsersKept(db.users, after.users, user) && after.clock == db.clock + 1
    && after.users[user] == db.users[user].(updatedAt := db.clock)
  }

  /** Each given column has the given value, each absent one its old value. */
  predicate ColumnsGiven(before: User, after: User, changes: Changes) {
    && (changes.role.Some? ==> after.role == changes.role.value)
    && (changes.role.None? ==> after.role == before.role)
    && (changes.passwordHash.Some? ==> after.passwordHash == changes.passwordHash.value)
    && (changes.passwordHash.None? ==> after.passwordHash == before.passwordHash)
    && (changes.passwordEnabled.Some? ==> after.passwordEnabled == changes.passwordEnabled.value)
    && (changes.passwordEnabled.None? ==> after.passwordEnabled == before.passwordEnabled)
    && (changes.totpRequired.Some? ==> after.totpRequired == changes.totpRequired.value)
    && (changes.totpRequired.None? ==> after.totpRequired == before.totpRequired)
    && after.disabled == before.disabled
  }

  predicate IsOf(challenge: Challenge, user: UserId, kinds: set<Kind>) {
    challenge.user == Some(user) && challenge.kind in kinds
  }

  /** The user's rows of these kinds are gone, and every other row that does not descend from one stays as it was. */
  ghost predicate Cleared(before: map<ChallengeId, Challenge>, after: map<ChallengeId, Challenge>, user: UserId,
                          kinds: set<Kind>) {
    && (forall c :: c in after ==> c in before && after[c] == before[c] && !IsOf(before[c], user, kinds))
    && (forall c :: c in before && !IsOf(before[c], user, kinds)
                    && (before[c].parent.Some? && before[c].parent.value in before ==>
                          !IsOf(before[before[c].parent.value], user, kinds)) ==>
          c in after)
  }

  /** One row is gone and with it what descends from it. */
  ghost predicate Deleted(before: map<ChallengeId, Challenge>, after: map<ChallengeId, Challenge>, gone: ChallengeId) {
    && gone in before
    && (forall c :: c in after <==> c in before && c != gone && before[c].parent != Some(gone))
    && (forall c :: c in after ==> after[c] == before[c])
  }

  /** Nothing but these tables and counters differs. */
  predicate OnlyUsers(db: Database, after: Database) {
    after == db.(users := after.users, challenges := after.challenges, clock := after.clock)
  }

  // ---------------------------------------------------------------- when a transaction commits

  /** Carrying it out would leave nobody administering. */
  predicate TakesLastAdmin(db: Database, tx: Tx) {
    && (tx.ChangeUser? || tx.SetDisabled?) && tx.before.role == Admin && !tx.before.disabled
    && (if tx.SetDisabled? then tx.disabled else tx.changes.role.Some? && tx.changes.role.value != Admin)
    && |ActiveAdmins(db)| <= 1
  }

  predicate StampMatches(db: Database, user: UserId, before: User) {
    user in db.users && db.users[user].updatedAt == before.updatedAt
  }

  predicate Admissible(db: Database, tx: Tx) {
    match tx
    case ChangeUser(user, before, _, _) => StampMatches(db, user, before) && !TakesLastAdmin(db, tx)
    case SetDisabled(user, before, _) => StampMatches(db, user, before) && !TakesLastAdmin(db, tx)
    case DeletePasskey(user, passkey, passwordLogin) =>
      && user in db.users && passkey in db.passkeys && db.passkeys[passkey] == user
      && (|PasskeysOf(db, user)| > 1
          || (passwordLogin && db.users[user].passwordEnabled && db.users[user].passwordHash.Some?))
    case RegisterPasskey(user) => user in db.users
    case Enroll(user, grant) => user in db.users && grant in db.challenges
    case IssueGrant(user) => user in db.users
    case CreateUser(user, _, _) => user !in db.users
    case Bootstrap(_, _) => db.users == map[]
    case SetupTotp(user, _, _) => user in db.users
    case ConfirmTotp(user, before, _) =>
      StampMatches(db, user, before) && user in db.totp && !db.totp[user].confirmed
    case DropTotp(user, before) => StampMatches(db, user, before) && user in db.totp
    case AcceptStep(user, challenge, step) =>
      && user in db.totp && db.totp[user].confirmed && challenge in db.challenges
      && (db.totp[user].last.Some? ==> db.totp[user].last.value < step)
    case AddChallenge(added) =>
      && (added.user.Some? ==> added.user.value in db.users)
      && (added.parent.Some? ==> added.parent.value in db.challenges)
    case Consume(consumed) => consumed in db.challenges
    case Attempt(attempted) => attempted in db.challenges && db.challenges[attempted].attempts < 5
  }

  /** A transaction commits exactly when it is admissible. */
  lemma CommitsIff(db: Database, tx: Tx)
    ensures Executed(db, tx).Ok? <==> Admissible(db, tx)
  {
    if tx.Bootstrap? {
      assert |db.users| == 0 <==> db.users == map[];
    }
  }

  // ---------------------------------------------------------------- what it leaves behind

  /** One row was added under the next ID; `kept` says what happened to the others. */
  ghost predicate Added(db: Database, after: Database, kept: map<ChallengeId, Challenge>, added: Challenge) {
    after.challenges == kept[db.nextChallenge := added] && after.nextChallenge == db.nextChallenge + 1
  }

  ghost predicate PasskeyAdded(db: Database, after: Database, user: UserId) {
    after.passkeys == db.passkeys[db.nextPasskey := user] && after.nextPasskey == db.nextPasskey + 1
  }

  ghost predicate Inserted(db: Database, after: Database, user: UserId, role: Role, password: Option<nat>) {
    && after.users == db.users[user := User(role, false, password, password.Some?, false, db.clock)]
    && after.clock == db.clock + 1
  }

  ghost predicate ChangesUser(db: Database, after: Database, tx: Tx)
    requires tx.ChangeUser?
  {
    && OnlyUsers(db, after) && OtherUsersKept(db.users, after.users, tx.user) && after.clock == db.clock + 1
    && ColumnsGiven(db.users[tx.user], after.users[tx.user], tx.changes) && after.users[tx.user].updatedAt == db.clock
    && (tx.security ==> Cleared(db.challenges, after.challenges, tx.user, {PendingTotp}))
    && (!tx.security ==> after.challenges == db.challenges)
  }

  /** The flag is the requested one; a disabled user has no pending login, grant or enrollment ceremony left. */
  ghost predicate SetsDisabled(db: Database, after: Database, tx: Tx)
    requires tx.SetDisabled?
  {
    && OnlyUsers(db, after) && OtherUsersKept(db.users, after.users, tx.user) && after.clock == db.clock + 1
    && after.users[tx.user].disabled == tx.disabled && after.users[tx.user].updatedAt == db.clock
    && after.users[tx.user].(disabled := db.users[tx.user].disabled, updatedAt := db.users[tx.user].updatedAt)
       == db.users[tx.user]
    && (tx.disabled ==>
          Cleared(db.challenges, after.challenges, tx.user, {PendingTotp, EnrollmentGrant, EnrollmentRegistration}))
    && (!tx.disabled ==> after.challenges == db.challenges)
  }

  ghost predicate DeletesPasskey(db: Database, after: Database, tx: Tx)
    requires tx.DeletePasskey?
  {
    && tx.passkey !in after.passkeys && after.passkeys == db.passkeys - {tx.passkey}
    && Restamped(db, after, tx.user) && Cleared(db.challenges, after.challenges, tx.user, {PendingTotp})
    && OnlyUsers(db.(passkeys := after.passkeys), after)
  }

  ghost predicate ConfirmsTotp(db: Database, after: Database, tx: Tx)
    requires tx.ConfirmTotp? && tx.user in db.totp
  {
    && after.totp == db.totp[tx.user := Totp(db.totp[tx.user].revision, db.totp[tx.user].secret, true, Some(tx.step))]
    && OtherUsersKept(db.users, after.users, tx.user) && after.clock == db.clock + 1
    && after.users[tx.user] == db.users[tx.user].(totpRequired := true, updatedAt := db.clock)
    && Cleared(db.challenges, after.challenges, tx.user, {PendingTotp})
    && OnlyUsers(db.(totp := after.totp), after)
  }

  ghost predicate DropsTotp(db: Database, after: Database, tx: Tx)
    requires tx.DropTotp?
  {
    && after.totp == db.totp - {tx.user}
    && OtherUsersKept(db.users, after.users, tx.user) && after.clock == db.clock + 1
    && after.users[tx.user] == db.users[tx.user].(totpRequired := false, updatedAt := db.clock)
    && Cleared(db.challenges, after.challenges, tx.user, {PendingTotp})
    && OnlyUsers(db.(totp := after.totp), after)
  }

  ghost predicate IssuesGrant(db: Database, after: Database, user: UserId) {
    && db.nextChallenge in after.challenges
    && after.challenges[db.nextChallenge] == Challenge(EnrollmentGrant, Some(user), None, 0)
    && after == db.(challenges := after.challenges, nextChallenge := db.nextChallenge + 1)
    && (db.nextChallenge !in db.challenges ==>
          Cleared(db.challenges, after.challenges - {db.nextChallenge}, user, {EnrollmentGrant}))
  }

  /** Everything a committed transaction changes. */
  ghost predicate Leaves(db: Database, tx: Tx, after: Database)
    requires Admissible(db, tx)
  {
    match tx
    case ChangeUser(_, _, _, _) => ChangesUser(db, after, tx)
    case SetDisabled(_, _, _) => SetsDisabled(db, after, tx)
    case DeletePasskey(_, _, _) => DeletesPasskey(db, after, tx)
    case RegisterPasskey(user) =>
      PasskeyAdded(db, after, user) && after == db.(passkeys := after.passkeys, nextPasskey := after.nextPasskey)
    case Enroll(user, grant) =>
      && PasskeyAdded(db, after, user) && Deleted(db.challenges, after.challenges, grant)
      && after == db.(passkeys := after.passkeys, nextPasskey := after.nextPasskey, challenges := after.challenges)
    case IssueGrant(user) => IssuesGrant(db, after, user)
    case CreateUser(user, role, password) =>
      && Inserted(db, after, user, role, password)
      && Added(db, after, db.challenges, Challenge(EnrollmentGrant, Some(user), None, 0))
      && OnlyUsers(db.(nextChallenge := after.nextChallenge), after)
    case Bootstrap(user, password) =>
      && Inserted(db, after, user, Admin, password)
      && (if password.Some? then after.passkeys == db.passkeys && after.nextPasskey == db.nextPasskey
          else PasskeyAdded(db, after, user))
      && after.challenges == db.challenges
      && OnlyUsers(db.(passkeys := after.passkeys, nextPasskey := after.nextPasskey), after)
    case SetupTotp(user, revision, secret) =>
      after == db.(totp := db.totp[user := Totp(revision, secret, false, None)])
    case ConfirmTotp(_, _, _) => ConfirmsTotp(db, after, tx)
    case DropTotp(_, _) => DropsTotp(db, after, tx)
    case AcceptStep(user, challenge, step) =>
      && after.totp == db.totp[user := Totp(db.totp[user].revision, db.totp[user].secret, true, Some(step))]
      && Deleted(db.challenges, after.challenges, challenge)
      && after == db.(totp := after.totp, challenges := after.challenges)
    case AddChallenge(added) =>
      && Added(db, after, db.challenges, Challenge(added.kind, added.user, added.parent, 0))
      && after == db.(challenges := after.challenges, nextChallenge := after.nextChallenge)
    case Consume(consumed) =>
      Deleted(db.challenges, after.challenges, consumed) && after == db.(challenges := after.challenges)
    case Attempt(attempted) =>
      after == db.(challenges := db.challenges[attempted := db.challenges[attempted].(attempts :=
        db.challenges[attempted].attempts + 1)])
  }

  lemma WithoutKindClears(db: Database, user: UserId, kind: Kind)
    ensures Cleared(db.challenges, WithoutKind(db, user, kind).challenges, user, {kind})
    ensures WithoutKind(db, user, kind) == db.(challenges := WithoutKind(db, user, kind).challenges)
  {
  }

  lemma ClearedTwice(a: map<ChallengeId, Challenge>, b: map<ChallengeId, Challenge>, c: map<ChallengeId, Challenge>,
                     user: UserId, first: set<Kind>, second: set<Kind>)
    requires Cleared(a, b, user, first) && Cleared(b, c, user, second)
    ensures Cleared(a, c, user, first + second)
  {
  }

  lemma DisarmedClears(db: Database, user: UserId)
    ensures var kinds := {PendingTotp, EnrollmentGrant, EnrollmentRegistration};
            Cleared(db.challenges, Disarmed(db, user).challenges, user, kinds)
    ensures Disarmed(db, user) == db.(challenges := Disarmed(db, user).challenges)
  {
    var first := WithoutKind(db, user, PendingTotp);
    var second := WithoutKind(first, user, EnrollmentGrant);
    WithoutKindClears(db, user, PendingTotp);
    WithoutKindClears(first, user, EnrollmentGrant);
    WithoutKindClears(second, user, EnrollmentRegistration);
    ClearedTwice(db.challenges, first.challenges, second.challenges, user, {PendingTotp}, {EnrollmentGrant});
    ClearedTwice(db.challenges, second.challenges, Disarmed(db, user).challenges, user,
                 {PendingTotp} + {EnrollmentGrant}, {EnrollmentRegistration});
    assert {PendingTotp} + {EnrollmentGrant} + {EnrollmentRegistration}
        == {PendingTotp, EnrollmentGrant, EnrollmentRegistration};
  }

  lemma ChangeLeaves(db: Database, tx: Tx, after: Database)
    requires tx.ChangeUser? && Admissible(db, tx) && Executed(db, tx) == Ok(after)
    ensures ChangesUser(db, after, tx)
  {
    WithoutKindClears(UserUpdated(db, tx.user, tx.before.updatedAt, tx.changes).value, tx.user, PendingTotp);
  }

  lemma DisablingLeaves(db: Database, tx: Tx, after: Database)
    requires tx.SetDisabled? && Admissible(db, tx) && Executed(db, tx) == Ok(after)
    ensures SetsDisabled(db, after, tx)
  {
    DisarmedClears(UserDisabled(db, tx.user, tx.before.updatedAt, tx.disabled).value, tx.user);
  }

  lemma PasskeyDeletionLeaves(db: Database, tx: Tx, after: Database)
    requires tx.DeletePasskey? && Admissible(db, tx) && Executed(db, tx) == Ok(after)
    ensures DeletesPasskey(db, after, tx)
  {
    var deleted := db.(passkeys := db.passkeys - {tx.passkey});
    WithoutKindClears(Stamped(deleted, tx.user, db.users[tx.user]), tx.user, PendingTotp);
  }

  lemma TotpTxLeaves(db: Database, tx: Tx, after: Database)
    requires tx.ConfirmTotp? || tx.DropTotp?
    requires Admissible(db, tx) && Executed(db, tx) == Ok(after)
    ensures Leaves(db, tx, after)
  {
    match tx
    case ConfirmTotp(user, before, step) =>
      var next := TotpConfirmed(db, user, step).value;
      var last := UserUpdated(next, user, before.updatedAt, NO_CHANGES.(totpRequired := Some(true))).value;
      WithoutKindClears(last, user, PendingTotp);
    case DropTotp(user, before) =>
      var next := UserUpdated(db.(totp := db.totp - {user}), user, before.updatedAt,
                              NO_CHANGES.(totpRequired := Some(false))).value;
      WithoutKindClears(next, user, PendingTotp);
  }

  lemma GrantTxLeaves(db: Database, user: UserId, after: Database)
    requires user in db.users && Executed(db, IssueGrant(user)) == Ok(after)
    ensures Leaves(db, IssueGrant(user), after)
  {
    WithoutKindClears(db, user, EnrollmentGrant);
    var without := WithoutKind(db, user, EnrollmentGrant);
    if db.nextChallenge !in db.challenges {
      assert after.challenges - {db.nextChallenge} == without.challenges;
    }
  }

  /** A committed transaction leaves exactly what its columns say. */
  lemma CommitLeaves(db: Database, tx: Tx, after: Database)
    requires Executed(db, tx) == Ok(after)
    ensures Admissible(db, tx) && Leaves(db, tx, after)
  {
    CommitsIff(db, tx);
    if tx.ChangeUser? {
      ChangeLeaves(db, tx, after);
    } else if tx.SetDisabled? {
      DisablingLeaves(db, tx, after);
    } else if tx.DeletePasskey? {
      PasskeyDeletionLeaves(db, tx, after);
    } else if tx.ConfirmTotp? || tx.DropTotp? {
      TotpTxLeaves(db, tx, after);
    } else if tx.IssueGrant? {
      GrantTxLeaves(db, tx.user, after);
    }
  }

  /** Why a transaction is refused. */
  lemma RefusedWith(db: Database, tx: Tx)
    requires !Admissible(db, tx)
    ensures Executed(db, tx).Err?
    ensures var error := Executed(db, tx).error;
            match tx
            case ChangeUser(_, _, _, _) => error == if TakesLastAdmin(db, tx) then LastAdmin else Conflict
            case SetDisabled(_, _, _) => error == if TakesLastAdmin(db, tx) then LastAdmin else Conflict
            case DeletePasskey(user, _, passwordLogin) =>
              error == if user in db.users && |PasskeysOf(db, user)| <= 1
                          && !(passwordLogin && db.users[user].passwordEnabled && db.users[user].passwordHash.Some?)
                       then LastAuthentication else NotFound
            case Enroll(_, grant) => error == if grant in db.challenges then Conflict else InvalidCredentials
            case Bootstrap(_, _) => error == BootstrapUnavailable
            case DropTotp(user, _) => error == if user in db.totp then Conflict else NotFound
            case AcceptStep(_, _, _) => error == InvalidCredentials
            case Consume(_) => error == NotFound
            case Attempt(_) => error == RateLimited
            case _ => error == Conflict
  {
    CommitsIff(db, tx);
    if tx.Bootstrap? {
      assert |db.users| == 0 <==> db.users == map[];
    }
  }
}
