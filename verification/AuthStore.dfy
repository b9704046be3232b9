/**
  The authentication tables and the transactions the service runs on them. Each transaction is a
  function from a database to a database or an error, and a method that runs its statements in
  order and rolls back when one of them fails.
 */
module AuthStore {
  import opened Wrappers

  type UserId = nat
  type PasskeyId = nat
  type ChallengeId = nat
  type Secret = nat

  /** Values of `updated_at` that a table has never held before. */
  type Stamp = nat

  const MAXIMUM_ATTEMPTS: nat := 5

  datatype Role = Admin | Operator | Viewer

  datatype Error =
    | NotFound
    | Conflict
    | LastAdmin
    | LastAuthentication
    | InvalidCredentials
    | BootstrapUnavailable
    | RateLimited

  datatype User = User(role: Role, disabled: bool, passwordHash: Option<nat>, passwordEnabled: bool, totpRequired: bool,
                       updatedAt: Stamp)

  /** Absent fields keep their column; `passwordHash` set to `Some(None)` clears it. */
  datatype Changes = Changes(role: Option<Role>, passwordHash: Option<Option<nat>>, passwordEnabled: Option<bool>,
                             totpRequired: Option<bool>)

  const NO_CHANGES := Changes(None, None, None, None)

  datatype Kind = BootstrapRegistration | EnrollmentGrant | EnrollmentRegistration | PasskeyRegistration | PendingTotp

  datatype Challenge = Challenge(kind: Kind, user: Option<UserId>, parent: Option<ChallengeId>, attempts: nat)

  /** `secret` identifies the generated secret. */
  datatype Totp = Totp(revision: nat, secret: Secret, confirmed: bool, last: Option<int>)

  datatype Database = Database(users: map<UserId, User>, passkeys: map<PasskeyId, UserId>,
                               challenges: map<ChallengeId, Challenge>, totp: map<UserId, Totp>, clock: Stamp,
                               nextPasskey: PasskeyId, nextChallenge: ChallengeId)

  // ---------------------------------------------------------------- queries

  function ActiveAdmins(db: Database): set<UserId> {
    set u | u in db.users && db.users[u].role == Admin && !db.users[u].disabled
  }

  function PasskeysOf(db: Database, user: UserId): set<PasskeyId> {
    set p | p in db.passkeys && db.passkeys[p] == user
  }

  predicate PasswordUsable(user: User, passwordLogin: bool) {
    passwordLogin && user.passwordEnabled && user.passwordHash.Some?
  }

  // ---------------------------------------------------------------- statements

  function Value<T>(change: Option<T>, column: T): T {
    if change.Some? then change.value else column
  }

  function Changed(user: User, changes: Changes, stamp: Stamp): User {
    User(Value(changes.role, user.role), user.disabled, Value(changes.passwordHash, user.passwordHash),
         Value(changes.passwordEnabled, user.passwordEnabled), Value(changes.totpRequired, user.totpRequired), stamp)
  }

  function Stamped(db: Database, id: UserId, user: User): Database {
    db.(users := db.users[id := user.(updatedAt := db.clock)], clock := db.clock + 1)
  }

  predicate Current(db: Database, id: UserId, expected: Stamp) {
    id in db.users && db.users[id].updatedAt == expected
  }

  function UserUpdated(db: Database, id: UserId, expected: Stamp, changes: Changes): Result<Database, Error> {
    if Current(db, id, expected) then Ok(Stamped(db, id, Changed(db.users[id], changes, db.clock))) else Err(Conflict)
  }

  function UserDisabled(db: Database, id: UserId, expected: Stamp, disabled: bool): Result<Database, Error> {
    if Current(db, id, expected) then Ok(Stamped(db, id, db.users[id].(disabled := disabled))) else Err(Conflict)
  }

  function UserInserted(db: Database, id: UserId, user: User): Result<Database, Error> {
    if id in db.users then Err(Conflict) else Ok(Stamped(db, id, user))
  }

  /** Rows that stay when `gone` is deleted: a ceremony goes with the grant it descends from. */
  function Remaining(challenges: map<ChallengeId, Challenge>, gone: set<ChallengeId>): map<ChallengeId, Challenge> {
    map c | c in challenges && c !in gone
      && !(challenges[c].parent.Some? && challenges[c].parent.value in gone) :: challenges[c]
  }

  function ChallengesOf(db: Database, user: UserId, kind: Kind): set<ChallengeId> {
    set c | c in db.challenges && db.challenges[c].user == Some(user) && db.challenges[c].kind == kind
  }

  function ChallengesDeleted(db: Database, gone: set<ChallengeId>): Database {
    db.(challenges := Remaining(db.challenges, gone))
  }

  function WithoutKind(db: Database, user: UserId, kind: Kind): Database {
    ChallengesDeleted(db, ChallengesOf(db, user, kind))
  }

  /** Token hashes and IDs are random and never repeat; a parent must exist. */
  function ChallengeInserted(db: Database, challenge: Challenge): Result<Database, Error> {
    if challenge.user.Some? && challenge.user.value !in db.users then Err(Conflict)
    else if challenge.parent.Some? && challenge.parent.value !in db.challenges then Err(Conflict)
    else Ok(db.(challenges := db.challenges[db.nextChallenge := challenge.(attempts := 0)],
                nextChallenge := db.nextChallenge + 1))
  }

  function ChallengeDeleted(db: Database, id: ChallengeId): Result<Database, Error> {
    if id in db.challenges then Ok(ChallengesDeleted(db, {id})) else Err(NotFound)
  }

  function PasskeyInserted(db: Database, user: UserId): Result<Database, Error> {
    if user !in db.users then Err(Conflict)
    else Ok(db.(passkeys := db.passkeys[db.nextPasskey := user], nextPasskey := db.nextPasskey + 1))
  }

  function TotpConfirmed(db: Database, user: UserId, step: int): Result<Database, Error> {
    if user in db.totp && !db.totp[user].confirmed
    then Ok(db.(totp := db.totp[user := db.totp[user].(confirmed := true, last := Some(step))]))
    else Err(Conflict)
  }

  predicate Acceptable(db: Database, user: UserId, step: int) {
    user in db.totp && db.totp[user].confirmed && (db.totp[user].last.None? || db.totp[user].last.value < step)
  }

  function StepAccepted(db: Database, user: UserId, step: int): Result<Database, Error> {
    if Acceptable(db, user, step) then Ok(db.(totp := db.totp[user := db.totp[user].(last := Some(step))]))
    else Err(InvalidCredentials)
  }

  // ---------------------------------------------------------------- transactions

  datatype Tx =
    | ChangeUser(user: UserId, before: User, changes: Changes, security: bool)
    | SetDisabled(user: UserId, before: User, disabled: bool)
    | DeletePasskey(user: UserId, passkey: PasskeyId, passwordLogin: bool)
    | RegisterPasskey(user: UserId)
    | Enroll(user: UserId, grant: ChallengeId)
    | IssueGrant(user: UserId)
    | CreateUser(user: UserId, role: Role, password: Option<nat>)
    | Bootstrap(user: UserId, password: Option<nat>)
    | SetupTotp(user: UserId, revision: nat, secret: Secret)
    | ConfirmTotp(user: UserId, before: User, step: int)
    | DropTotp(user: UserId, before: User)
    | AcceptStep(user: UserId, challenge: ChallengeId, step: int)
    | AddChallenge(added: Challenge)
    | Consume(consumed: ChallengeId)
    | Attempt(attempted: ChallengeId)

  /** The row a creation inserts. */
  function NewUser(role: Role, password: Option<nat>): User {
    User(role, false, password, password.Some?, false, 0)
  }

  predicate Demotes(before: User, changes: Changes) {
    before.role == Admin && !before.disabled && changes.role.Some? && changes.role.value != Admin
  }

  function Executed(db: Database, tx: Tx): Result<Database, Error> {
    match tx
    case ChangeUser(user, before, changes, security) =>
      if Demotes(before, changes) && |ActiveAdmins(db)| <= 1 then Err(LastAdmin)
      else (match UserUpdated(db, user, before.updatedAt, changes)
            case Err(error) => Err(error)
            case Ok(next) => Ok(if security then WithoutKind(next, user, PendingTotp) else next))
    case SetDisabled(user, before, disabled) =>
      if disabled && before.role == Admin && !before.disabled && |ActiveAdmins(db)| <= 1 then Err(LastAdmin)
      else (match UserDisabled(db, user, before.updatedAt, disabled)
            case Err(error) => Err(error)
            case Ok(next) => Ok(if disabled then Disarmed(next, user) else next))
    case DeletePasskey(user, passkey, passwordLogin) =>
      if user !in db.users then Err(NotFound)
      else if |PasskeysOf(db, user)| <= 1 && !PasswordUsable(db.users[user], passwordLogin) then Err(LastAuthentication)
      else if passkey !in PasskeysOf(db, user) then Err(NotFound)
      else
        var deleted := db.(passkeys := db.passkeys - {passkey});
        Ok(WithoutKind(Stamped(deleted, user, db.users[user]), user, PendingTotp))
    case RegisterPasskey(user) => PasskeyInserted(db, user)
    case Enroll(user, grant) =>
      (match ChallengeDeleted(db, grant)
       case Err(_) => Err(InvalidCredentials)
       case Ok(next) => PasskeyInserted(next, user))
    case IssueGrant(user) =>
      ChallengeInserted(WithoutKind(db, user, EnrollmentGrant), Challenge(EnrollmentGrant, Some(user), None, 0))
    case CreateUser(user, role, password) =>
      (match UserInserted(db, user, NewUser(role, password))
       case Err(error) => Err(error)
       case Ok(next) => ChallengeInserted(next, Challenge(EnrollmentGrant, Some(user), None, 0)))
    case Bootstrap(user, password) =>
      if |db.users| != 0 then Err(BootstrapUnavailable)
      else (match UserInserted(db, user, NewUser(Admin, password))
            case Err(error) => Err(error)
            case Ok(next) => if password.Some? then Ok(next) else PasskeyInserted(next, user))
    case SetupTotp(user, revision, secret) =>
      if user !in db.users then Err(Conflict) else Ok(db.(totp := db.totp[user := Totp(revision, secret, false, None)]))
    case ConfirmTotp(user, before, step) =>
      (match TotpConfirmed(db, user, step)
       case Err(error) => Err(error)
       case Ok(next) =>
         match UserUpdated(next, user, before.updatedAt, NO_CHANGES.(totpRequired := Some(true)))
         case Err(error) => Err(error)
         case Ok(last) => Ok(WithoutKind(last, user, PendingTotp)))
    case DropTotp(user, before) =>
      if user !in db.totp then Err(NotFound)
      else (match UserUpdated(db.(totp := db.totp - {user}), user, before.updatedAt,
                              NO_CHANGES.(totpRequired := Some(false)))
            case Err(error) => Err(error)
            case Ok(next) => Ok(WithoutKind(next, user, PendingTotp)))
    case AcceptStep(user, challenge, step) =>
      (match StepAccepted(db, user, step)
       case Err(error) => Err(error)
       case Ok(next) =>
         match ChallengeDeleted(next, challenge)
         case Err(_) => Err(InvalidCredentials)
         case Ok(last) => Ok(last))
    case AddChallenge(challenge) => ChallengeInserted(db, challenge)
    case Consume(id) => ChallengeDeleted(db, id)
    case Attempt(id) =>
      if id in db.challenges && db.challenges[id].attempts < MAXIMUM_ATTEMPTS
      then Ok(db.(challenges := db.challenges[id := db.challenges[id].(attempts := db.challenges[id].attempts + 1)]))
      else Err(RateLimited)
  }

  /** What a disabled user loses: pending logins, grants and enrollment ceremonies. */
  function Disarmed(db: Database, user: UserId): Database {
    WithoutKind(WithoutKind(WithoutKind(db, user, PendingTotp), user, EnrollmentGrant), user, EnrollmentRegistration)
  }
}
