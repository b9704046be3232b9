/**
  All authentication requests together. A request reads rows one at a time outside any transaction
  and later commits one transaction; between its steps any other request may run. A request may
  also be abandoned at any point, which covers every refusal the source makes on top of these.
 */
module AuthProtocol {
  import opened Wrappers
  import opened AuthStore

  type RequestId = nat

  /** What happens to the password in one user change. */
  datatype PasswordEdit = KeepPassword | SetPassword(hash: nat) | ClearPassword

  /** The credential a code is checked against: its secret, and the length of the log when it was read. */
  datatype Reading = Reading(secret: Secret, since: nat)

  datatype Request =
    | Changing(user: UserId, before: User, role: Option<Role>, password: PasswordEdit, security: bool, counted: bool)
    | Disabling(user: UserId, before: User, disabled: bool)
    | Registering(user: UserId)
    | Issuing(user: UserId)
    | Beginning(user: UserId, grant: ChallengeId)
    | Enrolling(user: UserId, grant: ChallengeId, grantRead: bool)
    | SettingUp(user: UserId, revision: nat, secret: Secret)
    | Confirming(user: UserId, before: User, read: Option<Reading>)
    | Dropping(user: UserId, before: User)
    | LoggingIn(user: UserId, challenge: ChallengeId, read: Option<Reading>)
    | Pending(user: UserId)
    | Bootstrapping(user: UserId, initial: Option<nat>)

  /** What the accepted time steps of a user were, and when a setup replaced the credential. */
  datatype TotpEvent = Reset(user: UserId) | Accepted(user: UserId, step: int)

  /**
    `firsts`, `enrolled` and `totpLog` record committed bootstraps, enrollments and time steps, in
    order. Generated secrets never repeat.
   */
  datatype State = State(db: Database, requests: map<RequestId, Request>, firsts: seq<UserId>,
                         enrolled: seq<ChallengeId>, totpLog: seq<TotpEvent>, nextSecret: Secret)

  /** The service's one setting that matters here. */
  datatype Config = Config(passwordLogin: bool)

  datatype Step =
    | BeginChange(id: RequestId, user: UserId, role: Option<Role>, password: PasswordEdit, security: bool)
    | CountPasskeys(id: RequestId)
    | BeginDisable(id: RequestId, user: UserId, disabled: bool)
    | BeginRegistration(id: RequestId, user: UserId, ceremony: ChallengeId)
    | Offer(user: UserId)
    | BeginIssue(id: RequestId, user: UserId)
    | BeginEnrollment(id: RequestId, grant: ChallengeId)
    | ConsumeCeremony(id: RequestId, ceremony: ChallengeId)
    | ReadGrant(id: RequestId)
    | BeginSetup(id: RequestId, user: UserId)
    | BeginConfirm(id: RequestId, user: UserId)
    | BeginDrop(id: RequestId, user: UserId)
    | BeginTotpLogin(id: RequestId, challenge: ChallengeId)
    | ReadCredential(id: RequestId)
    | BeginPendingLogin(id: RequestId, user: UserId)
    | BeginBootstrap(id: RequestId, user: UserId, initial: Option<nat>)
    | Commit(id: RequestId, step: int)
    | Remove(passkeyOwner: UserId, passkey: PasskeyId)
    | Add(actor: UserId, newUser: UserId, newRole: Role, initial: Option<nat>)
    | Guess(guessed: ChallengeId)
    | Expire(expired: ChallengeId)
    | Abandon(id: RequestId)

  function EditChanges(role: Option<Role>, password: PasswordEdit): Changes {
    match password
    case KeepPassword => Changes(role, None, None, None)
    case SetPassword(hash) => Changes(role, Some(Some(hash)), Some(true), None)
    case ClearPassword => Changes(role, Some(None), Some(false), None)
  }

  predicate Waiting(s: State, id: RequestId) {
    id in s.requests
  }

  predicate IsKind(s: State, c: ChallengeId, kind: Kind) {
    c in s.db.challenges && s.db.challenges[c].kind == kind && s.db.challenges[c].user.Some?
  }

  /** A request that has made all its reads. */
  predicate Ready(request: Request) {
    match request
    case Changing(_, _, _, password, _, counted) => password.ClearPassword? ==> counted
    case Enrolling(_, _, grantRead) => grantRead
    case Confirming(_, _, read) => read.Some?
    case LoggingIn(_, _, read) => read.Some?
    case _ => true
  }

  /** A confirmation or a login that has still to read the credential. */
  predicate Unread(request: Request) {
    (request.Confirming? || request.LoggingIn?) && request.read.None?
  }

  predicate Enabled(config: Config, s: State, step: Step) {
    match step
    case BeginChange(id, user, _, password, _) =>
      id !in s.requests && user in s.db.users && (password.SetPassword? ==> config.passwordLogin)
    case CountPasskeys(id) =>
      Waiting(s, id) && s.requests[id].Changing? && PasskeysOf(s.db, s.requests[id].user) != {}
    case BeginDisable(id, user, _) => id !in s.requests && user in s.db.users
    case BeginRegistration(id, user, ceremony) =>
      id !in s.requests && IsKind(s, ceremony, PasskeyRegistration) && s.db.challenges[ceremony].user == Some(user)
    case Offer(user) => user in s.db.users
    case BeginIssue(id, user) => id !in s.requests && user in s.db.users && !s.db.users[user].disabled
    case BeginEnrollment(id, grant) => id !in s.requests && IsKind(s, grant, EnrollmentGrant)
    case ConsumeCeremony(id, ceremony) =>
      id !in s.requests && IsKind(s, ceremony, EnrollmentRegistration) && s.db.challenges[ceremony].parent.Some?
    case ReadGrant(id) =>
      Waiting(s, id) && s.requests[id].Enrolling? && IsKind(s, s.requests[id].grant, EnrollmentGrant)
      && s.db.challenges[s.requests[id].grant].user == Some(s.requests[id].user)
    case BeginSetup(id, user) =>
      id !in s.requests && user in s.db.users && !(user in s.db.totp && s.db.totp[user].confirmed)
    case BeginConfirm(id, user) => id !in s.requests && user in s.db.users
    case BeginDrop(id, user) => id !in s.requests && user in s.db.users
    case BeginTotpLogin(id, challenge) =>
      id !in s.requests && IsKind(s, challenge, PendingTotp) && s.db.challenges[challenge].attempts < MAXIMUM_ATTEMPTS
    case ReadCredential(id) =>
      Waiting(s, id) && Unread(s.requests[id]) && s.requests[id].user in s.db.totp
      && s.db.totp[s.requests[id].user].confirmed == s.requests[id].LoggingIn?
    case BeginPendingLogin(id, user) => id !in s.requests && user in s.db.users && s.db.users[user].totpRequired
    case BeginBootstrap(id, user, password) =>
      id !in s.requests && (password.Some? ==> config.passwordLogin && |s.db.users| == 0)
    case Commit(id, _) => Waiting(s, id) && Ready(s.requests[id])
    case Remove(_, _) => true
    case Add(actor, _, _, _) => actor in s.db.users
    case Guess(_) => true
    case Expire(_) => true
    case Abandon(id) => Waiting(s, id)
  }

  function Opened(s: State, id: RequestId, request: Request): State {
    s.(requests := s.requests[id := request])
  }

  /** The transaction a request ends with; `step` is the time step its code was valid for. */
  function TxOf(request: Request, step: int): Tx {
    match request
    case Changing(user, before, role, password, security, _) =>
      ChangeUser(user, before, EditChanges(role, password), security)
    case Disabling(user, before, disabled) => SetDisabled(user, before, disabled)
    case Registering(user) => RegisterPasskey(user)
    case Issuing(user) => IssueGrant(user)
    case Beginning(user, grant) => AddChallenge(Challenge(EnrollmentRegistration, Some(user), Some(grant), 0))
    case Enrolling(user, grant, _) => Enroll(user, grant)
    case SettingUp(user, revision, secret) => SetupTotp(user, revision, secret)
    case Confirming(user, before, _) => ConfirmTotp(user, before, step)
    case Dropping(user, before) => DropTotp(user, before)
    case LoggingIn(user, challenge, _) => AcceptStep(user, challenge, step)
    case Pending(user) => AddChallenge(Challenge(PendingTotp, Some(user), None, 0))
    case Bootstrapping(user, password) => Bootstrap(user, password)
  }

  function Events(tx: Tx): seq<TotpEvent> {
    match tx
    case SetupTotp(user, _, _) => [Reset(user)]
    case ConfirmTotp(user, _, step) => [Accepted(user, step)]
    case AcceptStep(user, _, step) => [Accepted(user, step)]
    case _ => []
  }

  /** Runs a transaction and records what it committed; a failed one changes nothing. */
  function Ran(s: State, tx: Tx): State {
    match Executed(s.db, tx)
    case Err(_) => s
    case Ok(db) =>
      State(db, s.requests,
            if tx.Bootstrap? then s.firsts + [tx.user] else s.firsts,
            if tx.Enroll? then s.enrolled + [tx.grant] else s.enrolled,
            s.totpLog + Events(tx), s.nextSecret)
  }

  function Closed(s: State, id: RequestId): State {
    s.(requests := s.requests - {id})
  }

  function Apply(config: Config, s: State, step: Step): State
    requires Enabled(config, s, step)
  {
    match step
    case BeginChange(id, user, role, password, security) =>
      Opened(s, id, Changing(user, s.db.users[user], role, password, security, false))
    case CountPasskeys(id) => Opened(s, id, s.requests[id].(counted := true))
    case BeginDisable(id, user, disabled) => Opened(s, id, Disabling(user, s.db.users[user], disabled))
    case BeginRegistration(id, user, ceremony) => Opened(Ran(s, Consume(ceremony)), id, Registering(user))
    case Offer(user) => Ran(s, AddChallenge(Challenge(PasskeyRegistration, Some(user), None, 0)))
    case BeginIssue(id, user) => Opened(s, id, Issuing(user))
    case BeginEnrollment(id, grant) => Opened(s, id, Beginning(s.db.challenges[grant].user.value, grant))
    case ConsumeCeremony(id, ceremony) =>
      var challenge := s.db.challenges[ceremony];
      Opened(Ran(s, Consume(ceremony)), id, Enrolling(challenge.user.value, challenge.parent.value, false))
    case ReadGrant(id) => Opened(s, id, s.requests[id].(grantRead := true))
    case BeginSetup(id, user) =>
      var revision := if user in s.db.totp then s.db.totp[user].revision + 1 else 1;
      Opened(s, id, SettingUp(user, revision, s.nextSecret)).(nextSecret := s.nextSecret + 1)
    case BeginConfirm(id, user) => Opened(s, id, Confirming(user, s.db.users[user], None))
    case BeginDrop(id, user) => Opened(s, id, Dropping(user, s.db.users[user]))
    case BeginTotpLogin(id, challenge) =>
      Opened(s, id, LoggingIn(s.db.challenges[challenge].user.value, challenge, None))
    case ReadCredential(id) =>
      var reading := Reading(s.db.totp[s.requests[id].user].secret, |s.totpLog|);
      Opened(s, id, s.requests[id].(read := Some(reading)))
    case BeginPendingLogin(id, user) => Opened(s, id, Pending(user))
    case BeginBootstrap(id, user, password) => Opened(s, id, Bootstrapping(user, password))
    case Commit(id, timestep) => Closed(Ran(s, TxOf(s.requests[id], timestep)), id)
    case Remove(user, passkey) => Ran(s, DeletePasskey(user, passkey, config.passwordLogin))
    case Add(_, user, role, password) => Ran(s, CreateUser(user, role, password))
    case Guess(challenge) => Ran(s, Attempt(challenge))
    case Expire(challenge) => Ran(s, Consume(challenge))
    case Abandon(id) => Closed(s, id)
  }

  ghost predicate Init(s: State) {
    s == State(Database(map[], map[], map[], map[], 0, 0, 0), map[], [], [], [], 0)
  }

  ghost predicate Next(config: Config, s: State, s': State) {
    exists step :: Enabled(config, s, step) && s' == Apply(config, s, step)
  }

  /** State `i` comes from the one before it. */
  ghost predicate Follows(config: Config, states: seq<State>, i: nat)
    requires 0 < i < |states|
  {
    Next(config, states[i - 1], states[i])
  }

  ghost predicate Run(config: Config, states: seq<State>) {
    && states != [] && Init(states[0])
    && forall i :: 0 < i < |states| ==> Follows(config, states, i)
  }

  // ---------------------------------------------------------------- every step is at most one transaction

  function StepTx(s: State, step: Step, config: Config): Option<Tx>
    requires Enabled(config, s, step)
  {
    match step
    case BeginRegistration(_, _, ceremony) => Some(Consume(ceremony))
    case Offer(user) => Some(AddChallenge(Challenge(PasskeyRegistration, Some(user), None, 0)))
    case ConsumeCeremony(_, ceremony) => Some(Consume(ceremony))
    case Commit(id, timestep) => Some(TxOf(s.requests[id], timestep))
    case Remove(user, passkey) => Some(DeletePasskey(user, passkey, config.passwordLogin))
    case Add(_, user, role, password) => Some(CreateUser(user, role, password))
    case Guess(challenge) => Some(Attempt(challenge))
    case Expire(challenge) => Some(Consume(challenge))
    case _ => None
  }

  lemma StepRuns(config: Config, s: State, step: Step)
    requires Enabled(config, s, step)
    ensures var s', tx := Apply(config, s, step), StepTx(s, step, config);
            if tx.None? then s'.(requests := s.requests, nextSecret := s.nextSecret) == s
            else s'.(requests := s.requests) == Ran(s, tx.value)
  {
  }
}
