/**
  What committed requests bring about, which requests may change which column, and where enrollments
  come from.
 */
module AuthHistory {
  import opened Wrappers
  import opened AuthStore
  import opened AuthEffects
  import opened AuthProtocol
  import opened AuthSafety
  import opened AuthTokens

  // ---------------------------------------------------------------- requests and their tasks

  /** Two views of one request, before and after a read. */
  predicate SameTask(a: Request, b: Request) {
    match a
    case Changing(_, _, _, _, _, _) => b.Changing? && b.(counted := a.counted) == a
    case Enrolling(_, _, _) => b.Enrolling? && b.(grantRead := a.grantRead) == a
    case Confirming(user, before, _) => b.Confirming? && b.user == user && b.before == before
    case LoggingIn(user, challenge, _) => b.LoggingIn? && b.user == user && b.challenge == challenge
    case _ => a == b
  }

  /** A request of user `u` that holds the row as it is. */
  predicate ReadsRow(s: State, request: Request, u: UserId) {
    && (request.Changing? || request.Disabling? || request.Confirming? || request.Dropping?)
    && u in s.db.users && request.user == u && request.before == s.db.users[u]
  }

  /** The step opens the request with what it was asked for and the rows it finds. */
  predicate Opens(s: State, step: Step, request: Request) {
    match step
    case BeginChange(_, u, role, password, security) =>
      && ReadsRow(s, request, u) && request.Changing? && request.role == role && request.password == password
      && request.security == security && !request.counted
    case BeginDisable(_, u, disabled) => ReadsRow(s, request, u) && request.Disabling? && request.disabled == disabled
    case BeginConfirm(_, u) => ReadsRow(s, request, u) && request.Confirming? && request.read.None?
    case BeginDrop(_, u) => ReadsRow(s, request, u) && request.Dropping?
    case BeginRegistration(_, u, ceremony) =>
      request == Registering(u) && IsKind(s, ceremony, PasskeyRegistration) && s.db.challenges[ceremony].user == Some(u)
    case BeginIssue(_, u) => request == Issuing(u) && u in s.db.users && !s.db.users[u].disabled
    case BeginEnrollment(_, grant) => request.Beginning? && request.grant == grant && IsKind(s, grant, EnrollmentGrant)
    case ConsumeCeremony(_, ceremony) =>
      && IsKind(s, ceremony, EnrollmentRegistration) && request.Enrolling? && !request.grantRead
      && Some(request.user) == s.db.challenges[ceremony].user && Some(request.grant) == s.db.challenges[ceremony].parent
    case BeginSetup(_, u) =>
      && request.SettingUp? && request.user == u && request.secret == s.nextSecret
      && (u in s.db.totp ==> !s.db.totp[u].confirmed && request.revision == s.db.totp[u].revision + 1)
    case BeginTotpLogin(_, challenge) =>
      && request.LoggingIn? && request.challenge == challenge && request.read.None?
      && IsKind(s, challenge, PendingTotp) && s.db.challenges[challenge].user == Some(request.user)
    case BeginPendingLogin(_, u) => request == Pending(u) && u in s.db.users && s.db.users[u].totpRequired
    case BeginBootstrap(_, u, initial) => request == Bootstrapping(u, initial)
    case _ => false
  }

  /** Every open request was opened by a step that asked for just that, and keeps its task. */
  lemma RequestsKeepTheirTask(config: Config, s: State, step: Step, id: RequestId)
    requires Enabled(config, s, step) && id in Apply(config, s, step).requests
    ensures var request := Apply(config, s, step).requests[id];
            if id in s.requests then SameTask(s.requests[id], request) else Opens(s, step, request)
  {
  }

  // ---------------------------------------------------------------- a committed request

  /** The credential column holds this hash and is usable, or holds none and is not. */
  predicate PasswordIs(user: User, hash: Option<nat>) {
    user.passwordHash == hash && user.passwordEnabled == hash.Some?
  }

  ghost predicate NoneLeft(db: Database, user: UserId, kinds: set<Kind>) {
    forall c :: c in db.challenges ==> !IsOf(db.challenges[c], user, kinds)
  }

  ghost predicate ChangeDone(request: Request, before: User, after: User)
    requires request.Changing?
  {
    && (request.role.Some? ==> after.role == request.role.value)
    && (request.role.None? ==> after.role == before.role)
    && (request.password.SetPassword? ==> PasswordIs(after, Some(request.password.hash)))
    && (request.password.ClearPassword? ==> PasswordIs(after, None))
    && (request.password.KeepPassword? ==>
          after.passwordHash == before.passwordHash && after.passwordEnabled == before.passwordEnabled)
  }

  /** What the request asked for is in the tables. */
  ghost predicate Brought(before: Database, request: Request, timestep: int, after: Database) {
    match request
    case Changing(user, _, _, _, security, _) =>
      && user in before.users && user in after.users && ChangeDone(request, before.users[user], after.users[user])
      && (security ==> NoneLeft(after, user, {PendingTotp}))
    case Disabling(user, _, disabled) =>
      && user in after.users && after.users[user].disabled == disabled
      && (disabled ==> NoneLeft(after, user, {PendingTotp, EnrollmentGrant, EnrollmentRegistration}))
    case Registering(user) => after.passkeys == before.passkeys[before.nextPasskey := user]
    case Issuing(user) =>
      && before.nextChallenge in after.challenges
      && after.challenges[before.nextChallenge] == Challenge(EnrollmentGrant, Some(user), None, 0)
    case Beginning(user, grant) =>
      && before.nextChallenge in after.challenges && grant in before.challenges
      && after.challenges[before.nextChallenge] == Challenge(EnrollmentRegistration, Some(user), Some(grant), 0)
    case Enrolling(user, grant, _) =>
      && after.passkeys == before.passkeys[before.nextPasskey := user]
      && grant in before.challenges && grant !in after.challenges
    case SettingUp(user, revision, secret) =>
      user in after.totp && after.totp[user] == Totp(revision, secret, false, None)
    case Confirming(user, _, _) =>
      && user in after.users && user in after.totp && after.users[user].totpRequired
      && after.totp[user].confirmed && after.totp[user].last == Some(timestep)
      && NoneLeft(after, user, {PendingTotp})
    case Dropping(user, _) =>
      && user in after.users && user !in after.totp && !after.users[user].totpRequired
      && NoneLeft(after, user, {PendingTotp})
    case LoggingIn(user, challenge, _) =>
      && user in after.totp && after.totp[user].last == Some(timestep)
      && challenge in before.challenges && challenge !in after.challenges
    case Pending(user) =>
      && before.nextChallenge in after.challenges
      && after.challenges[before.nextChallenge] == Challenge(PendingTotp, Some(user), None, 0)
    case Bootstrapping(user, initial) =>
      && before.users == map[] && after.users.Keys == {user} && after.users[user].role == Admin
      && !after.users[user].disabled && PasswordIs(after.users[user], initial)
      && (initial.None? ==> after.passkeys == before.passkeys[before.nextPasskey := user])
  }

  /** A request that commits brings about what it was made for; one that is refused changes nothing. */
  lemma CommitBringsAbout(config: Config, s: State, id: RequestId, timestep: int)
    requires Enabled(config, s, Commit(id, timestep))
    ensures var request, s' := s.requests[id], Apply(config, s, Commit(id, timestep));
            && s'.requests == s.requests - {id}
            && (if Executed(s.db, TxOf(request, timestep)).Ok? then Brought(s.db, request, timestep, s'.db)
                else s'.db == s.db)
  {
    var tx := TxOf(s.requests[id], timestep);
    if Executed(s.db, tx).Ok? {
      CommitLeaves(s.db, tx, Executed(s.db, tx).value);
    }
  }

  /** What the steps that are a transaction by themselves bring about, and when. */
  lemma DirectStepsBringAbout(config: Config, s: State, step: Step)
    requires Enabled(config, s, step)
    ensures var before, after := s.db, Apply(config, s, step).db;
            match step
            case Remove(owner, passkey) =>
              if owner in before.users && passkey in before.passkeys && before.passkeys[passkey] == owner
                 && (|PasskeysOf(before, owner)| > 1 || PasswordUsable(before.users[owner], config.passwordLogin))
              then after.passkeys == before.passkeys - {passkey} && NoneLeft(after, owner, {PendingTotp})
              else after == before
            case Add(_, user, role, initial) =>
              if user !in before.users
              then && after.users
                      == before.users[user := User(role, false, initial, initial.Some?, false, before.clock)]
                   && before.nextChallenge in after.challenges
                   && after.challenges[before.nextChallenge] == Challenge(EnrollmentGrant, Some(user), None, 0)
              else after == before
            case Guess(guessed) =>
              if guessed in before.challenges && before.challenges[guessed].attempts < 5
              then && guessed in after.challenges
                   && after.challenges[guessed].attempts == before.challenges[guessed].attempts + 1
              else after == before
            case Expire(expired) => expired !in after.challenges && after.users == before.users
            case Offer(user) =>
              && before.nextChallenge in after.challenges
              && after.challenges[before.nextChallenge] == Challenge(PasskeyRegistration, Some(user), None, 0)
            case BeginRegistration(_, _, ceremony) => ceremony !in after.challenges && after.users == before.users
            case ConsumeCeremony(_, ceremony) => ceremony !in after.challenges && after.users == before.users
            case _ => true
  {
    var tx := StepTx(s, step, config);
    if tx.Some? && !step.Commit? {
      CommitsIff(s.db, tx.value);
      if Executed(s.db, tx.value).Ok? {
        CommitLeaves(s.db, tx.value, Executed(s.db, tx.value).value);
      }
    }
  }

  // ---------------------------------------------------------------- who changes what

  /** The step commits a change of `u` that asked for these values. */
  predicate RoleGiven(s: State, step: Step, u: UserId, role: Role) {
    && step.Commit? && step.id in s.requests && s.requests[step.id].Changing?
    && s.requests[step.id].user == u && s.requests[step.id].role == Some(role)
  }

  predicate PasswordGiven(s: State, step: Step, u: UserId, after: User) {
    && step.Commit? && step.id in s.requests && s.requests[step.id].Changing? && s.requests[step.id].user == u
    && match s.requests[step.id].password
       case KeepPassword => false
       case SetPassword(hash) => PasswordIs(after, Some(hash))
       case ClearPassword => PasswordIs(after, None)
  }

  predicate FlagGiven(s: State, step: Step, u: UserId, disabled: bool) {
    && step.Commit? && step.id in s.requests && s.requests[step.id].Disabling?
    && s.requests[step.id].user == u && s.requests[step.id].disabled == disabled
  }

  predicate RequirementGiven(s: State, step: Step, u: UserId, required: bool) {
    && step.Commit? && step.id in s.requests && s.requests[step.id].user == u
    && (if required then s.requests[step.id].Confirming? else s.requests[step.id].Dropping?)
  }

  /** Each column of a user changes only by a committed request for that user that asked for the new value. */
  lemma ColumnsChangeOnRequest(config: Config, s: State, step: Step, u: UserId)
    requires Enabled(config, s, step) && u in s.db.users
    ensures u in Apply(config, s, step).db.users
    ensures var before, after := s.db.users[u], Apply(config, s, step).db.users[u];
            && (after.role != before.role ==> RoleGiven(s, step, u, after.role))
            && (after.passwordHash != before.passwordHash || after.passwordEnabled != before.passwordEnabled ==>
                  PasswordGiven(s, step, u, after))
            && (after.disabled != before.disabled ==> FlagGiven(s, step, u, after.disabled))
            && (after.totpRequired != before.totpRequired ==> RequirementGiven(s, step, u, after.totpRequired))
  {
    StepRuns(config, s, step);
    var tx := StepTx(s, step, config);
    if tx.Some? && Executed(s.db, tx.value).Ok? {
      var db' := Executed(s.db, tx.value).value;
      CommitLeaves(s.db, tx.value, db');
      RowAfter(s.db, tx.value, db', u);
    }
  }

  ghost predicate EnabledBetween(config: Config, states: seq<State>, i: nat, j: nat, u: UserId)
    requires i <= j < |states|
  {
    exists k, step: Step :: i <= k < j && Enabled(config, states[k], step)
      && states[k + 1] == Apply(config, states[k], step) && FlagGiven(states[k], step, u, false)
  }

  /** A disabled user stays disabled until a request to enable that user commits. */
  lemma {:induction false} DisabledUntilEnabled(config: Config, states: seq<State>, i: nat, j: nat, u: UserId)
    requires Run(config, states) && i <= j < |states| && u in states[i].db.users && states[i].db.users[u].disabled
    ensures u in states[j].db.users
    ensures states[j].db.users[u].disabled || EnabledBetween(config, states, i, j, u)
    decreases j
  {
    if i < j {
      DisabledUntilEnabled(config, states, i, j - 1, u);
      var step := TheStep(config, states, j);
      ColumnsChangeOnRequest(config, states[j - 1], step, u);
      if states[j - 1].db.users[u].disabled && !states[j].db.users[u].disabled {
        assert states[(j - 1) + 1] == Apply(config, states[j - 1], step);
        assert FlagGiven(states[j - 1], step, u, false);
      }
    }
  }

  lemma NewPasskeyOwner(db: Database, tx: Tx, db': Database, p: PasskeyId)
    requires Executed(db, tx) == Ok(db') && p in db'.passkeys && p !in db.passkeys
    ensures (tx.RegisterPasskey? || tx.Enroll? || tx.Bootstrap?) && tx.user == db'.passkeys[p]
  {
  }

  lemma PasskeyTxIsRequested(config: Config, s: State, step: Step)
    requires Enabled(config, s, step) && StepTx(s, step, config).Some?
    requires var tx := StepTx(s, step, config).value; tx.RegisterPasskey? || tx.Enroll? || tx.Bootstrap?
    ensures step.Commit? && s.requests[step.id].user == StepTx(s, step, config).value.user
    ensures var request := s.requests[step.id];
            request.Registering? || request.Enrolling? || request.Bootstrapping?
  {
  }

  /** Passkeys appear only for the user a committed registration, enrollment or bootstrap was made for. */
  lemma PasskeysAppearOnRequest(config: Config, s: State, step: Step, p: PasskeyId)
    requires Enabled(config, s, step) && p in Apply(config, s, step).db.passkeys && p !in s.db.passkeys
    ensures step.Commit? && s.requests[step.id].user == Apply(config, s, step).db.passkeys[p]
    ensures var request := s.requests[step.id];
            request.Registering? || request.Enrolling? || request.Bootstrapping?
  {
    StepRuns(config, s, step);
    var tx := StepTx(s, step, config);
    NewPasskeyOwner(s.db, tx.value, Apply(config, s, step).db, p);
    PasskeyTxIsRequested(config, s, step);
  }

  // ---------------------------------------------------------------- challenges

  /** A ceremony of an enrollment descends from a grant of the same user, and nothing else descends from anything. */
  predicate ChallengeOk(db: Database, challenge: Challenge) {
    && challenge.attempts <= 5
    && (challenge.parent.Some? <==> challenge.kind == EnrollmentRegistration)
    && (challenge.parent.Some? ==>
          && challenge.parent.value in db.challenges
          && db.challenges[challenge.parent.value].kind == EnrollmentGrant
          && db.challenges[challenge.parent.value].user == challenge.user)
  }

  /** If the grant is still there, it is a grant of the user. */
  predicate GrantHolds(db: Database, user: UserId, grant: ChallengeId) {
    && grant < db.nextChallenge
    && (grant in db.challenges ==>
          db.challenges[grant].kind == EnrollmentGrant && db.challenges[grant].user == Some(user))
  }

  predicate HoldsGrant(request: Request) {
    request.Beginning? || request.Enrolling?
  }

  ghost predicate ChallengeInv(s: State) {
    && ChallengesBelow(s.db)
    && (forall c :: c in s.db.challenges ==> ChallengeOk(s.db, s.db.challenges[c]))
    && forall id :: id in s.requests && HoldsGrant(s.requests[id]) ==>
         GrantHolds(s.db, s.requests[id].user, s.requests[id].grant)
  }

  /** What a transaction may add: a ceremony of the grant's user, or a row that descends from nothing. */
  predicate MayAdd(db: Database, tx: Tx) {
    tx.AddChallenge? ==>
      if tx.added.kind == EnrollmentRegistration
      then tx.added.parent.Some? && tx.added.user.Some? && GrantHolds(db, tx.added.user.value, tx.added.parent.value)
      else tx.added.parent.None?
  }

  /** A row that is still there is the row that was there, but for one more attempt of at most five. */
  lemma OldChallengeAfter(db: Database, tx: Tx, db': Database, c: ChallengeId)
    requires Executed(db, tx) == Ok(db') && c in db'.challenges && c < db.nextChallenge
    ensures c in db.challenges
    ensures db'.challenges[c] == db.challenges[c].(attempts := db'.challenges[c].attempts)
    ensures db'.challenges[c].attempts <= 5 || db'.challenges[c].attempts == db.challenges[c].attempts
  {
  }

  lemma ParentAfter(db: Database, tx: Tx, db': Database, c: ChallengeId)
    requires Executed(db, tx) == Ok(db') && c in db'.challenges && c in db.challenges && c < db.nextChallenge
    requires db.challenges[c].parent.Some? && db.challenges[c].parent.value in db.challenges
    requires db.challenges[db.challenges[c].parent.value].parent.None?
    ensures db.challenges[c].parent.value in db'.challenges
  {
  }

  lemma NewChallengeAfter(db: Database, tx: Tx, db': Database, c: ChallengeId)
    requires Executed(db, tx) == Ok(db') && c in db'.challenges && c !in db.challenges
    ensures db'.challenges[c].attempts == 0
    ensures if tx.AddChallenge? then db'.challenges[c] == tx.added.(attempts := 0)
            else db'.challenges[c].kind == EnrollmentGrant && db'.challenges[c].parent.None?
  {
  }

  lemma ParentIsAdded(db: Database, tx: Tx, db': Database)
    requires Executed(db, tx) == Ok(db') && tx.AddChallenge? && tx.added.parent.Some? && ChallengesBelow(db)
    ensures tx.added.parent.value in db.challenges
    ensures forall c :: c in db.challenges ==> c in db'.challenges && db'.challenges[c] == db.challenges[c]
  {
  }

  lemma TxKeepsChallenges(db: Database, tx: Tx, db': Database, c: ChallengeId)
    requires Executed(db, tx) == Ok(db') && ChallengesBelow(db) && MayAdd(db, tx)
    requires forall c :: c in db.challenges ==> ChallengeOk(db, db.challenges[c])
    requires c in db'.challenges
    ensures ChallengeOk(db', db'.challenges[c])
  {
    if c in db.challenges {
      OldChallengeAfter(db, tx, db', c);
      if db.challenges[c].parent.Some? {
        assert ChallengeOk(db, db.challenges[db.challenges[c].parent.value]);
        ParentAfter(db, tx, db', c);
        OldChallengeAfter(db, tx, db', db.challenges[c].parent.value);
      }
    } else {
      NewChallengeAfter(db, tx, db', c);
      if tx.AddChallenge? && tx.added.parent.Some? {
        ParentIsAdded(db, tx, db');
      }
    }
  }

  lemma TxKeepsGrant(db: Database, tx: Tx, db': Database, user: UserId, grant: ChallengeId)
    requires Executed(db, tx) == Ok(db') && GrantHolds(db, user, grant)
    ensures GrantHolds(db', user, grant)
  {
    ChallengeAfter(db, tx, db', grant);
    if grant in db'.challenges {
      OldChallengeAfter(db, tx, db', grant);
    }
  }

  lemma RanKeepsChallenges(s: State, tx: Tx)
    requires ChallengeInv(s) && MayAdd(s.db, tx)
    ensures ChallengeInv(Ran(s, tx))
  {
    if Executed(s.db, tx).Ok? {
      var db' := Executed(s.db, tx).value;
      forall c | c in db'.challenges ensures c < db'.nextChallenge && ChallengeOk(db', db'.challenges[c]) {
        ChallengeAfter(s.db, tx, db', c);
        TxKeepsChallenges(s.db, tx, db', c);
      }
      forall id | id in s.requests && HoldsGrant(s.requests[id])
        ensures GrantHolds(db', s.requests[id].user, s.requests[id].grant)
      {
        TxKeepsGrant(s.db, tx, db', s.requests[id].user, s.requests[id].grant);
      }
    }
  }

  /** A request that holds a grant was there before, or has just read the grant or a ceremony that descends from it. */
  lemma GrantsAreRead(config: Config, s: State, step: Step, id: RequestId)
    requires ChallengeInv(s) && Enabled(config, s, step)
    requires id in Apply(config, s, step).requests && HoldsGrant(Apply(config, s, step).requests[id])
    ensures var request := Apply(config, s, step).requests[id];
            GrantHolds(s.db, request.user, request.grant)
  {
    if step.ConsumeCeremony? {
      assert ChallengeOk(s.db, s.db.challenges[step.ceremony]);
    }
  }

  lemma StepMayAdd(config: Config, s: State, step: Step)
    requires ChallengeInv(s) && Enabled(config, s, step) && StepTx(s, step, config).Some?
    ensures MayAdd(s.db, StepTx(s, step, config).value)
  {
  }

  lemma StepKeepsChallenges(config: Config, s: State, step: Step)
    requires ChallengeInv(s) && Enabled(config, s, step)
    ensures ChallengeInv(Apply(config, s, step))
  {
    var s', tx := Apply(config, s, step), StepTx(s, step, config);
    StepRuns(config, s, step);
    if tx.Some? {
      StepMayAdd(config, s, step);
      RanKeepsChallenges(s, tx.value);
    }
    forall id | id in s'.requests && HoldsGrant(s'.requests[id])
      ensures GrantHolds(s'.db, s'.requests[id].user, s'.requests[id].grant)
    {
      GrantsAreRead(config, s, step, id);
      if tx.Some? && Executed(s.db, tx.value).Ok? {
        TxKeepsGrant(s.db, tx.value, s'.db, s'.requests[id].user, s'.requests[id].grant);
      }
    }
  }

  /** In every reachable state no challenge was guessed more than five times, and ceremonies have their grant. */
  lemma {:induction false} RunKeepsChallenges(config: Config, states: seq<State>, i: nat)
    requires Run(config, states) && i < |states|
    ensures ChallengeInv(states[i])
  {
    if i > 0 {
      RunKeepsChallenges(config, states, i - 1);
      var step := TheStep(config, states, i);
      StepKeepsChallenges(config, states[i - 1], step);
    }
  }

  /** In every run a committing enrollment uses up a grant of its user and gives that user, and no other, a passkey. */
  lemma EnrollmentIsForTheGrantsUser(config: Config, states: seq<State>, n: nat, id: RequestId, timestep: int)
    requires Run(config, states) && n < |states|
    requires Enabled(config, states[n], Commit(id, timestep)) && states[n].requests[id].Enrolling?
    requires Executed(states[n].db, TxOf(states[n].requests[id], timestep)).Ok?
    ensures var request, before := states[n].requests[id], states[n].db;
            var after := Apply(config, states[n], Commit(id, timestep)).db;
            && request.grant in before.challenges && request.grant !in after.challenges
            && IsOf(before.challenges[request.grant], request.user, {EnrollmentGrant})
            && after.passkeys == before.passkeys[before.nextPasskey := request.user]
  {
    RunKeepsChallenges(config, states, n);
    CommitBringsAbout(config, states[n], id, timestep);
  }
}
