/** Which credential a login accepts a time step on: always the one its code was checked against. */
module AuthLogin {
  import opened Wrappers
  import opened AuthStore
  import opened AuthProtocol
  import opened AuthSafety
  import opened AuthTokens

  /**
    While the pending login is there, a confirmed credential of the user is the one that was read:
    confirming or dropping a credential deletes the user's pending logins.
   */
  predicate LoginHolds(db: Database, user: UserId, challenge: ChallengeId, read: Option<Reading>) {
    && challenge < db.nextChallenge
    && (challenge in db.challenges ==>
          && db.challenges[challenge].kind == PendingTotp && db.challenges[challenge].user == Some(user)
          && (read.Some? && user in db.totp && db.totp[user].confirmed ==> db.totp[user].secret == read.value.secret))
  }

  ghost predicate LoginInv(s: State) {
    && ChallengesBelow(s.db)
    && forall id :: id in s.requests && s.requests[id].LoggingIn? ==>
         LoginHolds(s.db, s.requests[id].user, s.requests[id].challenge, s.requests[id].read)
  }

  /** A row that is still there is the row that was there, but for its attempts. */
  lemma PendingAfter(db: Database, tx: Tx, db': Database, challenge: ChallengeId)
    requires Executed(db, tx) == Ok(db') && challenge in db'.challenges && challenge < db.nextChallenge
    ensures challenge in db.challenges && db'.challenges[challenge].kind == db.challenges[challenge].kind
            && db'.challenges[challenge].user == db.challenges[challenge].user
  {
  }

  /** A credential becomes another one, or confirmed, only with the user's pending logins gone. */
  lemma ConfirmedAfter(db: Database, tx: Tx, db': Database, user: UserId, challenge: ChallengeId)
    requires Executed(db, tx) == Ok(db') && challenge in db'.challenges && challenge < db.nextChallenge
    requires challenge in db.challenges && user in db'.totp && db'.totp[user].confirmed
    requires db.challenges[challenge].kind == PendingTotp && db.challenges[challenge].user == Some(user)
    ensures user in db.totp && db.totp[user].confirmed && db'.totp[user].secret == db.totp[user].secret
  {
  }

  lemma ChallengeCountGrows(db: Database, tx: Tx, db': Database)
    requires Executed(db, tx) == Ok(db')
    ensures db.nextChallenge <= db'.nextChallenge
  {
  }

  lemma TxKeepsLogin(db: Database, tx: Tx, db': Database, user: UserId, challenge: ChallengeId, read: Option<Reading>)
    requires Executed(db, tx) == Ok(db') && LoginHolds(db, user, challenge, read)
    ensures LoginHolds(db', user, challenge, read)
  {
    ChallengeCountGrows(db, tx, db');
    if challenge in db'.challenges {
      PendingAfter(db, tx, db', challenge);
      if user in db'.totp && db'.totp[user].confirmed {
        ConfirmedAfter(db, tx, db', user, challenge);
      }
    }
  }

  lemma RanKeepsLogins(s: State, tx: Tx)
    requires LoginInv(s)
    ensures LoginInv(Ran(s, tx))
  {
    if Executed(s.db, tx).Ok? {
      var db' := Executed(s.db, tx).value;
      forall c | c in db'.challenges ensures c < db'.nextChallenge {
        ChallengeAfter(s.db, tx, db', c);
      }
      forall id | id in s.requests && s.requests[id].LoggingIn?
        ensures LoginHolds(db', s.requests[id].user, s.requests[id].challenge, s.requests[id].read)
      {
        TxKeepsLogin(s.db, tx, db', s.requests[id].user, s.requests[id].challenge, s.requests[id].read);
      }
    }
  }

  /** A step opens or changes at most one request, and a login's facts hold when it does. */
  lemma StepKeepsLogins(config: Config, s: State, step: Step)
    requires LoginInv(s) && Enabled(config, s, step)
    ensures LoginInv(Apply(config, s, step))
  {
    var s', tx := Apply(config, s, step), StepTx(s, step, config);
    var ran := if tx.None? then s else Ran(s, tx.value);
    if tx.Some? {
      RanKeepsLogins(s, tx.value);
    }
    StepRuns(config, s, step);
    forall id | id in s'.requests && s'.requests[id].LoggingIn?
      ensures LoginHolds(s'.db, s'.requests[id].user, s'.requests[id].challenge, s'.requests[id].read)
    {
      LoginIsOld(config, s, step, id);
    }
  }

  /** A login is as it was, or has just been opened or has just read the credential. */
  lemma LoginIsOld(config: Config, s: State, step: Step, id: RequestId)
    requires Enabled(config, s, step) && id in Apply(config, s, step).requests
    requires Apply(config, s, step).requests[id].LoggingIn?
    ensures var q, db := Apply(config, s, step).requests[id], s.db;
            || (id in s.requests && s.requests[id] == q)
            || (step.BeginTotpLogin? && StepTx(s, step, config).None? && q == LoggingIn(q.user, step.challenge, None)
                && step.challenge in db.challenges && db.challenges[step.challenge].kind == PendingTotp
                && db.challenges[step.challenge].user == Some(q.user))
            || (step.ReadCredential? && StepTx(s, step, config).None? && id in s.requests
                && s.requests[id] == LoggingIn(q.user, q.challenge, None)
                && q.user in db.totp && q.read.Some? && q.read.value.secret == db.totp[q.user].secret)
  {
  }

  lemma {:induction false} RunKeepsLogins(config: Config, states: seq<State>, i: nat)
    requires Run(config, states) && i < |states|
    ensures LoginInv(states[i])
  {
    if i > 0 {
      RunKeepsLogins(config, states, i - 1);
      var step := TheStep(config, states, i);
      StepKeepsLogins(config, states[i - 1], step);
    }
  }

  /**
    In every run a committing login accepts its step on the very credential its code was checked
    against, which is confirmed before and after.
   */
  lemma LoginUsesTheVerifiedCredential(config: Config, states: seq<State>, n: nat, id: RequestId, timestep: int)
    requires Run(config, states) && n < |states|
    requires Enabled(config, states[n], Commit(id, timestep)) && states[n].requests[id].LoggingIn?
    requires Executed(states[n].db, TxOf(states[n].requests[id], timestep)).Ok?
    ensures var request, before := states[n].requests[id], states[n].db;
            var after := Apply(config, states[n], Commit(id, timestep)).db;
            && request.user in before.totp && before.totp[request.user].confirmed
            && before.totp[request.user].secret == request.read.value.secret
            && after.totp == before.totp[request.user := before.totp[request.user].(last := Some(timestep))]
  {
    RunKeepsLogins(config, states, n);
    var request := states[n].requests[id];
    assert LoginHolds(states[n].db, request.user, request.challenge, request.read);
  }
}
