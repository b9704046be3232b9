/**
  Which credential a confirmation confirms. The code is checked against a credential read before the
  transaction, and the transaction confirms whatever unconfirmed credential it finds.
 */
module AuthConfirmation {
  import opened Wrappers
  import opened AuthStore
  import opened AuthProtocol
  import opened AuthSafety
  import opened AuthTokens

  /** A setup of the user's credential has committed since the log had this length. */
  predicate SetUpSince(log: seq<TotpEvent>, since: nat, user: UserId) {
    exists k :: since <= k < |log| && log[k] == Reset(user)
  }

  // ---------------------------------------------------------------- the invariant on secrets

  predicate InUse(db: Database, secret: Secret) {
    exists u :: u in db.totp && db.totp[u].secret == secret
  }

  predicate Proposes(s: State, id: RequestId, secret: Secret) {
    id in s.requests && s.requests[id].SettingUp? && s.requests[id].secret == secret
  }

  /** The request has read the credential its code is checked against. */
  predicate HasRead(s: State, id: RequestId) {
    id in s.requests && (s.requests[id].Confirming? || s.requests[id].LoggingIn?) && s.requests[id].read.Some?
  }

  /** A proposed secret is nobody's yet, and no other request proposes or has read it. */
  ghost predicate Unshared(s: State, secret: Secret) {
    && !InUse(s.db, secret)
    && forall id :: HasRead(s, id) ==> s.requests[id].read.value.secret != secret
  }

  predicate Tracks(s: State, user: UserId, read: Reading) {
    && read.since <= |s.totpLog|
    && (user in s.db.totp ==> (s.db.totp[user].secret == read.secret <==> !SetUpSince(s.totpLog, read.since, user)))
  }

  ghost predicate SecretInv(s: State) {
    && (forall u :: u in s.db.totp ==> s.db.totp[u].secret < s.nextSecret)
    && (forall id, secret: Secret :: Proposes(s, id, secret) ==> secret < s.nextSecret && Unshared(s, secret))
    && (forall id, other, secret: Secret :: Proposes(s, id, secret) && Proposes(s, other, secret) ==> id == other)
    && (forall id :: HasRead(s, id) ==>
          && s.requests[id].read.value.secret < s.nextSecret
          && Tracks(s, s.requests[id].user, s.requests[id].read.value))
  }

  // ---------------------------------------------------------------- transactions

  lemma SecretAfter(db: Database, tx: Tx, db': Database, user: UserId)
    requires Executed(db, tx) == Ok(db') && user in db'.totp
    ensures if Events(tx) == [Reset(user)] then tx.SetupTotp? && db'.totp[user].secret == tx.secret
            else user in db.totp && db'.totp[user].secret == db.totp[user].secret
  {
  }

  lemma LogAfter(log: seq<TotpEvent>, events: seq<TotpEvent>, since: nat, user: UserId)
    requires since <= |log| && |events| <= 1
    ensures SetUpSince(log + events, since, user) <==> SetUpSince(log, since, user) || events == [Reset(user)]
  {
    var longer := log + events;
    if SetUpSince(log, since, user) {
      var k :| since <= k < |log| && log[k] == Reset(user);
      assert longer[k] == Reset(user);
    }
    if events == [Reset(user)] {
      assert longer[|log|] == Reset(user);
    }
  }

  /** What is asked of a setup's secret when it commits, its request being closed. */
  ghost predicate MayCommit(s: State, tx: Tx) {
    tx.SetupTotp? ==> tx.secret < s.nextSecret && Unshared(s, tx.secret) && forall id :: !Proposes(s, id, tx.secret)
  }

  lemma RanTracks(s: State, tx: Tx, user: UserId, read: Reading)
    requires Tracks(s, user, read) && (tx.SetupTotp? ==> tx.secret != read.secret)
    ensures Tracks(Ran(s, tx), user, read)
  {
    if Executed(s.db, tx).Ok? {
      var s' := Ran(s, tx);
      LogAfter(s.totpLog, Events(tx), read.since, user);
      if user in s'.db.totp {
        SecretAfter(s.db, tx, s'.db, user);
      }
    }
  }

  lemma RanUnshared(s: State, tx: Tx, secret: Secret)
    requires Unshared(s, secret) && (tx.SetupTotp? ==> tx.secret != secret)
    ensures Unshared(Ran(s, tx), secret)
  {
    if Executed(s.db, tx).Ok? {
      var s' := Ran(s, tx);
      forall u | u in s'.db.totp ensures s'.db.totp[u].secret != secret {
        SecretAfter(s.db, tx, s'.db, u);
        assert u in s.db.totp ==> s.db.totp[u].secret != secret;
      }
    }
  }

  lemma RanBelow(s: State, tx: Tx, user: UserId)
    requires forall u :: u in s.db.totp ==> s.db.totp[u].secret < s.nextSecret
    requires tx.SetupTotp? ==> tx.secret < s.nextSecret
    ensures user in Ran(s, tx).db.totp ==> Ran(s, tx).db.totp[user].secret < s.nextSecret
  {
    if Executed(s.db, tx).Ok? && user in Ran(s, tx).db.totp {
      SecretAfter(s.db, tx, Ran(s, tx).db, user);
    }
  }

  lemma RanKeepsSecrets(s: State, tx: Tx)
    requires SecretInv(s) && MayCommit(s, tx)
    ensures SecretInv(Ran(s, tx))
  {
    var s' := Ran(s, tx);
    assert s'.requests == s.requests && s'.nextSecret == s.nextSecret;
    forall u | u in s'.db.totp ensures s'.db.totp[u].secret < s'.nextSecret {
      RanBelow(s, tx, u);
    }
    forall id, secret: Secret | Proposes(s', id, secret) ensures secret < s'.nextSecret && Unshared(s', secret) {
      assert Proposes(s, id, secret);
      RanUnshared(s, tx, secret);
    }
    forall id | HasRead(s', id) ensures HasRead(s, id) && Tracks(s', s'.requests[id].user, s'.requests[id].read.value) {
      assert HasRead(s, id);
      RanTracks(s, tx, s.requests[id].user, s.requests[id].read.value);
    }
    forall id, other, secret: Secret | Proposes(s', id, secret) && Proposes(s', other, secret) ensures id == other {
      assert Proposes(s, id, secret) && Proposes(s, other, secret);
    }
  }

  // ---------------------------------------------------------------- requests

  lemma CloseKeepsSecrets(s: State, id: RequestId)
    requires SecretInv(s) && id in s.requests
    ensures SecretInv(Closed(s, id))
    ensures s.requests[id].SettingUp? ==> MayCommit(Closed(s, id), TxOf(s.requests[id], 0))
  {
    var s' := Closed(s, id);
    forall k, secret: Secret | Proposes(s', k, secret)
      ensures Proposes(s, k, secret) && k != id && Unshared(s', secret)
    {
      assert Proposes(s, k, secret) && Unshared(s, secret);
    }
    if s.requests[id].SettingUp? {
      assert Proposes(s, id, s.requests[id].secret);
    }
  }

  /** Opening or changing a request that proposes and has read nothing. */
  lemma OpenKeepsSecrets(s: State, id: RequestId, request: Request)
    requires SecretInv(s) && !request.SettingUp? && (request.Confirming? || request.LoggingIn? ==> request.read.None?)
    requires id in s.requests ==> !s.requests[id].SettingUp?
    ensures SecretInv(Opened(s, id, request))
  {
    var s' := Opened(s, id, request);
    forall k, secret: Secret | Proposes(s', k, secret) ensures Proposes(s, k, secret) && Unshared(s', secret) {
      assert Proposes(s, k, secret) && Unshared(s, secret);
    }
  }

  lemma SetupKeepsSecrets(s: State, id: RequestId, user: UserId, revision: nat)
    requires SecretInv(s) && id !in s.requests
    ensures SecretInv(Opened(s, id, SettingUp(user, revision, s.nextSecret)).(nextSecret := s.nextSecret + 1))
  {
    var s' := Opened(s, id, SettingUp(user, revision, s.nextSecret)).(nextSecret := s.nextSecret + 1);
    forall k, secret: Secret | Proposes(s', k, secret)
      ensures secret < s'.nextSecret && Unshared(s', secret) && (k != id ==> Proposes(s, k, secret))
    {
      if k != id {
        assert Proposes(s, k, secret) && Unshared(s, secret);
      }
    }
  }

  lemma ReadKeepsSecrets(s: State, id: RequestId)
    requires SecretInv(s) && id in s.requests && Unread(s.requests[id]) && s.requests[id].user in s.db.totp
    ensures var reading := Reading(s.db.totp[s.requests[id].user].secret, |s.totpLog|);
            SecretInv(Opened(s, id, s.requests[id].(read := Some(reading))))
  {
    var user := s.requests[id].user;
    var s' := Opened(s, id, s.requests[id].(read := Some(Reading(s.db.totp[user].secret, |s.totpLog|))));
    assert InUse(s.db, s.db.totp[user].secret);
    forall k, secret: Secret | Proposes(s', k, secret) ensures Proposes(s, k, secret) && Unshared(s', secret) {
      assert Proposes(s, k, secret) && Unshared(s, secret);
      forall other | HasRead(s', other) ensures s'.requests[other].read.value.secret != secret {
        assert other != id ==> HasRead(s, other);
      }
    }
    forall other | HasRead(s', other)
      ensures s'.requests[other].read.value.secret < s'.nextSecret
              && Tracks(s', s'.requests[other].user, s'.requests[other].read.value)
    {
      assert other != id ==> HasRead(s, other) && Tracks(s, s.requests[other].user, s.requests[other].read.value);
    }
  }

  lemma RanAndClosed(s: State, id: RequestId, tx: Tx)
    ensures Closed(Ran(s, tx), id) == Ran(Closed(s, id), tx)
  {
  }

  lemma CommitKeepsSecrets(s: State, id: RequestId, timestep: int)
    requires SecretInv(s) && id in s.requests
    ensures SecretInv(Closed(Ran(s, TxOf(s.requests[id], timestep)), id))
  {
    var tx := TxOf(s.requests[id], timestep);
    CloseKeepsSecrets(s, id);
    assert tx.SetupTotp? ==> s.requests[id].SettingUp? && tx == TxOf(s.requests[id], 0);
    RanKeepsSecrets(Closed(s, id), tx);
    RanAndClosed(s, id, tx);
  }

  predicate TouchesSecrets(step: Step) {
    step.BeginSetup? || step.ReadCredential? || step.Commit? || step.Abandon?
  }

  lemma SecretStepKeepsSecrets(config: Config, s: State, step: Step)
    requires SecretInv(s) && Enabled(config, s, step) && TouchesSecrets(step)
    ensures SecretInv(Apply(config, s, step))
  {
    if step.BeginSetup? {
      SetupKeepsSecrets(s, step.id, step.user, if step.user in s.db.totp then s.db.totp[step.user].revision + 1 else 1);
    } else if step.ReadCredential? {
      ReadKeepsSecrets(s, step.id);
    } else if step.Commit? {
      CommitKeepsSecrets(s, step.id, step.step);
    } else {
      CloseKeepsSecrets(s, step.id);
    }
  }

  lemma OtherStepKeepsSecrets(config: Config, s: State, step: Step)
    requires SecretInv(s) && Enabled(config, s, step) && !TouchesSecrets(step)
    ensures SecretInv(Apply(config, s, step))
  {
    var tx := StepTx(s, step, config);
    var ran := if tx.None? then s else Ran(s, tx.value);
    if tx.Some? {
      RanKeepsSecrets(s, tx.value);
    }
    var s' := Apply(config, s, step);
    if s' != ran {
      var request := s'.requests[step.id];
      assert s' == Opened(ran, step.id, request);
      OpenKeepsSecrets(ran, step.id, request);
    }
  }

  lemma {:induction false} RunKeepsSecrets(config: Config, states: seq<State>, i: nat)
    requires Run(config, states) && i < |states|
    ensures SecretInv(states[i])
  {
    if i > 0 {
      RunKeepsSecrets(config, states, i - 1);
      var step := TheStep(config, states, i);
      if TouchesSecrets(step) {
        SecretStepKeepsSecrets(config, states[i - 1], step);
      } else {
        OtherStepKeepsSecrets(config, states[i - 1], step);
      }
    }
  }

  // ---------------------------------------------------------------- the confirmed credential

  /**
    In every run a committing confirmation leaves a confirmed credential, and it is the one the code
    was checked against exactly when no setup of the user committed in between.
   */
  lemma ConfirmedIsVerifiedIff(config: Config, states: seq<State>, n: nat, id: RequestId, timestep: int)
    requires Run(config, states) && n < |states|
    requires Enabled(config, states[n], Commit(id, timestep)) && states[n].requests[id].Confirming?
    requires Executed(states[n].db, TxOf(states[n].requests[id], timestep)).Ok?
    ensures var request, after := states[n].requests[id], Apply(config, states[n], Commit(id, timestep)).db;
            && request.user in after.totp && after.totp[request.user].confirmed
            && (after.totp[request.user].secret == request.read.value.secret
                <==> !SetUpSince(states[n].totpLog, request.read.value.since, request.user))
  {
    RunKeepsSecrets(config, states, n);
    var request := states[n].requests[id];
    assert HasRead(states[n], id);
    SecretAfter(states[n].db, TxOf(request, timestep), Apply(config, states[n], Commit(id, timestep)).db, request.user);
  }

  // ---------------------------------------------------------------- a setup that comes in between

  function Swapped(): State {
    Stage(true, 1, map[7 := Totp(2, 1, true, Some(100))], map[], [Reset(7), Reset(7), Accepted(7, 100)], 2)
  }

  /** The second setup commits while the confirmation waits. */
  function Between(): State {
    var s := Stage(false, 0, map[7 := Totp(2, 1, false, None)], map[], [Reset(7), Reset(7)], 2);
    s.(requests := map[3 := Confirming(7, s.db.users[7], Some(Reading(0, 1)))])
  }

  lemma StageBetween(config: Config)
    ensures Enabled(config, BeforeConfirmation(), Commit(2, 0))
    ensures Apply(config, BeforeConfirmation(), Commit(2, 0)) == Between()
  {
    assert BeforeConfirmation().requests - {2} == Between().requests;
  }

  lemma StageSwapped(config: Config)
    ensures Enabled(config, Between(), Commit(3, 100)) && Apply(config, Between(), Commit(3, 100)) == Swapped()
  {
    var s := Between();
    var next := TotpConfirmed(s.db, 7, 100).value;
    assert next.totp == Swapped().db.totp;
    var last := UserUpdated(next, 7, 0, NO_CHANGES.(totpRequired := Some(true))).value;
    assert last.users == Swapped().db.users;
    assert WithoutKind(last, 7, PendingTotp) == last by {
      assert Remaining(map[], ChallengesOf(last, 7, PendingTotp)) == map[];
    }
    assert s.requests - {3} == map[];
  }

  lemma LeadsToSwapped(config: Config)
    ensures Leads(config, BeforeConfirmation(), [Commit(2, 0), Commit(3, 100)], Swapped())
  {
    StageBetween(config);
    StageSwapped(config);
    Leads2(config, BeforeConfirmation(), Commit(2, 0), Commit(3, 100));
  }

  /** This schedule from the empty database confirms a credential no code was checked against. */
  lemma UnverifiedCanBeConfirmed(config: Config)
    ensures Leads(config, Empty(), PROPOSED + CONFIRMING, BeforeConfirmation())
    ensures Leads(config, BeforeConfirmation(), [Commit(2, 0), Commit(3, 100)], Swapped())
    ensures Swapped().db.totp[7].confirmed && HasRead(BeforeConfirmation(), 3)
    ensures Swapped().db.totp[7].secret != BeforeConfirmation().requests[3].read.value.secret
  {
    LeadsToConfirmation(config);
    LeadsToSwapped(config);
  }
}
