/** One-time grants and time steps over whole runs. */
module AuthTokens {
  import opened Collections
  import opened Wrappers
  import opened AuthStore
  import opened AuthProtocol
  import opened AuthSafety

  // ---------------------------------------------------------------- enrollment grants

  /** The grant was issued once and is gone for good. */
  predicate Dead(db: Database, grant: ChallengeId) {
    grant < db.nextChallenge && grant !in db.challenges
  }

  ghost predicate ChallengesBelow(db: Database) {
    forall c :: c in db.challenges ==> c < db.nextChallenge
  }

  predicate Spent(s: State) {
    forall i :: 0 <= i < |s.enrolled| ==> Dead(s.db, s.enrolled[i])
  }

  /** Every transaction keeps issued IDs below the next one and lets no deleted challenge return. */
  lemma ChallengeAfter(db: Database, tx: Tx, db': Database, c: ChallengeId)
    requires Executed(db, tx) == Ok(db')
    ensures db.nextChallenge <= db'.nextChallenge
    ensures c in db'.challenges && c !in db.challenges ==> c == db.nextChallenge < db'.nextChallenge
  {
  }

  lemma EnrollSpends(db: Database, tx: Tx, db': Database)
    requires Executed(db, tx) == Ok(db') && tx.Enroll?
    ensures tx.grant in db.challenges && tx.grant !in db'.challenges && db'.nextChallenge == db.nextChallenge
  {
  }

  lemma DeadStaysDead(db: Database, tx: Tx, db': Database, grant: ChallengeId)
    requires Executed(db, tx) == Ok(db') && Dead(db, grant)
    ensures Dead(db', grant)
  {
    ChallengeAfter(db, tx, db', grant);
  }

  ghost predicate GrantInv(s: State) {
    ChallengesBelow(s.db) && NoRepeat(s.enrolled) && Spent(s)
  }

  lemma RanKeepsGrants(s: State, tx: Tx)
    requires GrantInv(s)
    ensures GrantInv(Ran(s, tx))
  {
    if Executed(s.db, tx).Ok? {
      var db' := Executed(s.db, tx).value;
      var s' := Ran(s, tx);
      forall c | c in db'.challenges ensures c < db'.nextChallenge {
        ChallengeAfter(s.db, tx, db', c);
      }
      forall i | 0 <= i < |s.enrolled| ensures Dead(db', s.enrolled[i]) {
        DeadStaysDead(s.db, tx, db', s.enrolled[i]);
      }
      if tx.Enroll? {
        EnrollSpends(s.db, tx, db');
      }
    }
  }

  lemma {:induction false} RunKeepsGrants(config: Config, states: seq<State>, i: nat)
    requires Run(config, states) && i < |states|
    ensures GrantInv(states[i])
  {
    if i > 0 {
      RunKeepsGrants(config, states, i - 1);
      var step := TheStep(config, states, i);
      var s := states[i - 1];
      StepRuns(config, s, step);
      var tx := StepTx(s, step, config);
      if tx.Some? {
        RanKeepsGrants(s, tx.value);
      }
    }
  }

  /** However many ceremonies begin from a grant, at most one enrollment from it ever commits. */
  lemma GrantEnrollsOnce(config: Config, states: seq<State>, k: nat, i: nat, j: nat)
    requires Run(config, states) && k < |states|
    requires i < |states[k].enrolled| && j < |states[k].enrolled| && states[k].enrolled[i] == states[k].enrolled[j]
    ensures i == j
  {
    RunKeepsGrants(config, states, k);
  }

  /** No later state has an enrollment from a dead grant that an earlier one did not have. */
  lemma {:induction false} DeadGrantNeverEnrolls(config: Config, states: seq<State>, i: nat, j: nat, grant: ChallengeId)
    requires Run(config, states) && i <= j < |states| && Dead(states[i].db, grant)
    ensures Dead(states[j].db, grant)
    ensures states[i].enrolled <= states[j].enrolled
    ensures forall k :: |states[i].enrolled| <= k < |states[j].enrolled| ==> states[j].enrolled[k] != grant
    decreases j
  {
    if i < j {
      DeadGrantNeverEnrolls(config, states, i, j - 1, grant);
      var step := TheStep(config, states, j);
      var s := states[j - 1];
      StepRuns(config, s, step);
      var tx := StepTx(s, step, config);
      if tx.Some? && Executed(s.db, tx.value).Ok? {
        DeadStaysDead(s.db, tx.value, Executed(s.db, tx.value).value, grant);
        if tx.value.Enroll? {
          EnrollSpends(s.db, tx.value, Executed(s.db, tx.value).value);
        }
      }
    }
  }

  /** Issuing a grant or disabling the user deletes every grant the user had. */
  predicate Supersedes(tx: Tx, user: UserId) {
    (tx.IssueGrant? && tx.user == user) || (tx.SetDisabled? && tx.user == user && tx.disabled)
  }

  lemma SupersededIsDead(db: Database, tx: Tx, db': Database, user: UserId, grant: ChallengeId)
    requires Executed(db, tx) == Ok(db') && ChallengesBelow(db) && Supersedes(tx, user)
    requires grant in ChallengesOf(db, user, EnrollmentGrant)
    ensures Dead(db', grant)
  {
  }

  /**
    Once a newer grant is issued to the user, or the user is disabled, no enrollment from an older
    grant commits, whatever requests already hold it.
   */
  lemma SupersededGrantNeverEnrolls(config: Config, states: seq<State>, i: nat, j: nat, step: Step, user: UserId,
                                    grant: ChallengeId)
    requires Run(config, states) && i + 1 <= j < |states|
    requires Enabled(config, states[i], step) && states[i + 1] == Apply(config, states[i], step)
    requires StepTx(states[i], step, config).Some? && Supersedes(StepTx(states[i], step, config).value, user)
    requires Executed(states[i].db, StepTx(states[i], step, config).value).Ok?
    requires grant in ChallengesOf(states[i].db, user, EnrollmentGrant)
    ensures states[i].enrolled <= states[j].enrolled
    ensures forall k :: |states[i].enrolled| <= k < |states[j].enrolled| ==> states[j].enrolled[k] != grant
  {
    var tx := StepTx(states[i], step, config).value;
    RunKeepsGrants(config, states, i);
    StepRuns(config, states[i], step);
    SupersededIsDead(states[i].db, tx, states[i + 1].db, user, grant);
    DeadGrantNeverEnrolls(config, states, i + 1, j, grant);
    assert states[i + 1].enrolled == states[i].enrolled;
  }

  // ---------------------------------------------------------------- time steps

  /** Between `i` and `j` the user's credential was not set up again. */
  predicate NoReset(log: seq<TotpEvent>, i: nat, j: nat, user: UserId) {
    forall k :: 0 <= i < k < j <= |log| ==> log[k] != Reset(user)
  }

  predicate AcceptedAt(log: seq<TotpEvent>, i: int, user: UserId) {
    0 <= i < |log| && log[i].Accepted? && log[i].user == user
  }

  /** Accepted steps since the last setup are at most the stored one, and rise strictly. */
  ghost predicate TotpInv(s: State) {
    && (forall i, user ::
          AcceptedAt(s.totpLog, i, user) && NoReset(s.totpLog, i, |s.totpLog|, user) && user in s.db.totp ==>
          s.db.totp[user].confirmed && s.db.totp[user].last.Some? && s.totpLog[i].step <= s.db.totp[user].last.value)
    && Rising(s.totpLog)
  }

  ghost predicate Rising(log: seq<TotpEvent>) {
    forall i, j, user ::
      0 <= i < j && AcceptedAt(log, i, user) && AcceptedAt(log, j, user) && NoReset(log, i, j, user) ==>
      log[i].step < log[j].step
  }

  /** What a transaction does to a user's credential row. */
  lemma TotpRowAfter(db: Database, tx: Tx, db': Database, user: UserId)
    requires Executed(db, tx) == Ok(db') && user in db'.totp
    ensures if Events(tx) == [Reset(user)] then !db'.totp[user].confirmed
            else if AcceptedAt(Events(tx), 0, user) then Advances(db, db', user, Events(tx)[0].step)
            else user in db.totp && db'.totp[user] == db.totp[user]
  {
  }

  /** The user's row now holds `step`, which is later than the step it held while confirmed. */
  predicate Advances(db: Database, db': Database, user: UserId, step: int) {
    && user in db.totp && user in db'.totp
    && db'.totp[user].confirmed && db'.totp[user].last == Some(step)
    && (db.totp[user].confirmed ==> db.totp[user].last.None? || db.totp[user].last.value < step)
  }

  lemma AcceptNeedsRow(db: Database, tx: Tx, db': Database, user: UserId, step: int)
    requires Executed(db, tx) == Ok(db') && Events(tx) == [Accepted(user, step)]
    ensures Advances(db, db', user, step)
  {
  }

  lemma LogGrows(log: seq<TotpEvent>, events: seq<TotpEvent>, i: nat, user: UserId)
    requires i < |log| && |events| <= 1
    requires NoReset(log + events, i, |log + events|, user)
    ensures NoReset(log, i, |log|, user) && events != [Reset(user)]
  {
    var longer := log + events;
    assert forall k :: 0 <= k < |log| ==> longer[k] == log[k];
    if |events| == 1 {
      assert longer[|log|] == events[0] && longer[|log|] != Reset(user);
    }
  }

  lemma RisingGrows(s: State, tx: Tx)
    requires TotpInv(s) && Executed(s.db, tx).Ok?
    ensures Rising(s.totpLog + Events(tx))
  {
    var log, events := s.totpLog, Events(tx);
    var longer := log + events;
    var n := |log|;
    forall i, j, user | 0 <= i < j && AcceptedAt(longer, i, user) && AcceptedAt(longer, j, user)
                        && NoReset(longer, i, j, user)
      ensures longer[i].step < longer[j].step
    {
      assert longer[i] == log[i] && AcceptedAt(log, i, user);
      assert forall k :: 0 <= k < n ==> longer[k] == log[k];
      if j < n {
        assert AcceptedAt(log, j, user) && NoReset(log, i, j, user);
      } else {
        assert events == [longer[j]] && NoReset(log, i, n, user);
        AcceptNeedsRow(s.db, tx, Executed(s.db, tx).value, user, longer[j].step);
      }
    }
  }

  lemma RanKeepsTotp(s: State, tx: Tx)
    requires TotpInv(s)
    ensures TotpInv(Ran(s, tx))
  {
    if Executed(s.db, tx).Ok? {
      var db' := Executed(s.db, tx).value;
      var s' := Ran(s, tx);
      RisingGrows(s, tx);
      forall i, user | AcceptedAt(s'.totpLog, i, user) && NoReset(s'.totpLog, i, |s'.totpLog|, user) && user in db'.totp
        ensures db'.totp[user].confirmed && db'.totp[user].last.Some? && s'.totpLog[i].step <= db'.totp[user].last.value
      {
        TotpRowAfter(s.db, tx, db', user);
        if i < |s.totpLog| {
          LogGrows(s.totpLog, Events(tx), i, user);
          assert s'.totpLog[i] == s.totpLog[i] && AcceptedAt(s.totpLog, i, user);
        }
      }
    }
  }

  lemma {:induction false} RunKeepsTotp(config: Config, states: seq<State>, i: nat)
    requires Run(config, states) && i < |states|
    ensures TotpInv(states[i])
  {
    if i > 0 {
      RunKeepsTotp(config, states, i - 1);
      var step := TheStep(config, states, i);
      var s := states[i - 1];
      StepRuns(config, s, step);
      var tx := StepTx(s, step, config);
      if tx.Some? {
        RanKeepsTotp(s, tx.value);
      }
    }
  }

  /**
    Between two setups of a user's credential the accepted time steps, the confirming one included,
    rise strictly, so no step opens two sessions.
   */
  lemma TimeStepsRise(config: Config, states: seq<State>, n: nat, i: nat, j: nat, user: UserId)
    requires Run(config, states) && n < |states| && i < j
    requires AcceptedAt(states[n].totpLog, i, user) && AcceptedAt(states[n].totpLog, j, user)
    requires NoReset(states[n].totpLog, i, j, user)
    ensures states[n].totpLog[i].step < states[n].totpLog[j].step
  {
    RunKeepsTotp(config, states, n);
  }

  // ---------------------------------------------------------------- a required second factor

  /** Every user who must give a code has a confirmed credential to give it from. */
  predicate Backed(db: Database) {
    forall u :: u in db.users && db.users[u].totpRequired ==> BackedUser(db, u)
  }

  /** A setup that read "not confirmed" earlier and commits after the confirmation. */
  predicate LateSetup(s: State, step: Step) {
    step.Commit? && step.id in s.requests && s.requests[step.id].SettingUp?
    && var user := s.requests[step.id].user; user in s.db.users && s.db.users[user].totpRequired
  }

  predicate BackedUser(db: Database, u: UserId) {
    u in db.users && db.users[u].totpRequired ==> u in db.totp && db.totp[u].confirmed
  }

  /** Only these four transactions touch credential rows. */
  predicate TouchesTotp(tx: Tx) {
    tx.SetupTotp? || tx.ConfirmTotp? || tx.DropTotp? || tx.AcceptStep?
  }

  lemma OtherTxKeepsTotp(db: Database, tx: Tx, db': Database)
    requires Executed(db, tx) == Ok(db') && !TouchesTotp(tx)
    ensures db'.totp == db.totp
  {
  }

  lemma OtherTxRequiresNothing(db: Database, tx: Tx, db': Database, u: UserId)
    requires Executed(db, tx) == Ok(db') && !TouchesTotp(tx)
    requires tx.ChangeUser? ==> tx.changes.totpRequired.None?
    ensures u in db'.users && db'.users[u].totpRequired ==> u in db.users && db.users[u].totpRequired
  {
  }

  /** Transactions that touch no credential row require no new factor either. */
  lemma OtherTxKeepsBacked(db: Database, tx: Tx, db': Database, u: UserId)
    requires Executed(db, tx) == Ok(db') && BackedUser(db, u) && !TouchesTotp(tx)
    requires tx.ChangeUser? ==> tx.changes.totpRequired.None?
    ensures BackedUser(db', u)
  {
    OtherTxKeepsTotp(db, tx, db');
    OtherTxRequiresNothing(db, tx, db', u);
  }

  lemma TotpTxKeepsBacked(db: Database, tx: Tx, db': Database, u: UserId)
    requires Executed(db, tx) == Ok(db') && BackedUser(db, u)
    requires tx.ConfirmTotp? || tx.DropTotp? || tx.AcceptStep?
    ensures BackedUser(db', u)
  {
  }

  lemma SetupBacks(db: Database, tx: Tx, db': Database, u: UserId)
    requires Executed(db, tx) == Ok(db') && BackedUser(db, u) && tx.SetupTotp?
    ensures BackedUser(db', u) <==> !(tx.user == u && u in db.users && db.users[u].totpRequired)
    ensures tx.user in db.users
  {
  }

  lemma TxKeepsBacked(db: Database, tx: Tx, db': Database)
    requires Executed(db, tx) == Ok(db') && Backed(db)
    requires tx.ChangeUser? ==> tx.changes.totpRequired.None?
    ensures Backed(db') <==> !(tx.SetupTotp? && tx.user in db.users && db.users[tx.user].totpRequired)
  {
    forall u
      ensures BackedUser(db', u) <==> !(tx.SetupTotp? && tx.user == u && u in db.users && db.users[u].totpRequired)
    {
      assert BackedUser(db, u);
      if tx.SetupTotp? {
        SetupBacks(db, tx, db', u);
      } else if tx.ConfirmTotp? || tx.DropTotp? || tx.AcceptStep? {
        TotpTxKeepsBacked(db, tx, db', u);
      } else {
        OtherTxKeepsBacked(db, tx, db', u);
      }
    }
    if Backed(db') && tx.SetupTotp? {
      assert BackedUser(db', tx.user);
    }
  }

  /**
    A required second factor stays backed by a confirmed credential in every step except exactly
    one: a setup committing for a user who already confirmed.
   */
  lemma BackedUnlessLateSetup(config: Config, s: State, step: Step)
    requires Enabled(config, s, step) && Backed(s.db)
    ensures Backed(Apply(config, s, step).db) <==> !LateSetup(s, step)
  {
    StepRuns(config, s, step);
    var tx := StepTx(s, step, config);
    if tx.Some? && Executed(s.db, tx.value).Ok? {
      TxKeepsBacked(s.db, tx.value, Executed(s.db, tx.value).value);
    }
  }

  /** The states of a run together with the steps between them. */
  ghost predicate Traced(config: Config, steps: seq<Step>, states: seq<State>) {
    && |states| == |steps| + 1 && Init(states[0])
    && forall i :: 0 <= i < |steps| ==>
         Enabled(config, states[i], steps[i]) && states[i + 1] == Apply(config, states[i], steps[i])
  }

  predicate BackedThrough(states: seq<State>, n: nat)
    requires n < |states|
  {
    forall i :: 0 <= i <= n ==> Backed(states[i].db)
  }

  predicate LateAmong(steps: seq<Step>, states: seq<State>, n: nat)
    requires n <= |steps| < |states|
  {
    exists i :: 0 <= i < n && LateSetup(states[i], steps[i])
  }

  /** Over a whole run every required factor stays backed for as long as no setup commits late, and no longer. */
  lemma {:induction false} BackedUntilLateSetup(config: Config, steps: seq<Step>, states: seq<State>, n: nat)
    requires Traced(config, steps, states) && n < |states|
    ensures BackedThrough(states, n) <==> !LateAmong(steps, states, n)
  {
    if n > 0 {
      BackedUntilLateSetup(config, steps, states, n - 1);
      var s, step := states[n - 1], steps[n - 1];
      assert Enabled(config, s, step) && states[n] == Apply(config, s, step);
      if BackedThrough(states, n - 1) {
        BackedUnlessLateSetup(config, s, step);
        assert BackedThrough(states, n) <==> Backed(states[n].db);
        assert LateAmong(steps, states, n) <==> LateSetup(s, step);
      } else {
        var i :| 0 <= i < n - 1 && LateSetup(states[i], steps[i]);
        assert LateAmong(steps, states, n);
      }
    }
  }

  /** A schedule leads from one state to another. */
  predicate Leads(config: Config, s: State, steps: seq<Step>, s': State)
    decreases |steps|
  {
    if steps == [] then s == s'
    else Enabled(config, s, steps[0]) && Leads(config, Apply(config, s, steps[0]), steps[1..], s')
  }

  lemma {:induction false} LeadsOn(config: Config, s: State, first: seq<Step>, middle: State, second: seq<Step>,
                                   last: State)
    requires Leads(config, s, first, middle) && Leads(config, middle, second, last)
    ensures Leads(config, s, first + second, last)
    decreases |first|
  {
    if first == [] {
      assert first + second == second;
    } else {
      LeadsOn(config, Apply(config, s, first[0]), first[1..], middle, second, last);
      assert (first + second)[1..] == first[1..] + second;
    }
  }

  lemma Leads2(config: Config, s: State, a: Step, b: Step)
    requires Enabled(config, s, a) && Enabled(config, Apply(config, s, a), b)
    ensures Leads(config, s, [a, b], Apply(config, Apply(config, s, a), b))
  {
    assert [a, b][1..] == [b] && [b][1..] == [];
  }

  /** The states of the schedule below, with one administrator of the given flags and credential row. */
  function Stage(required: bool, stamp: Stamp, totp: map<UserId, Totp>, requests: map<RequestId, Request>,
                 log: seq<TotpEvent>, secrets: Secret): State {
    State(Database(map[7 := User(Admin, false, None, false, required, stamp)], map[0 := 7], map[], totp,
                   stamp + 1, 1, 0),
          requests, [7], [], log, secrets)
  }

  function Empty(): State {
    State(Database(map[], map[], map[], map[], 0, 0, 0), map[], [], [], [], 0)
  }

  lemma StageBegun(config: Config)
    ensures Enabled(config, Empty(), BeginBootstrap(0, 7, None))
    ensures Apply(config, Empty(), BeginBootstrap(0, 7, None)) == Empty().(requests := map[0 := Bootstrapping(7, None)])
  {
  }

  lemma StageBootstrapped(config: Config)
    ensures Leads(config, Empty(), [BeginBootstrap(0, 7, None), Commit(0, 0)], Stage(false, 0, map[], map[], [], 0))
  {
    StageBegun(config);
    assert map[0 := Bootstrapping(7, None)] - {0} == map[];
    Leads2(config, Empty(), BeginBootstrap(0, 7, None), Commit(0, 0));
  }

  const WAITING := map[2 := SettingUp(7, 2, 1)]

  lemma StageProposed(config: Config)
    ensures var s, proposed := Stage(false, 0, map[], map[], [], 0), map[1 := SettingUp(7, 1, 0)];
            Enabled(config, s, BeginSetup(1, 7))
            && Apply(config, s, BeginSetup(1, 7)) == s.(requests := proposed, nextSecret := 1)
  {
  }

  lemma StageSetUp(config: Config)
    ensures Leads(config, Stage(false, 0, map[], map[], [], 0), [BeginSetup(1, 7), Commit(1, 0)],
                  Stage(false, 0, map[7 := Totp(1, 0, false, None)], map[], [Reset(7)], 1))
  {
    StageProposed(config);
    assert map[1 := SettingUp(7, 1, 0)] - {1} == map[];
    Leads2(config, Stage(false, 0, map[], map[], [], 0), BeginSetup(1, 7), Commit(1, 0));
  }

  const PROPOSED := [BeginBootstrap(0, 7, None), Commit(0, 0), BeginSetup(1, 7), Commit(1, 0)]
  const CONFIRMING := [BeginSetup(2, 7), BeginConfirm(3, 7), ReadCredential(3)]

  lemma StageSecondSetup(config: Config)
    ensures var s := Stage(false, 0, map[7 := Totp(1, 0, false, None)], map[], [Reset(7)], 1);
            var started := s.(requests := WAITING[3 := Confirming(7, s.db.users[7], None)], nextSecret := 2);
            Leads(config, s, [BeginSetup(2, 7), BeginConfirm(3, 7)], started)
            && Leads(config, started, [ReadCredential(3)], BeforeConfirmation())
  {
    var s := Stage(false, 0, map[7 := Totp(1, 0, false, None)], map[], [Reset(7)], 1);
    var started := s.(requests := WAITING[3 := Confirming(7, s.db.users[7], None)], nextSecret := 2);
    Leads2(config, s, BeginSetup(2, 7), BeginConfirm(3, 7));
    StageRead(config, started);
    assert [ReadCredential(3)][1..] == [];
  }

  lemma StageRead(config: Config, started: State)
    requires started.db == BeforeConfirmation().db && started.totpLog == [Reset(7)]
    requires 3 in started.requests && started.requests[3] == Confirming(7, started.db.users[7], None)
    ensures Enabled(config, started, ReadCredential(3))
    ensures Apply(config, started, ReadCredential(3))
            == started.(requests := started.requests[3 := BeforeConfirmation().requests[3]])
  {
  }

  function BeforeConfirmation(): State {
    var s := Stage(false, 0, map[7 := Totp(1, 0, false, None)], map[], [Reset(7)], 1);
    s.(requests := WAITING[3 := Confirming(7, s.db.users[7], Some(Reading(0, 1)))], nextSecret := 2)
  }

  lemma StageConfirmed(config: Config)
    ensures Enabled(config, BeforeConfirmation(), Commit(3, 100))
    ensures Apply(config, BeforeConfirmation(), Commit(3, 100))
            == Stage(true, 1, map[7 := Totp(1, 0, true, Some(100))], WAITING, [Reset(7), Accepted(7, 100)], 2)
  {
    var s := BeforeConfirmation();
    var next := TotpConfirmed(s.db, 7, 100).value;
    assert next.totp == map[7 := Totp(1, 0, true, Some(100))];
    var last := UserUpdated(next, 7, 0, NO_CHANGES.(totpRequired := Some(true))).value;
    assert last.users == map[7 := User(Admin, false, None, false, true, 1)];
    assert WithoutKind(last, 7, PendingTotp) == last by {
      assert Remaining(map[], ChallengesOf(last, 7, PendingTotp)) == map[];
    }
    assert s.requests - {3} == WAITING;
  }

  lemma StageReplaced(config: Config)
    ensures var s := Stage(true, 1, map[7 := Totp(1, 0, true, Some(100))], WAITING, [Reset(7), Accepted(7, 100)], 2);
            Enabled(config, s, Commit(2, 0))
            && Apply(config, s, Commit(2, 0))
               == Stage(true, 1, map[7 := Totp(2, 1, false, None)], map[], [Reset(7), Accepted(7, 100), Reset(7)], 2)
  {
    assert WAITING - {2} == map[];
  }

  lemma StageLateSetup(config: Config)
    ensures Leads(config, BeforeConfirmation(), [Commit(3, 100), Commit(2, 0)],
                  Stage(true, 1, map[7 := Totp(2, 1, false, None)], map[], [Reset(7), Accepted(7, 100), Reset(7)], 2))
  {
    StageConfirmed(config);
    StageReplaced(config);
    Leads2(config, BeforeConfirmation(), Commit(3, 100), Commit(2, 0));
  }

  /** Both a second setup and a confirmation are waiting, and either may commit first. */
  lemma LeadsToConfirmation(config: Config)
    ensures Leads(config, Empty(), PROPOSED + CONFIRMING, BeforeConfirmation())
  {
    StageBootstrapped(config);
    StageSetUp(config);
    StageSecondSetup(config);
    var a, b := [BeginBootstrap(0, 7, None), Commit(0, 0)], [BeginSetup(1, 7), Commit(1, 0)];
    var c, d := [BeginSetup(2, 7), BeginConfirm(3, 7)], [ReadCredential(3)];
    var s := Stage(false, 0, map[7 := Totp(1, 0, false, None)], map[], [Reset(7)], 1);
    var started := s.(requests := WAITING[3 := Confirming(7, s.db.users[7], None)], nextSecret := 2);
    LeadsOn(config, Empty(), a, Stage(false, 0, map[], map[], [], 0), b, s);
    LeadsOn(config, Empty(), a + b, s, c, started);
    LeadsOn(config, Empty(), a + b + c, started, d, BeforeConfirmation());
    assert a + b + c + d == PROPOSED + CONFIRMING;
  }

  /**
    The late setup can really happen: this schedule from the empty database leaves a required factor
    without a credential.
   */
  lemma RequirementCanLoseItsCredential(config: Config)
    ensures Init(Empty())
    ensures exists last: State :: !Backed(last.db)
              && Leads(config, Empty(), PROPOSED + CONFIRMING + [Commit(3, 100), Commit(2, 0)], last)
  {
    var last := Stage(true, 1, map[7 := Totp(2, 1, false, None)], map[], [Reset(7), Accepted(7, 100), Reset(7)], 2);
    LeadsToConfirmation(config);
    StageLateSetup(config);
    LeadsOn(config, Empty(), PROPOSED + CONFIRMING, BeforeConfirmation(), [Commit(3, 100), Commit(2, 0)], last);
    assert !Backed(last.db) by {
      assert 7 in last.db.users;
    }
  }
}
