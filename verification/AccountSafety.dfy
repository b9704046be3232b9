/** What every interleaving of lookups, syncs, refreshes and account edits keeps. */
module AccountSafety {
  import opened Wrappers
  import opened ClientRuntime
  import opened ProviderStore
  import opened AccountProtocol

  // ---------------------------------------------------------------- the invariant

  /** Version `k` of account `a` was the row `row`. */
  ghost predicate VersionAt(s: State, a: AccountId, k: nat, row: AccountRow) {
    a in s.log && k < |s.log[a]| && s.log[a][k] == Some(row)
  }

  /** The log of an account ends with its present row, and no two versions share a stamp. */
  ghost predicate LogOk(s: State, a: AccountId) {
    && a in s.log && s.log[a] != []
    && s.log[a][|s.log[a]| - 1] == (if a in s.db.accounts then Some(s.db.accounts[a]) else None)
    && forall i, j :: 0 <= i < j < |s.log[a]| && s.log[a][i].Some? && s.log[a][j].Some?
                      ==> s.log[a][i].value.updatedAt != s.log[a][j].value.updatedAt
  }

  ghost predicate DbOk(s: State) {
    && Coherent(s.db)
    && (forall a :: a in s.db.accounts ==> a in s.log)
    && (forall a :: a in s.log ==> LogOk(s, a))
  }

  /** A cached client was built from the row it is cached with, read since the last invalidation. */
  ghost predicate SlotOk(s: State, slot: Slot) {
    && slot.account in s.log && slot.floor < |s.log[slot.account]|
    && TimerAgrees(slot.runtime)
    && (slot.runtime.cached.Some? ==>
          && slot.floor <= slot.cachedAt
          && VersionAt(s, slot.account, slot.cachedAt, slot.runtime.cached.value.account)
          && slot.runtime.cached.value.account.enabled
          && slot.runtime.cached.value.client == ClientOf(slot.runtime.cached.value.account))
  }

  /**
    While the account exists its one runtime is the current one; a removed runtime was invalidated
    after the deletion.
   */
  ghost predicate OwnerOk(s: State, rt: RuntimeId)
    requires rt in s.slots
  {
    var a := s.slots[rt].account;
    || (a in s.current && s.current[a] == rt)
    || (a !in s.db.accounts && a in s.log && s.slots[rt].floor == |s.log[a]| - 1)
  }

  ghost predicate SlotsOk(s: State) {
    && (forall rt :: rt in s.slots ==> SlotOk(s, s.slots[rt]) && OwnerOk(s, rt))
    && (forall a :: a in s.current ==> s.current[a] in s.slots && s.slots[s.current[a]].account == a)
  }

  /** A read made at version `k` under `generation` counts as fresh while that generation lasts. */
  ghost predicate FreshRead(s: State, a: AccountId, rt: RuntimeId, generation: nat, k: nat) {
    && rt in s.slots && s.slots[rt].account == a
    && generation <= s.slots[rt].runtime.generation
    && (generation == s.slots[rt].runtime.generation ==> s.slots[rt].floor <= k)
  }

  ghost predicate PhaseOk(s: State, a: AccountId, since: nat, rt: RuntimeId, phase: Phase)
    requires rt in s.slots
  {
    match phase
    case WaitBuild => true
    case Attempt(left) => true
    case Snapped(left, generation) => generation <= s.slots[rt].runtime.generation
    case RowRead(left, generation, row, readAt) =>
      since <= readAt && VersionAt(s, a, readAt, row) && FreshRead(s, a, rt, generation, readAt) && Usable(row)
    case Built(left, generation, row, client) =>
      generation <= s.slots[rt].runtime.generation && client == ClientOf(row) && Usable(row)
    case Reread(left, generation, row, client, now, nowAt) =>
      && since <= nowAt && VersionAt(s, a, nowAt, now) && FreshRead(s, a, rt, generation, nowAt)
      && client == ClientOf(row) && Usable(row)
  }

  /** Clients are built only for enabled accounts that have a credential. */
  predicate Usable(row: AccountRow) {
    row.enabled && row.revision != 0
  }

  predicate HasAttempts(phase: Phase) {
    !phase.WaitBuild? ==> 1 <= phase.left <= MAXIMUM_CLIENT_BUILD_ATTEMPTS
  }

  /** Version `at` is what the edit made of the version before it. */
  ghost predicate EditShows(s: State, a: AccountId, edit: Edit, at: nat) {
    && a in s.log && 0 < at < |s.log[a]| && s.log[a][at - 1].Some?
    && (edit.Delete? <==> s.log[a][at].None?)
    && (s.log[a][at].Some? ==> VersionEdited(s.log[a][at - 1].value, s.log[a][at].value, edit))
  }

  /** The columns the edit gives have the given values, the revision rises with the credential, the rest stay. */
  predicate VersionEdited(before: AccountRow, after: AccountRow, edit: Edit) {
    && after.enabled == (if edit.Update? && edit.enabled.Some? then edit.enabled.value else before.enabled)
    && after.options == (if edit.Update? && edit.options.Some? then edit.options.value else before.options)
    && after.revision == before.revision + (if edit.Credentials? then 1 else 0)
  }

  /** Which phases own the build slot. */
  predicate HoldsBuild(q: Request) {
    q.Getting? && !q.phase.WaitBuild?
  }

  ghost predicate RequestOk(s: State, r: RequestId, q: Request) {
    match q
    case Getting(a, since, rt, phase) =>
      && a in s.log && since < |s.log[a]|
      && rt in s.slots && s.slots[rt].account == a
      && (!phase.WaitBuild? ==> s.slots[rt].builder == Some(r))
      && HasAttempts(phase) && PhaseOk(s, a, since, rt, phase)
    case Ready(a, since, until, rt, generation, readAt, client, row) =>
      && since <= readAt <= until && a in s.log && until < |s.log[a]|
      && VersionAt(s, a, readAt, row) && FreshRead(s, a, rt, generation, readAt)
      && Usable(row) && client == ClientOf(row)
    case Listed(a, readAt, client, row, entries) =>
      && VersionAt(s, a, readAt, row) && client == ClientOf(row)
      && DistinctZones(entries) && (forall e :: e in entries ==> e.listedBy == client)
    case Fetched(a, readAt, client, row, entry) =>
      VersionAt(s, a, readAt, row) && client == ClientOf(row) && entry.listedBy == client
    case Missing(a, readAt, client, row, zoneId) => VersionAt(s, a, readAt, row)
    case Editing(a, edit, before, invalidated) => a in s.log
    case Committed(a, edit, at) => EditShows(s, a, edit, at) && (edit.Delete? ==> a !in s.db.accounts)
    case Edited(a, edit, at) =>
      EditShows(s, a, edit, at) && forall rt :: rt in s.slots && s.slots[rt].account == a ==> at <= s.slots[rt].floor
    case Over => true
  }

  ghost predicate RequestsOk(s: State) {
    forall r :: r in s.requests ==> RequestOk(s, r, s.requests[r])
  }

  ghost predicate Inv(s: State) {
    DbOk(s) && SlotsOk(s) && RequestsOk(s)
  }

  // ---------------------------------------------------------------- the log decides

  /** Stamps identify versions: a guarded write that finds a request's stamp finds that request's row. */
  lemma GuardFindsTheRow(s: State, a: AccountId, k: nat, row: AccountRow)
    requires DbOk(s) && VersionAt(s, a, k, row)
    requires a in s.db.accounts && s.db.accounts[a].updatedAt == row.updatedAt
    ensures s.db.accounts[a] == row && k == LastVersion(s, a)
  {
    assert LogOk(s, a);
  }

  // ---------------------------------------------------------------- frames

  /** Histories only grow and runtime objects are untouched. */
  ghost predicate Extends(s: State, s': State) {
    && s'.slots == s.slots
    && (forall a :: a in s.log ==> a in s'.log && s.log[a] <= s'.log[a])
    && (forall a :: a in s.log && a !in s.db.accounts ==> a !in s'.db.accounts && s'.log[a] == s.log[a])
  }

  lemma RequestKept(s: State, s': State, r: RequestId, q: Request)
    requires Extends(s, s') && RequestOk(s, r, q)
    ensures RequestOk(s', r, q)
  {
  }

  lemma SlotsKept(s: State, s': State)
    requires Extends(s, s') && s'.current == s.current && SlotsOk(s)
    ensures SlotsOk(s')
  {
    forall rt | rt in s'.slots ensures SlotOk(s', s'.slots[rt]) && OwnerOk(s', rt) {
      assert SlotOk(s, s.slots[rt]) && OwnerOk(s, rt);
    }
  }

  lemma RequestsKept(s: State, s': State)
    requires Extends(s, s') && RequestsOk(s) && s'.requests == s.requests
    ensures RequestsOk(s')
  {
    forall r | r in s'.requests ensures RequestOk(s', r, s'.requests[r]) {
      RequestKept(s, s', r, s.requests[r]);
    }
  }

  /** Only one request's record changes. */
  lemma RequestStep(s: State, r: RequestId, q: Request)
    requires Inv(s) && RequestOk(s, r, q)
    ensures Inv(WithRequest(s, r, q))
  {
    var s' := WithRequest(s, r, q);
    SlotsKept(s, s');
    forall x | x in s'.requests ensures RequestOk(s', x, s'.requests[x]) {
      RequestKept(s, s', x, s'.requests[x]);
    }
    forall a | a in s'.log ensures LogOk(s', a) {
      assert LogOk(s, a);
    }
  }

  /** Zone rows change, account rows do not. */
  lemma ZonesStep(s: State, zones: map<ZoneKey, ZoneRow>)
    requires Inv(s) && Coherent(s.db.(zones := zones))
    ensures Inv(s.(db := s.db.(zones := zones)))
  {
    var s' := s.(db := s.db.(zones := zones));
    SlotsKept(s, s');
    RequestsKept(s, s');
    forall a | a in s'.log ensures LogOk(s', a) {
      assert LogOk(s, a);
    }
  }

  /** A transaction commits a new version of one account. */
  lemma CommitStep(s: State, a: AccountId, db: Database)
    requires Inv(s) && Logged(s, a) && a in s.db.accounts && Coherent(db)
    requires forall x :: x != a ==> (x in db.accounts <==> x in s.db.accounts)
    requires forall x :: x != a && x in db.accounts ==> db.accounts[x] == s.db.accounts[x]
    requires a in db.accounts ==> FreshStamp(s, a, db.accounts[a].updatedAt)
    ensures Inv(WithCommit(s, a, db))
  {
    var s' := WithCommit(s, a, db);
    assert Extends(s, s');
    SlotsKept(s, s');
    RequestsKept(s, s');
    forall x | x in s'.log ensures LogOk(s', x) {
      assert LogOk(s, x);
    }
  }

  lemma CreateStep(s: State, step: Step)
    requires step.CreateAccount? && Inv(s) && Enabled(s, step)
    ensures Inv(Apply(s, step))
  {
    var a := step.a;
    var s' := Apply(s, step);
    assert Extends(s, s');
    SlotsKept(s, s');
    RequestsKept(s, s');
    forall x | x in s'.log ensures LogOk(s', x) {
      if x != a {
        assert LogOk(s, x);
      }
    }
  }

  // ---------------------------------------------------------------- runtimes

  /** A slot's runtime moves on without a smaller generation, and its floor only rises. */
  ghost predicate Advances(before: Slot, after: Slot) {
    && after.account == before.account && after.builder == before.builder
    && before.floor <= after.floor
    && before.runtime.generation <= after.runtime.generation
    && (before.runtime.generation == after.runtime.generation ==> before.floor == after.floor)
  }

  lemma FreshReadAcross(s: State, rt: RuntimeId, slot: Slot, a: AccountId, x: RuntimeId, generation: nat, k: nat)
    requires rt in s.slots && Advances(s.slots[rt], slot) && FreshRead(s, a, x, generation, k)
    ensures FreshRead(s.(slots := s.slots[rt := slot]), a, x, generation, k)
  {
  }

  lemma RequestAcross(s: State, rt: RuntimeId, slot: Slot, r: RequestId, q: Request)
    requires rt in s.slots && Advances(s.slots[rt], slot) && RequestOk(s, r, q)
    ensures RequestOk(s.(slots := s.slots[rt := slot]), r, q)
  {
    var s' := s.(slots := s.slots[rt := slot]);
    match q
    case Getting(a, since, x, phase) =>
      match phase {
        case RowRead(left, generation, row, readAt) => FreshReadAcross(s, rt, slot, a, x, generation, readAt);
        case Reread(left, generation, row, client, now, nowAt) => FreshReadAcross(s, rt, slot, a, x, generation, nowAt);
        case _ =>
      }
    case Ready(a, since, until, x, generation, readAt, client, row) =>
      FreshReadAcross(s, rt, slot, a, x, generation, readAt);
    case Edited(a, edit, at) =>
      forall x | x in s'.slots && s'.slots[x].account == a ensures at <= s'.slots[x].floor {
        assert at <= s.slots[x].floor;
      }
    case _ =>
  }

  /** One runtime changes. */
  lemma SlotStep(s: State, rt: RuntimeId, slot: Slot)
    requires Inv(s) && rt in s.slots && Advances(s.slots[rt], slot) && SlotOk(s, slot)
    requires OwnerOk(s.(slots := s.slots[rt := slot]), rt)
    ensures Inv(s.(slots := s.slots[rt := slot]))
  {
    var s' := s.(slots := s.slots[rt := slot]);
    forall x | x in s'.slots ensures SlotOk(s', s'.slots[x]) && OwnerOk(s', x) {
      if x != rt {
        assert SlotOk(s, s.slots[x]) && OwnerOk(s, x);
      }
    }
    forall a | a in s'.log ensures LogOk(s', a) {
      assert LogOk(s, a);
    }
    forall r | r in s'.requests ensures RequestOk(s', r, s'.requests[r]) {
      RequestAcross(s, rt, slot, r, s.requests[r]);
    }
  }

  lemma InvalidateStep(s: State, a: AccountId)
    requires Inv(s) && Logged(s, a)
    ensures Inv(Invalidated(s, a))
    ensures forall rt :: rt in Invalidated(s, a).slots && Invalidated(s, a).slots[rt].account == a
                         ==> Invalidated(s, a).slots[rt].floor == LastVersion(s, a)
  {
    assert LogOk(s, a);
    if a in s.current {
      var rt := s.current[a];
      assert SlotOk(s, s.slots[rt]) && OwnerOk(s, rt);
      var slot := s.slots[rt].(runtime := AfterInvalidate(s.slots[rt].runtime), floor := LastVersion(s, a));
      SlotStep(s, rt, slot);
    }
    forall rt | rt in s.slots && s.slots[rt].account == a
      ensures Invalidated(s, a).slots[rt].floor == LastVersion(s, a)
    {
      assert OwnerOk(s, rt);
    }
  }

  /** One request takes or releases a build slot that is free or its own. */
  lemma BuilderStep(s: State, r: RequestId, rt: RuntimeId, builder: Option<RequestId>, q: Request)
    requires Inv(s) && rt in s.slots && (s.slots[rt].builder == None || s.slots[rt].builder == Some(r))
    requires RequestOk(WithBuilder(s, rt, builder), r, q)
    ensures Inv(WithRequest(WithBuilder(s, rt, builder), r, q))
  {
    var held := WithBuilder(s, rt, builder);
    var s' := WithRequest(held, r, q);
    forall x | x in s'.slots ensures SlotOk(s', s'.slots[x]) && OwnerOk(s', x) {
      assert SlotOk(s, s.slots[x]) && OwnerOk(s, x);
    }
    forall a | a in s'.log ensures LogOk(s', a) {
      assert LogOk(s, a);
    }
    forall x | x in s'.requests ensures RequestOk(s', x, s'.requests[x]) {
      if x != r {
        BuilderAcross(s, rt, builder, x, s.requests[x], r);
      }
      RequestKept(held, s', x, s'.requests[x]);
    }
  }

  lemma BuilderAcross(s: State, rt: RuntimeId, builder: Option<RequestId>, x: RequestId, q: Request, r: RequestId)
    requires rt in s.slots && (s.slots[rt].builder == None || s.slots[rt].builder == Some(r))
    requires x != r && RequestOk(s, x, q)
    ensures RequestOk(WithBuilder(s, rt, builder), x, q)
  {
    var s' := WithBuilder(s, rt, builder);
    match q
    case Edited(a, edit, at) =>
      forall y | y in s'.slots && s'.slots[y].account == a ensures at <= s'.slots[y].floor {
        assert at <= s.slots[y].floor;
      }
    case _ =>
  }

  lemma ReturnStep(s: State, r: RequestId, rt: RuntimeId, q: Request)
    requires Inv(s) && rt in s.slots && s.slots[rt].builder == Some(r) && RequestOk(s, r, q) && !q.Getting?
    ensures Inv(Return(s, r, rt, q))
  {
    var released := WithBuilder(s, rt, None);
    match q {
      case Edited(a, edit, at) =>
        forall y | y in released.slots && released.slots[y].account == a ensures at <= released.slots[y].floor {
          assert at <= s.slots[y].floor;
        }
      case _ =>
    }
    BuilderStep(s, r, rt, None, q);
  }

  lemma NextAttemptStep(s: State, r: RequestId)
    requires Inv(s) && InPhase(s, r) && !s.requests[r].phase.WaitBuild?
    ensures Inv(NextAttempt(s, r, s.requests[r]))
  {
    var q := s.requests[r];
    assert RequestOk(s, r, q);
    BuilderStep(s, r, q.rt, if q.phase.left <= 1 then None else Some(r), Attempted(q));
  }

  // ---------------------------------------------------------------- the steps of a lookup

  lemma BeginStep(s: State, step: Step)
    requires step.Begin? && Inv(s) && Enabled(s, step)
    ensures Inv(Apply(s, step))
  {
    var Begin(r, a, newRuntime) := step;
    assert LogOk(s, a);
    if a in s.current {
      RequestStep(s, r, Getting(a, LastVersion(s, a), s.current[a], WaitBuild));
    } else {
      var s1 := s.(current := s.current[a := newRuntime],
                   slots := s.slots[newRuntime := Slot(a, FRESH_RUNTIME, LastVersion(s, a), 0, None)]);
      forall x | x in s1.slots ensures SlotOk(s1, s1.slots[x]) && OwnerOk(s1, x) {
        if x != newRuntime {
          assert SlotOk(s, s.slots[x]) && OwnerOk(s, x);
        }
      }
      forall x | x in s1.log ensures LogOk(s1, x) {
        assert LogOk(s, x);
      }
      forall x | x in s1.requests ensures RequestOk(s1, x, s1.requests[x]) {
        NewSlotAcross(s, a, newRuntime, x);
      }
      RequestStep(s1, r, Getting(a, LastVersion(s, a), newRuntime, WaitBuild));
    }
  }

  lemma NewSlotAcross(s: State, a: AccountId, newRuntime: RuntimeId, x: RequestId)
    requires Inv(s) && Logged(s, a) && newRuntime !in s.slots && x in s.requests
    ensures RequestOk(s.(current := s.current[a := newRuntime],
                         slots := s.slots[newRuntime := Slot(a, FRESH_RUNTIME, LastVersion(s, a), 0, None)]),
                    x, s.requests[x])
  {
    assert RequestOk(s, x, s.requests[x]);
  }

  lemma ReadRowStep(s: State, step: Step)
    requires step.ReadRow? && Inv(s) && Enabled(s, step)
    ensures Inv(Apply(s, step))
  {
    var r := step.r;
    var q := s.requests[r];
    assert RequestOk(s, r, q) && LogOk(s, q.account) && SlotOk(s, s.slots[q.rt]);
    if q.account !in s.db.accounts || !s.db.accounts[q.account].enabled || s.db.accounts[q.account].revision == 0 {
      ReturnStep(s, r, q.rt, Over);
    } else {
      RequestStep(s, r, q.(phase := RowRead(q.phase.left, q.phase.generation, s.db.accounts[q.account],
                                            LastVersion(s, q.account))));
    }
  }

  lemma RereadRowStep(s: State, step: Step)
    requires step.RereadRow? && Inv(s) && Enabled(s, step)
    ensures Inv(Apply(s, step))
  {
    var r := step.r;
    var q := s.requests[r];
    assert RequestOk(s, r, q) && LogOk(s, q.account) && SlotOk(s, s.slots[q.rt]);
    var p := q.phase;
    if q.account !in s.db.accounts {
      ReturnStep(s, r, q.rt, Over);
    } else {
      RequestStep(s, r, q.(phase := Reread(p.left, p.generation, p.row, p.client, s.db.accounts[q.account],
                                           LastVersion(s, q.account))));
    }
  }

  lemma CheckCacheStep(s: State, step: Step)
    requires step.CheckCache? && Inv(s) && Enabled(s, step)
    ensures Inv(Apply(s, step))
  {
    var CheckCache(r, expired) := step;
    var q := s.requests[r];
    var p, slot := q.phase, s.slots[q.rt];
    assert RequestOk(s, r, q) && SlotOk(s, slot) && OwnerOk(s, q.rt);
    var found := Found(slot.runtime, p.generation, p.row, expired);
    if found.Some? {
      ReturnStep(s, r, q.rt,
                 Ready(q.account, q.since, LastVersion(s, q.account), q.rt, p.generation, p.readAt, found.value,
                     p.row));
    } else {
      var looked := slot.(runtime := AfterLookup(slot.runtime, p.generation, p.row, expired));
      SlotStep(s, q.rt, looked);
      var s1 := WithRuntime(s, q.rt, looked.runtime);
      RequestStep(s1, r, q.(phase := Built(p.left, p.generation, p.row, ClientOf(p.row))));
    }
  }

  lemma StoreClientStep(s: State, step: Step)
    requires step.StoreClient? && Inv(s) && Enabled(s, step)
    ensures Inv(Apply(s, step))
  {
    var StoreClient(r) := step;
    var q := s.requests[r];
    var p, slot := q.phase, s.slots[q.rt];
    assert RequestOk(s, r, q) && SlotOk(s, slot) && OwnerOk(s, q.rt);
    if slot.runtime.generation != p.generation {
      NextAttemptStep(s, r);
    } else {
      var stored := slot.(runtime := AfterStore(slot.runtime, p.generation, p.current, p.client),
                          cachedAt := p.currentAt);
      SlotStep(s, q.rt, stored);
      var s1 := s.(slots := s.slots[q.rt := stored]);
      ReturnStep(s1, r, q.rt,
                 Ready(q.account, q.since, LastVersion(s, q.account), q.rt, p.generation, p.currentAt, p.client,
                       p.current));
    }
  }

  lemma LookupStep(s: State, step: Step)
    requires Inv(s) && Enabled(s, step)
    requires step.AcquireBuild? || step.Snapshot? || step.Retry?
    ensures Inv(Apply(s, step))
  {
    match step
    case AcquireBuild(r) =>
      var q := s.requests[r];
      assert RequestOk(s, r, q);
      BuilderStep(s, r, q.rt, Some(r), q.(phase := Attempt(MAXIMUM_CLIENT_BUILD_ATTEMPTS)));
    case Snapshot(r) =>
      var q := s.requests[r];
      assert RequestOk(s, r, q);
      RequestStep(s, r, q.(phase := Snapped(q.phase.left, s.slots[q.rt].runtime.generation)));
    case Retry(r) => NextAttemptStep(s, r);
  }

  lemma AbortStep(s: State, step: Step)
    requires step.Abort? && Inv(s) && Enabled(s, step)
    ensures Inv(Apply(s, step))
  {
    var Abort(r) := step;
    var q := s.requests[r];
    assert RequestOk(s, r, q);
    if q.Getting? && !q.phase.WaitBuild? && q.rt in s.slots {
      ReturnStep(s, r, q.rt, Over);
    } else {
      RequestStep(s, r, Over);
    }
  }

  lemma TimerStep(s: State, step: Step)
    requires step.Timer? && Inv(s) && Enabled(s, step)
    ensures Inv(Apply(s, step))
  {
    var Timer(rt, sequence) := step;
    assert SlotOk(s, s.slots[rt]) && OwnerOk(s, rt);
    SlotStep(s, rt, s.slots[rt].(runtime := AfterTimer(s.slots[rt].runtime, sequence)));
  }

  // ---------------------------------------------------------------- the steps of syncs, refreshes and edits

  lemma CommitSyncStep(s: State, step: Step)
    requires step.CommitSync? && Inv(s) && Enabled(s, step)
    ensures Inv(Apply(s, step))
  {
    var CommitSync(r, fetchedAt, stamp) := step;
    var q := s.requests[r];
    var a := q.account;
    assert RequestOk(s, r, q) && LogOk(s, a);
    var after := Replaced(s.db, a, q.row.revision, q.row.updatedAt, q.entries, fetchedAt, stamp);
    if after.None? {
      RequestStep(s, r, Over);
    } else {
      GuardFindsTheRow(s, a, q.readAt, q.row);
      ReplaceKeepsCoherence(s.db, a, q.row.revision, q.row.updatedAt, q.entries, fetchedAt, stamp);
      CommitStep(s, a, after.value);
      RequestStep(WithCommit(s, a, after.value), r, Over);
    }
  }

  /** The end of a refresh: its zone statement took effect, or failed. */
  lemma ZoneCommitStep(s: State, r: RequestId, after: Option<Database>)
    requires Inv(s)
    requires after.Some? ==> after.value.accounts == s.db.accounts && Coherent(after.value)
    ensures Inv(WithRequest(if after.None? then s else s.(db := after.value), r, Over))
  {
    if after.Some? {
      assert after.value == s.db.(zones := after.value.zones);
      ZonesStep(s, after.value.zones);
      RequestStep(s.(db := after.value), r, Over);
    } else {
      RequestStep(s, r, Over);
    }
  }

  lemma ListZonesStep(s: State, step: Step)
    requires Inv(s) && Enabled(s, step) && step.ListZones?
    ensures Inv(Apply(s, step))
  {
    var q := s.requests[step.r];
    assert RequestOk(s, step.r, q);
    RequestStep(s, step.r, Listed(q.account, q.readAt, q.client, q.row, step.entries));
  }

  lemma GetZoneStep(s: State, step: Step)
    requires Inv(s) && Enabled(s, step) && step.GetZone?
    ensures Inv(Apply(s, step))
  {
    var q := s.requests[step.r];
    assert RequestOk(s, step.r, q);
    RequestStep(s, step.r, Fetched(q.account, q.readAt, q.client, q.row, step.entry));
  }

  lemma ZoneNotFoundStep(s: State, step: Step)
    requires Inv(s) && Enabled(s, step) && step.ZoneNotFound?
    ensures Inv(Apply(s, step))
  {
    var q := s.requests[step.r];
    assert RequestOk(s, step.r, q);
    RequestStep(s, step.r, Missing(q.account, q.readAt, q.client, q.row, step.zoneId));
  }

  lemma CommitRefreshStep(s: State, step: Step)
    requires step.CommitRefresh? && Inv(s) && Enabled(s, step)
    ensures Inv(Apply(s, step))
  {
    var CommitRefresh(r, fetchedAt) := step;
    var q := s.requests[r];
    assert RequestOk(s, r, q);
    var after := Refreshed(s.db, q.account, q.row.revision, q.row.updatedAt, q.entry, fetchedAt);
    if after.Some? {
      GuardFindsTheRow(s, q.account, q.readAt, q.row);
      RefreshKeepsCoherence(s.db, q.account, q.row.revision, q.row.updatedAt, q.entry, fetchedAt);
    }
    ZoneCommitStep(s, r, after);
  }

  lemma CommitMissingStep(s: State, step: Step)
    requires step.CommitMissing? && Inv(s) && Enabled(s, step)
    ensures Inv(Apply(s, step))
  {
    var CommitMissing(r, time) := step;
    var q := s.requests[r];
    var after := ZoneMarked(s.db, q.zoneId, q.account, q.row.revision, q.row.updatedAt, time);
    if after.Some? {
      MarkingKeepsCoherence(s.db, q.zoneId, q.account, q.row.revision, q.row.updatedAt, time);
    }
    ZoneCommitStep(s, r, after);
  }

  /** The edited account's row before and after. */
  predicate Shows(before: Database, q: Request, after: Database)
    requires q.Editing?
  {
    && q.account in before.accounts
    && (q.edit.Delete? <==> q.account !in after.accounts)
    && (q.account in after.accounts ==>
          VersionEdited(before.accounts[q.account], after.accounts[q.account], q.edit))
  }

  /** A committed edit: the row's new version is logged and the request goes on to its second invalidation. */
  lemma EditTakesEffect(s: State, r: RequestId, after: Database)
    requires Inv(s) && r in s.requests && s.requests[r].Editing? && s.requests[r].invalidated
    requires Logged(s, s.requests[r].account) && Inv(WithCommit(s, s.requests[r].account, after))
    requires Shows(s.db, s.requests[r], after)
    ensures var q, committed := s.requests[r], WithCommit(s, s.requests[r].account, after);
            var at := LastVersion(committed, q.account);
            var next := if Changes(q.edit) then Committed(q.account, q.edit, at) else Over;
            Inv(WithRequest(committed, r, next))
  {
    var q, committed := s.requests[r], WithCommit(s, s.requests[r].account, after);
    assert LogOk(s, q.account) && LogOk(committed, q.account);
    RequestStep(committed, r,
                if Changes(q.edit) then Committed(q.account, q.edit, LastVersion(committed, q.account)) else Over);
  }

  /** What the three edits do to the database: the edited account's row alone, with a fresh stamp. */
  lemma EditedRows(s: State, q: Request, time: nat, stamp: nat)
    requires Inv(s) && q.Editing? && FreshStamp(s, q.account, stamp) && EditedDb(s.db, q, time, stamp).Some?
    ensures var after := EditedDb(s.db, q, time, stamp).value;
            && q.account in s.db.accounts && Coherent(after)
            && (forall x :: x != q.account ==> (x in after.accounts <==> x in s.db.accounts))
            && (forall x :: x != q.account && x in after.accounts ==> after.accounts[x] == s.db.accounts[x])
            && (q.account in after.accounts ==> FreshStamp(s, q.account, after.accounts[q.account].updatedAt))
            && Shows(s.db, q, after)
  {
  }

  lemma CommitEditStep(s: State, step: Step)
    requires step.CommitEdit? && Inv(s) && Enabled(s, step)
    ensures Inv(Apply(s, step))
  {
    var CommitEdit(r, time, stamp) := step;
    var q := s.requests[r];
    assert RequestOk(s, r, q) && LogOk(s, q.account);
    var after := EditedDb(s.db, q, time, stamp);
    if after.None? {
      RequestStep(s, r, Over);
    } else {
      EditedRows(s, q, time, stamp);
      CommitStep(s, q.account, after.value);
      EditTakesEffect(s, r, after.value);
    }
  }

  lemma FinishEditStep(s: State, step: Step)
    requires step.FinishEdit? && Inv(s) && Enabled(s, step)
    ensures Inv(Apply(s, step))
  {
    var FinishEdit(r) := step;
    var q := s.requests[r];
    var a := q.account;
    assert RequestOk(s, r, q) && LogOk(s, a);
    InvalidateStep(s, a);
    var s1 := Invalidated(s, a);
    if q.edit.Delete? {
      ForgetStep(s1, a);
      RequestStep(s1.(current := s.current - {a}), r, Edited(a, q.edit, q.at));
    } else {
      RequestStep(s1, r, Edited(a, q.edit, q.at));
    }
  }

  /** Forgetting the invalidated runtime of a deleted account. */
  lemma ForgetStep(s: State, a: AccountId)
    requires Inv(s) && Logged(s, a) && a !in s.db.accounts
    requires forall rt :: rt in s.slots && s.slots[rt].account == a ==> s.slots[rt].floor == LastVersion(s, a)
    ensures Inv(s.(current := s.current - {a}))
  {
    var s' := s.(current := s.current - {a});
    forall rt | rt in s'.slots ensures SlotOk(s', s'.slots[rt]) && OwnerOk(s', rt) {
      assert SlotOk(s, s.slots[rt]) && OwnerOk(s, rt);
    }
    forall x | x in s'.log ensures LogOk(s', x) {
      assert LogOk(s, x);
    }
    RequestsKept(s, s');
  }

  lemma InvalidateForEditStep(s: State, r: RequestId)
    requires Inv(s) && r in s.requests && s.requests[r].Editing?
    ensures Inv(WithRequest(Invalidated(s, s.requests[r].account), r, s.requests[r].(invalidated := true)))
  {
    var q := s.requests[r];
    assert RequestOk(s, r, q);
    InvalidateStep(s, q.account);
    RequestStep(Invalidated(s, q.account), r, q.(invalidated := true));
  }

  lemma SetValidationStep(s: State, step: Step)
    requires Inv(s) && Enabled(s, step) && step.SetValidation?
    ensures Inv(Apply(s, step))
  {
    CommitStep(s, step.a, ValidationSet(s.db, step.a, step.revision, step.updatedAt, step.stamp).value);
  }

  lemma BeginEditStep(s: State, step: Step)
    requires Inv(s) && Enabled(s, step) && step.BeginEdit?
    ensures Inv(Apply(s, step))
  {
    RequestStep(s, step.r, Editing(step.a, step.edit, s.db.accounts[step.a], false));
  }

  predicate OfLookup(step: Step) {
    step.Begin? || step.ReadRow? || step.RereadRow? || step.CheckCache? || step.StoreClient?
  }

  predicate OfAttempt(step: Step) {
    step.AcquireBuild? || step.Snapshot? || step.Retry? || step.Abort? || step.Timer?
  }

  predicate OfZones(step: Step) {
    || step.ListZones? || step.GetZone? || step.ZoneNotFound?
    || step.CommitSync? || step.CommitRefresh? || step.CommitMissing?
  }

  lemma LookupKeepsInv(s: State, step: Step)
    requires Inv(s) && Enabled(s, step) && OfLookup(step)
    ensures Inv(Apply(s, step))
  {
    if step.Begin? {
      BeginStep(s, step);
    } else if step.CheckCache? {
      CheckCacheStep(s, step);
    } else if step.StoreClient? {
      StoreClientStep(s, step);
    } else if step.ReadRow? {
      ReadRowStep(s, step);
    } else {
      RereadRowStep(s, step);
    }
  }

  lemma AttemptKeepsInv(s: State, step: Step)
    requires Inv(s) && Enabled(s, step) && OfAttempt(step)
    ensures Inv(Apply(s, step))
  {
    if step.Abort? {
      AbortStep(s, step);
    } else if step.Timer? {
      TimerStep(s, step);
    } else {
      LookupStep(s, step);
    }
  }

  lemma ZonesKeepInv(s: State, step: Step)
    requires Inv(s) && Enabled(s, step) && OfZones(step)
    ensures Inv(Apply(s, step))
  {
    if step.CommitSync? {
      CommitSyncStep(s, step);
    } else if step.CommitRefresh? {
      CommitRefreshStep(s, step);
    } else if step.CommitMissing? {
      CommitMissingStep(s, step);
    } else if step.ListZones? {
      ListZonesStep(s, step);
    } else if step.GetZone? {
      GetZoneStep(s, step);
    } else {
      ZoneNotFoundStep(s, step);
    }
  }

  lemma EditsKeepInv(s: State, step: Step)
    requires Inv(s) && Enabled(s, step) && !OfLookup(step) && !OfAttempt(step) && !OfZones(step)
    ensures Inv(Apply(s, step))
  {
    if step.CreateAccount? {
      CreateStep(s, step);
    } else if step.CommitEdit? {
      CommitEditStep(s, step);
    } else if step.FinishEdit? {
      FinishEditStep(s, step);
    } else if step.SetValidation? {
      SetValidationStep(s, step);
    } else if step.BeginEdit? {
      BeginEditStep(s, step);
    } else {
      InvalidateForEditStep(s, step.r);
    }
  }

  /** Every step keeps the invariant. */
  lemma StepKeepsInv(s: State, step: Step)
    requires Inv(s) && Enabled(s, step)
    ensures Inv(Apply(s, step))
  {
    if OfLookup(step) {
      LookupKeepsInv(s, step);
    } else if OfAttempt(step) {
      AttemptKeepsInv(s, step);
    } else if OfZones(step) {
      ZonesKeepInv(s, step);
    } else {
      EditsKeepInv(s, step);
    }
  }

  lemma {:induction false} RunKeepsInv(states: seq<State>, i: nat)
    requires Run(states) && i < |states|
    ensures Inv(states[i])
  {
    if i > 0 {
      RunKeepsInv(states, i - 1);
      assert Next(states[i - 1], states[i]);
      var step :| Enabled(states[i - 1], step) && states[i] == Apply(states[i - 1], step);
      StepKeepsInv(states[i - 1], step);
    }
  }

  // ---------------------------------------------------------------- what a run guarantees

  /**
    In every state of every run, each live zone row belongs to an existing account and was last
    written from a listing made by a client of exactly that account's present credential revision
    and options.
   */
  lemma ZoneIndexCoherent(states: seq<State>, i: nat, k: ZoneKey)
    requires Run(states) && i < |states|
    requires k in states[i].db.zones && Live(states[i].db.zones[k])
    ensures k.account in states[i].db.accounts
    ensures states[i].db.zones[k].listedBy == ClientOf(states[i].db.accounts[k.account])
  {
    RunKeepsInv(states, i);
  }

  /**
    A lookup that returned a client and a row has a linearization point: a version of the account,
    present at some instant between call and return, that is exactly the returned row, enabled, and
    from which the returned client was built.
   */
  lemma LookupLinearizes(states: seq<State>, i: nat, r: RequestId)
    requires Run(states) && i < |states|
    requires r in states[i].requests && states[i].requests[r].Ready?
    ensures var q := states[i].requests[r];
            exists k :: q.since <= k <= q.until && VersionAt(states[i], q.account, k, q.row)
                        && q.row.enabled && q.client == ClientOf(q.row)
  {
    RunKeepsInv(states, i);
    var q := states[i].requests[r];
    assert RequestOk(states[i], r, q);
    assert q.since <= q.readAt <= q.until && VersionAt(states[i], q.account, q.readAt, q.row);
  }

  /**
    Once an edit that changes the enabled flag, the options or the credential (or deletes the account)
    has returned, no runtime of that account caches a client of an older version, and every bounded
    client that still passes the generation check was looked up at the edit's version or later.
   */
  lemma EditFencesOlderClients(states: seq<State>, i: nat, e: RequestId, rt: RuntimeId, r: RequestId)
    requires Run(states) && i < |states|
    requires e in states[i].requests && states[i].requests[e].Edited?
    requires rt in states[i].slots && states[i].slots[rt].account == states[i].requests[e].account
    ensures states[i].slots[rt].runtime.cached.Some? ==>
              && states[i].requests[e].at <= states[i].slots[rt].cachedAt
              && VersionAt(states[i], states[i].slots[rt].account, states[i].slots[rt].cachedAt,
                           states[i].slots[rt].runtime.cached.value.account)
    ensures r in states[i].requests && states[i].requests[r].Ready? && states[i].requests[r].rt == rt
            && states[i].requests[r].generation == states[i].slots[rt].runtime.generation
            ==> states[i].requests[e].at <= states[i].requests[r].readAt
  {
    RunKeepsInv(states, i);
    assert RequestOk(states[i], e, states[i].requests[e]) && SlotOk(states[i], states[i].slots[rt]);
    if r in states[i].requests {
      assert RequestOk(states[i], r, states[i].requests[r]);
    }
  }

  /** At most one lookup of a runtime is between taking the build slot and returning. */
  lemma BuildsAreExclusive(states: seq<State>, i: nat, r: RequestId, r': RequestId)
    requires Run(states) && i < |states|
    requires r in states[i].requests && HoldsBuild(states[i].requests[r])
    requires r' in states[i].requests && HoldsBuild(states[i].requests[r'])
    requires states[i].requests[r].rt == states[i].requests[r'].rt
    ensures r == r'
  {
    RunKeepsInv(states, i);
    assert RequestOk(states[i], r, states[i].requests[r]) && RequestOk(states[i], r', states[i].requests[r']);
  }
}
