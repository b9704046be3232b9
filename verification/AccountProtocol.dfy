/**
  Client lookups, zone syncs, refreshes and account edits interleaved at their atomic steps: each
  database statement or transaction is one step, and so is each critical section of a runtime.
 */
module AccountProtocol {
  import opened Wrappers
  import opened ClientRuntime
  import opened ProviderStore

  type RuntimeId = nat
  type RequestId = nat

  const MAXIMUM_CLIENT_BUILD_ATTEMPTS: nat := 3

  /** A runtime object. `floor` is the account version current when it was made or last invalidated;
      `cachedAt` is the version the cached client's row was read at. */
  datatype Slot = Slot(account: AccountId, runtime: Runtime, floor: nat, cachedAt: nat, builder: Option<RequestId>)

  datatype Edit =
    | Update(enabled: Option<bool>, options: Option<string>)
    | Credentials
    | Delete

  /** Where a lookup stands inside its build slot; `left` counts the attempts still allowed, this one included. */
  datatype Phase =
    | WaitBuild
    | Attempt(left: nat)
    | Snapped(left: nat, generation: nat)
    | RowRead(left: nat, generation: nat, row: AccountRow, readAt: nat)
    | Built(left: nat, generation: nat, row: AccountRow, client: Client)
    | Reread(left: nat, generation: nat, row: AccountRow, client: Client, current: AccountRow, currentAt: nat)

  datatype Request =
    | Getting(account: AccountId, since: nat, rt: RuntimeId, phase: Phase)
      /** A returned lookup: called at version `since`, returned at version `until`. */
    | Ready(account: AccountId, since: nat, until: nat, rt: RuntimeId, generation: nat, readAt: nat, client: Client,
            row: AccountRow)
    | Listed(account: AccountId, readAt: nat, client: Client, row: AccountRow, entries: seq<ZoneEntry>)
    | Fetched(account: AccountId, readAt: nat, client: Client, row: AccountRow, entry: ZoneEntry)
    | Missing(account: AccountId, readAt: nat, client: Client, row: AccountRow, zoneId: nat)
    | Editing(account: AccountId, edit: Edit, before: AccountRow, invalidated: bool)
    | Committed(account: AccountId, edit: Edit, at: nat)
      /** An edit that has returned: committed as version `at`, clients invalidated after that. */
    | Edited(account: AccountId, edit: Edit, at: nat)
    | Over

  datatype State = State(
    db: Database,
    log: map<AccountId, seq<Option<AccountRow>>>,
    current: map<AccountId, RuntimeId>,
    slots: map<RuntimeId, Slot>,
    requests: map<RequestId, Request>)

  datatype Step =
    | CreateAccount(a: AccountId, row: AccountRow)
    | Begin(r: RequestId, a: AccountId, newRuntime: RuntimeId)
    | AcquireBuild(r: RequestId)
    | Snapshot(r: RequestId)
    | ReadRow(r: RequestId)
    | CheckCache(r: RequestId, expired: bool)
    | RereadRow(r: RequestId)
    | StoreClient(r: RequestId)
    | Retry(r: RequestId)
    | Abort(r: RequestId)
    | Timer(rt: RuntimeId, sequence: nat)
    | ListZones(r: RequestId, entries: seq<ZoneEntry>)
    | CommitSync(r: RequestId, fetchedAt: nat, stamp: nat)
    | GetZone(r: RequestId, entry: ZoneEntry)
    | CommitRefresh(r: RequestId, fetchedAt: nat)
    | ZoneNotFound(r: RequestId, zoneId: nat)
    | CommitMissing(r: RequestId, time: nat)
    | SetValidation(a: AccountId, revision: nat, updatedAt: nat, stamp: nat)
    | BeginEdit(r: RequestId, a: AccountId, edit: Edit)
    | InvalidateForEdit(r: RequestId)
    | CommitEdit(r: RequestId, time: nat, stamp: nat)
    | FinishEdit(r: RequestId)

  // ---------------------------------------------------------------- the transitions

  function LastVersion(s: State, a: AccountId): nat
    requires a in s.log && s.log[a] != []
  {
    |s.log[a]| - 1
  }

  predicate Logged(s: State, a: AccountId) {
    a in s.log && s.log[a] != []
  }

  predicate FreshStamp(s: State, a: AccountId, stamp: nat) {
    a in s.log && forall i :: 0 <= i < |s.log[a]| && s.log[a][i].Some? ==> s.log[a][i].value.updatedAt != stamp
  }

  function WithRequest(s: State, r: RequestId, q: Request): State {
    s.(requests := s.requests[r := q])
  }

  /** A transaction that rewrote account `a`'s row (or removed it) and possibly zone rows. */
  function WithCommit(s: State, a: AccountId, db: Database): State
    requires Logged(s, a)
  {
    s.(db := db, log := s.log[a := s.log[a] + [if a in db.accounts then Some(db.accounts[a]) else None]])
  }

  function WithRuntime(s: State, rt: RuntimeId, runtime: Runtime): State
    requires rt in s.slots
  {
    s.(slots := s.slots[rt := s.slots[rt].(runtime := runtime)])
  }

  function WithBuilder(s: State, rt: RuntimeId, builder: Option<RequestId>): State
    requires rt in s.slots
  {
    s.(slots := s.slots[rt := s.slots[rt].(builder := builder)])
  }

  /** The manager's `Invalidate`, its map lookup and the runtime's own part in one: a no-op without a runtime. */
  function Invalidated(s: State, a: AccountId): State
    requires Logged(s, a)
  {
    if a in s.current && s.current[a] in s.slots then
      var rt := s.current[a];
      s.(slots := s.slots[rt := s.slots[rt].(runtime := AfterInvalidate(s.slots[rt].runtime),
                                             floor := LastVersion(s, a))])
    else s
  }

  /** The manager's `Remove`: forgets the runtime and invalidates it, in one. */
  function Removed(s: State, a: AccountId): State
    requires Logged(s, a)
  {
    Invalidated(s, a).(current := s.current - {a})
  }

  predicate InPhase(s: State, r: RequestId) {
    && r in s.requests && s.requests[r].Getting?
    && s.requests[r].rt in s.slots && Logged(s, s.requests[r].account)
  }

  predicate Matching(q: Request) {
    && q.Getting? && q.phase.Reread?
    && q.phase.current.enabled && SameVersion(q.phase.current, q.phase.row)
  }

  predicate Changes(edit: Edit) {
    edit.Update? ==> edit.enabled.Some? || edit.options.Some?
  }

  ghost predicate Enabled(s: State, step: Step) {
    match step
    case CreateAccount(a, row) => a !in s.log
    case Begin(r, a, newRuntime) =>
      r !in s.requests && Logged(s, a) && (a in s.current ==> s.current[a] in s.slots) && newRuntime !in s.slots
    case AcquireBuild(r) => InPhase(s, r) && s.requests[r].phase.WaitBuild? && s.slots[s.requests[r].rt].builder.None?
    case Snapshot(r) => InPhase(s, r) && s.requests[r].phase.Attempt? && s.requests[r].phase.left > 0
    case ReadRow(r) => InPhase(s, r) && s.requests[r].phase.Snapped?
    case CheckCache(r, expired) => InPhase(s, r) && s.requests[r].phase.RowRead?
    case RereadRow(r) => InPhase(s, r) && s.requests[r].phase.Built?
    case StoreClient(r) => InPhase(s, r) && s.requests[r].phase.Reread? && Matching(s.requests[r])
    case Retry(r) => InPhase(s, r) &&
      ((s.requests[r].phase.Snapped? && s.slots[s.requests[r].rt].runtime.generation != s.requests[r].phase.generation)
       || (s.requests[r].phase.Reread? && !Matching(s.requests[r])))
    case Abort(r) => r in s.requests && !s.requests[r].Edited? && !s.requests[r].Committed?
    case Timer(rt, sequence) => rt in s.slots && sequence <= s.slots[rt].runtime.cacheSequence
    case ListZones(r, entries) => r in s.requests && s.requests[r].Ready? && DistinctZones(entries)
      && forall e :: e in entries ==> e.listedBy == s.requests[r].client
    case CommitSync(r, fetchedAt, stamp) =>
      r in s.requests && s.requests[r].Listed? && FreshStamp(s, s.requests[r].account, stamp)
    case GetZone(r, entry) => r in s.requests && s.requests[r].Ready? && entry.listedBy == s.requests[r].client
    case CommitRefresh(r, fetchedAt) => r in s.requests && s.requests[r].Fetched?
    case ZoneNotFound(r, zoneId) => r in s.requests && s.requests[r].Ready?
    case CommitMissing(r, time) => r in s.requests && s.requests[r].Missing?
    case SetValidation(a, revision, updatedAt, stamp) =>
      GuardHolds(s.db, a, revision, updatedAt) && FreshStamp(s, a, stamp)
    case BeginEdit(r, a, edit) => r !in s.requests && a in s.db.accounts
    case InvalidateForEdit(r) => r in s.requests && s.requests[r].Editing? && Logged(s, s.requests[r].account)
    case CommitEdit(r, time, stamp) => r in s.requests && s.requests[r].Editing? && s.requests[r].invalidated
      && FreshStamp(s, s.requests[r].account, stamp)
    case FinishEdit(r) => r in s.requests && s.requests[r].Committed? && Logged(s, s.requests[r].account)
  }

  function EditedDb(db: Database, q: Request, time: nat, stamp: nat): Option<Database>
    requires q.Editing?
  {
    match q.edit
    case Update(enabled, options) => AccountUpdated(db, q.account, q.before.updatedAt, enabled, options, time, stamp)
    case Credentials => CredentialReplaced(db, q.account, q.before.revision, time, stamp)
    case Delete => AccountDeleted(db, q.account)
  }

  /** Releases the build slot and ends the call with `q`. */
  function Return(s: State, r: RequestId, rt: RuntimeId, q: Request): State
    requires rt in s.slots
  {
    WithRequest(WithBuilder(s, rt, None), r, q)
  }

  /** The next attempt, keeping the build slot, or the conflict error after the last one, releasing it. */
  function NextAttempt(s: State, r: RequestId, q: Request): State
    requires q.Getting? && q.rt in s.slots && !q.phase.WaitBuild?
  {
    WithRequest(WithBuilder(s, q.rt, if q.phase.left <= 1 then None else Some(r)), r, Attempted(q))
  }

  function Attempted(q: Request): Request
    requires q.Getting? && !q.phase.WaitBuild?
  {
    if q.phase.left <= 1 then Over else q.(phase := Attempt(q.phase.left - 1))
  }

  ghost function Apply(s: State, step: Step): State
    requires Enabled(s, step)
  {
    match step
    case CreateAccount(a, row) =>
      s.(db := s.db.(accounts := s.db.accounts[a := row]), log := s.log[a := [Some(row)]])
    case Begin(r, a, newRuntime) =>
      if a in s.current then WithRequest(s, r, Getting(a, LastVersion(s, a), s.current[a], WaitBuild))
      else WithRequest(s.(current := s.current[a := newRuntime],
                          slots := s.slots[newRuntime := Slot(a, FRESH_RUNTIME, LastVersion(s, a), 0, None)]),
                       r, Getting(a, LastVersion(s, a), newRuntime, WaitBuild))
    case AcquireBuild(r) =>
      var q := s.requests[r];
      WithRequest(WithBuilder(s, q.rt, Some(r)), r, q.(phase := Attempt(MAXIMUM_CLIENT_BUILD_ATTEMPTS)))
    case Snapshot(r) =>
      var q := s.requests[r];
      WithRequest(s, r, q.(phase := Snapped(q.phase.left, s.slots[q.rt].runtime.generation)))
    case ReadRow(r) =>
      var q := s.requests[r];
      if q.account !in s.db.accounts || !s.db.accounts[q.account].enabled || s.db.accounts[q.account].revision == 0
      then Return(s, r, q.rt, Over)
      else WithRequest(s, r, q.(phase := RowRead(q.phase.left, q.phase.generation, s.db.accounts[q.account],
                                                 LastVersion(s, q.account))))
    case CheckCache(r, expired) =>
      var q := s.requests[r];
      var p := q.phase;
      var rt := s.slots[q.rt].runtime;
      var found := Found(rt, p.generation, p.row, expired);
      if found.Some? then
        Return(s, r, q.rt, Ready(q.account, q.since, LastVersion(s, q.account), q.rt, p.generation, p.readAt,
                                 found.value, p.row))
      else
        WithRequest(WithRuntime(s, q.rt, AfterLookup(rt, p.generation, p.row, expired)), r,
                    q.(phase := Built(p.left, p.generation, p.row, ClientOf(p.row))))
    case RereadRow(r) =>
      var q := s.requests[r];
      var p := q.phase;
      if q.account !in s.db.accounts then Return(s, r, q.rt, Over)
      else WithRequest(s, r, q.(phase := Reread(p.left, p.generation, p.row, p.client, s.db.accounts[q.account],
                                                LastVersion(s, q.account))))
    case StoreClient(r) =>
      var q := s.requests[r];
      var p := q.phase;
      var slot := s.slots[q.rt];
      if slot.runtime.generation != p.generation then NextAttempt(s, r, q)
      else
        var stored := slot.(runtime := AfterStore(slot.runtime, p.generation, p.current, p.client),
                            cachedAt := p.currentAt);
        Return(s.(slots := s.slots[q.rt := stored]), r, q.rt,
               Ready(q.account, q.since, LastVersion(s, q.account), q.rt, p.generation, p.currentAt, p.client,
                     p.current))
    case Retry(r) => NextAttempt(s, r, s.requests[r])
    case Abort(r) =>
      var q := s.requests[r];
      if q.Getting? && !q.phase.WaitBuild? && q.rt in s.slots then Return(s, r, q.rt, Over) else WithRequest(s, r, Over)
    case Timer(rt, sequence) => WithRuntime(s, rt, AfterTimer(s.slots[rt].runtime, sequence))
    case ListZones(r, entries) =>
      var q := s.requests[r];
      WithRequest(s, r, Listed(q.account, q.readAt, q.client, q.row, entries))
    case CommitSync(r, fetchedAt, stamp) =>
      var q := s.requests[r];
      var after := Replaced(s.db, q.account, q.row.revision, q.row.updatedAt, q.entries, fetchedAt, stamp);
      if after.None? || !Logged(s, q.account) then WithRequest(s, r, Over)
      else WithRequest(WithCommit(s, q.account, after.value), r, Over)
    case GetZone(r, entry) =>
      var q := s.requests[r];
      WithRequest(s, r, Fetched(q.account, q.readAt, q.client, q.row, entry))
    case CommitRefresh(r, fetchedAt) =>
      var q := s.requests[r];
      var after := Refreshed(s.db, q.account, q.row.revision, q.row.updatedAt, q.entry, fetchedAt);
      if after.None? then WithRequest(s, r, Over) else WithRequest(s.(db := after.value), r, Over)
    case ZoneNotFound(r, zoneId) =>
      var q := s.requests[r];
      WithRequest(s, r, Missing(q.account, q.readAt, q.client, q.row, zoneId))
    case CommitMissing(r, time) =>
      var q := s.requests[r];
      var after := ZoneMarked(s.db, q.zoneId, q.account, q.row.revision, q.row.updatedAt, time);
      if after.None? then WithRequest(s, r, Over) else WithRequest(s.(db := after.value), r, Over)
    case SetValidation(a, revision, updatedAt, stamp) =>
      var after := ValidationSet(s.db, a, revision, updatedAt, stamp);
      if after.None? || !Logged(s, a) then s else WithCommit(s, a, after.value)
    case BeginEdit(r, a, edit) => WithRequest(s, r, Editing(a, edit, s.db.accounts[a], false))
    case InvalidateForEdit(r) =>
      var q := s.requests[r];
      WithRequest(Invalidated(s, q.account), r, q.(invalidated := true))
    case CommitEdit(r, time, stamp) =>
      var q := s.requests[r];
      var after := EditedDb(s.db, q, time, stamp);
      if after.None? || !Logged(s, q.account) then WithRequest(s, r, Over)
      else
        var committed := WithCommit(s, q.account, after.value);
        WithRequest(committed, r,
                    if Changes(q.edit) then Committed(q.account, q.edit, LastVersion(committed, q.account)) else Over)
    case FinishEdit(r) =>
      var q := s.requests[r];
      WithRequest(if q.edit.Delete? then Removed(s, q.account) else Invalidated(s, q.account), r,
                  Edited(q.account, q.edit, q.at))
  }

  ghost predicate Init(s: State) {
    s == State(Database(map[], map[]), map[], map[], map[], map[])
  }

  ghost predicate Next(s: State, s': State) {
    exists step :: Enabled(s, step) && s' == Apply(s, step)
  }

  /** A run: any interleaving of any number of requests. */
  ghost predicate Run(states: seq<State>) {
    && states != [] && Init(states[0])
    && forall i :: 0 <= i < |states| - 1 ==> Next(states[i], states[i + 1])
  }
}
