/** Fetches, mutations, lookups and invalidations of the record cache interleaved at their critical sections. */
module RecordCacheSafety {
  import opened Wrappers
  import opened RecordCache

  /**
    A mutation invalidates its zone, calls the provider, and invalidates again on the way out,
    whatever the call gave.
   */
  datatype Operation =
    | Fetching(zone: ZoneId, account: AccountId, generation: nat, begun: nat)
    | Mutating(zone: ZoneId)
    | Called(zone: ZoneId, calledAt: nat)
    | Returned(zone: ZoneId, calledAt: nat, returnedAt: nat)
    | Done

  /** A lookup that found an entry: what it asked for, when, and when the entry's fetch began. */
  datatype Hit = Hit(zone: ZoneId, account: AccountId, revision: nat, updatedAt: nat, at: nat, begun: nat)

  /** A fetch whose result was kept, and for which account version. */
  datatype Kept = Kept(zone: ZoneId, account: AccountId, revision: nat, updatedAt: nat, begun: nat)

  /** `invalidated` remembers when each zone was last invalidated. */
  datatype State = State(
    clock: nat,
    cache: Cache,
    operations: map<OperationId, Operation>,
    invalidated: map<ZoneId, nat>,
    hits: seq<Hit>,
    kept: seq<Kept>)

  datatype Step =
    | BeginFetch(o: OperationId, zone: ZoneId, account: AccountId)
    | StoreFetch(o: OperationId, updatedAt: nat, revision: nat, fetchedAt: nat)
    | FailFetch(o: OperationId)
    | LookUp(zone: ZoneId, account: AccountId, revision: nat, updatedAt: nat)
    | BeginMutation(o: OperationId, zone: ZoneId)
    | CallProvider(o: OperationId)
    | InvalidateMidway(o: OperationId)
    | ReturnMutation(o: OperationId)
    | InvalidateOneZone(zone: ZoneId)
    | InvalidateOneAccount(account: AccountId)

  predicate Enabled(s: State, step: Step) {
    match step
    case BeginFetch(o, zone, account) => o !in s.operations
    case StoreFetch(o, updatedAt, revision, fetchedAt) => o in s.operations && s.operations[o].Fetching?
    case FailFetch(o) => o in s.operations && s.operations[o].Fetching?
    case LookUp(zone, account, revision, updatedAt) => true
    case BeginMutation(o, zone) => o !in s.operations
    case CallProvider(o) => o in s.operations && s.operations[o].Mutating?
    case InvalidateMidway(o) => o in s.operations && s.operations[o].Called?
    case ReturnMutation(o) => o in s.operations && s.operations[o].Called?
    case InvalidateOneZone(zone) => true
    case InvalidateOneAccount(account) => true
  }

  function Tick(s: State): State {
    s.(clock := s.clock + 1)
  }

  function Zapped(s: State, zone: ZoneId): State {
    s.(cache := ZoneInvalidated(s.cache, zone), invalidated := s.invalidated[zone := s.clock])
  }

  function AccountZones(s: State, account: AccountId): set<ZoneId> {
    set zone | zone in s.cache && s.cache[zone].account == account
  }

  function Apply(s: State, step: Step): State
    requires Enabled(s, step)
  {
    match step
    case BeginFetch(o, zone, account) =>
      var cache := FetchBegun(s.cache, zone, account);
      var operation := Fetching(zone, account, cache[zone].generation, s.clock);
      Tick(s.(cache := cache, operations := s.operations[o := operation]))
    case StoreFetch(o, updatedAt, revision, fetchedAt) =>
      var f := s.operations[o];
      var entry := Entry(f.account, updatedAt, revision, fetchedAt, f.begun);
      Tick(s.(cache := FetchStored(s.cache, f.zone, f.generation, entry), operations := s.operations[o := Done],
              kept := if At(s.cache, f.zone).generation == f.generation
                then s.kept + [Kept(f.zone, f.account, revision, updatedAt, f.begun)] else s.kept))
    case FailFetch(o) => Tick(s.(operations := s.operations[o := Done]))
    case LookUp(zone, account, revision, updatedAt) =>
      var found := Lookup(s.cache, zone, account, revision, updatedAt);
      Tick(if found.None? then s
           else s.(hits := s.hits + [Hit(zone, account, revision, updatedAt, s.clock, found.value.begun)]))
    case BeginMutation(o, zone) => Tick(Zapped(s, zone).(operations := s.operations[o := Mutating(zone)]))
    case CallProvider(o) => Tick(s.(operations := s.operations[o := Called(s.operations[o].zone, s.clock)]))
    case InvalidateMidway(o) => Tick(Zapped(s, s.operations[o].zone))
    case ReturnMutation(o) =>
      var m := s.operations[o];
      Tick(Zapped(s, m.zone).(operations := s.operations[o := Returned(m.zone, m.calledAt, s.clock)]))
    case InvalidateOneZone(zone) => Tick(Zapped(s, zone))
    case InvalidateOneAccount(account) =>
      Tick(s.(cache := AccountInvalidated(s.cache, account),
              invalidated := map zone | zone in s.invalidated.Keys + AccountZones(s, account) ::
                if zone in AccountZones(s, account) then s.clock else s.invalidated[zone]))
  }

  ghost predicate Init(s: State) {
    s.cache == map[] && s.operations == map[] && s.invalidated == map[] && s.hits == [] && s.kept == []
  }

  ghost predicate Next(s: State, s': State) {
    exists step :: Enabled(s, step) && s' == Apply(s, step)
  }

  ghost predicate Run(states: seq<State>) {
    && states != [] && Init(states[0])
    && forall i :: 0 <= i < |states| - 1 ==> Next(states[i], states[i + 1])
  }

  // ---------------------------------------------------------------- the invariant

  /** Begun strictly after the zone's last invalidation. */
  predicate Since(s: State, zone: ZoneId, begun: nat) {
    begun < s.clock && (zone in s.invalidated ==> s.invalidated[zone] < begun)
  }

  ghost predicate CacheOk(s: State) {
    && (forall zone :: zone in s.cache && s.cache[zone].entry.Some? ==> Since(s, zone, s.cache[zone].entry.value.begun))
    && (forall zone :: zone in s.invalidated ==> s.invalidated[zone] < s.clock)
  }

  /** A fetch that still holds its zone's generation is the newest of its zone. */
  ghost predicate FetchOk(s: State, f: Operation)
    requires f.Fetching?
  {
    && f.begun < s.clock && f.zone in s.cache && f.generation <= s.cache[f.zone].generation
    && (f.generation == s.cache[f.zone].generation ==>
          && Since(s, f.zone, f.begun)
          && forall i :: 0 <= i < |s.kept| && s.kept[i].zone == f.zone ==> s.kept[i].begun < f.begun)
  }

  ghost predicate OperationOk(s: State, operation: Operation) {
    match operation
    case Fetching(zone, account, generation, begun) => FetchOk(s, operation)
    case Mutating(zone) => true
    case Called(zone, calledAt) => calledAt < s.clock
    case Returned(zone, calledAt, returnedAt) =>
      && calledAt < returnedAt && zone in s.invalidated && returnedAt <= s.invalidated[zone]
      && forall i :: 0 <= i < |s.hits| && s.hits[i].zone == zone && returnedAt < s.hits[i].at ==>
           returnedAt < s.hits[i].begun
    case Done => true
  }

  /** Two fetches of one zone never share a generation. */
  predicate Apart(f: Operation, f': Operation) {
    f.Fetching? && f'.Fetching? && f.zone == f'.zone ==> f.generation != f'.generation
  }

  ghost predicate OperationsOk(s: State) {
    && (forall o :: o in s.operations ==> OperationOk(s, s.operations[o]))
    && (forall o, o' :: o in s.operations && o' in s.operations && o != o' ==> Apart(s.operations[o], s.operations[o']))
  }

  ghost predicate HistoryOk(s: State) {
    && (forall i :: 0 <= i < |s.hits| ==> s.hits[i].at < s.clock)
    && (forall i :: 0 <= i < |s.kept| ==> s.kept[i].begun < s.clock)
    && (forall i, j :: 0 <= i < j < |s.kept| && s.kept[i].zone == s.kept[j].zone ==> s.kept[i].begun < s.kept[j].begun)
  }

  ghost predicate Inv(s: State) {
    CacheOk(s) && OperationsOk(s) && HistoryOk(s)
  }

  /** Some zones are invalidated at this instant; no operation moves. */
  ghost predicate Invalidates(s: State, s': State, zones: set<ZoneId>) {
    && s' == s.(cache := s'.cache, invalidated := s'.invalidated, clock := s.clock + 1)
    && (forall z :: z in s.cache ==> z in s'.cache)
    && (forall z :: z in zones ==>
          z in s'.cache && s'.cache[z] == Bumped(At(s.cache, z)) && z in s'.invalidated && s'.invalidated[z] == s.clock)
    && (forall z :: z in s'.cache && z !in zones ==> z in s.cache && s'.cache[z] == s.cache[z])
    && (forall z :: z !in zones ==> (z in s'.invalidated <==> z in s.invalidated))
    && (forall z :: z !in zones && z in s.invalidated ==> s'.invalidated[z] == s.invalidated[z])
  }

  lemma InvalidationKeepsInv(s: State, s': State, zones: set<ZoneId>)
    requires Inv(s) && Invalidates(s, s', zones)
    ensures Inv(s')
  {
    forall o | o in s'.operations ensures OperationOk(s', s'.operations[o]) {
      assert OperationOk(s, s.operations[o]);
    }
  }

  /** An operation is recorded that is not a fetch. */
  lemma RecordKeepsInv(s: State, o: OperationId, operation: Operation)
    requires Inv(s) && !operation.Fetching? && OperationOk(s, operation)
    ensures Inv(s.(operations := s.operations[o := operation]))
  {
    var s' := s.(operations := s.operations[o := operation]);
    forall x | x in s'.operations ensures OperationOk(s', s'.operations[x]) {
      assert OperationOk(s, s'.operations[x]);
    }
  }

  lemma TickKeepsInv(s: State)
    requires Inv(s)
    ensures Inv(Tick(s))
  {
    forall x | x in s.operations ensures OperationOk(Tick(s), s.operations[x]) {
      assert OperationOk(s, s.operations[x]);
    }
  }

  lemma BeginFetchStep(s: State, o: OperationId, zone: ZoneId, account: AccountId)
    requires Inv(s) && Enabled(s, BeginFetch(o, zone, account))
    ensures Inv(Apply(s, BeginFetch(o, zone, account)))
  {
    var s' := Apply(s, BeginFetch(o, zone, account));
    forall x | x in s'.operations ensures OperationOk(s', s'.operations[x]) {
      if x != o {
        assert OperationOk(s, s.operations[x]);
      }
    }
    forall x | x in s.operations && s.operations[x].Fetching? && s.operations[x].zone == zone
      ensures s.operations[x].generation < s'.operations[o].generation
    {
      assert OperationOk(s, s.operations[x]);
    }
  }

  lemma StoreFetchStep(s: State, o: OperationId, updatedAt: nat, revision: nat, fetchedAt: nat)
    requires Inv(s) && Enabled(s, StoreFetch(o, updatedAt, revision, fetchedAt))
    ensures Inv(Apply(s, StoreFetch(o, updatedAt, revision, fetchedAt)))
  {
    var s' := Apply(s, StoreFetch(o, updatedAt, revision, fetchedAt));
    var f := s.operations[o];
    assert OperationOk(s, f);
    forall x | x in s'.operations ensures OperationOk(s', s'.operations[x]) {
      if x != o {
        assert OperationOk(s, s.operations[x]);
      }
    }
  }

  lemma LookUpStep(s: State, zone: ZoneId, account: AccountId, revision: nat, updatedAt: nat)
    requires Inv(s)
    ensures Inv(Apply(s, LookUp(zone, account, revision, updatedAt)))
  {
    var s' := Apply(s, LookUp(zone, account, revision, updatedAt));
    forall x | x in s'.operations ensures OperationOk(s', s'.operations[x]) {
      assert OperationOk(s, s.operations[x]);
    }
  }

  lemma ZapStep(s: State, zone: ZoneId)
    requires Inv(s)
    ensures Inv(Tick(Zapped(s, zone)))
  {
    InvalidationKeepsInv(s, Tick(Zapped(s, zone)), {zone});
  }

  /** A mutation step that invalidates its zone and records where the operation now stands. */
  lemma ZapAndRecord(s: State, zone: ZoneId, o: OperationId, operation: Operation)
    requires Inv(s) && !operation.Fetching? && OperationOk(Tick(Zapped(s, zone)), operation)
    ensures Inv(Tick(Zapped(s, zone).(operations := s.operations[o := operation])))
  {
    ZapStep(s, zone);
    var s1 := Tick(Zapped(s, zone));
    RecordKeepsInv(s1, o, operation);
    assert s1.(operations := s1.operations[o := operation])
      == Tick(Zapped(s, zone).(operations := s.operations[o := operation]));
  }

  lemma MutationSteps(s: State, step: Step)
    requires Inv(s) && Enabled(s, step)
    requires step.BeginMutation? || step.CallProvider? || step.InvalidateMidway? || step.ReturnMutation?
    ensures Inv(Apply(s, step))
  {
    match step
    case BeginMutation(o, zone) => ZapAndRecord(s, zone, o, Mutating(zone));
    case CallProvider(o) =>
      TickKeepsInv(s);
      RecordKeepsInv(Tick(s), o, Called(s.operations[o].zone, s.clock));
    case InvalidateMidway(o) => ZapStep(s, s.operations[o].zone);
    case ReturnMutation(o) =>
      var m := s.operations[o];
      assert OperationOk(s, m);
      ZapAndRecord(s, m.zone, o, Returned(m.zone, m.calledAt, s.clock));
  }

  lemma StepKeepsInv(s: State, step: Step)
    requires Inv(s) && Enabled(s, step)
    ensures Inv(Apply(s, step))
  {
    match step
    case BeginFetch(o, zone, account) => BeginFetchStep(s, o, zone, account);
    case StoreFetch(o, updatedAt, revision, fetchedAt) => StoreFetchStep(s, o, updatedAt, revision, fetchedAt);
    case FailFetch(o) =>
      RecordKeepsInv(s, o, Done);
      TickKeepsInv(s.(operations := s.operations[o := Done]));
    case LookUp(zone, account, revision, updatedAt) => LookUpStep(s, zone, account, revision, updatedAt);
    case BeginMutation(_, _) => MutationSteps(s, step);
    case CallProvider(_) => MutationSteps(s, step);
    case InvalidateMidway(_) => MutationSteps(s, step);
    case ReturnMutation(_) => MutationSteps(s, step);
    case InvalidateOneZone(zone) => ZapStep(s, zone);
    case InvalidateOneAccount(account) => InvalidationKeepsInv(s, Apply(s, step), AccountZones(s, account));
  }

  lemma {:induction false} RunKeepsInv(states: seq<State>, i: nat)
    requires Run(states) && i < |states|
    ensures Inv(states[i])
  {
    if i > 0 {
      RunKeepsInv(states, i - 1);
      assert Next(states[i - 1], states[i]);
      var step :| Enabled(states[i - 1], step) && states[i] == Apply(states[i - 1], step);
      StepKeepsInv(states[i - 1], step);
    }
  }

  // ---------------------------------------------------------------- what a run guarantees

  /**
    Once a create, update or delete has returned, successful or not, every later hit on its zone is
    a listing whose fetch began after that return, and so after the provider call.
   */
  lemma ReadsItsOwnWrites(states: seq<State>, i: nat, o: OperationId, h: nat)
    requires Run(states) && i < |states|
    requires o in states[i].operations && states[i].operations[o].Returned?
    requires h < |states[i].hits| && states[i].hits[h].zone == states[i].operations[o].zone
    requires states[i].operations[o].returnedAt < states[i].hits[h].at
    ensures states[i].operations[o].calledAt < states[i].operations[o].returnedAt < states[i].hits[h].begun
  {
    RunKeepsInv(states, i);
    assert OperationOk(states[i], states[i].operations[o]);
  }

  /** Of two kept listings of a zone the later one began later: an old fetch never overwrites a newer one. */
  lemma ListingsAreKeptInBeginOrder(states: seq<State>, i: nat, j: nat, k: nat)
    requires Run(states) && i < |states|
    requires j < k < |states[i].kept| && states[i].kept[j].zone == states[i].kept[k].zone
    ensures states[i].kept[j].begun < states[i].kept[k].begun
  {
    RunKeepsInv(states, i);
  }

  // ---------------------------------------------------------------- what a hit was kept as

  /** Some fetch of the zone, begun then, was kept for this account, revision and stamp. */
  ghost predicate WasKept(s: State, zone: ZoneId, account: AccountId, revision: nat, updatedAt: nat, begun: nat) {
    Kept(zone, account, revision, updatedAt, begun) in s.kept
  }

  ghost predicate KeptInv(s: State) {
    && (forall zone :: zone in s.cache && s.cache[zone].entry.Some? ==>
          var entry := s.cache[zone].entry.value;
          WasKept(s, zone, entry.account, entry.revision, entry.updatedAt, entry.begun))
    && (forall i :: 0 <= i < |s.hits| ==>
          WasKept(s, s.hits[i].zone, s.hits[i].account, s.hits[i].revision, s.hits[i].updatedAt, s.hits[i].begun))
  }

  lemma KeptStep(s: State, step: Step)
    requires KeptInv(s) && Enabled(s, step)
    ensures KeptInv(Apply(s, step))
  {
    var s' := Apply(s, step);
    assert s.kept <= s'.kept;
    assert forall k :: k in s.kept ==> k in s'.kept;
    if step.StoreFetch? && s'.kept != s.kept {
      assert s'.kept[|s.kept|] in s'.kept;
    }
  }

  /** Every hit is a listing that was kept for exactly the account, credential revision and stamp asked for. */
  lemma {:induction false} HitsWereKeptForTheirVersion(states: seq<State>, i: nat)
    requires Run(states) && i < |states|
    ensures KeptInv(states[i])
  {
    if i > 0 {
      HitsWereKeptForTheirVersion(states, i - 1);
      assert Next(states[i - 1], states[i]);
      var step :| Enabled(states[i - 1], step) && states[i] == Apply(states[i - 1], step);
      KeptStep(states[i - 1], step);
    }
  }

  /** A lookup hits exactly when the zone's entry has what it asks for, and returns that entry. */
  lemma LookUpIff(s: State, zone: ZoneId, account: AccountId, revision: nat, updatedAt: nat)
    ensures var s' := Apply(s, LookUp(zone, account, revision, updatedAt));
            if zone in s.cache && s.cache[zone].entry.Some?
               && s.cache[zone].entry.value.account == account && s.cache[zone].entry.value.revision == revision
               && s.cache[zone].entry.value.updatedAt == updatedAt
            then s'.hits == s.hits + [Hit(zone, account, revision, updatedAt, s.clock, s.cache[zone].entry.value.begun)]
            else s'.hits == s.hits
  {
  }

  // ---------------------------------------------------------------- account invalidation

  /** Every fetch of a zone is made for the account that owns it. */
  ghost predicate Owned(states: seq<State>, owner: ZoneId -> AccountId) {
    forall i :: 0 <= i < |states| ==> OwnFetches(states[i], owner)
  }

  ghost predicate OwnFetches(s: State, owner: ZoneId -> AccountId) {
    forall o :: o in s.operations && s.operations[o].Fetching? ==>
      s.operations[o].account == owner(s.operations[o].zone)
  }

  /** A zone in the cache is tagged with its owner, or nothing was ever fetched for it. */
  ghost predicate Tagged(s: State, owner: ZoneId -> AccountId) {
    forall zone :: zone in s.cache ==>
      || s.cache[zone].account == owner(zone)
      || (s.cache[zone].entry.None?
          && forall o :: o in s.operations && s.operations[o].Fetching? ==> s.operations[o].zone != zone)
  }

  lemma TaggedStep(s: State, step: Step, owner: ZoneId -> AccountId)
    requires Inv(s) && Tagged(s, owner) && Enabled(s, step) && OwnFetches(Apply(s, step), owner)
    ensures Tagged(Apply(s, step), owner)
  {
    var s' := Apply(s, step);
    if step.BeginFetch? {
      assert s'.operations[step.o].Fetching?;
    } else if step.StoreFetch? {
      assert OperationOk(s, s.operations[step.o]);
    }
  }

  lemma {:induction false} RunIsTagged(states: seq<State>, owner: ZoneId -> AccountId, i: nat)
    requires Run(states) && Owned(states, owner) && i < |states|
    ensures Tagged(states[i], owner)
  {
    if i > 0 {
      RunIsTagged(states, owner, i - 1);
      RunKeepsInv(states, i - 1);
      assert Next(states[i - 1], states[i]) && OwnFetches(states[i], owner);
      var step :| Enabled(states[i - 1], step) && states[i] == Apply(states[i - 1], step);
      TaggedStep(states[i - 1], step, owner);
    }
  }

  /** What the zone has, can still keep, and has shown since `instant` was fetched after `instant`. */
  ghost predicate OnlyNewer(s: State, zone: ZoneId, instant: nat) {
    && instant < s.clock
    && (zone in s.cache && s.cache[zone].entry.Some? ==> instant < s.cache[zone].entry.value.begun)
    && (forall o :: o in s.operations && s.operations[o].Fetching? && s.operations[o].zone == zone
                    && zone in s.cache && s.operations[o].generation == s.cache[zone].generation ==>
          instant < s.operations[o].begun)
    && (forall i :: 0 <= i < |s.hits| && s.hits[i].zone == zone && instant < s.hits[i].at ==> instant < s.hits[i].begun)
  }

  lemma OnlyNewerStep(s: State, step: Step, zone: ZoneId, instant: nat)
    requires Inv(s) && OnlyNewer(s, zone, instant) && Enabled(s, step)
    ensures OnlyNewer(Apply(s, step), zone, instant)
  {
    forall o | o in s.operations && s.operations[o].Fetching? ensures OperationOk(s, s.operations[o]) {
    }
  }

  lemma {:induction false} NewerFrom(states: seq<State>, i: nat, j: nat, zone: ZoneId, instant: nat)
    requires Run(states) && i <= j < |states| && OnlyNewer(states[i], zone, instant)
    ensures OnlyNewer(states[j], zone, instant)
    decreases j
  {
    if i < j {
      NewerFrom(states, i, j - 1, zone, instant);
      RunKeepsInv(states, j - 1);
      assert Next(states[j - 1], states[j]);
      var step :| Enabled(states[j - 1], step) && states[j] == Apply(states[j - 1], step);
      OnlyNewerStep(states[j - 1], step, zone, instant);
    }
  }

  /** The step invalidates the zone: a mutation that begins, is under way or returns, or an invalidation by itself. */
  predicate Invalidating(s: State, step: Step, zone: ZoneId)
    requires Enabled(s, step)
  {
    || (step.BeginMutation? && step.zone == zone)
    || ((step.InvalidateMidway? || step.ReturnMutation?) && s.operations[step.o].zone == zone)
    || (step.InvalidateOneZone? && step.zone == zone)
  }

  /** After any of them, from the beginning of a mutation on, every later hit on the zone is fetched after it. */
  lemma InvalidationIsSeen(states: seq<State>, i: nat, j: nat, step: Step, h: nat)
    requires Run(states) && i + 1 <= j < |states| && Enabled(states[i], step) && states[i + 1] == Apply(states[i], step)
    requires h < |states[j].hits| && Invalidating(states[i], step, states[j].hits[h].zone)
    requires states[i].clock < states[j].hits[h].at
    ensures states[i].clock < states[j].hits[h].begun
  {
    RunKeepsInv(states, i);
    var s, zone := states[i], states[j].hits[h].zone;
    forall o | o in s.operations && s.operations[o].Fetching? && s.operations[o].zone == zone
      ensures s.operations[o].generation < states[i + 1].cache[zone].generation
    {
      assert OperationOk(s, s.operations[o]);
    }
    assert OnlyNewer(states[i + 1], zone, s.clock);
    NewerFrom(states, i + 1, j, zone, s.clock);
  }

  /** After an account is invalidated, every later hit on a zone it owns is a listing fetched after that. */
  lemma AccountInvalidationIsSeen(states: seq<State>, owner: ZoneId -> AccountId, i: nat, j: nat, account: AccountId,
                                  h: nat)
    requires Run(states) && Owned(states, owner) && i + 1 <= j < |states|
    requires states[i + 1] == Apply(states[i], InvalidateOneAccount(account))
    requires h < |states[j].hits| && owner(states[j].hits[h].zone) == account && states[i].clock < states[j].hits[h].at
    ensures states[i].clock < states[j].hits[h].begun
  {
    RunKeepsInv(states, i);
    RunIsTagged(states, owner, i);
    var s, zone := states[i], states[j].hits[h].zone;
    forall o | o in s.operations && s.operations[o].Fetching? && s.operations[o].zone == zone
      ensures zone in s.cache && s.cache[zone].account == account
      ensures s.operations[o].generation < states[i + 1].cache[zone].generation
    {
      assert OperationOk(s, s.operations[o]);
    }
    assert OnlyNewer(states[i + 1], zone, s.clock);
    NewerFrom(states, i + 1, j, zone, s.clock);
  }

  /** Invalidating an account leaves no entry of its zones, and no fetch already under way for them can be kept. */
  lemma AccountInvalidationIsFinal(states: seq<State>, i: nat, account: AccountId, o: OperationId)
    requires Run(states) && i < |states|
    ensures var after := Apply(states[i], InvalidateOneAccount(account));
            && (forall zone :: zone in after.cache && after.cache[zone].account == account ==>
                  after.cache[zone].entry.None?)
            && (o in after.operations && after.operations[o].Fetching?
                && after.operations[o].zone in after.cache && after.cache[after.operations[o].zone].account == account
                ==> after.operations[o].generation < after.cache[after.operations[o].zone].generation)
  {
    RunKeepsInv(states, i);
    if o in states[i].operations {
      assert OperationOk(states[i], states[i].operations[o]);
    }
  }
}
