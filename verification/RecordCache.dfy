/** The per-zone record cache of the DNS service: generations, concurrent fetches and invalidations. */
module RecordCache {
  import opened Wrappers

  type ZoneId = nat
  type AccountId = nat
  type OperationId = nat

  const NO_ACCOUNT: AccountId := 0

  /** A stored listing. `begun` is the instant its fetch began; it is not a field of the program. */
  datatype Entry = Entry(account: AccountId, updatedAt: nat, revision: nat, fetchedAt: nat, begun: nat)

  datatype CacheState = CacheState(account: AccountId, entry: Option<Entry>, generation: nat)

  type Cache = map<ZoneId, CacheState>

  /** Reading a missing key of the program's map gives the zero value. */
  function At(cache: Cache, zone: ZoneId): CacheState {
    if zone in cache then cache[zone] else CacheState(NO_ACCOUNT, None, 0)
  }

  function Bumped(state: CacheState): CacheState {
    state.(entry := None, generation := state.generation + 1)
  }

  function ZoneInvalidated(cache: Cache, zone: ZoneId): Cache {
    cache[zone := Bumped(At(cache, zone))]
  }

  function AccountInvalidated(cache: Cache, account: AccountId): Cache {
    map zone | zone in cache :: if cache[zone].account == account then Bumped(cache[zone]) else cache[zone]
  }

  function FetchBegun(cache: Cache, zone: ZoneId, account: AccountId): Cache {
    cache[zone := At(cache, zone).(account := account, generation := At(cache, zone).generation + 1)]
  }

  function FetchStored(cache: Cache, zone: ZoneId, generation: nat, entry: Entry): Cache {
    if At(cache, zone).generation == generation then cache[zone := At(cache, zone).(entry := Some(entry))] else cache
  }

  /** The entry a lookup accepts: same account, credential revision and row stamp. */
  function Lookup(cache: Cache, zone: ZoneId, account: AccountId, revision: nat, updatedAt: nat): Option<Entry> {
    var entry := At(cache, zone).entry;
    if entry.Some? && entry.value.account == account && entry.value.revision == revision
       && entry.value.updatedAt == updatedAt
    then entry else None
  }

  class DNSRecordCache {
    var recordCache: Cache

    constructor ()
      ensures recordCache == map[]
    {
      recordCache := map[];
    }

    method InvalidateZone(zone: ZoneId)
      modifies this
      ensures recordCache == ZoneInvalidated(old(recordCache), zone)
      ensures zone in recordCache && recordCache[zone].entry == None
      ensures recordCache[zone].generation
              == (if zone in old(recordCache) then old(recordCache)[zone].generation else 0) + 1
      ensures zone in old(recordCache) ==> recordCache[zone].account == old(recordCache)[zone].account
      ensures recordCache - {zone} == old(recordCache) - {zone}
    {
      var state := At(recordCache, zone);
      state := state.(entry := None);
      state := state.(generation := state.generation + 1);
      recordCache := recordCache[zone := state];
    }

    method InvalidateAccount(account: AccountId)
      modifies this
      ensures recordCache == AccountInvalidated(old(recordCache), account)
      ensures recordCache.Keys == old(recordCache).Keys
      ensures forall zone :: zone in recordCache && old(recordCache)[zone].account == account ==>
                recordCache[zone] == CacheState(account, None, old(recordCache)[zone].generation + 1)
      ensures forall zone :: zone in recordCache && old(recordCache)[zone].account != account ==>
                recordCache[zone] == old(recordCache)[zone]
    {
      var left := recordCache.Keys;
      while left != {}
        invariant left <= old(recordCache).Keys == recordCache.Keys
        invariant forall zone :: zone in recordCache ==>
          recordCache[zone] == if zone in left then old(recordCache)[zone]
            else AccountInvalidated(old(recordCache), account)[zone]
        decreases left
      {
        var zone :| zone in left;
        left := left - {zone};
        var state := recordCache[zone];
        if state.account != account {
          continue;
        }
        state := state.(entry := None);
        state := state.(generation := state.generation + 1);
        recordCache := recordCache[zone := state];
      }
    }

    method CachedRecordSets(zone: ZoneId, account: AccountId, revision: nat, updatedAt: nat)
      returns (found: Option<Entry>)
      ensures found == Lookup(recordCache, zone, account, revision, updatedAt)
      ensures found.Some? ==> zone in recordCache && found == recordCache[zone].entry
      ensures found.Some? <==>
              && zone in recordCache && recordCache[zone].entry.Some?
              && recordCache[zone].entry.value.account == account
              && recordCache[zone].entry.value.revision == revision
              && recordCache[zone].entry.value.updatedAt == updatedAt
    {
      var state := At(recordCache, zone);
      if state.entry.Some? && state.entry.value.account == account
         && state.entry.value.revision == revision && state.entry.value.updatedAt == updatedAt {
        return state.entry;
      }
      return None;
    }

    method BeginRecordFetch(zone: ZoneId, account: AccountId) returns (generation: nat)
      modifies this
      ensures recordCache == FetchBegun(old(recordCache), zone, account)
      ensures zone in recordCache && generation == recordCache[zone].generation
      ensures generation == (if zone in old(recordCache) then old(recordCache)[zone].generation else 0) + 1
      ensures recordCache[zone].account == account
      ensures recordCache[zone].entry == if zone in old(recordCache) then old(recordCache)[zone].entry else None
      ensures recordCache - {zone} == old(recordCache) - {zone}
    {
      var state := At(recordCache, zone);
      state := state.(account := account);
      state := state.(generation := state.generation + 1);
      recordCache := recordCache[zone := state];
      return state.generation;
    }

    method StoreRecordFetch(zone: ZoneId, generation: nat, entry: Entry)
      modifies this
      ensures recordCache == FetchStored(old(recordCache), zone, generation, entry)
      ensures recordCache - {zone} == old(recordCache) - {zone}
      ensures zone in old(recordCache) ==>
              && zone in recordCache
              && recordCache[zone] == if old(recordCache)[zone].generation == generation
                                      then old(recordCache)[zone].(entry := Some(entry)) else old(recordCache)[zone]
    {
      var state := At(recordCache, zone);
      if state.generation == generation {
        state := state.(entry := Some(entry));
        recordCache := recordCache[zone := state];
      }
    }
  }
}
