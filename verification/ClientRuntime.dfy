/** The per-account runtime of the provider client manager: one cached client, a generation, an expiry timer. */
module ClientRuntime {
  import opened Wrappers

  /** The columns of an account that decide which client may serve it. `updatedAt` is the row's stamp. */
  datatype AccountRow = AccountRow(enabled: bool, revision: nat, options: string, updatedAt: nat)

  /** A provider client, known by what the factory was given. */
  datatype Client = Client(revision: nat, options: string)

  function ClientOf(row: AccountRow): Client {
    Client(row.revision, row.options)
  }

  /** A cached client, the row it was stored with, and the sequence number its timer captured. */
  datatype Cached = Cached(client: Client, account: AccountRow, timer: nat)

  datatype Runtime = Runtime(generation: nat, cached: Option<Cached>, cacheSequence: nat)

  const FRESH_RUNTIME := Runtime(1, None, 0)

  predicate SameVersion(a: AccountRow, b: AccountRow) {
    a.revision == b.revision && a.updatedAt == b.updatedAt && a.options == b.options
  }

  /** A lookup clears an entry of the current generation that is expired, disabled or of another row version. */
  function AfterLookup(rt: Runtime, generation: nat, account: AccountRow, expired: bool): Runtime {
    if rt.generation == generation && rt.cached.Some?
       && (expired || !rt.cached.value.account.enabled || !SameVersion(rt.cached.value.account, account))
    then rt.(cached := None) else rt
  }

  function Found(rt: Runtime, generation: nat, account: AccountRow, expired: bool): Option<Client> {
    if rt.generation == generation && rt.cached.Some? && !expired
       && rt.cached.value.account.enabled && SameVersion(rt.cached.value.account, account)
    then Some(rt.cached.value.client) else None
  }

  function AfterStore(rt: Runtime, generation: nat, account: AccountRow, client: Client): Runtime {
    if rt.generation != generation then rt
    else Runtime(generation, Some(Cached(client, account, rt.cacheSequence + 1)), rt.cacheSequence + 1)
  }

  function AfterInvalidate(rt: Runtime): Runtime {
    Runtime(rt.generation + 1, None, rt.cacheSequence)
  }

  function AfterTimer(rt: Runtime, sequence: nat): Runtime {
    if rt.cacheSequence == sequence then rt.(cached := None) else rt
  }

  /** The entry in the cache is the one the latest timer belongs to. */
  predicate TimerAgrees(rt: Runtime) {
    rt.cached.Some? ==> rt.cached.value.timer == rt.cacheSequence
  }

  class ProviderAccountRuntime {
    var generation: nat
    var client: Option<Client>
    var account: Option<AccountRow>
    var cacheExpiryTimer: Option<nat>
    var cacheSequence: nat

    ghost predicate Valid()
      reads this
    {
      && client.Some? == account.Some? == cacheExpiryTimer.Some?
      && TimerAgrees(State())
    }

    ghost function State(): Runtime
      reads this
    {
      Runtime(generation,
              if client.Some? && account.Some? && cacheExpiryTimer.Some?
              then Some(Cached(client.value, account.value, cacheExpiryTimer.value)) else None,
              cacheSequence)
    }

    constructor ()
      ensures Valid() && State() == FRESH_RUNTIME
    {
      generation, cacheSequence := 1, 0;
      client, account, cacheExpiryTimer := None, None, None;
    }

    method Snapshot() returns (current: nat)
      ensures current == State().generation
    {
      current := generation;
    }

    method ClearCachedLocked()
      modifies this`client, this`account, this`cacheExpiryTimer
      ensures client == None && account == None && cacheExpiryTimer == None
    {
      cacheExpiryTimer := None;
      client := None;
      account := None;
    }

    method Lookup(expected: nat, row: AccountRow, expired: bool) returns (found: Option<Client>)
      requires Valid()
      modifies this
      ensures Valid()
      ensures State() == AfterLookup(old(State()), expected, row, expired)
      ensures found == Found(old(State()), expected, row, expired)
      ensures found.Some? <==>
              && !expired && old(generation) == expected && old(client).Some? && old(account).value.enabled
              && old(account).value.revision == row.revision && old(account).value.updatedAt == row.updatedAt
              && old(account).value.options == row.options
      ensures found.Some? || old(generation) != expected ==> unchanged(this)
      ensures found.Some? ==> found == old(client)
      ensures found.None? && old(generation) == expected ==> client == None && account == None
      ensures generation == old(generation) && cacheSequence == old(cacheSequence)
    {
      if generation != expected || client.None? {
        return None;
      }
      if expired || !account.value.enabled || account.value.revision != row.revision
         || account.value.updatedAt != row.updatedAt || account.value.options != row.options {
        ClearCachedLocked();
        return None;
      }
      return client;
    }

    method Store(expected: nat, row: AccountRow, built: Client) returns (stored: bool)
      requires Valid()
      modifies this
      ensures Valid()
      ensures State() == AfterStore(old(State()), expected, row, built)
      ensures stored <==> old(generation) == expected
      ensures stored ==> client == Some(built) && account == Some(row) && cacheSequence == old(cacheSequence) + 1
                         && cacheExpiryTimer == Some(cacheSequence) && generation == expected
      ensures !stored ==> unchanged(this)
    {
      if generation != expected {
        return false;
      }
      ClearCachedLocked();
      client := Some(built);
      account := Some(row);
      cacheSequence := cacheSequence + 1;
      cacheExpiryTimer := Some(cacheSequence);
      return true;
    }

    method Invalidate()
      requires Valid()
      modifies this
      ensures Valid()
      ensures State() == AfterInvalidate(old(State()))
      ensures client == None && generation == old(generation) + 1 && cacheSequence == old(cacheSequence)
    {
      ClearCachedLocked();
      generation := generation + 1;
    }

    /** The body of the timer armed by the store that took `sequence`; it can run late, even after `Stop`. */
    method TimerFires(sequence: nat)
      requires Valid()
      modifies this
      ensures Valid()
      ensures State() == AfterTimer(old(State()), sequence)
      ensures old(State()).cached.Some? && old(State()).cached.value.timer != sequence ==> State() == old(State())
    {
      if cacheSequence == sequence {
        ClearCachedLocked();
      }
    }
  }

  /**
    A stored client is handed out again exactly to an unexpired lookup of its generation that read
    the same version of an enabled row.
   */
  lemma StoreThenLookup(rt: Runtime, generation: nat, row: AccountRow, client: Client, later: nat, read: AccountRow,
                        expired: bool)
    requires rt.generation == generation
    ensures var stored := AfterStore(rt, generation, row, client);
            && (Found(stored, later, read, expired) == Some(client)
                <==> !expired && later == generation && row.enabled && read.revision == row.revision
                     && read.updatedAt == row.updatedAt && read.options == row.options)
            && (Found(stored, later, read, expired).None? && later == generation ==>
                  AfterLookup(stored, later, read, expired).cached.None?)
            && Found(AfterInvalidate(stored), later, read, expired).None?
  {
  }

  /** What a lookup does to the cache it finds, hit or miss. */
  lemma LookupIff(rt: Runtime, generation: nat, read: AccountRow, expired: bool)
    ensures var found, after := Found(rt, generation, read, expired), AfterLookup(rt, generation, read, expired);
            && (found.Some? ==> rt.cached.Some? && found.value == rt.cached.value.client && after == rt)
            && (found.Some? <==>
                  && !expired && rt.generation == generation && rt.cached.Some? && rt.cached.value.account.enabled
                  && rt.cached.value.account.(enabled := read.enabled) == read)
            && (found.None? && rt.generation == generation ==> after == rt.(cached := None))
            && (rt.generation != generation ==> after == rt)
  {
  }

  /** A timer clears the client that armed it and no other. */
  lemma TimerClearsOnlyItsOwn(rt: Runtime, sequence: nat)
    requires TimerAgrees(rt)
    ensures AfterTimer(rt, sequence).cached
            == if rt.cached.Some? && rt.cached.value.timer == sequence then None else rt.cached
  {
  }
}
