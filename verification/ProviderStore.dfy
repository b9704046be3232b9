/** The account and zone tables behind the provider store, and the statements that change them. */
module ProviderStore {
  import opened Wrappers
  import opened ClientRuntime

  type AccountId = nat
  type ProviderZoneId = string

  datatype ZoneKey = ZoneKey(account: AccountId, zone: ProviderZoneId)

  /** A zone as a provider listing reported it; `listedBy` is the client that made the listing. */
  datatype ZoneEntry = ZoneEntry(id: nat, zone: ProviderZoneId, name: string, listedBy: Client)

  /** A row of the zone table. `listedBy` records where the row's data came from; it is not a column. */
  datatype ZoneRow = ZoneRow(id: nat, name: string, fetchedAt: nat, deletedAt: Option<nat>, listedBy: Client)

  datatype Database = Database(accounts: map<AccountId, AccountRow>, zones: map<ZoneKey, ZoneRow>)

  predicate Live(row: ZoneRow) {
    row.deletedAt.None?
  }

  /** The primary key: no two zone rows share an identifier. */
  ghost predicate DistinctZoneIds(zones: map<ZoneKey, ZoneRow>) {
    forall k, k' :: k in zones && k' in zones && zones[k].id == zones[k'].id ==> k == k'
  }

  predicate GuardHolds(db: Database, a: AccountId, revision: nat, updatedAt: nat) {
    a in db.accounts && db.accounts[a].revision == revision && db.accounts[a].updatedAt == updatedAt
  }

  /** An insert whose identifier another row already has. */
  predicate IdTaken(zones: map<ZoneKey, ZoneRow>, key: ZoneKey, id: nat) {
    key !in zones && exists k :: k in zones && zones[k].id == id
  }

  /** Insert, or update in place keeping the row's identifier. */
  function Upserted(zones: map<ZoneKey, ZoneRow>, a: AccountId, entry: ZoneEntry,
                    fetchedAt: nat): map<ZoneKey, ZoneRow> {
    var key := ZoneKey(a, entry.zone);
    zones[key := ZoneRow(if key in zones then zones[key].id else entry.id, entry.name, fetchedAt, None, entry.listedBy)]
  }

  /** The zone table after upserting `entries` in order, or nothing when one insert hits a taken identifier. */
  function UpsertedAll(zones: map<ZoneKey, ZoneRow>, a: AccountId, entries: seq<ZoneEntry>,
                       fetchedAt: nat): Option<map<ZoneKey, ZoneRow>>
    decreases |entries|
  {
    if entries == [] then Some(zones)
    else
      var last := entries[|entries| - 1];
      match UpsertedAll(zones, a, entries[..|entries| - 1], fetchedAt)
      case None => None
      case Some(before) =>
        if IdTaken(before, ZoneKey(a, last.zone), last.id) then None else Some(Upserted(before, a, last, fetchedAt))
  }

  function ListedZones(entries: seq<ZoneEntry>): set<ProviderZoneId> {
    set e | e in entries :: e.zone
  }

  /** Live rows of `a` outside `present` become deleted at `time`. */
  function MarkedMissing(zones: map<ZoneKey, ZoneRow>, a: AccountId, present: set<ProviderZoneId>,
                         time: nat): map<ZoneKey, ZoneRow> {
    map k | k in zones ::
      if k.account == a && k.zone !in present && Live(zones[k]) then zones[k].(deletedAt := Some(time)) else zones[k]
  }

  // ---------------------------------------------------------------- the statements, as transactions

  function Replaced(db: Database, a: AccountId, revision: nat, updatedAt: nat, entries: seq<ZoneEntry>, fetchedAt: nat,
                    stamp: nat): Option<Database> {
    var upserted := UpsertedAll(db.zones, a, entries, fetchedAt);
    if upserted.None? || !GuardHolds(db, a, revision, updatedAt) then None
    else Some(Database(db.accounts[a := db.accounts[a].(updatedAt := stamp)],
                       MarkedMissing(upserted.value, a, ListedZones(entries), fetchedAt)))
  }

  function Refreshed(db: Database, a: AccountId, revision: nat, updatedAt: nat, entry: ZoneEntry,
                     fetchedAt: nat): Option<Database> {
    if !GuardHolds(db, a, revision, updatedAt) || IdTaken(db.zones, ZoneKey(a, entry.zone), entry.id) then None
    else Some(db.(zones := Upserted(db.zones, a, entry, fetchedAt)))
  }

  predicate Deletes(key: ZoneKey, row: ZoneRow, zoneId: nat, a: AccountId) {
    row.id == zoneId && key.account == a && Live(row)
  }

  function ZoneMarked(db: Database, zoneId: nat, a: AccountId, revision: nat, updatedAt: nat,
                      time: nat): Option<Database> {
    if GuardHolds(db, a, revision, updatedAt) && exists k :: k in db.zones && Deletes(k, db.zones[k], zoneId, a) then
      Some(db.(zones := map k | k in db.zones ::
        if Deletes(k, db.zones[k], zoneId, a) then db.zones[k].(deletedAt := Some(time)) else db.zones[k]))
    else None
  }

  /** Options, when given, replace the old ones and take the whole zone index with them. */
  function AccountUpdated(db: Database, a: AccountId, expected: nat, enabled: Option<bool>, options: Option<string>,
                          time: nat, stamp: nat): Option<Database> {
    if a !in db.accounts || db.accounts[a].updatedAt != expected then None
    else
      var row := db.accounts[a];
      var changed := AccountRow(if enabled.Some? then enabled.value else row.enabled, row.revision,
                                if options.Some? then options.value else row.options, stamp);
      Some(Database(db.accounts[a := changed],
                    if options.Some? then MarkedMissing(db.zones, a, {}, time) else db.zones))
  }

  function CredentialReplaced(db: Database, a: AccountId, expectedRevision: nat, time: nat,
                              stamp: nat): Option<Database> {
    if a !in db.accounts || db.accounts[a].revision != expectedRevision then None
    else Some(Database(db.accounts[a := db.accounts[a].(revision := expectedRevision + 1, updatedAt := stamp)],
                       MarkedMissing(db.zones, a, {}, time)))
  }

  function ValidationSet(db: Database, a: AccountId, revision: nat, updatedAt: nat, stamp: nat): Option<Database> {
    if !GuardHolds(db, a, revision, updatedAt) then None
    else Some(db.(accounts := db.accounts[a := db.accounts[a].(updatedAt := stamp)]))
  }

  /** Deleting an account takes its zones with it (the foreign key cascades). */
  function AccountDeleted(db: Database, a: AccountId): Option<Database> {
    if a !in db.accounts then None
    else Some(Database(db.accounts - {a}, map k | k in db.zones && k.account != a :: db.zones[k]))
  }

  // ---------------------------------------------------------------- what the guarded writes leave behind

  ghost predicate OthersKept(before: map<AccountId, AccountRow>, after: map<AccountId, AccountRow>, a: AccountId) {
    forall x :: x != a ==> (x in after <==> x in before) && (x in before ==> after[x] == before[x])
  }

  /** Each column given has the given value, each other one its old value, and the row a new stamp. */
  ghost predicate RowChanged(before: map<AccountId, AccountRow>, after: map<AccountId, AccountRow>, a: AccountId,
                             enabled: Option<bool>, options: Option<string>, stamp: nat) {
    && a in before && a in after && OthersKept(before, after, a)
    && (enabled.Some? ==> after[a].enabled == enabled.value)
    && (enabled.None? ==> after[a].enabled == before[a].enabled)
    && (options.Some? ==> after[a].options == options.value)
    && (options.None? ==> after[a].options == before[a].options)
    && after[a].revision == before[a].revision && after[a].updatedAt == stamp
  }

  /** The credential's revision goes up by one, the row has a new stamp, and nothing else changes. */
  ghost predicate RevisionRaised(before: map<AccountId, AccountRow>, after: map<AccountId, AccountRow>, a: AccountId,
                                 stamp: nat) {
    && a in before && a in after && OthersKept(before, after, a)
    && after[a].revision == before[a].revision + 1 && after[a].updatedAt == stamp
    && after[a].enabled == before[a].enabled && after[a].options == before[a].options
  }

  /** No zone of the account is live; those that were are deleted now, and no other row changes. */
  ghost predicate IndexDropped(before: map<ZoneKey, ZoneRow>, after: map<ZoneKey, ZoneRow>, a: AccountId, time: nat) {
    && (forall k :: k in after <==> k in before)
    && (forall k :: k in before && k.account == a && before[k].deletedAt.None? ==>
          after[k] == before[k].(deletedAt := Some(time)))
    && (forall k :: k in before && !(k.account == a && before[k].deletedAt.None?) ==> after[k] == before[k])
  }

  lemma UpdateContents(db: Database, a: AccountId, expected: nat, enabled: Option<bool>, options: Option<string>,
                       time: nat, stamp: nat)
    ensures var after := AccountUpdated(db, a, expected, enabled, options, time, stamp);
            && (after.Some? <==> a in db.accounts && db.accounts[a].updatedAt == expected)
            && (after.Some? ==>
                  && RowChanged(db.accounts, after.value.accounts, a, enabled, options, stamp)
                  && (options.Some? ==> IndexDropped(db.zones, after.value.zones, a, time))
                  && (options.None? ==> after.value.zones == db.zones))
  {
  }

  lemma CredentialContents(db: Database, a: AccountId, expectedRevision: nat, time: nat, stamp: nat)
    ensures var after := CredentialReplaced(db, a, expectedRevision, time, stamp);
            && (after.Some? <==> a in db.accounts && db.accounts[a].revision == expectedRevision)
            && (after.Some? ==>
                  && RevisionRaised(db.accounts, after.value.accounts, a, stamp)
                  && IndexDropped(db.zones, after.value.zones, a, time))
  {
  }

  /** A validation result is a guarded restamping and changes no other column and no zone. */
  lemma ValidationContents(db: Database, a: AccountId, revision: nat, updatedAt: nat, stamp: nat)
    ensures var after := ValidationSet(db, a, revision, updatedAt, stamp);
            && (after.Some? <==>
                  a in db.accounts && db.accounts[a].revision == revision && db.accounts[a].updatedAt == updatedAt)
            && (after.Some? ==>
                  RowChanged(db.accounts, after.value.accounts, a, None, None, stamp)
                  && after.value.zones == db.zones)
  {
  }

  /** Deleting an account deletes its row and all its zone rows and nothing else. */
  lemma DeletionContents(db: Database, a: AccountId)
    ensures var after := AccountDeleted(db, a);
            && (after.Some? <==> a in db.accounts)
            && (after.Some? ==>
                  && a !in after.value.accounts && OthersKept(db.accounts, after.value.accounts, a)
                  && (forall k :: k in after.value.zones <==> k in db.zones && k.account != a)
                  && (forall k :: k in after.value.zones ==> after.value.zones[k] == db.zones[k]))
  {
  }

  /** A refresh leaves one live row with the listed data, under its old identifier if it had one. */
  lemma RefreshContents(db: Database, a: AccountId, revision: nat, updatedAt: nat, entry: ZoneEntry, fetchedAt: nat)
    ensures var after, key := Refreshed(db, a, revision, updatedAt, entry, fetchedAt), ZoneKey(a, entry.zone);
            && (after.Some? <==>
                  && a in db.accounts && db.accounts[a].revision == revision && db.accounts[a].updatedAt == updatedAt
                  && (key in db.zones || forall k :: k in db.zones ==> db.zones[k].id != entry.id))
            && (after.Some? ==>
                  && after.value.accounts == db.accounts
                  && (forall k :: k in after.value.zones <==> k in db.zones || k == key)
                  && (forall k :: k in db.zones && k != key ==> after.value.zones[k] == db.zones[k])
                  && var row := after.value.zones[key];
                     && row.name == entry.name && row.listedBy == entry.listedBy && row.fetchedAt == fetchedAt
                     && row.deletedAt.None? && row.id == if key in db.zones then db.zones[key].id else entry.id)
  {
  }

  /** A missing zone's live row is deleted; identifiers being distinct, it is the one row that changes. */
  lemma MarkContents(db: Database, zoneId: nat, a: AccountId, revision: nat, updatedAt: nat, time: nat, key: ZoneKey)
    requires DistinctZoneIds(db.zones) && key in db.zones && db.zones[key].id == zoneId
    ensures var after := ZoneMarked(db, zoneId, a, revision, updatedAt, time);
            && (after.Some? <==>
                  && a in db.accounts && db.accounts[a].revision == revision && db.accounts[a].updatedAt == updatedAt
                  && key.account == a && db.zones[key].deletedAt.None?)
            && (after.Some? ==>
                  after.value
                  == Database(db.accounts, db.zones[key := db.zones[key].(deletedAt := Some(time))]))
  {
    if GuardHolds(db, a, revision, updatedAt) && key.account == a && db.zones[key].deletedAt.None? {
      assert Deletes(key, db.zones[key], zoneId, a);
      var after := ZoneMarked(db, zoneId, a, revision, updatedAt, time);
      assert after.value.zones == db.zones[key := db.zones[key].(deletedAt := Some(time))];
    }
  }

  // ---------------------------------------------------------------- the store

  class Store {
    var accounts: map<AccountId, AccountRow>
    var zones: map<ZoneKey, ZoneRow>

    ghost function Db(): Database
      reads this
    {
      Database(accounts, zones)
    }

    constructor ()
      ensures Db() == Database(map[], map[])
    {
      accounts, zones := map[], map[];
    }

    /** The upserts, the sweep of missing rows and the guarded account write; a failure leaves its partial work. */
    method ReplaceZoneIndex(a: AccountId, revision: nat, updatedAt: nat, entries: seq<ZoneEntry>, fetchedAt: nat,
                            stamp: nat)
      returns (ok: bool)
      modifies this
      ensures ok <==> Replaced(old(Db()), a, revision, updatedAt, entries, fetchedAt, stamp).Some?
      ensures ok ==> Some(Db()) == Replaced(old(Db()), a, revision, updatedAt, entries, fetchedAt, stamp)
    {
      var providerZoneIds: set<ProviderZoneId> := {};
      var index := 0;
      while index < |entries|
        invariant index <= |entries|
        invariant accounts == old(accounts)
        invariant Some(zones) == UpsertedAll(old(zones), a, entries[..index], fetchedAt)
        invariant providerZoneIds == ListedZones(entries[..index])
      {
        var entry := entries[index];
        assert entries[..index + 1][..index] == entries[..index];
        var key := ZoneKey(a, entry.zone);
        if key !in zones && exists k :: k in zones && zones[k].id == entry.id {
          UpsertFails(old(zones), a, entries, fetchedAt, index);
          return false;
        }
        zones := zones[key := ZoneRow(if key in zones then zones[key].id else entry.id, entry.name, fetchedAt, None,
                                      entry.listedBy)];
        providerZoneIds := providerZoneIds + {entry.zone};
        index := index + 1;
      }
      assert entries[..index] == entries;
      ghost var upserted := zones;
      zones := map k | k in zones ::
        if k.account == a && k.zone !in providerZoneIds && zones[k].deletedAt.None? then
          zones[k].(deletedAt := Some(fetchedAt))
        else zones[k];
      assert zones == MarkedMissing(upserted, a, ListedZones(entries), fetchedAt);
      if a !in accounts || accounts[a].revision != revision || accounts[a].updatedAt != updatedAt {
        return false;
      }
      accounts := accounts[a := accounts[a].(updatedAt := stamp)];
      return true;
    }

    /** The same statement inside its transaction: it takes effect whole or not at all. */
    method ReplaceZoneIndexWithinTx(a: AccountId, revision: nat, updatedAt: nat, entries: seq<ZoneEntry>,
                                    fetchedAt: nat, stamp: nat)
      returns (ok: bool)
      modifies this
      ensures ok <==> Replaced(old(Db()), a, revision, updatedAt, entries, fetchedAt, stamp).Some?
      ensures Db() == if ok then Replaced(old(Db()), a, revision, updatedAt, entries, fetchedAt, stamp).value
              else old(Db())
    {
      var accountsBefore, zonesBefore := accounts, zones;
      ok := ReplaceZoneIndex(a, revision, updatedAt, entries, fetchedAt, stamp);
      if !ok {
        accounts, zones := accountsBefore, zonesBefore;
      }
    }

    method UpsertZoneIndex(a: AccountId, revision: nat, updatedAt: nat, entry: ZoneEntry, fetchedAt: nat)
      returns (ok: bool)
      modifies this
      ensures ok <==> Refreshed(old(Db()), a, revision, updatedAt, entry, fetchedAt).Some?
      ensures Db() == if ok then Refreshed(old(Db()), a, revision, updatedAt, entry, fetchedAt).value else old(Db())
    {
      var key := ZoneKey(a, entry.zone);
      if a !in accounts || accounts[a].revision != revision || accounts[a].updatedAt != updatedAt {
        return false;
      }
      if key !in zones && exists k :: k in zones && zones[k].id == entry.id {
        return false;
      }
      zones := zones[key := ZoneRow(if key in zones then zones[key].id else entry.id, entry.name, fetchedAt, None,
                                    entry.listedBy)];
      return true;
    }

    method MarkZoneDeleted(zoneId: nat, a: AccountId, revision: nat, updatedAt: nat, deletedAt: nat) returns (ok: bool)
      modifies this
      ensures ok <==> ZoneMarked(old(Db()), zoneId, a, revision, updatedAt, deletedAt).Some?
      ensures Db() == if ok then ZoneMarked(old(Db()), zoneId, a, revision, updatedAt, deletedAt).value else old(Db())
    {
      if a !in accounts || accounts[a].revision != revision || accounts[a].updatedAt != updatedAt {
        return false;
      }
      ok := exists k :: k in zones && k.account == a && zones[k].id == zoneId && zones[k].deletedAt.None?;
      assert ok ==> exists k :: k in zones && Deletes(k, zones[k], zoneId, a) by {
        if ok {
          var k :| k in zones && k.account == a && zones[k].id == zoneId && zones[k].deletedAt.None?;
          assert Deletes(k, zones[k], zoneId, a);
        }
      }
      if ok {
        zones := map k | k in zones ::
          if k.account == a && zones[k].id == zoneId && zones[k].deletedAt.None? then
            zones[k].(deletedAt := Some(deletedAt))
          else zones[k];
      }
    }

    method InvalidateZoneIndex(a: AccountId, invalidatedAt: nat) returns (ok: bool)
      modifies this`zones
      ensures zones == MarkedMissing(old(zones), a, {}, invalidatedAt)
      ensures ok <==> a in accounts
    {
      zones := map k | k in zones ::
        if k.account == a && zones[k].deletedAt.None? then zones[k].(deletedAt := Some(invalidatedAt)) else zones[k];
      return a in accounts;
    }

    /** The transaction of an account update: the guarded row write, then the zone index when options changed. */
    method UpdateAccountWithinTx(a: AccountId, expected: nat, enabled: Option<bool>, options: Option<string>, now: nat,
                                 stamp: nat)
      returns (ok: bool)
      modifies this
      ensures ok <==> AccountUpdated(old(Db()), a, expected, enabled, options, now, stamp).Some?
      ensures Db() == if ok then AccountUpdated(old(Db()), a, expected, enabled, options, now, stamp).value
              else old(Db())
      ensures ok <==> a in old(accounts) && old(accounts)[a].updatedAt == expected
      ensures ok ==> RowChanged(old(accounts), accounts, a, enabled, options, stamp)
      ensures ok ==> if options.Some? then IndexDropped(old(zones), zones, a, now) else zones == old(zones)
    {
      if a !in accounts || accounts[a].updatedAt != expected {
        return false;
      }
      var row := accounts[a];
      if enabled.Some? {
        row := row.(enabled := enabled.value);
      }
      if options.Some? {
        row := row.(options := options.value);
      }
      accounts := accounts[a := row.(updatedAt := stamp)];
      ok := true;
      if options.Some? {
        ok := InvalidateZoneIndex(a, now);
      }
    }

    /** The transaction of a credential replacement. */
    method ReplaceCredentialWithinTx(a: AccountId, expectedRevision: nat, now: nat, stamp: nat) returns (ok: bool)
      modifies this
      ensures ok <==> CredentialReplaced(old(Db()), a, expectedRevision, now, stamp).Some?
      ensures Db() == if ok then CredentialReplaced(old(Db()), a, expectedRevision, now, stamp).value else old(Db())
      ensures ok <==> a in old(accounts) && old(accounts)[a].revision == expectedRevision
      ensures ok ==> RevisionRaised(old(accounts), accounts, a, stamp) && IndexDropped(old(zones), zones, a, now)
    {
      if a !in accounts || accounts[a].revision != expectedRevision {
        return false;
      }
      accounts := accounts[a := accounts[a].(revision := expectedRevision + 1, updatedAt := stamp)];
      ok := InvalidateZoneIndex(a, now);
    }
  }

  lemma {:induction false} UpsertFails(zones: map<ZoneKey, ZoneRow>, a: AccountId, entries: seq<ZoneEntry>,
                                       fetchedAt: nat, index: nat)
    requires index < |entries|
    requires UpsertedAll(zones, a, entries[..index + 1], fetchedAt).None?
    ensures UpsertedAll(zones, a, entries, fetchedAt).None?
    decreases |entries|
  {
    if index + 1 == |entries| {
      assert entries[..index + 1] == entries;
    } else {
      var front := entries[..|entries| - 1];
      assert front[..index + 1] == entries[..index + 1];
      UpsertFails(zones, a, front, fetchedAt, index);
    }
  }

  // ---------------------------------------------------------------- what a sync leaves behind

  ghost predicate DistinctZones(entries: seq<ZoneEntry>) {
    forall i, j :: 0 <= i < j < |entries| ==> entries[i].zone != entries[j].zone
  }

  /** The row an upsert of `entry` leaves, given the table before. */
  function RowFor(zones: map<ZoneKey, ZoneRow>, a: AccountId, entry: ZoneEntry, fetchedAt: nat): ZoneRow {
    var key := ZoneKey(a, entry.zone);
    ZoneRow(if key in zones then zones[key].id else entry.id, entry.name, fetchedAt, None, entry.listedBy)
  }

  /** What upserting a listing does, row by row. */
  ghost predicate UpsertedAs(zones: map<ZoneKey, ZoneRow>, a: AccountId, entries: seq<ZoneEntry>, fetchedAt: nat,
                             after: map<ZoneKey, ZoneRow>) {
    && (forall k :: k in after <==> k in zones || (k.account == a && k.zone in ListedZones(entries)))
    && (forall i :: 0 <= i < |entries| ==>
          after[ZoneKey(a, entries[i].zone)] == RowFor(zones, a, entries[i], fetchedAt))
    && (forall k :: k in zones && !(k.account == a && k.zone in ListedZones(entries)) ==> after[k] == zones[k])
  }

  lemma LastListed(entries: seq<ZoneEntry>)
    requires DistinctZones(entries) && entries != []
    ensures var front, last := entries[..|entries| - 1], entries[|entries| - 1];
            DistinctZones(front) && ListedZones(entries) == ListedZones(front) + {last.zone}
            && last.zone !in ListedZones(front)
  {
    assert entries == entries[..|entries| - 1] + [entries[|entries| - 1]];
  }

  lemma UpsertedOneMore(zones: map<ZoneKey, ZoneRow>, a: AccountId, front: seq<ZoneEntry>, last: ZoneEntry,
                        fetchedAt: nat, before: map<ZoneKey, ZoneRow>)
    requires UpsertedAs(zones, a, front, fetchedAt, before) && last.zone !in ListedZones(front)
    ensures UpsertedAs(zones, a, front + [last], fetchedAt, Upserted(before, a, last, fetchedAt))
  {
    var entries, after, key := front + [last], Upserted(before, a, last, fetchedAt), ZoneKey(a, last.zone);
    assert ListedZones(entries) == ListedZones(front) + {last.zone};
    assert key in before <==> key in zones;
    assert key in zones ==> before[key] == zones[key];
    forall i | 0 <= i < |entries|
      ensures after[ZoneKey(a, entries[i].zone)] == RowFor(zones, a, entries[i], fetchedAt)
    {
      if i < |front| {
        assert entries[i] == front[i] && front[i].zone in ListedZones(front);
      }
    }
  }

  lemma {:induction false} UpsertedAllContents(zones: map<ZoneKey, ZoneRow>, a: AccountId, entries: seq<ZoneEntry>,
                                               fetchedAt: nat)
    requires DistinctZones(entries) && UpsertedAll(zones, a, entries, fetchedAt).Some?
    ensures UpsertedAs(zones, a, entries, fetchedAt, UpsertedAll(zones, a, entries, fetchedAt).value)
    decreases |entries|
  {
    if entries != [] {
      var front, last := entries[..|entries| - 1], entries[|entries| - 1];
      LastListed(entries);
      UpsertedAllContents(zones, a, front, fetchedAt);
      assert entries == front + [last];
      UpsertedOneMore(zones, a, front, last, fetchedAt, UpsertedAll(zones, a, front, fetchedAt).value);
    }
  }

  lemma {:induction false} UpsertedAllKeepsIds(zones: map<ZoneKey, ZoneRow>, a: AccountId, entries: seq<ZoneEntry>,
                                               fetchedAt: nat)
    requires DistinctZones(entries) && UpsertedAll(zones, a, entries, fetchedAt).Some? && DistinctZoneIds(zones)
    ensures DistinctZoneIds(UpsertedAll(zones, a, entries, fetchedAt).value)
    decreases |entries|
  {
    if entries != [] {
      LastListed(entries);
      UpsertedAllKeepsIds(zones, a, entries[..|entries| - 1], fetchedAt);
    }
  }

  /**
    After a successful sync the live zones of the account are exactly the listed ones, each carrying
    the listing's data and keeping the identifier it had; rows of other accounts are as they were, a
    row gone from the listing is deleted once, and identifiers stay distinct.
   */
  lemma ReplaceZoneIndexContents(db: Database, a: AccountId, revision: nat, updatedAt: nat, entries: seq<ZoneEntry>,
                                 fetchedAt: nat, stamp: nat)
    requires DistinctZones(entries) && Replaced(db, a, revision, updatedAt, entries, fetchedAt, stamp).Some?
    ensures var after := Replaced(db, a, revision, updatedAt, entries, fetchedAt, stamp).value;
            && (forall zone :: ZoneKey(a, zone) in after.zones && Live(after.zones[ZoneKey(a, zone)])
                 <==> zone in ListedZones(entries))
            && (forall e :: e in entries ==> after.zones[ZoneKey(a, e.zone)] == RowFor(db.zones, a, e, fetchedAt))
            && (forall k :: k in db.zones && k.account != a ==> k in after.zones && after.zones[k] == db.zones[k])
            && (forall k :: k in after.zones && k.account != a ==> k in db.zones)
            && (forall k :: k in db.zones && k.account == a && k.zone !in ListedZones(entries) ==>
                  var was := db.zones[k];
                  k in after.zones
                  && after.zones[k] == was.(deletedAt := if Live(was) then Some(fetchedAt) else was.deletedAt))
            && (DistinctZoneIds(db.zones) ==> DistinctZoneIds(after.zones))
  {
    UpsertedAllContents(db.zones, a, entries, fetchedAt);
    if DistinctZoneIds(db.zones) {
      UpsertedAllKeepsIds(db.zones, a, entries, fetchedAt);
    }
    var upserted := UpsertedAll(db.zones, a, entries, fetchedAt).value;
    var after := Replaced(db, a, revision, updatedAt, entries, fetchedAt, stamp).value;
    assert forall k :: k in after.zones <==> k in upserted;
    forall e | e in entries ensures after.zones[ZoneKey(a, e.zone)] == RowFor(db.zones, a, e, fetchedAt) {
      var i :| 0 <= i < |entries| && entries[i] == e;
    }
  }

  /** Entry `i` updates a known zone, or its identifier is free. */
  predicate IdFree(zones: map<ZoneKey, ZoneRow>, a: AccountId, entries: seq<ZoneEntry>, i: nat)
    requires i < |entries|
  {
    || ZoneKey(a, entries[i].zone) in zones
    || (&& (forall k :: k in zones ==> zones[k].id != entries[i].id)
        && (forall j :: 0 <= j < i && ZoneKey(a, entries[j].zone) !in zones ==> entries[j].id != entries[i].id))
  }

  predicate IdsFree(zones: map<ZoneKey, ZoneRow>, a: AccountId, entries: seq<ZoneEntry>) {
    forall i :: 0 <= i < |entries| ==> IdFree(zones, a, entries, i)
  }

  /** The identifiers after upserting a listing: the old rows', and those of the new zones. */
  ghost predicate IdsAfter(zones: map<ZoneKey, ZoneRow>, a: AccountId, front: seq<ZoneEntry>,
                           after: map<ZoneKey, ZoneRow>) {
    && (forall k :: k in zones ==> k in after && after[k].id == zones[k].id)
    && (forall j :: 0 <= j < |front| ==>
          var key := ZoneKey(a, front[j].zone);
          key in after && (key !in zones ==> after[key].id == front[j].id))
    && (forall k :: k in after && k !in zones ==> exists j :: 0 <= j < |front| && k == ZoneKey(a, front[j].zone))
  }

  lemma UpsertedIds(zones: map<ZoneKey, ZoneRow>, a: AccountId, front: seq<ZoneEntry>, fetchedAt: nat)
    requires DistinctZones(front) && UpsertedAll(zones, a, front, fetchedAt).Some?
    ensures IdsAfter(zones, a, front, UpsertedAll(zones, a, front, fetchedAt).value)
  {
    var after := UpsertedAll(zones, a, front, fetchedAt).value;
    UpsertedAllContents(zones, a, front, fetchedAt);
    forall k | k in after && k.account == a && k.zone in ListedZones(front)
      ensures exists j :: 0 <= j < |front| && k == ZoneKey(a, front[j].zone)
    {
      var e :| e in front && e.zone == k.zone;
      var j :| 0 <= j < |front| && front[j] == e;
      assert k == ZoneKey(a, front[j].zone);
    }
    forall k | k in zones ensures k in after && after[k].id == zones[k].id {
      if k.account == a && k.zone in ListedZones(front) {
        var j :| 0 <= j < |front| && k == ZoneKey(a, front[j].zone);
      }
    }
  }

  lemma LastIdIsFree(zones: map<ZoneKey, ZoneRow>, a: AccountId, entries: seq<ZoneEntry>, fetchedAt: nat)
    requires DistinctZones(entries) && entries != []
    requires UpsertedAll(zones, a, entries[..|entries| - 1], fetchedAt).Some?
    ensures var last := entries[|entries| - 1];
            IdTaken(UpsertedAll(zones, a, entries[..|entries| - 1], fetchedAt).value, ZoneKey(a, last.zone), last.id)
            <==> !IdFree(zones, a, entries, |entries| - 1)
  {
    var front, last := entries[..|entries| - 1], entries[|entries| - 1];
    var before := UpsertedAll(zones, a, front, fetchedAt).value;
    LastListed(entries);
    UpsertedIds(zones, a, front, fetchedAt);
    forall j | 0 <= j < |front| ensures front[j] == entries[j] && front[j].zone != last.zone {
    }
  }

  /** A listing is taken exactly when each new zone's identifier is free. */
  lemma {:induction false} UpsertedAllIff(zones: map<ZoneKey, ZoneRow>, a: AccountId, entries: seq<ZoneEntry>,
                                          fetchedAt: nat)
    requires DistinctZones(entries)
    ensures UpsertedAll(zones, a, entries, fetchedAt).Some? <==> IdsFree(zones, a, entries)
    decreases |entries|
  {
    if entries != [] {
      var front := entries[..|entries| - 1];
      LastListed(entries);
      UpsertedAllIff(zones, a, front, fetchedAt);
      forall i | 0 <= i < |front| ensures IdFree(zones, a, front, i) <==> IdFree(zones, a, entries, i) {
        assert forall j :: 0 <= j <= i ==> front[j] == entries[j];
      }
      if UpsertedAll(zones, a, front, fetchedAt).Some? {
        LastIdIsFree(zones, a, entries, fetchedAt);
      }
    }
  }

  /** A sync commits exactly on the expected version and with free identifiers, and restamps the account alone. */
  lemma SyncContents(db: Database, a: AccountId, revision: nat, updatedAt: nat, entries: seq<ZoneEntry>,
                     fetchedAt: nat, stamp: nat)
    requires DistinctZones(entries)
    ensures var after := Replaced(db, a, revision, updatedAt, entries, fetchedAt, stamp);
            && (after.Some? <==>
                  && a in db.accounts && db.accounts[a].revision == revision && db.accounts[a].updatedAt == updatedAt
                  && IdsFree(db.zones, a, entries))
            && (after.Some? ==> RowChanged(db.accounts, after.value.accounts, a, None, None, stamp))
  {
    UpsertedAllIff(db.zones, a, entries, fetchedAt);
  }

  // ---------------------------------------------------------------- coherence of the zone index

  /** Every live zone was last written from a listing by a client of its account's current credential and options. */
  ghost predicate Coherent(db: Database) {
    forall k :: k in db.zones && Live(db.zones[k]) ==>
      k.account in db.accounts && db.zones[k].listedBy == ClientOf(db.accounts[k.account])
  }

  lemma ReplaceKeepsCoherence(db: Database, a: AccountId, revision: nat, updatedAt: nat, entries: seq<ZoneEntry>,
                              fetchedAt: nat, stamp: nat)
    requires Coherent(db) && DistinctZones(entries)
    requires Replaced(db, a, revision, updatedAt, entries, fetchedAt, stamp).Some?
    requires forall e :: e in entries ==> e.listedBy == ClientOf(db.accounts[a])
    ensures Coherent(Replaced(db, a, revision, updatedAt, entries, fetchedAt, stamp).value)
  {
    ReplaceZoneIndexContents(db, a, revision, updatedAt, entries, fetchedAt, stamp);
    var after := Replaced(db, a, revision, updatedAt, entries, fetchedAt, stamp).value;
    forall k | k in after.zones && Live(after.zones[k])
      ensures k.account in after.accounts && after.zones[k].listedBy == ClientOf(after.accounts[k.account])
    {
      if k.account == a {
        assert k == ZoneKey(a, k.zone);
        assert k.zone in ListedZones(entries);
        var e :| e in entries && e.zone == k.zone;
      } else {
        assert k in db.zones;
      }
    }
  }

  lemma RefreshKeepsCoherence(db: Database, a: AccountId, revision: nat, updatedAt: nat, entry: ZoneEntry,
                              fetchedAt: nat)
    requires Coherent(db) && Refreshed(db, a, revision, updatedAt, entry, fetchedAt).Some?
    requires entry.listedBy == ClientOf(db.accounts[a])
    ensures Coherent(Refreshed(db, a, revision, updatedAt, entry, fetchedAt).value)
  {
  }

  lemma MarkingKeepsCoherence(db: Database, zoneId: nat, a: AccountId, revision: nat, updatedAt: nat, time: nat)
    requires Coherent(db) && ZoneMarked(db, zoneId, a, revision, updatedAt, time).Some?
    ensures Coherent(ZoneMarked(db, zoneId, a, revision, updatedAt, time).value)
  {
  }

  lemma UpdateKeepsCoherence(db: Database, a: AccountId, expected: nat, enabled: Option<bool>, options: Option<string>,
                             time: nat, stamp: nat)
    requires Coherent(db) && AccountUpdated(db, a, expected, enabled, options, time, stamp).Some?
    ensures Coherent(AccountUpdated(db, a, expected, enabled, options, time, stamp).value)
  {
  }

  lemma CredentialKeepsCoherence(db: Database, a: AccountId, expectedRevision: nat, time: nat, stamp: nat)
    requires Coherent(db) && CredentialReplaced(db, a, expectedRevision, time, stamp).Some?
    ensures Coherent(CredentialReplaced(db, a, expectedRevision, time, stamp).value)
  {
  }

  lemma DeletionKeepsCoherence(db: Database, a: AccountId)
    requires Coherent(db) && AccountDeleted(db, a).Some?
    ensures Coherent(AccountDeleted(db, a).value)
  {
  }
}
