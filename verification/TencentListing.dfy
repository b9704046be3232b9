/**
  The sorted list of logical record sets made of a Tencent Cloud domain's records, and the key each
  set is found by.
 */
module TencentListing {
  import opened Wrappers
  import opened Utf8
  import opened RecordEntries
  import opened Sorting
  import opened Listings
  import opened Names
  import W = TencentWrites

  const MAXIMUM_TTL: nat := 0xFFFF_FFFF
  const MAXIMUM_WEIGHT: nat := 100

  /** A record as the provider stores it; absent fields are empty. */
  datatype Native = Native(name: Bytes, rtype: RecordType, ttl: nat, line: Bytes, lineId: Bytes, weight: Option<nat>,
                           status: Bytes, value: Bytes, mx: nat, remark: Bytes)

  type Zone = map<Id, Native>

  datatype Key = Key(name: Bytes, rtype: RecordType, ttl: nat, line: Bytes, lineId: Bytes)

  datatype Decoded = Skipped | Invalid | Mapped(key: Key, entry: W.TencentEntry)

  datatype Error = Provider

  /** The library functions and the name of the zone. */
  datatype Setting = Setting(lib: Library, printer: W.Printer, idna: Idna, zoneName: Bytes)

  /** The zone's own name has no empty label, as `Names.CanonicalZonesAreWhole` says of every listed zone. */
  ghost predicate LawfulSetting(setting: Setting) {
    LawfulIdna(setting.idna) && WholeZone(setting.idna, setting.zoneName)
  }

  // ---------------------------------------------------------------- one record

  /** `parseRecordValue`. */
  function ParseValue(lib: Library, rtype: RecordType, value: Bytes, mx: nat): Option<EntryData> {
    match rtype
    case TXT => Some(NO_DATA.(value := value))
    case A | AAAA => Some(NO_DATA.(value := TrimSpace(value)))
    case CNAME | NS => Some(NO_DATA.(target := Some(TrimSpace(value))))
    case MX => if mx > 0xFFFF then None else Some(NO_DATA.(priority := Some(mx), target := Some(TrimSpace(value))))
    case SRV | CAA => lib.textual(rtype, TrimSpace(value))
    case SOA | Unknown(_) => None
  }

  /** The entry in the form its set will show. */
  function ReadEntry(setting: Setting, native: Native): Option<EntryData> {
    match ParseValue(setting.lib, native.rtype, native.value, native.mx)
    case None => None
    case Some(data) => NormalizeEntry(setting.lib, native.rtype, data)
  }

  /** The owner name, and whether its set accepts it when it canonicalizes the name again. */
  function ReadName(setting: Setting, native: Native): Option<Bytes> {
    match RecordName(setting.idna, native.name, setting.zoneName)
    case None => None
    case Some(name) => if CanonicalRecordName(setting.idna, name, setting.zoneName).None? then None else Some(name)
  }

  predicate RefusedFields(id: Id, native: Native) {
    || id == 0 || native.ttl == 0 || native.ttl > MAXIMUM_TTL
    || TrimSpace(native.line) == [] || TrimSpace(native.lineId) == []
    || (native.weight.Some? && native.weight.value > MAXIMUM_WEIGHT)
  }

  /** `mapRecord`, followed by the normalization of the record's set. */
  function Decode(setting: Setting, id: Id, native: Native): Decoded {
    if !Supported(native.rtype) then Skipped
    else
      var name := ReadName(setting, native);
      var status := W.NormalizeStatus(setting.printer, native.status);
      var data := ReadEntry(setting, native);
      if RefusedFields(id, native) || name.None? || status.None? || data.None? then Invalid
      else
        var line, lineId := TrimSpace(native.line), TrimSpace(native.lineId);
        Mapped(Key(name.value, native.rtype, native.ttl, line, lineId),
               W.TencentEntry(data.value, Some(W.Extension(line, lineId, native.weight, status.value, native.remark))))
  }

  /** How a record is shown, column by column. */
  predicate ShowsRecord(setting: Setting, id: Id, native: Native, key: Key, entry: W.TencentEntry) {
    && !native.rtype.SOA? && !native.rtype.Unknown? && id != 0
    && key.rtype == native.rtype && key.ttl == native.ttl && 1 <= native.ttl <= 0xFFFF_FFFF
    && key.line == TrimSpace(native.line) != [] && key.lineId == TrimSpace(native.lineId) != []
    && (native.weight.Some? ==> native.weight.value <= 100)
    && ReadName(setting, native) == Some(key.name) && ReadEntry(setting, native) == Some(entry.data)
    && entry.extension.Some?
    && var shown := entry.extension.value;
       && shown.line == key.line && shown.lineId == key.lineId && shown.remark == native.remark
       && (shown.weight.Some? <==> native.weight.Some?)
       && (native.weight.Some? ==> shown.weight.value == native.weight.value)
       && W.NormalizeStatus(setting.printer, native.status) == Some(shown.status)
  }

  lemma DecodedIff(setting: Setting, id: Id, native: Native, key: Key, entry: W.TencentEntry)
    ensures Decode(setting, id, native) == Mapped(key, entry) <==> ShowsRecord(setting, id, native, key, entry)
    ensures Decode(setting, id, native).Skipped? <==> native.rtype.SOA? || native.rtype.Unknown?
  {
  }

  // ---------------------------------------------------------------- grouping

  predicate Under(setting: Setting, zone: Zone, key: Key, id: Id)
    requires id in zone
  {
    var decoded := Decode(setting, id, zone[id]);
    decoded.Mapped? && decoded.key == key
  }

  function Keys(setting: Setting, zone: Zone): set<Key> {
    set id | id in zone && Decode(setting, id, zone[id]).Mapped? :: Decode(setting, id, zone[id]).key
  }

  function Members(setting: Setting, zone: Zone, key: Key): map<Id, W.TencentEntry> {
    map id | id in zone && Under(setting, zone, key, id) :: Decode(setting, id, zone[id]).entry
  }

  function Grouped(setting: Setting, zone: Zone): Groups<Key, W.TencentEntry> {
    map key | key in Keys(setting, zone) :: Members(setting, zone, key)
  }

  /** A set holds exactly the records that are shown under its key, each with the entry it is shown with. */
  lemma GroupedIff(setting: Setting, zone: Zone, key: Key, id: Id, entry: W.TencentEntry)
    ensures && key in Grouped(setting, zone) && id in Grouped(setting, zone)[key]
            && Grouped(setting, zone)[key][id] == entry
            <==> id in zone && Decode(setting, id, zone[id]) == Mapped(key, entry)
  {
  }

  predicate Distinct(entries: map<Id, W.TencentEntry>) {
    forall i, j :: i in entries && j in entries && i != j ==> entries[i] != entries[j]
  }

  /** Every record decodes and no two records of a set hold the same entry. */
  predicate Groupable(setting: Setting, zone: Zone) {
    && (forall id :: id in zone ==> !Decode(setting, id, zone[id]).Invalid?)
    && forall key :: key in Keys(setting, zone) ==> Distinct(Members(setting, zone, key))
  }

  lemma KeyHasMember(setting: Setting, zone: Zone, key: Key) returns (id: Id)
    requires key in Keys(setting, zone)
    ensures id in zone && Under(setting, zone, key, id)
  {
    id :| id in zone && Decode(setting, id, zone[id]).Mapped? && Decode(setting, id, zone[id]).key == key;
  }

  lemma GroupedIsPartitioned(setting: Setting, zone: Zone)
    ensures Partitioned(Grouped(setting, zone))
  {
    var groups := Grouped(setting, zone);
    forall key | key in groups ensures groups[key] != map[] {
      var id := KeyHasMember(setting, zone, key);
      assert id in groups[key];
    }
  }

  // ---------------------------------------------------------------- the sorted list

  function AfterType(): Order<Key> {
    Then(ByNumber((key: Key) => key.ttl), Then(ByKey((key: Key) => key.lineId), ByKey((key: Key) => key.line)))
  }

  /** Sets are compared by name, type, TTL and routing line, and then by ID. */
  function KeyOrder(): Order<Key> {
    Then(ByKey((key: Key) => key.name), Then(ByKey((key: Key) => TypeText(key.rtype)), AfterType()))
  }

  lemma KeyOrderIsSortable()
    ensures Sortable(KeyOrder())
  {
    ByKeyIsSortable((key: Key) => key.name);
    ByKeyIsSortable((key: Key) => TypeText(key.rtype));
    ByNumberIsSortable((key: Key) => key.ttl);
    ByKeyIsSortable((key: Key) => key.lineId);
    ByKeyIsSortable((key: Key) => key.line);
    ThenIsSortable(ByKey((key: Key) => key.lineId), ByKey((key: Key) => key.line));
    ThenIsSortable(ByNumber((key: Key) => key.ttl),
                   Then(ByKey((key: Key) => key.lineId), ByKey((key: Key) => key.line)));
    ThenIsSortable(ByKey((key: Key) => TypeText(key.rtype)), AfterType());
    ThenIsSortable(ByKey((key: Key) => key.name), Then(ByKey((key: Key) => TypeText(key.rtype)), AfterType()));
  }

  type ListedSets = seq<ListedSet<Key, W.TencentEntry>>

  /** What listing these rows returns. */
  ghost predicate ListingOf(setting: Setting, naming: Naming, version: Id -> nat, source: seq<Row<Native>>,
                            r: Result<ListedSets, Error>)
    requires DistinctIds(source)
  {
    var zone := ZoneOf(source);
    if Groupable(setting, zone) then r.Ok? && IsListing(naming, KeyOrder(), version, Grouped(setting, zone), r.value)
    else r == Err(Provider)
  }

  /** The second loop and the sort of `groupRecords`. */
  method ListGroups(setting: Setting, naming: Naming, version: Id -> nat, zone: Zone) returns (items: ListedSets)
    ensures IsListing(naming, KeyOrder(), version, Grouped(setting, zone), items)
  {
    KeyOrderIsSortable();
    items := SortGroups(naming, KeyOrder(), version, Grouped(setting, zone));
  }

  /** Two listed sets stand in the order of name, type, TTL, line ID, line and ID, each deciding the ties before it. */
  lemma ListedInOrder(setting: Setting, naming: Naming, version: Id -> nat, zone: Zone, items: ListedSets, i: nat,
                      j: nat)
    requires IsListing(naming, KeyOrder(), version, Grouped(setting, zone), items) && i < j < |items|
    ensures var a, b := items[i].key, items[j].key;
            && LessEq(a.name, b.name)
            && (a.name == b.name ==> LessEq(TypeText(a.rtype), TypeText(b.rtype)))
            && (a.name == b.name && TypeText(a.rtype) == TypeText(b.rtype) ==>
                  && a.ttl <= b.ttl
                  && (a.ttl == b.ttl ==> LessEq(a.lineId, b.lineId))
                  && (a.ttl == b.ttl && a.lineId == b.lineId ==> LessEq(a.line, b.line))
                  && (a.ttl == b.ttl && a.lineId == b.lineId && a.line == b.line ==>
                        LessEq(items[i].id, items[j].id)))
  {
    var a, b := items[i].key, items[j].key;
    assert ListOrder<Key, W.TencentEntry>(KeyOrder())(items[i], items[j]);
    LessEqTotal(a.name, b.name);
    LessEqTotal(TypeText(a.rtype), TypeText(b.rtype));
    LessEqTotal(a.lineId, b.lineId);
    LessEqTotal(a.line, b.line);
  }

  /** Permuting the rows of a listing changes neither its success nor the sorted list it returns. */
  lemma ListingIgnoresOrder(setting: Setting, naming: Naming, version: Id -> nat, left: seq<Row<Native>>,
                            right: seq<Row<Native>>,
                            a: Result<ListedSets, Error>, b: Result<ListedSets, Error>)
    requires LawfulNaming(naming) && DistinctIds(left) && DistinctIds(right) && multiset(left) == multiset(right)
    requires ListingOf(setting, naming, version, left, a) && ListingOf(setting, naming, version, right, b)
    ensures a == b
  {
    SameRowsSameZone(left, right);
    if a.Ok? {
      GroupedIsPartitioned(setting, ZoneOf(left));
      ListingIsUnique(naming, KeyOrder(), version, Grouped(setting, ZoneOf(left)), a.value, b.value);
    }
  }

  // ---------------------------------------------------------------- the key a set is found by

  const DEFAULT_LINE: Bytes := [0xE9, 0xBB, 0x98, 0xE8, 0xAE, 0xA4]
  const DEFAULT_LINE_ID: Bytes := [0x30]

  datatype RecordSet = RecordSet(id: Bytes, name: Bytes, rtype: RecordType, ttl: nat,
                                 entries: seq<Member<W.TencentEntry>>)

  /** The record set built from a group: its name is canonicalized once more. */
  function RecordSetOf(setting: Setting, item: ListedSet<Key, W.TencentEntry>): Option<RecordSet> {
    match CanonicalRecordName(setting.idna, item.key.name, setting.zoneName)
    case None => None
    case Some(name) => Some(RecordSet(item.id, name, item.key.rtype, item.key.ttl, item.members))
  }

  function TrimmedOr(text: Bytes, fallback: Bytes): Bytes {
    if TrimSpace(text) == [] then fallback else TrimSpace(text)
  }

  /** `groupKeyFromRecordSet`: the routing line is that of the first entry, or the default line. */
  function KeyFrom(recordSet: RecordSet): Key {
    var extension := if recordSet.entries == [] then None else recordSet.entries[0].entry.extension;
    Key(recordSet.name, recordSet.rtype, recordSet.ttl,
        if extension.None? then DEFAULT_LINE else TrimmedOr(extension.value.line, DEFAULT_LINE),
        if extension.None? then DEFAULT_LINE_ID else TrimmedOr(extension.value.lineId, DEFAULT_LINE_ID))
  }

  /** A group's key has a name its set keeps and a line that needs no trimming. */
  lemma GroupKeyStays(setting: Setting, id: Id, native: Native)
    requires LawfulSetting(setting) && Decode(setting, id, native).Mapped?
    ensures var key := Decode(setting, id, native).key;
            && CanonicalRecordName(setting.idna, key.name, setting.zoneName) == Some(key.name)
            && TrimSpace(key.line) == key.line != [] && TrimSpace(key.lineId) == key.lineId != []
  {
    var trimmed := TrimSpace(native.name);
    RecordNameTwice(setting.idna, if trimmed == [] || trimmed == AT then setting.zoneName else trimmed,
                    setting.zoneName);
    TrimTwice(native.line);
    TrimTwice(native.lineId);
  }

  /** The key recomputed from a listed set and its first entry is the key it was grouped under. */
  lemma RecomputedKey(setting: Setting, naming: Naming, version: Id -> nat, zone: Zone,
                      item: ListedSet<Key, W.TencentEntry>)
    requires LawfulSetting(setting) && Describes(naming, version, Grouped(setting, zone), item)
    ensures RecordSetOf(setting, item).Some? && KeyFrom(RecordSetOf(setting, item).value) == item.key
  {
    var id := KeyHasMember(setting, zone, item.key);
    GroupKeyStays(setting, id, zone[id]);
    assert Member(id, Members(setting, zone, item.key)[id]) in item.members;
    var first := item.members[0];
    assert first in item.members;
    assert Under(setting, zone, item.key, first.id);
  }

  /** Different sets of a listing have different recomputed keys. */
  lemma RecomputedKeysDiffer(setting: Setting, naming: Naming, version: Id -> nat, zone: Zone, items: ListedSets,
                             i: nat, j: nat)
    requires LawfulSetting(setting) && LawfulNaming(naming)
    requires IsListing(naming, KeyOrder(), version, Grouped(setting, zone), items) && i < j < |items|
    ensures RecordSetOf(setting, items[i]).Some? && RecordSetOf(setting, items[j]).Some?
    ensures KeyFrom(RecordSetOf(setting, items[i]).value) != KeyFrom(RecordSetOf(setting, items[j]).value)
  {
    assert items[i] in items && items[j] in items;
    RecomputedKey(setting, naming, version, zone, items[i]);
    RecomputedKey(setting, naming, version, zone, items[j]);
    GroupedIsPartitioned(setting, zone);
    ListedSetsDiffer(naming, KeyOrder(), version, Grouped(setting, zone), items, i, j);
  }
}
