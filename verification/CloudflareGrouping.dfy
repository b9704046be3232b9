/** From individual provider records to logical record sets: grouping on everything but the entry. */
module CloudflareGrouping {
  import opened Wrappers
  import opened Utf8
  import opened RecordEntries
  import opened CloudflareCodec
  import opened Listings

  const AUTOMATIC_TTL: nat := 300
  const MAXIMUM_TTL: nat := 0xFFFF_FFFF

  /** A record as the provider stores it. TTL 1 means automatic. */
  datatype Native = Native(name: Bytes, rtype: RecordType, ttl: nat, wire: Wire, proxied: bool, proxiable: bool,
                           comment: Bytes, tags: set<Bytes>)

  type Zone = map<Id, Native>

  /** The shared part of a logical record set. */
  datatype Key = Key(name: Bytes, rtype: RecordType, ttl: nat, proxied: bool, proxiable: bool, automaticTTL: bool,
                     comment: Bytes, tags: set<Bytes>)

  /** A record set's entries by record ID; the ID of the set is the set of its keys. */
  type Entries = map<Id, EntryData>

  type View = map<Key, Entries>

  datatype Decoded = Skipped | Invalid | Mapped(key: Key, data: EntryData)

  datatype Error = Validation | Conflict | Provider

  function NormalizeTags(tags: set<Bytes>): Option<set<Bytes>> {
    if exists tag :: tag in tags && TrimSpace(tag) == [] then None else Some(set tag | tag in tags :: TrimSpace(tag))
  }

  /** The owner name of a record; its set canonicalizes the name once more and refuses it if that fails. */
  function ReadName(lib: Library, name: Bytes): Option<Bytes> {
    match lib.owner(name)
    case None => None
    case Some(canonical) => if lib.owner(canonical).None? then None else Some(canonical)
  }

  /** `mapRecord`, with the entry in the form its set will show. */
  function Decode(lib: Library, native: Native): Decoded {
    if !Supported(native.rtype) then Skipped
    else
      var name := ReadName(lib, native.name);
      var entry := ReadEntry(lib, native.rtype, native.wire);
      var tags := NormalizeTags(native.tags);
      if name.None? || native.ttl < 1 || native.ttl > MAXIMUM_TTL || entry.None? || tags.None? then Invalid
      else
        var automatic := native.ttl == 1;
        Mapped(Key(name.value, native.rtype, if automatic then AUTOMATIC_TTL else native.ttl, native.proxied,
                   native.proxiable, automatic, native.comment, tags.value), entry.value)
  }

  // ---------------------------------------------------------------- what grouping computes

  predicate Under(lib: Library, native: Native, key: Key) {
    var decoded := Decode(lib, native);
    decoded.Mapped? && decoded.key == key
  }

  function Members(lib: Library, zone: Zone, key: Key): Entries {
    map id | id in zone && Under(lib, zone[id], key) :: Decode(lib, zone[id]).data
  }

  function Keys(lib: Library, zone: Zone): set<Key> {
    set id | id in zone && Decode(lib, zone[id]).Mapped? :: Decode(lib, zone[id]).key
  }

  /** The logical record sets of a zone. */
  function Grouped(lib: Library, zone: Zone): View {
    map key | key in Keys(lib, zone) :: Members(lib, zone, key)
  }

  /** A set holds exactly the records that are shown under its key, each with the entry it is shown with. */
  lemma GroupedIff(lib: Library, zone: Zone, key: Key, id: Id, data: EntryData)
    ensures key in Grouped(lib, zone) && id in Grouped(lib, zone)[key] && Grouped(lib, zone)[key][id] == data
            <==> id in zone && Decode(lib, zone[id]) == Mapped(key, data)
  {
  }

  predicate Distinct(entries: Entries) {
    forall i, j :: i in entries && j in entries && i != j ==> entries[i] != entries[j]
  }

  predicate Readable(lib: Library, zone: Zone) {
    forall id :: id in zone ==> !Decode(lib, zone[id]).Invalid?
  }

  /** Every record decodes and no two records of a set hold the same entry. */
  predicate Groupable(lib: Library, zone: Zone) {
    && Readable(lib, zone)
    && forall key :: key in Keys(lib, zone) ==> Distinct(Members(lib, zone, key))
  }

  function Listed(lib: Library, zone: Zone): Result<View, Error> {
    if Groupable(lib, zone) then Ok(Grouped(lib, zone)) else Err(Provider)
  }

  // ---------------------------------------------------------------- the grouping loops

  function Extended(groups: View, key: Key, id: Id, data: EntryData): View {
    groups[key := (if key in groups then groups[key] else map[])[id := data]]
  }

  lemma GroupedWithout(lib: Library, zone: Zone, id: Id, native: Native)
    requires id !in zone && !Decode(lib, native).Mapped?
    ensures Grouped(lib, zone[id := native]) == Grouped(lib, zone)
  {
    var zone' := zone[id := native];
    assert Keys(lib, zone') == Keys(lib, zone) by {
      forall key | key in Keys(lib, zone) ensures key in Keys(lib, zone') {
        var k :| k in zone && Decode(lib, zone[k]).Mapped? && Decode(lib, zone[k]).key == key;
        assert k in zone' && zone'[k] == zone[k];
      }
    }
    forall key | key in Keys(lib, zone) ensures Members(lib, zone', key) == Members(lib, zone, key) {
    }
  }

  lemma KeysWith(lib: Library, zone: Zone, id: Id, native: Native)
    requires id !in zone && Decode(lib, native).Mapped?
    ensures Keys(lib, zone[id := native]) == Keys(lib, zone) + {Decode(lib, native).key}
  {
    var zone' := zone[id := native];
    forall key | key in Keys(lib, zone) ensures key in Keys(lib, zone') {
      var k :| k in zone && Decode(lib, zone[k]).Mapped? && Decode(lib, zone[k]).key == key;
      assert k in zone' && zone'[k] == zone[k];
    }
    assert zone'[id] == native;
  }

  lemma KeyOf(lib: Library, zone: Zone, id: Id)
    requires id in zone && Decode(lib, zone[id]).Mapped?
    ensures Decode(lib, zone[id]).key in Keys(lib, zone)
  {
  }

  /** A key nobody maps to has no members. */
  lemma NoMembers(lib: Library, zone: Zone, key: Key)
    requires key !in Keys(lib, zone)
    ensures Members(lib, zone, key) == map[]
  {
    forall k | k in zone ensures !Under(lib, zone[k], key) {
      if Decode(lib, zone[k]).Mapped? {
        KeyOf(lib, zone, k);
      }
    }
  }

  lemma MembersWith(lib: Library, zone: Zone, id: Id, native: Native, key: Key)
    requires id !in zone
    ensures Members(lib, zone[id := native], key)
            == if Under(lib, native, key) then Members(lib, zone, key)[id := Decode(lib, native).data]
               else Members(lib, zone, key)
  {
  }

  lemma ExtendedKeys(groups: View, key: Key, id: Id, data: EntryData)
    ensures Extended(groups, key, id, data).Keys == groups.Keys + {key}
  {
  }

  lemma GroupWith(lib: Library, zone: Zone, id: Id, native: Native, key: Key)
    requires id !in zone && Decode(lib, native).Mapped? && key in Keys(lib, zone) + {Decode(lib, native).key}
    ensures key in Extended(Grouped(lib, zone), Decode(lib, native).key, id, Decode(lib, native).data)
    ensures Members(lib, zone[id := native], key)
            == Extended(Grouped(lib, zone), Decode(lib, native).key, id, Decode(lib, native).data)[key]
  {
    MembersWith(lib, zone, id, native, key);
    if key !in Keys(lib, zone) {
      NoMembers(lib, zone, key);
    }
  }

  lemma GroupedWith(lib: Library, zone: Zone, id: Id, native: Native)
    requires id !in zone && Decode(lib, native).Mapped?
    ensures Grouped(lib, zone[id := native])
            == Extended(Grouped(lib, zone), Decode(lib, native).key, id, Decode(lib, native).data)
  {
    var decoded := Decode(lib, native);
    var left, right := Grouped(lib, zone[id := native]), Extended(Grouped(lib, zone), decoded.key, id, decoded.data);
    KeysWith(lib, zone, id, native);
    ExtendedKeys(Grouped(lib, zone), decoded.key, id, decoded.data);
    assert left.Keys == right.Keys;
    forall key | key in left ensures left[key] == right[key] {
      GroupWith(lib, zone, id, native, key);
    }
  }

  /** Checks one group the way normalization does, remembering the entries seen so far. */
  method CheckDistinct(entries: Entries) returns (ok: bool)
    ensures ok == Distinct(entries)
  {
    var remaining := entries.Keys;
    var seen: set<EntryData> := {};
    while remaining != {}
      invariant remaining <= entries.Keys
      invariant seen == set id | id in entries.Keys - remaining :: entries[id]
      invariant forall i, j :: i in entries.Keys - remaining && j in entries.Keys - remaining && i != j ==>
              entries[i] != entries[j]
      decreases |remaining|
    {
      var id :| id in remaining;
      if entries[id] in seen {
        return false;
      }
      remaining := remaining - {id};
      seen := seen + {entries[id]};
    }
    return true;
  }

  function Absorbed(groups: View, id: Id, decoded: Decoded): View {
    if decoded.Mapped? then Extended(groups, decoded.key, id, decoded.data) else groups
  }

  /** One more row of the listing. */
  lemma GroupedAfterRow(lib: Library, source: seq<Row<Native>>, i: nat)
    requires DistinctIds(source) && i < |source|
    requires Readable(lib, ZoneOf(source[..i])) && !Decode(lib, source[i].native).Invalid?
    ensures Readable(lib, ZoneOf(source[..i + 1]))
    ensures Grouped(lib, ZoneOf(source[..i + 1]))
            == Absorbed(Grouped(lib, ZoneOf(source[..i])), source[i].id, Decode(lib, source[i].native))
  {
    TakeOne(source, i);
    if Decode(lib, source[i].native).Mapped? {
      GroupedWith(lib, ZoneOf(source[..i]), source[i].id, source[i].native);
    } else {
      GroupedWithout(lib, ZoneOf(source[..i]), source[i].id, source[i].native);
    }
  }

  /** The first loop: every supported record joins the group of its key. */
  method CollectGroups(lib: Library, source: seq<Row<Native>>) returns (r: Result<View, Error>)
    requires DistinctIds(source)
    ensures r == if Readable(lib, ZoneOf(source)) then Ok(Grouped(lib, ZoneOf(source))) else Err(Provider)
  {
    var groups: View := map[];
    for i := 0 to |source|
      invariant Readable(lib, ZoneOf(source[..i]))
      invariant groups == Grouped(lib, ZoneOf(source[..i]))
    {
      var decoded := Decode(lib, source[i].native);
      if decoded.Invalid? {
        UnreadableRow(lib, source, i);
        return Err(Provider);
      }
      GroupedAfterRow(lib, source, i);
      groups := Absorbed(groups, source[i].id, decoded);
    }
    assert source[..|source|] == source;
    return Ok(groups);
  }

  predicate AllDistinct(groups: View) {
    forall key :: key in groups ==> Distinct(groups[key])
  }

  /** The second loop: every group is normalized. */
  method CheckGroups(groups: View) returns (ok: bool)
    ensures ok == AllDistinct(groups)
  {
    var remaining := groups.Keys;
    while remaining != {}
      invariant remaining <= groups.Keys
      invariant forall key :: key in groups.Keys - remaining ==> Distinct(groups[key])
      decreases |remaining|
    {
      var key :| key in remaining;
      var distinct := CheckDistinct(groups[key]);
      if !distinct {
        return false;
      }
      remaining := remaining - {key};
    }
    return true;
  }

  lemma GroupableIff(lib: Library, zone: Zone)
    ensures Groupable(lib, zone) <==> Readable(lib, zone) && AllDistinct(Grouped(lib, zone))
  {
    forall key | key in Keys(lib, zone) ensures Grouped(lib, zone)[key] == Members(lib, zone, key) {
    }
  }

  /** Groups a listing. */
  method GroupRecords(lib: Library, source: seq<Row<Native>>) returns (r: Result<View, Error>)
    requires DistinctIds(source)
    ensures r == Listed(lib, ZoneOf(source))
  {
    GroupableIff(lib, ZoneOf(source));
    r := CollectGroups(lib, source);
    if r.Ok? {
      var ok := CheckGroups(r.value);
      if !ok {
        r := Err(Provider);
      }
    }
  }

  lemma UnreadableRow(lib: Library, source: seq<Row<Native>>, i: nat)
    requires DistinctIds(source) && i < |source| && Decode(lib, source[i].native).Invalid?
    ensures !Readable(lib, ZoneOf(source))
  {
    assert ZoneOf(source)[source[i].id] == source[i].native;
  }

  // ---------------------------------------------------------------- a partition

  predicate Holds(groups: View, key: Key, id: Id) {
    key in groups && id in groups[key]
  }

  /** Each supported record is in exactly one set, under its own key, and every set has a member. */
  lemma GroupingPartitions(lib: Library, zone: Zone, id: Id)
    requires Groupable(lib, zone) && id in zone
    ensures Supported(zone[id].rtype) <==> exists key :: Holds(Grouped(lib, zone), key, id)
    ensures forall k, l :: Holds(Grouped(lib, zone), k, id) && Holds(Grouped(lib, zone), l, id) ==> k == l
    ensures forall key :: key in Grouped(lib, zone) ==> Grouped(lib, zone)[key] != map[]
  {
    if Supported(zone[id].rtype) {
      var key := Decode(lib, zone[id]).key;
      assert Holds(Grouped(lib, zone), key, id);
    }
    forall key | key in Grouped(lib, zone) ensures Grouped(lib, zone)[key] != map[] {
      var k :| k in zone && Decode(lib, zone[k]).Mapped? && Decode(lib, zone[k]).key == key;
      assert k in Grouped(lib, zone)[key];
    }
  }
}
