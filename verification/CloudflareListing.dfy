/** The sorted list of logical record sets made of a Cloudflare zone's records. */
module CloudflareListing {
  import opened Wrappers
  import opened RecordEntries
  import opened Sorting
  import opened Listings
  import opened CloudflareGrouping

  /** Sets are compared by name, type and TTL, and then by ID. */
  function KeyOrder(): Order<Key> {
    Then(ByKey((key: Key) => key.name), Then(ByKey((key: Key) => TypeText(key.rtype)), ByNumber((key: Key) => key.ttl)))
  }

  lemma KeyOrderIsSortable()
    ensures Sortable(KeyOrder())
  {
    ByKeyIsSortable((key: Key) => key.name);
    ByKeyIsSortable((key: Key) => TypeText(key.rtype));
    ByNumberIsSortable((key: Key) => key.ttl);
    ThenIsSortable(ByKey((key: Key) => TypeText(key.rtype)), ByNumber((key: Key) => key.ttl));
    ThenIsSortable(ByKey((key: Key) => key.name),
                   Then(ByKey((key: Key) => TypeText(key.rtype)), ByNumber((key: Key) => key.ttl)));
  }

  type RecordSets = seq<ListedSet<Key, EntryData>>

  /** What listing these rows returns. `version` is when a record was last modified, or created. */
  ghost predicate ListingOf(lib: Library, naming: Naming, version: Id -> nat, source: seq<Row<Native>>,
                            r: Result<RecordSets, Error>)
    requires DistinctIds(source)
  {
    var zone := ZoneOf(source);
    if Groupable(lib, zone) then r.Ok? && IsListing(naming, KeyOrder(), version, Grouped(lib, zone), r.value)
    else r == Err(Provider)
  }

  lemma GroupedIsPartitioned(lib: Library, zone: Zone)
    ensures Partitioned(Grouped(lib, zone))
  {
    var groups := Grouped(lib, zone);
    forall key | key in groups ensures groups[key] != map[] {
      var id :| id in zone && Decode(lib, zone[id]).Mapped? && Decode(lib, zone[id]).key == key;
      assert id in groups[key];
    }
  }

  /** `groupRecords`. */
  method ListRows(lib: Library, naming: Naming, version: Id -> nat, source: seq<Row<Native>>)
    returns (r: Result<RecordSets, Error>)
    requires DistinctIds(source)
    ensures ListingOf(lib, naming, version, source, r)
  {
    var groups := GroupRecords(lib, source);
    match groups {
      case Err(error) => return Err(error);
      case Ok(view) =>
        KeyOrderIsSortable();
        var items := SortGroups(naming, KeyOrder(), version, view);
        return Ok(items);
    }
  }

  /** Two listed sets stand in the order of name, type, TTL and ID, each deciding where the ones before it tie. */
  lemma ListedInOrder(lib: Library, naming: Naming, version: Id -> nat, source: seq<Row<Native>>,
                      items: RecordSets, i: nat, j: nat)
    requires DistinctIds(source) && ListingOf(lib, naming, version, source, Ok(items)) && i < j < |items|
    ensures var a, b := items[i].key, items[j].key;
            && LessEq(a.name, b.name)
            && (a.name == b.name ==> LessEq(TypeText(a.rtype), TypeText(b.rtype)))
            && (a.name == b.name && TypeText(a.rtype) == TypeText(b.rtype) ==> a.ttl <= b.ttl)
            && (a.name == b.name && TypeText(a.rtype) == TypeText(b.rtype) && a.ttl == b.ttl ==>
                  LessEq(items[i].id, items[j].id))
  {
    assert ListOrder<Key, EntryData>(KeyOrder())(items[i], items[j]);
    LessEqTotal(items[i].key.name, items[j].key.name);
    LessEqTotal(TypeText(items[i].key.rtype), TypeText(items[j].key.rtype));
  }

  /** Permuting the rows of a listing changes neither its success nor the sorted list it returns. */
  lemma ListingIgnoresOrder(lib: Library, naming: Naming, version: Id -> nat, left: seq<Row<Native>>,
                            right: seq<Row<Native>>,
                            a: Result<RecordSets, Error>, b: Result<RecordSets, Error>)
    requires LawfulNaming(naming) && DistinctIds(left) && DistinctIds(right) && multiset(left) == multiset(right)
    requires ListingOf(lib, naming, version, left, a) && ListingOf(lib, naming, version, right, b)
    ensures a == b
  {
    SameRowsSameZone(left, right);
    if a.Ok? {
      GroupedIsPartitioned(lib, ZoneOf(left));
      ListingIsUnique(naming, KeyOrder(), version, Grouped(lib, ZoneOf(left)), a.value, b.value);
    }
  }
}
