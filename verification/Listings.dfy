/**
  From groups of provider records to the list a provider returns: the members of a set sorted by
  record ID, the set's ID made of theirs, the sets sorted by key and then ID.
 */
module Listings {
  import opened Collections
  import opened Utf8
  import opened Sorting
  import Decimals
  import Labels
  import Names

  /** Provider record IDs are opaque; only their identity matters. */
  type Id = nat

  // ---------------------------------------------------------------- the rows of a listing

  datatype Row<N> = Row(id: Id, native: N)

  /** Listing refuses a repeated record ID. */
  predicate DistinctIds<N>(source: seq<Row<N>>) {
    forall i, j :: 0 <= i < j < |source| ==> source[i].id != source[j].id
  }

  function ZoneOf<N>(source: seq<Row<N>>): map<Id, N>
    requires DistinctIds(source)
  {
    map i | 0 <= i < |source| :: source[i].id := source[i].native
  }

  lemma TakeOne<N>(source: seq<Row<N>>, i: nat)
    requires DistinctIds(source) && i < |source|
    ensures DistinctIds(source[..i]) && DistinctIds(source[..i + 1])
    ensures source[i].id !in ZoneOf(source[..i])
    ensures ZoneOf(source[..i + 1]) == ZoneOf(source[..i])[source[i].id := source[i].native]
  {
    var before, after := ZoneOf(source[..i]), ZoneOf(source[..i + 1]);
    forall id ensures id in after <==> id in before || id == source[i].id {
      if id in before {
        var k :| 0 <= k < i && source[..i][k].id == id;
        assert source[..i + 1][k].id == id;
      }
      if id == source[i].id {
        assert source[..i + 1][i].id == id;
      }
    }
  }

  /** Two listings of the same rows, in any order, are listings of the same zone. */
  lemma SameRowsSameZone<N>(left: seq<Row<N>>, right: seq<Row<N>>)
    requires DistinctIds(left) && DistinctIds(right) && multiset(left) == multiset(right)
    ensures ZoneOf(left) == ZoneOf(right)
  {
    forall row ensures row in left <==> row in right {
      assert row in multiset(left) <==> row in multiset(right);
    }
    forall i | 0 <= i < |left| ensures left[i].id in ZoneOf(right) && ZoneOf(right)[left[i].id] == left[i].native {
      assert left[i] in right;
    }
    forall i | 0 <= i < |right| ensures right[i].id in ZoneOf(left) && ZoneOf(left)[right[i].id] == right[i].native {
      assert right[i] in left;
    }
  }

  // ---------------------------------------------------------------- record sets

  /** `text` prints a record ID; `pack` is the format's prefix and the encoded JSON list of IDs. */
  datatype Naming = Naming(text: Id -> Bytes, pack: seq<Id> -> Bytes)

  ghost predicate LawfulNaming(naming: Naming) {
    && Injective(naming.text)
    && forall a, b :: naming.pack(a) == naming.pack(b) ==> a == b
  }

  type Groups<K, E> = map<K, map<Id, E>>

  datatype Member<E> = Member(id: Id, entry: E)

  /** A logical record set with the key it was grouped under. `version` is the latest of its members'. */
  datatype ListedSet<K, E> = ListedSet(id: Bytes, key: K, members: seq<Member<E>>, version: nat)

  function IdsOf<E>(members: seq<Member<E>>): (ids: seq<Id>)
    ensures |ids| == |members| && forall i :: 0 <= i < |ids| ==> ids[i] == members[i].id
  {
    seq(|members|, i requires 0 <= i < |members| => members[i].id)
  }

  /** The largest version; zero is the time that stands for none. */
  function Latest<E>(version: Id -> nat, members: seq<Member<E>>): (r: nat)
    ensures forall m :: m in members ==> version(m.id) <= r
    ensures r == 0 || exists m :: m in members && version(m.id) == r
  {
    if members == [] then 0
    else
      var rest := Latest(version, members[1..]);
      if version(members[0].id) > rest then version(members[0].id) else rest
  }

  // ---------------------------------------------------------------- what a listing is

  predicate HoldsExactly<E(==)>(group: map<Id, E>, members: seq<Member<E>>) {
    && NoRepeat(members)
    && (forall m :: m in members ==> m.id in group && group[m.id] == m.entry)
    && (forall id :: id in group ==> Member(id, group[id]) in members)
  }

  function ByIdText<E>(naming: Naming): Order<Member<E>> {
    ByKey((m: Member<E>) => naming.text(m.id))
  }

  predicate Describes<K(==), E(==)>(naming: Naming, version: Id -> nat, groups: Groups<K, E>, item: ListedSet<K, E>) {
    && item.key in groups
    && HoldsExactly(groups[item.key], item.members)
    && Ordered(ByIdText(naming), item.members)
    && item.id == naming.pack(IdsOf(item.members))
    && item.version == Latest(version, item.members)
  }

  function OnKeys<K, E>(keyOrder: Order<K>): Order<ListedSet<K, E>> {
    (a: ListedSet<K, E>, b: ListedSet<K, E>) => keyOrder(a.key, b.key)
  }

  /** Sets are sorted by key, and by ID where keys tie. */
  function ListOrder<K, E>(keyOrder: Order<K>): Order<ListedSet<K, E>> {
    Then(OnKeys(keyOrder), ByKey((a: ListedSet<K, E>) => a.id))
  }

  predicate HasKey<K(==), E>(items: seq<ListedSet<K, E>>, key: K) {
    exists i :: 0 <= i < |items| && items[i].key == key
  }

  /** One described set for every group, in order. */
  ghost predicate IsListing<K, E>(naming: Naming, keyOrder: Order<K>, version: Id -> nat, groups: Groups<K, E>,
                                  items: seq<ListedSet<K, E>>) {
    && Ordered(ListOrder(keyOrder), items)
    && NoRepeat(items)
    && (forall item :: item in items ==> Describes(naming, version, groups, item))
    && (forall key :: key in groups ==> HasKey(items, key))
  }

  /** No group is empty and no record is in two. */
  ghost predicate Partitioned<K, E>(groups: Groups<K, E>) {
    && (forall key :: key in groups ==> groups[key] != map[])
    && (forall k, l, id :: k in groups && l in groups && id in groups[k] && id in groups[l] ==> k == l)
  }

  // ---------------------------------------------------------------- there is only one

  lemma MembersAreUnique<E(!new)>(naming: Naming, group: map<Id, E>, a: seq<Member<E>>, b: seq<Member<E>>)
    requires LawfulNaming(naming) && HoldsExactly(group, a) && HoldsExactly(group, b)
    requires Ordered(ByIdText(naming), a) && Ordered(ByIdText(naming), b)
    ensures a == b
  {
    SameItemsSameMultiset(a, b);
    KeyedIsStrict((m: Member<E>) => naming.text(m.id), a);
    OrderingIsUnique(ByIdText(naming), a, b);
  }

  lemma DescribedOnce<K, E(!new)>(naming: Naming, version: Id -> nat, groups: Groups<K, E>, a: ListedSet<K, E>,
                                  b: ListedSet<K, E>)
    requires LawfulNaming(naming) && a.key == b.key
    requires Describes(naming, version, groups, a) && Describes(naming, version, groups, b)
    ensures a == b
  {
    MembersAreUnique(naming, groups[a.key], a.members, b.members);
  }

  /** The ID alone tells a set of the listing from every other. */
  lemma IdTellsSets<K, E>(naming: Naming, version: Id -> nat, groups: Groups<K, E>, a: ListedSet<K, E>,
                          b: ListedSet<K, E>)
    requires LawfulNaming(naming) && Partitioned(groups)
    requires Describes(naming, version, groups, a) && Describes(naming, version, groups, b)
    requires a.id == b.id
    ensures a.key == b.key
  {
    assert IdsOf(a.members) == IdsOf(b.members);
    assert groups[a.key] != map[];
    var id :| id in groups[a.key];
    var i :| 0 <= i < |a.members| && a.members[i] == Member(id, groups[a.key][id]);
    assert IdsOf(b.members)[i] == id;
    assert b.members[i] in b.members;
  }

  lemma ListingIsStrict<K(!new), E(!new)>(naming: Naming, keyOrder: Order<K>, version: Id -> nat, groups: Groups<K, E>,
                                          items: seq<ListedSet<K, E>>)
    requires LawfulNaming(naming) && Partitioned(groups) && IsListing(naming, keyOrder, version, groups, items)
    ensures Strict(ListOrder(keyOrder), items)
  {
    forall a, b | a in items && b in items && ListOrder<K, E>(keyOrder)(a, b) && ListOrder<K, E>(keyOrder)(b, a)
      ensures a == b
    {
      LessEqTotal(a.id, b.id);
      IdTellsSets(naming, version, groups, a, b);
      DescribedOnce(naming, version, groups, a, b);
    }
  }

  lemma ListingsShareItems<K(!new), E(!new)>(naming: Naming, keyOrder: Order<K>, version: Id -> nat,
                                             groups: Groups<K, E>,
                                             a: seq<ListedSet<K, E>>, b: seq<ListedSet<K, E>>, item: ListedSet<K, E>)
    requires LawfulNaming(naming) && IsListing(naming, keyOrder, version, groups, a)
    requires IsListing(naming, keyOrder, version, groups, b) && item in a
    ensures item in b
  {
    assert HasKey(b, item.key);
    var i :| 0 <= i < |b| && b[i].key == item.key;
    assert b[i] in b;
    DescribedOnce(naming, version, groups, item, b[i]);
  }

  /** The groups determine the listing: same sets, same members, same order. */
  lemma ListingIsUnique<K(!new), E(!new)>(naming: Naming, keyOrder: Order<K>, version: Id -> nat, groups: Groups<K, E>,
                                          a: seq<ListedSet<K, E>>, b: seq<ListedSet<K, E>>)
    requires LawfulNaming(naming) && Partitioned(groups)
    requires IsListing(naming, keyOrder, version, groups, a) && IsListing(naming, keyOrder, version, groups, b)
    ensures a == b
  {
    forall item ensures item in a <==> item in b {
      if item in a {
        ListingsShareItems(naming, keyOrder, version, groups, a, b, item);
      }
      if item in b {
        ListingsShareItems(naming, keyOrder, version, groups, b, a, item);
      }
    }
    SameItemsSameMultiset(a, b);
    ListingIsStrict(naming, keyOrder, version, groups, a);
    OrderingIsUnique(ListOrder(keyOrder), a, b);
  }

  /** Different sets of a listing have different keys and different IDs. */
  lemma ListedSetsDiffer<K(!new), E(!new)>(naming: Naming, keyOrder: Order<K>, version: Id -> nat, groups: Groups<K, E>,
                                           items: seq<ListedSet<K, E>>, i: nat, j: nat)
    requires LawfulNaming(naming) && Partitioned(groups) && IsListing(naming, keyOrder, version, groups, items)
    requires i < j < |items|
    ensures items[i].key != items[j].key && items[i].id != items[j].id
  {
    assert items[i] in items && items[j] in items;
    if items[i].id == items[j].id {
      IdTellsSets(naming, version, groups, items[i], items[j]);
    }
    if items[i].key == items[j].key {
      DescribedOnce(naming, version, groups, items[i], items[j]);
    }
  }

  // ---------------------------------------------------------------- sorting the groups

  /** A group's members in the order they were met. */
  method Collected<E(==)>(group: map<Id, E>) returns (members: seq<Member<E>>)
    ensures HoldsExactly(group, members)
  {
    members := [];
    var remaining := group.Keys;
    while remaining != {}
      invariant remaining <= group.Keys && NoRepeat(members)
      invariant forall m :: m in members ==> m.id in group && m.id !in remaining && group[m.id] == m.entry
      invariant forall id :: id in group && id !in remaining ==> Member(id, group[id]) in members
      decreases |remaining|
    {
      var id :| id in remaining;
      members := members + [Member(id, group[id])];
      remaining := remaining - {id};
    }
  }

  lemma SortedMembers<E(!new)>(naming: Naming, group: map<Id, E>, members: seq<Member<E>>)
    requires HoldsExactly(group, members)
    ensures var sorted := Sorted(ByIdText(naming), members);
            HoldsExactly(group, sorted) && Ordered(ByIdText(naming), sorted)
  {
    var sorted := Sorted(ByIdText(naming), members);
    ByKeyIsSortable((m: Member<E>) => naming.text(m.id));
    SortedIsOrdered(ByIdText(naming), members);
    RearrangedNoRepeat(members, sorted);
    forall m ensures m in sorted <==> m in members {
      assert m in multiset(sorted) <==> m in multiset(members);
    }
  }

  lemma ListOrderIsSortable<K(!new), E(!new)>(keyOrder: Order<K>)
    requires Sortable(keyOrder)
    ensures Sortable(ListOrder<K, E>(keyOrder))
  {
    var first := OnKeys<K, E>(keyOrder);
    forall a, b ensures first(a, b) || first(b, a) {
      assert keyOrder(a.key, b.key) || keyOrder(b.key, a.key);
    }
    forall a, b, c | first(a, b) && first(b, c) ensures first(a, c) {
      assert keyOrder(a.key, b.key) && keyOrder(b.key, c.key);
    }
    ByKeyIsSortable((a: ListedSet<K, E>) => a.id);
    ThenIsSortable(first, ByKey((a: ListedSet<K, E>) => a.id));
  }

  lemma SortedListingIs<K(!new), E(!new)>(naming: Naming, keyOrder: Order<K>, version: Id -> nat, groups: Groups<K, E>,
                                          items: seq<ListedSet<K, E>>)
    requires Sortable(keyOrder) && NoRepeat(items)
    requires forall item :: item in items ==> Describes(naming, version, groups, item)
    requires forall key :: key in groups ==> HasKey(items, key)
    ensures IsListing(naming, keyOrder, version, groups, Sorted(ListOrder(keyOrder), items))
  {
    var sorted := Sorted(ListOrder(keyOrder), items);
    ListOrderIsSortable<K, E>(keyOrder);
    SortedIsOrdered(ListOrder(keyOrder), items);
    RearrangedNoRepeat(items, sorted);
    forall item ensures item in sorted <==> item in items {
      assert item in multiset(sorted) <==> item in multiset(items);
    }
    forall key | key in groups ensures HasKey(sorted, key) {
      var i :| 0 <= i < |items| && items[i].key == key;
      assert items[i] in sorted;
    }
  }

  /** The second loop and the final sort; the loop meets the groups in no particular order. */
  method SortGroups<K(==, !new), E(==, !new)>(naming: Naming, keyOrder: Order<K>, version: Id -> nat,
                                              groups: Groups<K, E>)
    returns (items: seq<ListedSet<K, E>>)
    requires Sortable(keyOrder)
    ensures IsListing(naming, keyOrder, version, groups, items)
  {
    items := [];
    var remaining := groups.Keys;
    while remaining != {}
      invariant remaining <= groups.Keys && NoRepeat(items)
      invariant forall item :: item in items ==> item.key !in remaining && Describes(naming, version, groups, item)
      invariant forall key :: key in groups && key !in remaining ==> HasKey(items, key)
      decreases |remaining|
    {
      var key :| key in remaining;
      var members := Collected(groups[key]);
      SortedMembers(naming, groups[key], members);
      members := Sorted(ByIdText(naming), members);
      var item := ListedSet(naming.pack(IdsOf(members)), key, members, Latest(version, members));
      KeysStay(items, item);
      items := items + [item];
      remaining := remaining - {key};
    }
    SortedListingIs(naming, keyOrder, version, groups, items);
    items := Sorted(ListOrder(keyOrder), items);
  }

  lemma KeysStay<K, E>(items: seq<ListedSet<K, E>>, item: ListedSet<K, E>)
    ensures forall key :: HasKey(items, key) || key == item.key ==> HasKey(items + [item], key)
  {
    forall key | HasKey(items, key) || key == item.key ensures HasKey(items + [item], key) {
      if key == item.key {
        assert (items + [item])[|items|].key == key;
      } else {
        var i :| 0 <= i < |items| && items[i].key == key;
        assert (items + [item])[i].key == key;
      }
    }
  }

  // ---------------------------------------------------------------- the laws can be met

  function DecimalTexts(ids: seq<Id>): (r: seq<Bytes>)
    ensures |r| == |ids| && forall i :: 0 <= i < |r| ==> r[i] == Decimals.Decimal(ids[i])
  {
    seq(|ids|, i requires 0 <= i < |ids| => Decimals.Decimal(ids[i]))
  }

  /** Decimal IDs, joined by dots. */
  function DecimalNaming(): Naming {
    Naming((id: Id) => Decimals.Decimal(id), (ids: seq<Id>) => if ids == [] then [] else Labels.Join(DecimalTexts(ids)))
  }

  lemma DecimalTextsAreLabels(ids: seq<Id>)
    requires ids != []
    ensures Labels.Split(Labels.Join(DecimalTexts(ids))) == DecimalTexts(ids) && Labels.Join(DecimalTexts(ids)) != []
  {
    Names.SplitJoined(DecimalTexts(ids));
    Names.JoinEnds(DecimalTexts(ids));
  }

  lemma DecimalNamingIsLawful()
    ensures LawfulNaming(DecimalNaming())
  {
    var naming := DecimalNaming();
    forall a: Id, b: Id | naming.text(a) == naming.text(b) ensures a == b {
      Decimals.DecimalIsInjective(a, b);
    }
    forall a, b | naming.pack(a) == naming.pack(b) ensures a == b {
      if a != [] && b != [] {
        DecimalTextsAreLabels(a);
        DecimalTextsAreLabels(b);
        forall i | 0 <= i < |a| ensures a[i] == b[i] {
          Decimals.DecimalIsInjective(a[i], b[i]);
        }
      } else if a != [] {
        DecimalTextsAreLabels(a);
      } else if b != [] {
        DecimalTextsAreLabels(b);
      }
    }
  }
}
