/**
  The IDs Tencent Cloud logical record sets are addressed by: the sorted list of their native record
  IDs, as JSON, in URL-safe base64 (section 5 of RFC 4648) behind a fixed prefix.
 */
module RecordSetIds {
  import opened Collections
  import opened Wrappers
  import opened Utf8
  import opened Decimals
  import opened Sorting
  import Labels
  import Names

  const MAXIMUM_UINT64: nat := 0xFFFF_FFFF_FFFF_FFFF
  const ZERO: Bytes := [0x30]

  type NativeId = Bytes

  /** JSON of a string list and base64 text are library functions; `prefix` is the format's fixed head. */
  datatype Format = Format(
    prefix: Bytes,
    json: seq<NativeId> -> Bytes,
    unjson: Bytes -> Option<seq<NativeId>>,
    encode: Bytes -> Bytes,
    decode: Bytes -> Option<Bytes>)

  function Itself(id: NativeId): Bytes {
    id
  }

  /** Accepted by a 64-bit unsigned parse, and not the single digit zero. */
  predicate ValidNativeId(id: NativeId) {
    id != [] && AllDigits(id) && DigitsValue(id) <= MAXIMUM_UINT64 && id != ZERO
  }

  predicate NoNeighbours(ids: seq<NativeId>) {
    forall i :: 0 < i < |ids| ==> ids[i] != ids[i - 1]
  }

  predicate AllNative(ids: seq<NativeId>) {
    forall i :: 0 <= i < |ids| ==> ValidNativeId(ids[i])
  }

  /** Each library function is undone by its partner, and the texts begin and end in ordinary bytes. */
  ghost predicate LawfulFormat(format: Format) {
    && (forall ids :: AllNative(ids) ==> format.unjson(format.json(ids)) == Some(ids))
    && (forall text :: format.decode(format.encode(text)) == Some(text))
    && (forall text :: TrimSpace(format.prefix + format.encode(text)) == format.prefix + format.encode(text))
  }

  /** A format that separates the IDs by dots; the laws hold of it. */
  function DottedFormat(): Format {
    Format([0x61],
           ids => if ids == [] then [] else Labels.Join(ids),
           text => Some(if text == [] then [] else Labels.Split(text)),
           text => text + [0x61],
           text => if text == [] then None else Some(text[..|text| - 1]))
  }

  lemma DottedFormatIsLawful()
    ensures LawfulFormat(DottedFormat())
  {
    var format := DottedFormat();
    forall ids | AllNative(ids) ensures format.unjson(format.json(ids)) == Some(ids) {
      if ids != [] {
        forall i | 0 <= i < |ids| ensures Names.LabelBytes(ids[i]) {
          assert ValidNativeId(ids[i]);
        }
        Names.SplitJoined(ids);
        Names.JoinEnds(ids);
      }
    }
    forall text: Bytes ensures format.decode(format.encode(text)) == Some(text) {
      assert (text + [0x61])[..|text|] == text;
    }
    forall text: Bytes ensures TrimSpace(format.prefix + format.encode(text)) == format.prefix + format.encode(text) {
      var whole := format.prefix + format.encode(text);
      assert whole[0] == 0x61 && whole[|whole| - 1] == 0x61;
      assert SpaceLength(whole) == 0 && SpaceSuffix(whole) == 0;
    }
  }

  function SortedIds(ids: seq<NativeId>): seq<NativeId> {
    Sorted(ByKey(Itself), ids)
  }

  function Encoded(format: Format, ids: seq<NativeId>): Option<Bytes> {
    var sorted := SortedIds(ids);
    if ids == [] || !AllNative(sorted) || !NoNeighbours(sorted) then None
    else Some(format.prefix + format.encode(format.json(sorted)))
  }

  function Decoded(format: Format, id: Bytes): Option<seq<NativeId>> {
    if id != TrimSpace(id) || !(format.prefix <= id) then None
    else
      match format.decode(id[|format.prefix|..])
      case None => None
      case Some(text) =>
        match format.unjson(text)
        case None => None
        case Some(ids) => if ids == [] || Encoded(format, ids) != Some(id) then None else Some(ids)
  }

  /** The encoder's loop: sorts a copy and rejects an invalid or repeated ID. */
  method EncodeRecordSetID(format: Format, ids: seq<NativeId>) returns (id: Option<Bytes>)
    ensures id == Encoded(format, ids)
  {
    if ids == [] {
      return None;
    }
    var sorted := SortedIds(ids);
    for index := 0 to |sorted|
      invariant forall i :: 0 <= i < index ==> ValidNativeId(sorted[i])
      invariant forall i :: 0 < i < index ==> sorted[i] != sorted[i - 1]
    {
      if !ValidNativeId(sorted[index]) || (index > 0 && sorted[index] == sorted[index - 1]) {
        return None;
      }
    }
    return Some(format.prefix + format.encode(format.json(sorted)));
  }

  // ---------------------------------------------------------------- what the IDs mean

  /** In a sorted list equal IDs would be neighbours. */
  lemma NeighboursSuffice(ids: seq<NativeId>)
    requires Ordered(ByKey(Itself), ids) && NoNeighbours(ids)
    ensures NoRepeat(ids)
  {
    forall i, j | 0 <= i < j < |ids| ensures ids[i] != ids[j] {
      var k := i + 1;
      assert ids[k] != ids[k - 1] && ByKey(Itself)(ids[i], ids[k]);
      LessEqTotal(ids[i], ids[k]);
      if k < j {
        assert ByKey(Itself)(ids[k], ids[j]);
        assert ids[j] == ids[i] ==> LessEq(Itself(ids[k]), Itself(ids[i]));
      }
    }
  }

  lemma SortedTwice(ids: seq<NativeId>)
    ensures SortedIds(SortedIds(ids)) == SortedIds(ids) && Ordered(ByKey(Itself), SortedIds(ids))
  {
    ByKeyIsSortable(Itself);
    SortedIsOrdered(ByKey(Itself), ids);
    SortedIsOrdered(ByKey(Itself), SortedIds(ids));
    SameOrdering(SortedIds(SortedIds(ids)), SortedIds(ids));
  }

  lemma SameOrdering(a: seq<NativeId>, b: seq<NativeId>)
    requires Ordered(ByKey(Itself), a) && Ordered(ByKey(Itself), b) && multiset(a) == multiset(b)
    ensures a == b
  {
    KeyedIsStrict(Itself, a);
    OrderingIsUnique(ByKey(Itself), a, b);
  }

  lemma SortedHolds(ids: seq<NativeId>)
    ensures forall id :: id in SortedIds(ids) <==> id in ids
  {
    forall id ensures id in SortedIds(ids) <==> id in ids {
      assert id in multiset(SortedIds(ids)) <==> id in multiset(ids);
    }
  }

  lemma SortedIsNative(ids: seq<NativeId>)
    ensures AllNative(SortedIds(ids)) <==> AllNative(ids)
  {
    SortedHolds(ids);
    var sorted := SortedIds(ids);
    forall i | 0 <= i < |ids| ensures ids[i] in sorted {
    }
    forall i | 0 <= i < |sorted| ensures sorted[i] in ids {
    }
  }

  lemma AllNativeIff(ids: seq<NativeId>)
    ensures AllNative(ids)
            <==> forall id :: id in ids ==>
                   id != [] && AllDigits(id) && DigitsValue(id) < 0x1_0000_0000_0000_0000 && id != [0x30]
  {
    forall i | 0 <= i < |ids| ensures ids[i] in ids {
    }
    forall id | id in ids ensures AllNative(ids) ==> ValidNativeId(id) {
      var i :| 0 <= i < |ids| && ids[i] == id;
    }
  }

  lemma RepetitionShows(ids: seq<NativeId>)
    ensures NoNeighbours(SortedIds(ids)) <==> NoRepeat(ids)
  {
    var sorted := SortedIds(ids);
    SortedTwice(ids);
    if NoNeighbours(sorted) {
      NeighboursSuffice(sorted);
      RearrangedNoRepeat(sorted, ids);
    }
    if NoRepeat(ids) {
      RearrangedNoRepeat(ids, sorted);
    }
  }

  /** A list of IDs is encoded exactly when it has IDs, every one is a positive 64-bit numeral and none is repeated. */
  lemma EncodableIff(format: Format, ids: seq<NativeId>)
    ensures Encoded(format, ids).Some?
            <==> && ids != [] && NoRepeat(ids)
                 && forall id :: id in ids ==>
                      id != [] && AllDigits(id) && DigitsValue(id) < 0x1_0000_0000_0000_0000 && id != [0x30]
  {
    SortedIsNative(ids);
    AllNativeIff(ids);
    RepetitionShows(ids);
  }

  /** Two record-set IDs are equal exactly when they name the same native records. */
  lemma EncodedEqualIff(format: Format, a: seq<NativeId>, b: seq<NativeId>)
    requires LawfulFormat(format) && Encoded(format, a).Some? && Encoded(format, b).Some?
    ensures Encoded(format, a) == Encoded(format, b) <==> forall id :: id in a <==> id in b
  {
    var x, y := SortedIds(a), SortedIds(b);
    SortedTwice(a);
    SortedTwice(b);
    SortedHolds(a);
    SortedHolds(b);
    if Encoded(format, a) == Encoded(format, b) {
      SameText(format, x, y);
    }
    if forall id :: id in a <==> id in b {
      NeighboursSuffice(x);
      NeighboursSuffice(y);
      SameItemsSameMultiset(x, y);
      SameOrdering(x, y);
    }
  }

  lemma SameText(format: Format, x: seq<NativeId>, y: seq<NativeId>)
    requires LawfulFormat(format) && AllNative(x) && AllNative(y)
    requires format.prefix + format.encode(format.json(x)) == format.prefix + format.encode(format.json(y))
    ensures x == y
  {
    var p := format.prefix;
    assert (p + format.encode(format.json(x)))[|p|..] == format.encode(format.json(x));
    assert (p + format.encode(format.json(y)))[|p|..] == format.encode(format.json(y));
    assert format.decode(format.encode(format.json(x))) == format.decode(format.encode(format.json(y)));
    assert Some(x) == format.unjson(format.json(x)) == format.unjson(format.json(y)) == Some(y);
  }

  /** The decoder accepts exactly what the encoder makes, and gives back the sorted list. */
  lemma DecodedIff(format: Format, id: Bytes, ids: seq<NativeId>)
    requires LawfulFormat(format)
    ensures Decoded(format, id) == Some(ids) <==> Encoded(format, ids) == Some(id) && SortedIds(ids) == ids
  {
    var p := format.prefix;
    SortedTwice(ids);
    if Encoded(format, ids) == Some(id) {
      var text := format.encode(format.json(SortedIds(ids)));
      assert id == p + text && id[..|p|] == p && id[|p|..] == text;
      assert format.decode(text) == Some(format.json(SortedIds(ids)));
      assert format.unjson(format.json(SortedIds(ids))) == Some(SortedIds(ids));
    }
  }
}
