/** Reading an unchanging list through a provider that pages it by offset. */
module OffsetPages {
  import opened Collections
  import opened Wrappers
  import opened Utf8
  import opened Decimals
  import opened Paging

  const MAXIMUM_ITEMS: nat := 2_000_000

  /** Offsets as opaque cursors. */
  datatype Cursors = Cursors(encode: nat -> Bytes, decode: Bytes -> Option<nat>)

  /** Every 64-bit offset has a short cursor that decodes to it. */
  ghost predicate LawfulCursors(cursors: Cursors) {
    forall n: nat :: n <= MAXIMUM_INT ==> CursorFor(cursors, n)
  }

  predicate CursorFor(cursors: Cursors, n: nat) {
    var text := cursors.encode(n);
    && cursors.decode(text) == Some(n)
    && text != [] && |text| <= MAXIMUM_CURSOR_SIZE && Valid(text)
  }

  /** Offsets printed as decimal numerals; the law holds of them. */
  function DecimalCursors(): Cursors {
    Cursors(n => Decimal(n),
            text => match Atoi(text) case Some(n) => (if n >= 0 then Some(n) else None) case None => None)
  }

  lemma DecimalCursorsAreLawful()
    ensures LawfulCursors(DecimalCursors())
  {
    forall n: nat | n <= MAXIMUM_INT ensures CursorFor(DecimalCursors(), n) {
      AtoiReadsDecimal(n);
      DecimalsAreShort(n);
      ValidAscii(Decimal(n));
    }
  }

  /** `paginate` behind `decodeOffsetCursor`, over a list that does not change. */
  function OffsetPage(cursors: Cursors, items: seq<Item>, cursor: Bytes): Result<Page, Error> {
    var offset := if cursor == [] then Some(0) else cursors.decode(cursor);
    if offset.None? || offset.value > |items| then Err(InvalidCursor)
    else
      var end := Min(offset.value + RECORD_READ_PAGE_LIMIT, |items|);
      Ok(Page(items[offset.value..end], if end < |items| then cursors.encode(end) else []))
  }

  function OffsetProvider(cursors: Cursors, items: seq<Item>): Provider {
    (_, cursor) => OffsetPage(cursors, items, cursor)
  }

  function CursorAt(cursors: Cursors, n: nat): Bytes {
    if n == 0 then [] else cursors.encode(n * RECORD_READ_PAGE_LIMIT)
  }

  /** Where page `n` ends. */
  function EndOf(items: seq<Item>, n: nat): nat {
    Min((n + 1) * RECORD_READ_PAGE_LIMIT, |items|)
  }

  /** The items page `n` shows. */
  function Stretch(items: seq<Item>, n: nat): seq<Item>
    requires n * RECORD_READ_PAGE_LIMIT <= |items|
  {
    items[n * RECORD_READ_PAGE_LIMIT..EndOf(items, n)]
  }

  lemma OffsetAnswer(cursors: Cursors, items: seq<Item>, n: nat)
    requires LawfulCursors(cursors) && n < MAXIMUM_RECORD_PAGES && n * RECORD_READ_PAGE_LIMIT <= |items|
    ensures var page := Page(Stretch(items, n), if EndOf(items, n) < |items| then CursorAt(cursors, n + 1) else []);
            OffsetProvider(cursors, items)(n, CursorAt(cursors, n)) == Ok(page) && ValidPage(CursorAt(cursors, n), page)
  {
    assert CursorFor(cursors, n * RECORD_READ_PAGE_LIMIT) && CursorFor(cursors, (n + 1) * RECORD_READ_PAGE_LIMIT);
  }

  lemma CursorsDiffer(cursors: Cursors, m: nat, n: nat)
    requires LawfulCursors(cursors) && m < n <= MAXIMUM_RECORD_PAGES
    ensures CursorAt(cursors, m) != CursorAt(cursors, n) && CursorAt(cursors, n) != []
  {
    assert CursorFor(cursors, m * RECORD_READ_PAGE_LIMIT) && CursorFor(cursors, n * RECORD_READ_PAGE_LIMIT);
  }

  /** Every chain of calls asks for one page after the other. */
  lemma {:induction false} OffsetChain(cursors: Cursors, normalize: Normalizer, items: seq<Item>, chain: seq<Bytes>,
                                       n: nat)
    requires LawfulCursors(cursors) && Chain(OffsetProvider(cursors, items), normalize, chain)
    requires n < |chain| && n <= MAXIMUM_RECORD_PAGES
    ensures chain[n] == CursorAt(cursors, n) && (n > 0 ==> n * RECORD_READ_PAGE_LIMIT < |items|)
  {
    if n > 0 {
      OffsetChain(cursors, normalize, items, chain, n - 1);
      OffsetAnswer(cursors, items, n - 1);
      assert Linked(OffsetProvider(cursors, items), normalize, chain, n - 1);
    }
  }

  lemma NormalizedJoin(normalize: Normalizer, a: seq<Item>, b: seq<Item>)
    ensures NormalizesAll(normalize, a + b) <==> NormalizesAll(normalize, a) && NormalizesAll(normalize, b)
    ensures NormalizesAll(normalize, a + b) ==>
            Normalized(normalize, a + b) == Normalized(normalize, a) + Normalized(normalize, b)
  {
    var whole := a + b;
    assert forall i :: 0 <= i < |a| ==> whole[i] == a[i];
    assert forall i :: 0 <= i < |b| ==> whole[|a| + i] == b[i];
  }

  lemma StretchesJoin(items: seq<Item>, n: nat)
    requires n * RECORD_READ_PAGE_LIMIT <= |items|
    ensures items[..n * RECORD_READ_PAGE_LIMIT] + Stretch(items, n) == items[..EndOf(items, n)]
  {
  }

  /** One more page of a walk. */
  lemma WalkStep(provider: Provider, normalize: Normalizer, chain: seq<Bytes>, n: nat, page: seq<Item>)
    requires n < |chain| && forall k :: 0 <= k <= n ==> Usable(provider, normalize, k, chain[k])
    requires Usable(provider, normalize, n, chain[n]) && provider(n, chain[n]).value.items == page
    ensures NormalizesAll(normalize, page)
    ensures Walk(provider, normalize, chain, n + 1) == Walk(provider, normalize, chain, n) + Normalized(normalize, page)
  {
  }

  /** The chain asks for the pages of the list in turn, and the list is long enough for each. */
  predicate InTurn(cursors: Cursors, items: seq<Item>, chain: seq<Bytes>) {
    |chain| <= MAXIMUM_RECORD_PAGES
    && forall k :: 0 <= k < |chain| ==> chain[k] == CursorAt(cursors, k) && k * RECORD_READ_PAGE_LIMIT <= |items|
  }

  /** The pages walked so far hold the normal forms of a prefix of the list. */
  lemma {:induction false} OffsetWalk(cursors: Cursors, normalize: Normalizer, items: seq<Item>, chain: seq<Bytes>,
                                      n: nat)
    requires LawfulCursors(cursors) && InTurn(cursors, items, chain) && n < |chain|
    requires AllUsable(OffsetProvider(cursors, items), normalize, chain)
    ensures NormalizesAll(normalize, items[..EndOf(items, n)])
    ensures Walk(OffsetProvider(cursors, items), normalize, chain, n + 1)
            == Normalized(normalize, items[..EndOf(items, n)])
  {
    var provider := OffsetProvider(cursors, items);
    OffsetAnswer(cursors, items, n);
    assert chain[n] == CursorAt(cursors, n);
    WalkStep(provider, normalize, chain, n, Stretch(items, n));
    StretchesJoin(items, n);
    NormalizedJoin(normalize, items[..n * RECORD_READ_PAGE_LIMIT], Stretch(items, n));
    if n > 0 {
      OffsetWalk(cursors, normalize, items, chain, n - 1);
      assert EndOf(items, n - 1) == n * RECORD_READ_PAGE_LIMIT by {
        assert chain[n] == CursorAt(cursors, n) && n * RECORD_READ_PAGE_LIMIT <= |items|;
      }
    } else {
      assert Normalized(normalize, items[..0]) == [];
    }
  }

  function PagesNeeded(total: nat): nat {
    if total == 0 then 1 else (total + RECORD_READ_PAGE_LIMIT - 1) / RECORD_READ_PAGE_LIMIT
  }

  function OffsetCursors(cursors: Cursors, total: nat): seq<Bytes> {
    seq(PagesNeeded(total), n requires 0 <= n => CursorAt(cursors, n))
  }

  lemma NormalizesStretch(normalize: Normalizer, items: seq<Item>, n: nat)
    requires NormalizesAll(normalize, items) && n * RECORD_READ_PAGE_LIMIT <= |items|
    ensures NormalizesAll(normalize, Stretch(items, n))
  {
  }

  /** The list can be read: it is not too long, every item normalizes, and the normal forms have distinct IDs. */
  predicate ReadableList(normalize: Normalizer, items: seq<Item>) {
    |items| <= MAXIMUM_ITEMS && NormalizesAll(normalize, items) && UniqueIds(Normalized(normalize, items))
  }

  /** Every page of a readable list can be absorbed, and leads to the next unless it is the last. */
  lemma PageLeadsOn(cursors: Cursors, normalize: Normalizer, items: seq<Item>, n: nat)
    requires LawfulCursors(cursors) && ReadableList(normalize, items) && n < |OffsetCursors(cursors, |items|)|
    ensures Usable(OffsetProvider(cursors, items), normalize, n, CursorAt(cursors, n))
    ensures var next := OffsetProvider(cursors, items)(n, CursorAt(cursors, n)).value.next;
            if n + 1 < |OffsetCursors(cursors, |items|)| then next == CursorAt(cursors, n + 1) != [] else next == []
  {
    OffsetAnswer(cursors, items, n);
    NormalizesStretch(normalize, items, n);
    CursorsDiffer(cursors, n, n + 1);
  }

  lemma OffsetIsChain(cursors: Cursors, normalize: Normalizer, items: seq<Item>)
    requires LawfulCursors(cursors) && ReadableList(normalize, items)
    ensures var provider, chain := OffsetProvider(cursors, items), OffsetCursors(cursors, |items|);
            Chain(provider, normalize, chain) && AllUsable(provider, normalize, chain)
  {
    var provider, chain := OffsetProvider(cursors, items), OffsetCursors(cursors, |items|);
    forall n | 0 <= n < |chain| ensures Usable(provider, normalize, n, chain[n]) {
      PageLeadsOn(cursors, normalize, items, n);
    }
    forall n | 0 <= n < |chain| - 1 ensures Linked(provider, normalize, chain, n) {
      PageLeadsOn(cursors, normalize, items, n);
    }
  }

  lemma OffsetCursorsDiffer(cursors: Cursors, total: nat)
    requires LawfulCursors(cursors) && total <= MAXIMUM_ITEMS
    ensures NoRepeat(OffsetCursors(cursors, total))
  {
    var chain := OffsetCursors(cursors, total);
    forall i, j | 0 <= i < j < |chain| ensures chain[i] != chain[j] {
      CursorsDiffer(cursors, i, j);
    }
  }

  lemma OffsetIsComplete(cursors: Cursors, normalize: Normalizer, items: seq<Item>)
    requires LawfulCursors(cursors) && ReadableList(normalize, items)
    ensures Complete(OffsetProvider(cursors, items), normalize, OffsetCursors(cursors, |items|))
  {
    var chain := OffsetCursors(cursors, |items|);
    OffsetIsChain(cursors, normalize, items);
    OffsetCursorsDiffer(cursors, |items|);
    PageLeadsOn(cursors, normalize, items, |chain| - 1);
    OffsetWalk(cursors, normalize, items, chain, |chain| - 1);
    assert items[..|items|] == items;
  }

  lemma CompleteWalksAll(cursors: Cursors, normalize: Normalizer, items: seq<Item>, chain: seq<Bytes>)
    requires LawfulCursors(cursors) && Complete(OffsetProvider(cursors, items), normalize, chain)
    ensures ReadableList(normalize, items)
    ensures Walk(OffsetProvider(cursors, items), normalize, chain, |chain|) == Normalized(normalize, items)
  {
    forall n | 0 <= n < |chain| ensures chain[n] == CursorAt(cursors, n) && n * RECORD_READ_PAGE_LIMIT <= |items| {
      OffsetChain(cursors, normalize, items, chain, n);
    }
    var last := |chain| - 1;
    OffsetAnswer(cursors, items, last);
    CursorsDiffer(cursors, last, last + 1);
    OffsetWalk(cursors, normalize, items, chain, last);
    assert items[..|items|] == items;
  }

  /**
    Against an offset provider over an unchanging list the fetch succeeds exactly when the list has at
    most two million items, every one normalizes and the normal forms have distinct IDs; whatever it
    returns is the list of the normal forms.
   */
  lemma FetchReturnsTheList(cursors: Cursors, normalize: Normalizer, items: seq<Item>)
    requires LawfulCursors(cursors)
    ensures (exists chain :: Complete(OffsetProvider(cursors, items), normalize, chain))
            <==> ReadableList(normalize, items)
    ensures forall all :: Holds(OffsetProvider(cursors, items), normalize, all) ==>
              ReadableList(normalize, items) && all == Normalized(normalize, items)
  {
    if ReadableList(normalize, items) {
      OffsetIsComplete(cursors, normalize, items);
    }
    forall chain | Complete(OffsetProvider(cursors, items), normalize, chain)
      ensures ReadableList(normalize, items)
      ensures Walk(OffsetProvider(cursors, items), normalize, chain, |chain|) == Normalized(normalize, items)
    {
      CompleteWalksAll(cursors, normalize, items, chain);
    }
  }
}
