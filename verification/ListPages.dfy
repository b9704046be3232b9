/** Handing a filtered list out in pages of the caller's size, with scoped offset cursors. */
module ListPages {
  import opened Wrappers
  import opened Utf8
  import opened Decimals
  import opened Paging
  import opened OffsetPages

  const DEFAULT_PAGE_LIMIT: nat := 50
  const MAXIMUM_PAGE_LIMIT: nat := 200
  const MAXIMUM_DECODED_CURSOR: nat := 128
  const COLON: byte := 0x3A

  /** Unpadded URL-safe base64 (section 5 of RFC 4648). */
  datatype Armor = Armor(encode: Bytes -> Bytes, decode: Bytes -> Option<Bytes>)

  ghost predicate LawfulArmor(armor: Armor) {
    forall text :: text != [] ==> armor.encode(text) != [] && armor.decode(armor.encode(text)) == Some(text)
  }

  /** A scope whose cursors fit: 19 digits hold every 64-bit offset. */
  predicate ShortScope(scope: Bytes) {
    |scope| + 1 + 19 <= MAXIMUM_DECODED_CURSOR
  }

  // ---------------------------------------------------------------- cursors

  datatype Window = Window(limit: nat, offset: nat)

  function OffsetOf(scope: Bytes, text: Bytes): Result<nat, Error> {
    var prefix := scope + [COLON];
    if |text| > MAXIMUM_DECODED_CURSOR || !(prefix <= text) then Err(InvalidCursor)
    else
      match Atoi(text[|prefix|..])
      case None => Err(InvalidCursor)
      case Some(offset) => if offset < 0 then Err(InvalidCursor) else Ok(offset)
  }

  function NormalizePage(armor: Armor, scope: Bytes, cursor: Bytes, requested: int): Result<Window, Error> {
    var limit := if requested == 0 then DEFAULT_PAGE_LIMIT else requested;
    if limit < 1 || limit > MAXIMUM_PAGE_LIMIT then Err(InvalidInput)
    else if cursor == [] then Ok(Window(limit, 0))
    else
      match armor.decode(cursor)
      case None => Err(InvalidCursor)
      case Some(text) =>
        match OffsetOf(scope, text)
        case Err(error) => Err(error)
        case Ok(offset) => Ok(Window(limit, offset))
  }

  function NextCursor(armor: Armor, scope: Bytes, offset: nat, count: nat, total: nat): Bytes {
    var next := offset + count;
    if next >= total then [] else armor.encode(scope + [COLON] + Decimal(next))
  }

  /** Which page a request opens: 1 to 200 items, 50 if none is asked for, from the offset its cursor names. */
  lemma WindowIff(armor: Armor, scope: Bytes, cursor: Bytes, requested: int, window: Window)
    ensures NormalizePage(armor, scope, cursor, requested) == Ok(window)
            <==> && 1 <= window.limit <= 200 && window.limit == (if requested == 0 then 50 else requested)
                 && if cursor == [] then window.offset == 0
                    else exists digits :: armor.decode(cursor) == Some(scope + [0x3A] + digits)
                           && |scope| + 1 + |digits| <= 128 && Atoi(digits) == Some(window.offset)
    ensures NormalizePage(armor, scope, cursor, requested) == Err(InvalidInput) <==> requested < 0 || requested > 200
  {
    var prefix := scope + [COLON];
    if cursor != [] && armor.decode(cursor).Some? && prefix <= armor.decode(cursor).value {
      var text := armor.decode(cursor).value;
      assert text == scope + [0x3A] + text[|prefix|..];
    }
    forall digits: Bytes ensures (scope + [0x3A] + digits)[|prefix|..] == digits {
    }
  }

  lemma OffsetReads(scope: Bytes, offset: nat)
    requires ShortScope(scope) && offset <= MAXIMUM_INT
    ensures OffsetOf(scope, scope + [COLON] + Decimal(offset)) == Ok(offset)
  {
    var prefix := scope + [COLON];
    var text := prefix + Decimal(offset);
    DecimalsAreShort(offset);
    AtoiReadsDecimal(offset);
    assert text[..|prefix|] == prefix && text[|prefix|..] == Decimal(offset);
  }

  /** A cursor handed out for a page opens exactly at the item after it. */
  lemma CursorRoundTrip(armor: Armor, scope: Bytes, offset: nat, count: nat, total: nat, requested: int)
    requires LawfulArmor(armor) && ShortScope(scope) && total <= MAXIMUM_INT
    requires offset + count < total && 0 <= requested <= MAXIMUM_PAGE_LIMIT
    ensures NextCursor(armor, scope, offset, count, total) != []
    ensures NormalizePage(armor, scope, NextCursor(armor, scope, offset, count, total), requested)
            == Ok(Window(if requested == 0 then DEFAULT_PAGE_LIMIT else requested, offset + count))
  {
    var text := scope + [COLON] + Decimal(offset + count);
    OffsetReads(scope, offset + count);
    assert armor.decode(armor.encode(text)) == Some(text);
  }

  /** A text with a colon is no numeral, sign or not. */
  lemma ColonIsNoNumeral(text: Bytes, i: nat)
    requires i < |text| && text[i] == COLON
    ensures Atoi(text).None?
  {
    if text[0] == PLUS || text[0] == MINUS {
      assert text[1..][i - 1] == COLON;
    }
  }

  /** The text of one collection's cursor names no offset in another, whatever their scopes. */
  lemma OffsetKeepsToItsScope(scope: Bytes, other: Bytes, offset: nat)
    requires scope != other
    ensures OffsetOf(other, scope + [COLON] + Decimal(offset)) == Err(InvalidCursor)
  {
    var text, prefix := scope + [COLON] + Decimal(offset), other + [COLON];
    assert text[|scope|] == COLON && text[..|scope|] == scope;
    assert prefix[|other|] == COLON && prefix[..|other|] == other;
    forall i | |scope| < i < |text| ensures text[i] != COLON {
      assert text[i] == Decimal(offset)[i - |scope| - 1];
    }
    if prefix <= text {
      assert text[|other|] == COLON && text[..|other|] == other;
      ColonIsNoNumeral(text[|prefix|..], |scope| - |prefix|);
    }
  }

  /** A cursor of one collection is refused by every other. */
  lemma CursorsKeepToTheirScope(armor: Armor, scope: Bytes, other: Bytes, offset: nat, count: nat, total: nat,
                                requested: int)
    requires LawfulArmor(armor) && scope != other
    requires offset + count < total && 0 <= requested <= MAXIMUM_PAGE_LIMIT
    ensures NormalizePage(armor, other, NextCursor(armor, scope, offset, count, total), requested) == Err(InvalidCursor)
  {
    var text := scope + [COLON] + Decimal(offset + count);
    assert armor.decode(armor.encode(text)) == Some(text);
    OffsetKeepsToItsScope(scope, other, offset + count);
  }

  // ---------------------------------------------------------------- pages

  function Filtered(items: seq<Item>, keep: Item -> bool): seq<Item> {
    if items == [] then []
    else
      var last := items[|items| - 1];
      Filtered(items[..|items| - 1], keep) + (if keep(last) then [last] else [])
  }

  /** Filtering goes item by item and keeps the order. */
  lemma {:induction false} FilteredSplits(items: seq<Item>, keep: Item -> bool, k: nat)
    requires k <= |items|
    ensures Filtered(items, keep) == Filtered(items[..k], keep) + Filtered(items[k..], keep)
    ensures k == 1 ==> Filtered(items[..k], keep) == if keep(items[0]) then [items[0]] else []
    decreases |items|
  {
    if k == 1 {
      assert items[..k][..0] == [];
    }
    if k == |items| {
      assert items[..k] == items && items[k..] == [];
    } else {
      var front := items[..|items| - 1];
      FilteredSplits(front, keep, k);
      assert front[..k] == items[..k] && front[k..] == items[k..][..|items| - k - 1];
    }
  }

  datatype ListPage = ListPage(items: seq<Item>, total: nat, next: Bytes)

  /** The page a window shows of a filtered list. */
  function PageOf(armor: Armor, scope: Bytes, filtered: seq<Item>, window: Window): ListPage {
    var total := |filtered|;
    var start := Min(window.offset, total);
    var end := Min(start + window.limit, total);
    ListPage(filtered[start..end], total, NextCursor(armor, scope, window.offset, end - start, total))
  }

  /** Filters and slices, as `paginateRecordSets` does. */
  method PaginateRecordSets(armor: Armor, scope: Bytes, items: seq<Item>, keep: Item -> bool, window: Window)
    returns (page: ListPage)
    ensures page == PageOf(armor, scope, Filtered(items, keep), window)
    ensures page.total == |Filtered(items, keep)| && |page.items| <= window.limit
    ensures forall i :: 0 <= i < |page.items| ==>
              window.offset + i < page.total && page.items[i] == Filtered(items, keep)[window.offset + i]
    ensures |page.items| < window.limit ==> window.offset + |page.items| >= page.total
    ensures page.next != [] ==> window.offset + |page.items| < page.total
  {
    var filtered: seq<Item> := [];
    for i := 0 to |items|
      invariant filtered == Filtered(items[..i], keep)
    {
      assert items[..i + 1][..i] == items[..i];
      if keep(items[i]) {
        filtered := filtered + [items[i]];
      }
    }
    assert items[..|items|] == items;
    var total := |filtered|;
    var start := Min(window.offset, total);
    var end := Min(start + window.limit, total);
    page := ListPage(filtered[start..end], total, NextCursor(armor, scope, window.offset, end - start, total));
  }

  function Prepend(items: seq<Item>, rest: Result<seq<Item>, Error>): Result<seq<Item>, Error> {
    match rest
    case Err(error) => Err(error)
    case Ok(more) => Ok(items + more)
  }

  /** Answers a request for page `k` with the cursor in hand. */
  type Reader = (nat, Bytes) -> Result<ListPage, Error>

  /** Follows the cursors page after page, at most `fuel` of them after the first. */
  function Visited(read: Reader, k: nat, cursor: Bytes, fuel: nat): Result<seq<Item>, Error>
    decreases fuel
  {
    match read(k, cursor)
    case Err(error) => Err(error)
    case Ok(page) =>
      if page.next == [] then Ok(page.items)
      else if fuel == 0 then Err(Upstream)
      else Prepend(page.items, Visited(read, k + 1, page.next, fuel - 1))
  }

  /** The list endpoint: `requested(k)` items are asked for on page `k`. */
  function ListEndpoint(armor: Armor, scope: Bytes, filtered: seq<Item>, requested: nat -> int): Reader {
    (k: nat, cursor: Bytes) =>
      match NormalizePage(armor, scope, cursor, requested(k))
      case Err(error) => Err(error)
      case Ok(window) => Ok(PageOf(armor, scope, filtered, window))
  }

  /** The window a cursor opens. */
  predicate Opens(armor: Armor, scope: Bytes, cursor: Bytes, requested: int, offset: nat) {
    var window := NormalizePage(armor, scope, cursor, requested);
    window.Ok? && window.value.offset == offset && 1 <= window.value.limit
  }

  /** One page: its items, and a cursor that opens where it ends if anything is left. */
  lemma PageAt(armor: Armor, scope: Bytes, filtered: seq<Item>, window: Window, again: int)
    requires LawfulArmor(armor) && ShortScope(scope) && |filtered| <= MAXIMUM_INT
    requires window.offset <= |filtered| && 0 <= again <= MAXIMUM_PAGE_LIMIT
    ensures var page, end := PageOf(armor, scope, filtered, window), Min(window.offset + window.limit, |filtered|);
            && page.items == filtered[window.offset..end]
            && (page.next == [] <==> end == |filtered|)
            && (page.next != [] ==> Opens(armor, scope, page.next, again, end))
  {
    var end := Min(window.offset + window.limit, |filtered|);
    if end < |filtered| {
      CursorRoundTrip(armor, scope, window.offset, end - window.offset, |filtered|, again);
    }
  }

  /** Whether a cursor stands at an offset, for page `k`. */
  type Standing = (nat, Bytes, nat) -> bool

  /** From this offset the page shows a stretch of the list and leads to where it ends. */
  predicate Advances(read: Reader, at: Standing, list: seq<Item>, k: nat, cursor: Bytes, offset: nat) {
    var answer := read(k, cursor);
    && answer.Ok? && offset + |answer.value.items| <= |list|
    && var end := offset + |answer.value.items|;
    && answer.value.items == list[offset..end]
    && (answer.value.next == [] <==> end == |list|)
    && (end < |list| ==> offset < end && at(k + 1, answer.value.next, end))
  }

  /** A reader that advances from every standing it leads to shows the rest of the list. */
  lemma {:induction false} VisitFrom(read: Reader, at: Standing, list: seq<Item>, k: nat, cursor: Bytes, fuel: nat,
                                     offset: nat)
    requires forall n: nat, c: Bytes, o: nat :: o <= |list| && at(n, c, o) ==> Advances(read, at, list, n, c, o)
    requires at(k, cursor, offset) && offset <= |list| <= offset + fuel
    ensures Visited(read, k, cursor, fuel) == Ok(list[offset..])
    decreases fuel
  {
    assert Advances(read, at, list, k, cursor, offset);
    var page := read(k, cursor).value;
    var end := offset + |page.items|;
    if end < |list| {
      VisitFrom(read, at, list, k + 1, page.next, fuel - 1, end);
      assert list[offset..end] + list[end..] == list[offset..];
    } else {
      assert list[offset..end] == list[offset..];
    }
  }

  lemma EndpointAdvances(armor: Armor, scope: Bytes, filtered: seq<Item>, requested: nat -> int, at: Standing, k: nat,
                         cursor: Bytes, offset: nat)
    requires LawfulArmor(armor) && ShortScope(scope) && |filtered| <= MAXIMUM_INT
    requires forall n :: 0 <= requested(n) <= MAXIMUM_PAGE_LIMIT
    requires forall n: nat, c: Bytes, o: nat :: Opens(armor, scope, c, requested(n), o) ==> at(n, c, o)
    requires Opens(armor, scope, cursor, requested(k), offset) && offset <= |filtered|
    ensures Advances(ListEndpoint(armor, scope, filtered, requested), at, filtered, k, cursor, offset)
  {
    var window := NormalizePage(armor, scope, cursor, requested(k)).value;
    assert 0 <= requested(k + 1) <= MAXIMUM_PAGE_LIMIT;
    PageAt(armor, scope, filtered, window, requested(k + 1));
  }

  /**
    Following the cursors from the first page, with any page sizes the service accepts, shows every
    item of the filtered list exactly once and in order.
   */
  lemma PagesCoverTheList(armor: Armor, scope: Bytes, items: seq<Item>, keep: Item -> bool, requested: nat -> int)
    requires LawfulArmor(armor) && ShortScope(scope) && |Filtered(items, keep)| <= MAXIMUM_INT
    requires forall n :: 0 <= requested(n) <= MAXIMUM_PAGE_LIMIT
    ensures var filtered := Filtered(items, keep);
            Visited(ListEndpoint(armor, scope, filtered, requested), 0, [], |filtered|) == Ok(filtered)
  {
    var filtered := Filtered(items, keep);
    var read := ListEndpoint(armor, scope, filtered, requested);
    var at: Standing := (k: nat, cursor: Bytes, offset: nat) => Opens(armor, scope, cursor, requested(k), offset);
    forall k: nat, cursor: Bytes, offset: nat | offset <= |filtered| && at(k, cursor, offset)
      ensures Advances(read, at, filtered, k, cursor, offset)
    {
      EndpointAdvances(armor, scope, filtered, requested, at, k, cursor, offset);
    }
    assert 0 <= requested(0) <= MAXIMUM_PAGE_LIMIT;
    assert at(0, [], 0);
    VisitFrom(read, at, filtered, 0, [], |filtered|, 0);
    assert filtered[0..] == filtered;
  }

  // ---------------------------------------------------------------- from the provider's pages to the caller's

  /** A listing that is not served from the cache: read the cursor, fetch everything, show the window. */
  method ListRecordSets(provider: Provider, normalize: Normalizer, armor: Armor, scope: Bytes, keep: Item -> bool,
                        cursor: Bytes, requested: int)
    returns (r: Result<ListPage, Error>)
    ensures var window := NormalizePage(armor, scope, cursor, requested);
            if window.Err? then r == Err(window.error)
            else (r.Ok? <==> exists all :: Holds(provider, normalize, all))
                 && (r.Ok? ==>
                       exists all :: Holds(provider, normalize, all)
                                     && r.value == PageOf(armor, scope, Filtered(all, keep), window.value))
  {
    var window := NormalizePage(armor, scope, cursor, requested);
    if window.Err? {
      return Err(window.error);
    }
    var fetched, _ := FetchAll(provider, normalize);
    if fetched.Err? {
      return Err(fetched.error);
    }
    var page := PaginateRecordSets(armor, scope, fetched.value, keep, window.value);
    return Ok(page);
  }

  lemma {:induction false} FilteredIsShorter(items: seq<Item>, keep: Item -> bool)
    ensures |Filtered(items, keep)| <= |items|
  {
    if items != [] {
      FilteredIsShorter(items[..|items| - 1], keep);
    }
  }

  /**
    End to end, against an offset provider over an unchanging list: listings succeed exactly when the
    list can be read, and then following the cursors with any accepted page sizes shows the normal
    form of every item the filter keeps exactly once, in the provider's order.
   */
  lemma ListingShowsTheList(cursors: Cursors, normalize: Normalizer, items: seq<Item>, armor: Armor, scope: Bytes,
                            keep: Item -> bool, requested: nat -> int)
    requires LawfulCursors(cursors) && LawfulArmor(armor) && ShortScope(scope)
    requires forall n :: 0 <= requested(n) <= MAXIMUM_PAGE_LIMIT
    ensures (exists all :: Holds(OffsetProvider(cursors, items), normalize, all)) <==> ReadableList(normalize, items)
    ensures forall all :: Holds(OffsetProvider(cursors, items), normalize, all) ==>
              var shown := Filtered(Normalized(normalize, items), keep);
              Visited(ListEndpoint(armor, scope, Filtered(all, keep), requested), 0, [], |shown|) == Ok(shown)
  {
    var provider := OffsetProvider(cursors, items);
    FetchReturnsTheList(cursors, normalize, items);
    if ReadableList(normalize, items) {
      var chain :| Complete(provider, normalize, chain);
      assert Holds(provider, normalize, Walk(provider, normalize, chain, |chain|));
      FilteredIsShorter(Normalized(normalize, items), keep);
      PagesCoverTheList(armor, scope, Normalized(normalize, items), keep, requested);
    }
  }
}
