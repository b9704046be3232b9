/**
  Reading a whole provider list page by page.
 */
module Paging {
  import opened Collections
  import opened Wrappers
  import opened Utf8

  const RECORD_READ_PAGE_LIMIT: nat := 200
  const MAXIMUM_RECORD_PAGES: nat := 10000
  const MAXIMUM_CURSOR_SIZE: nat := 4096

  type Id = nat

  datatype Item = Item(id: Id, body: Bytes)

  /** An empty `next` ends the list. */
  datatype Page = Page(items: seq<Item>, next: Bytes)

  datatype Error = Upstream | InvalidInput | InvalidCursor

  /** What a provider answers to its n-th call for a cursor; it may answer anything. */
  type Provider = (nat, Bytes) -> Result<Page, Error>

  type Normalizer = Item -> Option<Item>

  function Min(a: nat, b: nat): nat {
    if a < b then a else b
  }

  predicate ValidPage(cursor: Bytes, page: Page) {
    && |page.items| <= RECORD_READ_PAGE_LIMIT
    && (page.next == [] || (|page.next| <= MAXIMUM_CURSOR_SIZE && Valid(page.next) && page.next != cursor))
  }

  // ---------------------------------------------------------------- what a complete read is

  predicate NormalizesAll(normalize: Normalizer, items: seq<Item>) {
    forall i :: 0 <= i < |items| ==> normalize(items[i]).Some?
  }

  function Normalized(normalize: Normalizer, items: seq<Item>): (r: seq<Item>)
    requires NormalizesAll(normalize, items)
    ensures |r| == |items| && forall i :: 0 <= i < |r| ==> r[i] == normalize(items[i]).value
  {
    seq(|items|, i requires 0 <= i < |items| => normalize(items[i]).value)
  }

  predicate UniqueIds(items: seq<Item>) {
    forall i, j :: 0 <= i < j < |items| ==> items[i].id != items[j].id
  }

  /** The n-th call, for `cursor`, is answered by a page that can be used. */
  predicate Usable(provider: Provider, normalize: Normalizer, n: nat, cursor: Bytes) {
    var answer := provider(n, cursor);
    answer.Ok? && ValidPage(cursor, answer.value) && NormalizesAll(normalize, answer.value.items)
  }

  /** The n-th page leads to the next cursor of the chain. */
  predicate Linked(provider: Provider, normalize: Normalizer, cursors: seq<Bytes>, n: nat)
    requires n + 1 < |cursors|
  {
    && Usable(provider, normalize, n, cursors[n])
    && provider(n, cursors[n]).value.next == cursors[n + 1] != []
  }

  /** The cursors of calls made one after the other, from the start of the list. */
  predicate Chain(provider: Provider, normalize: Normalizer, cursors: seq<Bytes>) {
    && cursors != [] && cursors[0] == []
    && forall n :: 0 <= n < |cursors| - 1 ==> Linked(provider, normalize, cursors, n)
  }

  /** The items of the first pages of a chain. */
  function Walk(provider: Provider, normalize: Normalizer, cursors: seq<Bytes>, n: nat): seq<Item>
    requires n <= |cursors| && forall k :: 0 <= k < n ==> Usable(provider, normalize, k, cursors[k])
  {
    if n == 0 then []
    else
      assert Usable(provider, normalize, n - 1, cursors[n - 1]);
      Walk(provider, normalize, cursors, n - 1) + Normalized(normalize, provider(n - 1, cursors[n - 1]).value.items)
  }

  predicate AllUsable(provider: Provider, normalize: Normalizer, cursors: seq<Bytes>) {
    forall k :: 0 <= k < |cursors| ==> Usable(provider, normalize, k, cursors[k])
  }

  /** A chain that reaches the end of the list within the limit, without a repeated cursor or item. */
  predicate Complete(provider: Provider, normalize: Normalizer, cursors: seq<Bytes>) {
    && Chain(provider, normalize, cursors)
    && |cursors| <= MAXIMUM_RECORD_PAGES && NoRepeat(cursors)
    && AllUsable(provider, normalize, cursors)
    && provider(|cursors| - 1, cursors[|cursors| - 1]).value.next == []
    && UniqueIds(Walk(provider, normalize, cursors, |cursors|))
  }

  // ---------------------------------------------------------------- chains have only one way to go

  lemma {:induction false} ChainsAgree(provider: Provider, normalize: Normalizer, left: seq<Bytes>, right: seq<Bytes>,
                                       n: nat)
    requires Chain(provider, normalize, left) && Chain(provider, normalize, right)
    requires n < |left| && n < |right|
    ensures left[n] == right[n]
  {
    if n > 0 {
      ChainsAgree(provider, normalize, left, right, n - 1);
      assert Linked(provider, normalize, left, n - 1) && Linked(provider, normalize, right, n - 1);
    }
  }

  lemma GoesOn(provider: Provider, normalize: Normalizer, cursors: seq<Bytes>, n: nat)
    requires Chain(provider, normalize, cursors) && n + 1 < |cursors|
    ensures provider(n, cursors[n]).Ok? && provider(n, cursors[n]).value.next != []
  {
    assert Linked(provider, normalize, cursors, n);
  }

  /** A complete chain extends every chain. */
  lemma CompleteExtends(provider: Provider, normalize: Normalizer, cursors: seq<Bytes>, complete: seq<Bytes>)
    requires Chain(provider, normalize, cursors) && Complete(provider, normalize, complete)
    ensures cursors <= complete
  {
    if |complete| < |cursors| {
      ChainsAgree(provider, normalize, cursors, complete, |complete| - 1);
      GoesOn(provider, normalize, cursors, |complete| - 1);
    } else {
      forall n | 0 <= n < |cursors| ensures cursors[n] == complete[n] {
        ChainsAgree(provider, normalize, cursors, complete, n);
      }
    }
  }

  lemma {:induction false} WalksAgree(provider: Provider, normalize: Normalizer, left: seq<Bytes>, right: seq<Bytes>,
                                      n: nat)
    requires n <= |left| && left <= right
    requires forall k :: 0 <= k < n ==>
            Usable(provider, normalize, k, left[k]) && Usable(provider, normalize, k, right[k])
    ensures Walk(provider, normalize, left, n) == Walk(provider, normalize, right, n)
  {
    if n > 0 {
      WalksAgree(provider, normalize, left, right, n - 1);
    }
  }

  lemma {:induction false} WalkGrows(provider: Provider, normalize: Normalizer, cursors: seq<Bytes>, m: nat, n: nat)
    requires m <= n <= |cursors| && AllUsable(provider, normalize, cursors)
    ensures Walk(provider, normalize, cursors, m) <= Walk(provider, normalize, cursors, n)
    decreases n
  {
    if m < n {
      WalkGrows(provider, normalize, cursors, m, n - 1);
    }
  }

  // ---------------------------------------------------------------- why a read is refused

  lemma UnusableAnswer(provider: Provider, normalize: Normalizer, cursors: seq<Bytes>)
    requires Chain(provider, normalize, cursors)
    requires !Usable(provider, normalize, |cursors| - 1, cursors[|cursors| - 1])
    ensures forall c :: !Complete(provider, normalize, c)
  {
    forall c ensures !Complete(provider, normalize, c) {
      if Complete(provider, normalize, c) {
        CompleteExtends(provider, normalize, cursors, c);
      }
    }
  }

  lemma TooLong(provider: Provider, normalize: Normalizer, cursors: seq<Bytes>)
    requires Chain(provider, normalize, cursors) && (|cursors| > MAXIMUM_RECORD_PAGES || !NoRepeat(cursors))
    ensures forall c :: !Complete(provider, normalize, c)
  {
    forall c ensures !Complete(provider, normalize, c) {
      if Complete(provider, normalize, c) {
        CompleteExtends(provider, normalize, cursors, c);
      }
    }
  }

  lemma RepeatedItem(provider: Provider, normalize: Normalizer, cursors: seq<Bytes>)
    requires Chain(provider, normalize, cursors) && AllUsable(provider, normalize, cursors)
    requires !UniqueIds(Walk(provider, normalize, cursors, |cursors|))
    ensures forall c :: !Complete(provider, normalize, c)
  {
    forall c ensures !Complete(provider, normalize, c) {
      if Complete(provider, normalize, c) {
        CompleteExtends(provider, normalize, cursors, c);
        WalksAgree(provider, normalize, cursors, c, |cursors|);
        WalkGrows(provider, normalize, c, |cursors|, |c|);
      }
    }
  }

  // ---------------------------------------------------------------- the fetch loop

  function Ids(items: seq<Item>): set<Id> {
    set i | 0 <= i < |items| :: items[i].id
  }

  lemma IdsGrow(items: seq<Item>, item: Item)
    ensures Ids(items + [item]) == Ids(items) + {item.id}
  {
    var longer := items + [item];
    assert longer[|items|] == item;
    assert forall i :: 0 <= i < |items| ==> longer[i] == items[i];
  }

  /** The cursors a page has returned so far. */
  function Returned(cursors: seq<Bytes>): set<Bytes> {
    set n | 1 <= n < |cursors| :: cursors[n]
  }

  lemma ReturnedGrows(cursors: seq<Bytes>, next: Bytes)
    requires cursors != [] && cursors[0] == [] && next != [] && NoRepeat(cursors)
    ensures Returned(cursors + [next]) == Returned(cursors) + {next}
    ensures NoRepeat(cursors + [next]) <==> next !in Returned(cursors)
  {
    var longer := cursors + [next];
    assert longer[|cursors|] == next;
    assert forall n :: 0 <= n < |cursors| ==> longer[n] == cursors[n];
  }

  /** The inner loop: normalize a page's items and refuse one that was seen before. */
  method AbsorbPage(normalize: Normalizer, items: seq<Item>, page: seq<Item>, seenIds: set<Id>)
    returns (ok: bool, more: seq<Item>, seen: set<Id>)
    requires UniqueIds(items) && seenIds == Ids(items)
    ensures ok == (NormalizesAll(normalize, page) && UniqueIds(items + Normalized(normalize, page)))
    ensures ok ==> more == items + Normalized(normalize, page) && seen == Ids(more)
  {
    more, seen := items, seenIds;
    for i := 0 to |page|
      invariant NormalizesAll(normalize, page[..i])
      invariant more == items + Normalized(normalize, page[..i])
      invariant UniqueIds(more) && seen == Ids(more)
    {
      var normalized := normalize(page[i]);
      if normalized.None? {
        return false, more, seen;
      }
      NormalizedGrows(normalize, page, i);
      if normalized.value.id in seen {
        SeenBefore(normalize, items, page, more, i, normalized.value);
        return false, more, seen;
      }
      IdsGrow(more, normalized.value);
      more := more + [normalized.value];
      seen := seen + {normalized.value.id};
    }
    assert page[..|page|] == page;
    ok := true;
  }

  lemma NormalizedGrows(normalize: Normalizer, page: seq<Item>, i: nat)
    requires i < |page| && NormalizesAll(normalize, page[..i]) && normalize(page[i]).Some?
    ensures NormalizesAll(normalize, page[..i + 1])
    ensures Normalized(normalize, page[..i + 1]) == Normalized(normalize, page[..i]) + [normalize(page[i]).value]
  {
    assert page[..i + 1] == page[..i] + [page[i]];
    assert forall k :: 0 <= k < i ==> page[..i + 1][k] == page[..i][k];
  }

  lemma SeenBefore(normalize: Normalizer, items: seq<Item>, page: seq<Item>, more: seq<Item>, i: nat, item: Item)
    requires i < |page| && normalize(page[i]) == Some(item) && NormalizesAll(normalize, page[..i])
    requires more == items + Normalized(normalize, page[..i]) && item.id in Ids(more)
    ensures !(NormalizesAll(normalize, page) && UniqueIds(items + Normalized(normalize, page)))
  {
    if NormalizesAll(normalize, page) {
      var all := items + Normalized(normalize, page);
      var k :| 0 <= k < |more| && more[k].id == item.id;
      assert all[k] == more[k] && all[|items| + i] == item;
    }
  }

  /** `items` is what some complete chain of pages holds, in order, after normalization. */
  ghost predicate Holds(provider: Provider, normalize: Normalizer, items: seq<Item>) {
    exists cursors :: Complete(provider, normalize, cursors) && items == Walk(provider, normalize, cursors, |cursors|)
  }

  /**
    Reads every page. It succeeds exactly when the provider's pages form a complete chain, and then
    returns their items in order; it never makes more calls than the limit.
   */
  method FetchAll(provider: Provider, normalize: Normalizer) returns (r: Result<seq<Item>, Error>, calls: nat)
    ensures calls <= 10_000
    ensures r.Ok? <==> exists cursors :: Complete(provider, normalize, cursors)
    ensures r.Ok? ==> Holds(provider, normalize, r.value)
    ensures r.Ok? ==> exists cursors :: Complete(provider, normalize, cursors) && |cursors| == calls
  {
    var items: seq<Item>, seenIds: set<Id>, seenCursors: set<Bytes> := [], {}, {};
    var cursor: Bytes := [];
    ghost var cursors := [cursor];
    calls := 0;
    while calls < MAXIMUM_RECORD_PAGES
      invariant calls <= MAXIMUM_RECORD_PAGES && |cursors| == calls + 1 && cursor == cursors[calls]
      invariant Chain(provider, normalize, cursors) && NoRepeat(cursors)
      invariant seenCursors == Returned(cursors)
      invariant forall k :: 0 <= k < calls ==> Usable(provider, normalize, k, cursors[k])
      invariant items == Walk(provider, normalize, cursors, calls)
      invariant UniqueIds(items) && seenIds == Ids(items)
    {
      var answer := provider(calls, cursor);
      if answer.Err? || !ValidPage(cursor, answer.value) {
        UnusableAnswer(provider, normalize, cursors);
        return Err(Upstream), calls + 1;
      }
      var ok, more, seen := AbsorbPage(normalize, items, answer.value.items, seenIds);
      if !ok {
        RefusedPage(provider, normalize, cursors, items);
        return Err(Upstream), calls + 1;
      }
      items, seenIds := more, seen;
      var next := answer.value.next;
      calls := calls + 1;
      if next == [] {
        assert Complete(provider, normalize, cursors);
        return Ok(items), calls;
      }
      Extends(provider, normalize, cursors, next);
      ReturnedGrows(cursors, next);
      WalksAgree(provider, normalize, cursors, cursors + [next], calls);
      if next in seenCursors {
        TooLong(provider, normalize, cursors + [next]);
        return Err(Upstream), calls;
      }
      cursors := cursors + [next];
      cursor := next;
      seenCursors := seenCursors + {next};
    }
    TooLong(provider, normalize, cursors);
    return Err(Upstream), calls;
  }

  lemma RefusedPage(provider: Provider, normalize: Normalizer, cursors: seq<Bytes>, items: seq<Item>)
    requires Chain(provider, normalize, cursors)
    requires var n := |cursors| - 1;
             && (forall k :: 0 <= k < n ==> Usable(provider, normalize, k, cursors[k]))
             && items == Walk(provider, normalize, cursors, n)
             && provider(n, cursors[n]).Ok?
             && !(NormalizesAll(normalize, provider(n, cursors[n]).value.items)
                  && UniqueIds(items + Normalized(normalize, provider(n, cursors[n]).value.items)))
    ensures forall c :: !Complete(provider, normalize, c)
  {
    if Usable(provider, normalize, |cursors| - 1, cursors[|cursors| - 1]) {
      RepeatedItem(provider, normalize, cursors);
    } else {
      UnusableAnswer(provider, normalize, cursors);
    }
  }

  lemma Extends(provider: Provider, normalize: Normalizer, cursors: seq<Bytes>, next: Bytes)
    requires Chain(provider, normalize, cursors) && next != []
    requires Usable(provider, normalize, |cursors| - 1, cursors[|cursors| - 1])
    requires provider(|cursors| - 1, cursors[|cursors| - 1]).value.next == next
    ensures Chain(provider, normalize, cursors + [next])
  {
    var longer := cursors + [next];
    forall n | 0 <= n < |longer| - 1 ensures Linked(provider, normalize, longer, n) {
      if n < |cursors| - 1 {
        assert Linked(provider, normalize, cursors, n);
      }
    }
  }
}
