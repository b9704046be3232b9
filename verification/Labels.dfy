/** Texts divided by dots: DNS names and their labels. */
module Labels {
  import opened Wrappers
  import opened Utf8

  const DOT: byte := 0x2E

  function Split(text: Bytes): (r: seq<Bytes>)
    ensures r != []
  {
    if text == [] then [[]]
    else
      var rest := Split(text[1..]);
      if text[0] == DOT then [[]] + rest else [[text[0]] + rest[0]] + rest[1..]
  }

  function Join(labels: seq<Bytes>): Bytes
    requires labels != []
  {
    if |labels| == 1 then labels[0] else labels[0] + [DOT] + Join(labels[1..])
  }

  function Consed(c: byte, labels: seq<Bytes>): seq<Bytes>
    requires labels != []
  {
    if c == DOT then [[]] + labels else [[c] + labels[0]] + labels[1..]
  }

  lemma SplitCons(c: byte, text: Bytes)
    ensures Split([c] + text) == Consed(c, Split(text))
  {
    assert ([c] + text)[1..] == text;
  }

  lemma ConsedAppends(c: byte, left: seq<Bytes>, right: seq<Bytes>)
    requires left != []
    ensures Consed(c, left + right) == Consed(c, left) + right
  {
    assert (left + right)[1..] == left[1..] + right;
  }

  lemma {:induction false} SplitAppends(head: Bytes, rest: Bytes)
    ensures Split(head + [DOT] + rest) == Split(head) + Split(rest)
  {
    if head == [] {
      SplitCons(DOT, rest);
      assert [] + [DOT] + rest == [DOT] + rest;
    } else {
      SplitAppends(head[1..], rest);
      SplitCons(head[0], head[1..] + [DOT] + rest);
      SplitCons(head[0], head[1..]);
      ConsedAppends(head[0], Split(head[1..]), Split(rest));
      assert [head[0]] + head[1..] == head;
      assert [head[0]] + (head[1..] + [DOT] + rest) == head + [DOT] + rest;
    }
  }

  lemma {:induction false} JoinOfSplit(text: Bytes)
    ensures Join(Split(text)) == text
  {
    if text != [] {
      var rest := Split(text[1..]);
      JoinOfSplit(text[1..]);
      if text[0] == DOT {
        assert ([[]] + rest)[1..] == rest;
      } else if |rest| > 1 {
        assert ([[text[0]] + rest[0]] + rest[1..])[1..] == rest[1..];
      }
    }
  }

  lemma {:induction false} SplitLabel(piece: Bytes, rest: Bytes)
    requires forall i :: 0 <= i < |piece| ==> piece[i] != DOT
    ensures Split(piece) == [piece]
    ensures Split(piece + [DOT] + rest) == [piece] + Split(rest)
  {
    var text := piece + [DOT] + rest;
    if piece == [] {
      assert text[1..] == rest;
    } else {
      SplitLabel(piece[1..], rest);
      assert text[1..] == piece[1..] + [DOT] + rest;
      assert [piece[0]] + piece[1..] == piece;
    }
  }

  lemma {:induction false} JoinAppends(left: seq<Bytes>, right: seq<Bytes>)
    requires left != [] && right != []
    ensures Join(left + right) == Join(left) + [DOT] + Join(right)
  {
    if |left| == 1 {
      assert (left + right)[1..] == right;
    } else {
      JoinAppends(left[1..], right);
      assert (left + right)[1..] == left[1..] + right;
    }
  }

  lemma {:induction false} PiecesAreShort(text: Bytes)
    ensures forall i :: 0 <= i < |Split(text)| ==> |Split(text)[i]| <= |text|
  {
    if text != [] {
      PiecesAreShort(text[1..]);
    }
  }

  /** No two dots stand together, and none stands at an end. */
  predicate NoEmptyLabel(name: Bytes) {
    [] !in Split(name)
  }

  lemma WholeAppends(head: Bytes, rest: Bytes)
    ensures NoEmptyLabel(head + [DOT] + rest) <==> NoEmptyLabel(head) && NoEmptyLabel(rest)
  {
    SplitAppends(head, rest);
  }

  /** A name without empty labels does not end in a dot. */
  lemma WholeEndsPlainly(text: Bytes)
    requires NoEmptyLabel(text)
    ensures text != [] && text[|text| - 1] != DOT
  {
    if text != [] && text[|text| - 1] == DOT {
      var front := text[..|text| - 1];
      assert front + [DOT] + [] == text;
      WholeAppends(front, []);
    }
  }

  /** What canonicalizing a canonical name gives: the name, the name without its final dot, or nothing. */
  function Recanonical(name: Bytes): Option<Bytes> {
    if NoEmptyLabel(name) then Some(name)
    else if name != [] && name[|name| - 1] == DOT && NoEmptyLabel(name[..|name| - 1]) then Some(name[..|name| - 1])
    else None
  }

  /** Below a zone an empty label is never last, unless the zone's own name ends in a dot. */
  lemma RecanonicalBelow(head: Bytes, zone: Bytes)
    requires zone != [] && Recanonical(head + [DOT] + zone).Some?
    ensures var r := Recanonical(head + [DOT] + zone).value;
            && NoEmptyLabel(r)
            && if NoEmptyLabel(zone) then r == head + [DOT] + zone
               else zone[|zone| - 1] == DOT && r == head + [DOT] + zone[..|zone| - 1]
  {
    var name := head + [DOT] + zone;
    WholeAppends(head, zone);
    assert name[|name| - 1] == zone[|zone| - 1];
    if NoEmptyLabel(zone) {
      WholeEndsPlainly(zone);
    } else {
      assert name[..|name| - 1] == head + [DOT] + zone[..|zone| - 1];
    }
  }
}
