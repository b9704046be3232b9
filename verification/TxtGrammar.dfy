/**
  The language of quoted TXT values, by how its texts are put together, and the proof that the parser
  accepts exactly that language with exactly that meaning.
 */
module TxtGrammar {
  import opened Wrappers
  import opened Utf8
  import opened Txt

  /** One byte of a character string: as it is, after a backslash, or as three digits after a backslash. */
  datatype Piece = Plain(b: byte) | Escape(b: byte) | Number(b: byte)

  function Printed(piece: Piece): Bytes {
    match piece
    case Plain(b) => [b]
    case Escape(b) => [0x5C, b]
    case Number(b) => [0x5C, 0x30 + b / 100, 0x30 + b / 10 % 10, 0x30 + b % 10]
  }

  function Text(pieces: seq<Piece>): Bytes {
    if pieces == [] then [] else Printed(pieces[0]) + Text(pieces[1..])
  }

  function Meaning(pieces: seq<Piece>): (r: Bytes)
    ensures |r| == |pieces| && forall i :: 0 <= i < |r| ==> r[i] == pieces[i].b
  {
    seq(|pieces|, i requires 0 <= i < |pieces| => pieces[i].b)
  }

  predicate Digits(text: Bytes) {
    |text| >= 2 && 0x30 <= text[0] <= 0x39 && 0x30 <= text[1] <= 0x39
  }

  /** Quotes and backslashes are escaped, and an escaped digit is not the first of three. */
  predicate Proper(pieces: seq<Piece>) {
    pieces == [] || (Proper(pieces[1..]) && ProperBefore(pieces[0], Text(pieces[1..])))
  }

  predicate ProperBefore(piece: Piece, text: Bytes) {
    match piece
    case Plain(b) => b != 0x22 && b != 0x5C
    case Escape(b) => 0x30 <= b <= 0x39 ==> !Digits(text)
    case Number(_) => true
  }

  // ---------------------------------------------------------------- one character string

  /** `s` is a spelled string with its closing quote, and then `rest`. */
  predicate Spells(s: Bytes, pieces: seq<Piece>, rest: Bytes) {
    Proper(pieces) && s == Text(pieces) + [0x22] + rest
  }

  function FirstPiece(s: Bytes): (r: (Piece, Bytes))
    requires ParseSegment(s).Ok? && s[0] != QUOTE
    ensures |r.1| < |s| && ParseSegment(r.1).Ok?
  {
    if s[0] != BACKSLASH then (Plain(s[0]), s[1..])
    else if IsDecimalEscape(s) then (Number(DecimalValue(s)), s[4..])
    else (Escape(s[1]), s[2..])
  }

  /** The pieces the parser reads. */
  function Reading(s: Bytes): seq<Piece>
    requires ParseSegment(s).Ok?
    decreases |s|
  {
    if s[0] == QUOTE then [] else [FirstPiece(s).0] + Reading(FirstPiece(s).1)
  }

  lemma ThreeDigits(s: Bytes)
    requires IsDecimalEscape(s) && DecimalValue(s) <= 255
    ensures s == Printed(Number(DecimalValue(s))) + s[4..]
  {
    var a, b, c := s[1] - 0x30, s[2] - 0x30, s[3] - 0x30;
    var value := DecimalValue(s);
    assert value == 100 * a + 10 * b + c;
    assert value / 100 == a && value % 10 == c;
    assert value / 10 == 10 * a + b;
    assert s == s[..4] + s[4..] && s[..4] == [s[0], s[1], s[2], s[3]];
  }

  lemma FirstIsPrinted(s: Bytes)
    requires ParseSegment(s).Ok? && s[0] != QUOTE
    ensures s == Printed(FirstPiece(s).0) + FirstPiece(s).1
  {
    if s[0] == BACKSLASH {
      if IsDecimalEscape(s) {
        ThreeDigits(s);
      } else {
        assert s == s[..2] + s[2..] && s[..2] == [s[0], s[1]];
      }
    }
  }

  lemma FirstIsRead(s: Bytes)
    requires ParseSegment(s).Ok? && s[0] != QUOTE
    ensures ParseSegment(s) == PrependSegment([FirstPiece(s).0.b], ParseSegment(FirstPiece(s).1))
  {
  }

  lemma FirstIsProper(s: Bytes, text: Bytes, rest: Bytes)
    requires ParseSegment(s).Ok? && s[0] != QUOTE && FirstPiece(s).1 == text + [0x22] + rest
    ensures ProperBefore(FirstPiece(s).0, text)
  {
    var (piece, after) := FirstPiece(s);
    if piece.Escape? && Digits(text) {
      assert s[2] == after[0] == text[0] && s[3] == after[1] == text[1];
    }
  }

  lemma OneMorePiece(piece: Piece, pieces: seq<Piece>, rest: Bytes)
    requires Proper(pieces) && ProperBefore(piece, Text(pieces))
    ensures Spells(Printed(piece) + (Text(pieces) + [0x22] + rest), [piece] + pieces, rest)
    ensures Meaning([piece] + pieces) == [piece.b] + Meaning(pieces)
  {
    var longer := [piece] + pieces;
    assert longer[1..] == pieces;
    assert Text(longer) == Printed(piece) + Text(pieces);
    assert Printed(piece) + (Text(pieces) + [0x22] + rest) == (Printed(piece) + Text(pieces)) + [0x22] + rest;
  }

  lemma {:induction false} ReadingSpells(s: Bytes)
    requires ParseSegment(s).Ok?
    ensures Spells(s, Reading(s), ParseSegment(s).value.rest)
    ensures ParseSegment(s).value.content == Meaning(Reading(s))
    decreases |s|
  {
    if s[0] == QUOTE {
      assert s == [] + [0x22] + s[1..];
    } else {
      var (piece, after) := FirstPiece(s);
      FirstIsPrinted(s);
      FirstIsRead(s);
      ReadingSpells(after);
      FirstIsProper(s, Text(Reading(after)), ParseSegment(s).value.rest);
      OneMorePiece(piece, Reading(after), ParseSegment(s).value.rest);
    }
  }

  lemma NumberIsRead(b: byte, after: Bytes)
    ensures var s := Printed(Number(b)) + after;
            IsDecimalEscape(s) && DecimalValue(s) == b && s[4..] == after
  {
  }

  lemma EscapeIsRead(b: byte, text: Bytes, rest: Bytes)
    requires ProperBefore(Escape(b), text)
    ensures var s := Printed(Escape(b)) + (text + [0x22] + rest);
            !IsDecimalEscape(s) && s[1] == b && s[2..] == text + [0x22] + rest
  {
    var after := text + [0x22] + rest;
    assert |text| < 2 ==> after[|text|] == 0x22;
  }

  lemma {:induction false} SpelledIsRead(pieces: seq<Piece>, rest: Bytes)
    requires Proper(pieces)
    ensures ParseSegment(Text(pieces) + [0x22] + rest) == Ok(Segment(Meaning(pieces), rest))
  {
    var s := Text(pieces) + [0x22] + rest;
    if pieces == [] {
      assert s[1..] == rest;
    } else {
      var after := Text(pieces[1..]) + [0x22] + rest;
      SpelledIsRead(pieces[1..], rest);
      assert s == Printed(pieces[0]) + after;
      assert [pieces[0].b] + Meaning(pieces[1..]) == Meaning(pieces);
      match pieces[0]
      case Plain(b) => assert s[1..] == after;
      case Number(b) => NumberIsRead(b, after);
      case Escape(b) => EscapeIsRead(b, Text(pieces[1..]), rest);
    }
  }

  /** The parser reads a string exactly as it is spelled. */
  lemma SegmentIff(s: Bytes, content: Bytes, rest: Bytes)
    ensures ParseSegment(s) == Ok(Segment(content, rest))
            <==> exists pieces :: Spells(s, pieces, rest) && content == Meaning(pieces)
  {
    if ParseSegment(s).Ok? {
      ReadingSpells(s);
    }
    forall pieces | Spells(s, pieces, rest) ensures ParseSegment(s) == Ok(Segment(Meaning(pieces), rest)) {
      SpelledIsRead(pieces, rest);
    }
  }

  // ---------------------------------------------------------------- lists of character strings

  /** A quoted string with the blanks before it. */
  datatype Item = Item(blanks: Bytes, pieces: seq<Piece>)

  predicate Blank(text: Bytes) {
    forall i :: 0 <= i < |text| ==> text[i] == 0x20 || text[i] == 0x09
  }

  predicate ProperItem(item: Item) {
    Blank(item.blanks) && Proper(item.pieces) && |item.pieces| <= 255
  }

  predicate ProperItems(items: seq<Item>) {
    forall i :: 0 <= i < |items| ==> ProperItem(items[i])
  }

  function ItemText(item: Item): Bytes {
    item.blanks + [0x22] + Text(item.pieces) + [0x22]
  }

  function ItemsText(items: seq<Item>): Bytes {
    if items == [] then [] else ItemText(items[0]) + ItemsText(items[1..])
  }

  function ItemsMeaning(items: seq<Item>): Bytes {
    if items == [] then [] else Meaning(items[0].pieces) + ItemsMeaning(items[1..])
  }

  /** `s` lists these strings and ends in blanks. */
  predicate Lists(s: Bytes, items: seq<Item>, blanks: Bytes) {
    ProperItems(items) && Blank(blanks) && s == ItemsText(items) + blanks
  }

  lemma {:induction false} BlanksAreSkipped(blanks: Bytes, after: Bytes)
    requires Blank(blanks) && (after == [] || (after[0] != 0x20 && after[0] != 0x09))
    ensures SkipBlanks(blanks + after) == after
  {
    if blanks == [] {
      assert blanks + after == after;
    } else {
      BlanksAreSkipped(blanks[1..], after);
      assert (blanks + after)[1..] == blanks[1..] + after;
    }
  }

  lemma {:induction false} SkippedAreBlanks(s: Bytes)
    ensures Blank(s[..|s| - |SkipBlanks(s)|]) && s[|s| - |SkipBlanks(s)|..] == SkipBlanks(s)
  {
    if s != [] && (s[0] == SPACE || s[0] == TAB) {
      SkippedAreBlanks(s[1..]);
      var n := |s| - |SkipBlanks(s)|;
      assert s[..n] == [s[0]] + s[1..][..n - 1];
      assert s[n..] == s[1..][n - 1..];
    } else {
      assert s[..0] == [] && s[0..] == s;
    }
  }

  lemma FirstItemIsRead(item: Item, after: Bytes)
    requires ProperItem(item)
    ensures ParseSegments(ItemText(item) + after) == Prepend(Meaning(item.pieces), ParseSegments(after))
  {
    var quoted := [0x22] + (Text(item.pieces) + [0x22] + after);
    assert ItemText(item) + after == item.blanks + quoted;
    BlanksAreSkipped(item.blanks, quoted);
    assert quoted[1..] == Text(item.pieces) + [0x22] + after;
    SpelledIsRead(item.pieces, after);
  }

  lemma {:induction false} ListedIsRead(items: seq<Item>, blanks: Bytes)
    requires ProperItems(items) && Blank(blanks)
    ensures ParseSegments(ItemsText(items) + blanks) == Ok(ItemsMeaning(items))
  {
    var s := ItemsText(items) + blanks;
    if items == [] {
      BlanksAreSkipped(blanks, []);
      assert s == blanks + [];
    } else {
      assert ProperItem(items[0]);
      assert s == ItemText(items[0]) + (ItemsText(items[1..]) + blanks);
      FirstItemIsRead(items[0], ItemsText(items[1..]) + blanks);
      assert forall i :: 0 <= i < |items| - 1 ==> items[1..][i] == items[i + 1];
      ListedIsRead(items[1..], blanks);
    }
  }

  lemma Regroup(gap: Bytes, text: Bytes, items: Bytes, blanks: Bytes)
    ensures gap + ([0x22] + (text + [0x22] + (items + blanks))) == (gap + [0x22] + text + [0x22]) + items + blanks
  {
  }

  lemma OneMore(s: Bytes, gap: Bytes, pieces: seq<Piece>, rest: Bytes, more: seq<Item>, blanks: Bytes)
    requires Blank(gap) && Proper(pieces) && |pieces| <= 255 && Lists(rest, more, blanks)
    requires s == gap + ([0x22] + (Text(pieces) + [0x22] + rest))
    ensures Lists(s, [Item(gap, pieces)] + more, blanks)
    ensures ItemsMeaning([Item(gap, pieces)] + more) == Meaning(pieces) + ItemsMeaning(more)
  {
    var items := [Item(gap, pieces)] + more;
    assert items[1..] == more;
    assert ItemsText(items) == ItemText(Item(gap, pieces)) + ItemsText(more);
    Regroup(gap, Text(pieces), ItemsText(more), blanks);
  }

  lemma {:induction false} ReadIsListed(s: Bytes) returns (items: seq<Item>, blanks: Bytes)
    requires ParseSegments(s).Ok?
    ensures Lists(s, items, blanks) && ParseSegments(s).value == ItemsMeaning(items)
    decreases |s|
  {
    var t := SkipBlanks(s);
    SkippedAreBlanks(s);
    var gap := s[..|s| - |t|];
    assert s == gap + t;
    if t == [] {
      items, blanks := [], s;
      assert gap == s;
    } else {
      var segment := ParseSegment(t[1..]).value;
      ReadingSpells(t[1..]);
      var more, last := ReadIsListed(segment.rest);
      assert t == [0x22] + t[1..];
      OneMore(s, gap, Reading(t[1..]), segment.rest, more, last);
      items, blanks := [Item(gap, Reading(t[1..]))] + more, last;
    }
  }

  /** The parser accepts exactly the lists of spelled strings, each of at most 255 bytes, and concatenates them. */
  lemma SegmentsIff(s: Bytes, value: Bytes)
    ensures ParseSegments(s) == Ok(value)
            <==> exists items, blanks :: Lists(s, items, blanks) && value == ItemsMeaning(items)
  {
    if ParseSegments(s).Ok? {
      var items, blanks := ReadIsListed(s);
    }
    forall items, blanks | Lists(s, items, blanks) ensures ParseSegments(s) == Ok(ItemsMeaning(items)) {
      ListedIsRead(items, blanks);
    }
  }

  /** What canonicalizing accepts, and what it returns. */
  lemma CanonicalIff(text: Bytes, value: Bytes)
    ensures Canonical(text) == Ok(value)
            <==> && Valid(text) && (forall b :: b in text ==> b != 0 && b != 10 && b != 13)
                 && Valid(value) && |value| <= 65535
                 && if TrimSpace(text) != [] && TrimSpace(text)[0] == 0x22
                    then exists items, blanks :: Lists(TrimSpace(text), items, blanks) && value == ItemsMeaning(items)
                    else value == text
  {
    SegmentsIff(TrimSpace(text), value);
  }
}
