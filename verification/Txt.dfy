/**
  TXT values: the parser of quoted, escaped, multi-segment character strings
  (sections 3.3 and 5.1 of RFC 1035) and the printer that is its inverse.
 */
module Txt {
  import opened Wrappers
  import opened Utf8

  const MAXIMUM_TXT_BYTES: nat := 65535
  const MAXIMUM_SEGMENT_BYTES: nat := 255
  const QUOTE: byte := 0x22
  const BACKSLASH: byte := 0x5C
  const SPACE: byte := 0x20
  const TAB: byte := 0x09
  const DIGIT_ZERO: byte := 0x30

  datatype Error =
    | ValueInvalid
    | TooLarge
    | SegmentsInvalid
    | SegmentInvalid
    | EscapeIncomplete
    | DecimalInvalid

  type Parsed = Result<Bytes, Error>

  /** A segment's decoded bytes and what follows its closing quote. */
  datatype Segment = Segment(content: Bytes, rest: Bytes)

  predicate IsDigit(b: byte) {
    0x30 <= b <= 0x39
  }

  predicate IsLineControl(b: byte) {
    b == 0 || b == 0x0A || b == 0x0D
  }

  /** The guard at the head of the parser: well-formed text without NUL, CR and LF. */
  predicate Acceptable(value: Bytes) {
    Valid(value) && forall b :: b in value ==> !IsLineControl(b)
  }

  predicate StartsQuoted(value: Bytes) {
    var trimmed := TrimSpace(value);
    trimmed != [] && trimmed[0] == QUOTE
  }

  // ---------------------------------------------------------------- what the parser computes

  function SkipBlanks(s: Bytes): (r: Bytes)
    ensures |r| <= |s|
  {
    if s != [] && (s[0] == SPACE || s[0] == TAB) then SkipBlanks(s[1..]) else s
  }

  predicate IsDecimalEscape(s: Bytes) {
    |s| >= 4 && s[0] == BACKSLASH && IsDigit(s[1]) && IsDigit(s[2]) && IsDigit(s[3])
  }

  function DecimalValue(s: Bytes): nat
    requires IsDecimalEscape(s)
  {
    (s[1] - DIGIT_ZERO) * 100 + (s[2] - DIGIT_ZERO) * 10 + (s[3] - DIGIT_ZERO)
  }

  function PrependSegment(head: Bytes, tail: Result<Segment, Error>): Result<Segment, Error> {
    match tail
    case Ok(segment) => Ok(Segment(head + segment.content, segment.rest))
    case Err(error) => Err(error)
  }

  function Prepend(head: Bytes, tail: Parsed): Parsed {
    match tail
    case Ok(value) => Ok(head + value)
    case Err(error) => Err(error)
  }

  /** Reads one segment; `s` begins just after the opening quote. */
  function ParseSegment(s: Bytes): (r: Result<Segment, Error>)
    ensures r.Ok? ==> |r.value.rest| < |s|
    decreases |s|
  {
    if s == [] then Err(SegmentInvalid)
    else if s[0] == QUOTE then Ok(Segment([], s[1..]))
    else if s[0] != BACKSLASH then PrependSegment([s[0]], ParseSegment(s[1..]))
    else if |s| == 1 then Err(EscapeIncomplete)
    else if IsDecimalEscape(s) then
      var decimal := DecimalValue(s);
      if decimal > 255 then Err(DecimalInvalid) else PrependSegment([decimal], ParseSegment(s[4..]))
    else PrependSegment([s[1]], ParseSegment(s[2..]))
  }

  function ParseSegments(s: Bytes): Parsed
    decreases |s|
  {
    var t := SkipBlanks(s);
    if t == [] then Ok([])
    else if t[0] != QUOTE then Err(SegmentsInvalid)
    else match ParseSegment(t[1..])
      case Err(error) => Err(error)
      case Ok(segment) =>
        if |segment.content| > MAXIMUM_SEGMENT_BYTES then Err(SegmentInvalid)
        else Prepend(segment.content, ParseSegments(segment.rest))
  }

  function Canonical(value: Bytes): Parsed {
    if !Acceptable(value) then Err(ValueInvalid)
    else if !StartsQuoted(value) then
      if |value| > MAXIMUM_TXT_BYTES then Err(TooLarge) else Ok(value)
    else match ParseSegments(TrimSpace(value))
      case Err(error) => Err(error)
      case Ok(result) =>
        if |result| > MAXIMUM_TXT_BYTES || !Valid(result) then Err(TooLarge) else Ok(result)
  }

  // ---------------------------------------------------------------- the parser

  /** Reads the escape at `position`, which is just after a backslash, and returns the position after it. */
  method ScanEscape(trimmed: Bytes, position: nat) returns (decoded: Bytes, next: nat, failure: Option<Error>)
    requires 0 < position <= |trimmed| && trimmed[position - 1] == BACKSLASH
    ensures position <= next <= |trimmed| && (failure.None? ==> position < next)
    ensures match failure
      case None => ParseSegment(trimmed[position - 1..]) == PrependSegment(decoded, ParseSegment(trimmed[next..]))
      case Some(error) => ParseSegment(trimmed[position - 1..]) == Err(error)
  {
    ghost var s := trimmed[position - 1..];
    decoded, next, failure := [], position, None;
    if position >= |trimmed| {
      failure := Some(EscapeIncomplete);
    } else if position + 2 < |trimmed| && IsDigit(trimmed[position]) && IsDigit(trimmed[position + 1])
              && IsDigit(trimmed[position + 2]) {
      var decimal := (trimmed[position] - DIGIT_ZERO) * 100 + (trimmed[position + 1] - DIGIT_ZERO) * 10
                     + (trimmed[position + 2] - DIGIT_ZERO);
      assert IsDecimalEscape(s) && DecimalValue(s) == decimal;
      if decimal > 255 {
        failure := Some(DecimalInvalid);
      } else {
        decoded, next := [decimal], position + 3;
        assert trimmed[next..] == s[4..];
      }
    } else {
      decoded, next := [trimmed[position]], position + 1;
      assert !IsDecimalEscape(s) && trimmed[next..] == s[2..];
    }
  }

  /** One segment of `trimmed`, read from `start` (just after its opening quote). */
  method ScanSegment(trimmed: Bytes, start: nat) returns (content: Bytes, position: nat, failure: Option<Error>)
    requires start <= |trimmed|
    ensures position <= |trimmed|
    ensures match failure
      case None => ParseSegment(trimmed[start..]) == Ok(Segment(content, trimmed[position..]))
      case Some(error) => ParseSegment(trimmed[start..]) == Err(error)
  {
    content, position := [], start;
    PrependNone(ParseSegment(trimmed[start..]));
    while position < |trimmed|
      invariant start <= position <= |trimmed|
      invariant ParseSegment(trimmed[start..]) == PrependSegment(content, ParseSegment(trimmed[position..]))
      decreases |trimmed| - position
    {
      var character := trimmed[position];
      ghost var s := trimmed[position..];
      assert s[0] == character && s[1..] == trimmed[position + 1..];
      position := position + 1;
      if character == QUOTE {
        assert content + [] == content;
        return content, position, None;
      }
      if character != BACKSLASH {
        PrependTwice(content, [character], ParseSegment(trimmed[position..]));
        content := content + [character];
      } else {
        var decoded, next, error := ScanEscape(trimmed, position);
        if error.Some? {
          return content, position, error;
        }
        PrependTwice(content, decoded, ParseSegment(trimmed[next..]));
        content, position := content + decoded, next;
      }
    }
    failure := Some(SegmentInvalid);
  }

  lemma PrependNone(tail: Result<Segment, Error>)
    ensures PrependSegment([], tail) == tail
  {
    if tail.Ok? {
      assert [] + tail.value.content == tail.value.content;
    }
  }

  lemma PrependTwice(a: Bytes, b: Bytes, tail: Result<Segment, Error>)
    ensures PrependSegment(a, PrependSegment(b, tail)) == PrependSegment(a + b, tail)
  {
    if tail.Ok? {
      assert a + (b + tail.value.content) == (a + b) + tail.value.content;
    }
  }

  method ScanBlanks(trimmed: Bytes, start: nat) returns (position: nat)
    requires start <= |trimmed|
    ensures start <= position <= |trimmed|
    ensures SkipBlanks(trimmed[start..]) == trimmed[position..]
    ensures position < |trimmed| ==> trimmed[position] != SPACE && trimmed[position] != TAB
  {
    position := start;
    while position < |trimmed| && (trimmed[position] == SPACE || trimmed[position] == TAB)
      invariant start <= position <= |trimmed|
      invariant SkipBlanks(trimmed[start..]) == SkipBlanks(trimmed[position..])
    {
      assert trimmed[position..][1..] == trimmed[position + 1..];
      position := position + 1;
    }
  }

  method ScanSegments(trimmed: Bytes) returns (r: Parsed)
    ensures r == ParseSegments(trimmed)
  {
    var result: Bytes := [];
    var position := 0;
    assert trimmed[0..] == trimmed;
    PrependNothing(ParseSegments(trimmed));
    while position < |trimmed|
      invariant position <= |trimmed|
      invariant ParseSegments(trimmed) == Prepend(result, ParseSegments(trimmed[position..]))
      decreases |trimmed| - position
    {
      ghost var s := trimmed[position..];
      position := ScanBlanks(trimmed, position);
      ghost var t := trimmed[position..];
      assert SkipBlanks(s) == t;
      if position == |trimmed| {
        break;
      }
      if trimmed[position] != QUOTE {
        return Err(SegmentsInvalid);
      }
      assert t[1..] == trimmed[position + 1..];
      var content, next, failure := ScanSegment(trimmed, position + 1);
      if failure.Some? {
        return Err(failure.value);
      }
      if |content| > MAXIMUM_SEGMENT_BYTES {
        return Err(SegmentInvalid);
      }
      PrependBoth(result, content, ParseSegments(trimmed[next..]));
      assert |trimmed[next..]| < |t[1..]|;
      result := result + content;
      position := next;
    }
    assert ParseSegments(trimmed[position..]) == Ok([]);
    assert result + [] == result;
    return Ok(result);
  }

  lemma PrependNothing(tail: Parsed)
    ensures Prepend([], tail) == tail
  {
    if tail.Ok? {
      assert [] + tail.value == tail.value;
    }
  }

  lemma PrependBoth(a: Bytes, b: Bytes, tail: Parsed)
    ensures Prepend(a, Prepend(b, tail)) == Prepend(a + b, tail)
  {
    if tail.Ok? {
      assert a + (b + tail.value) == (a + b) + tail.value;
    }
  }

  method CanonicalizeTXT(value: Bytes) returns (r: Parsed)
    ensures r == Canonical(value)
  {
    if !Valid(value) || exists b :: b in value && IsLineControl(b) {
      return Err(ValueInvalid);
    }
    var trimmed := TrimSpace(value);
    if trimmed == [] || trimmed[0] != QUOTE {
      if |value| > MAXIMUM_TXT_BYTES {
        return Err(TooLarge);
      }
      return Ok(value);
    }
    r := ScanSegments(trimmed);
    if r.Ok? && (|r.value| > MAXIMUM_TXT_BYTES || !Valid(r.value)) {
      return Err(TooLarge);
    }
  }

  // ---------------------------------------------------------------- the printer

  function Escaped(character: byte): (r: Bytes)
    ensures forall b :: b in r ==> !IsLineControl(b)
  {
    if character == QUOTE || character == BACKSLASH then [BACKSLASH, character]
    else if character < 0x20 || character == 0x7F then
      [BACKSLASH, DIGIT_ZERO + character / 100, DIGIT_ZERO + character / 10 % 10, DIGIT_ZERO + character % 10]
    else [character]
  }

  function EscapedBody(value: Bytes): (r: Bytes)
    ensures forall b :: b in r ==> !IsLineControl(b)
  {
    if value == [] then [] else Escaped(value[0]) + EscapedBody(value[1..])
  }

  /** A quoted character string. */
  function Quoted(body: Bytes): Bytes {
    [QUOTE] + body + [QUOTE]
  }

  /** Printed segments separated by single spaces. */
  function Joined(segments: seq<Bytes>): Bytes
    requires segments != []
  {
    if |segments| == 1 then segments[0] else segments[0] + [SPACE] + Joined(segments[1..])
  }

  function QuotedAll(bodies: seq<Bytes>): (r: seq<Bytes>)
    ensures |r| == |bodies|
  {
    if bodies == [] then [] else [Quoted(bodies[0])] + QuotedAll(bodies[1..])
  }

  function EscapedAll(values: seq<Bytes>): (r: seq<Bytes>)
    ensures |r| == |values|
  {
    if values == [] then [] else [EscapedBody(values[0])] + EscapedAll(values[1..])
  }

  method WireTXTContent(value: Bytes) returns (result: Bytes)
    ensures result == Quoted(EscapedBody(value))
  {
    result := [QUOTE];
    var index := 0;
    while index < |value|
      invariant index <= |value|
      invariant result + EscapedBody(value[index..]) == [QUOTE] + EscapedBody(value)
    {
      var character := value[index];
      ghost var tail := EscapedBody(value[index + 1..]);
      assert value[index..][1..] == value[index + 1..];
      assert result + (Escaped(character) + tail) == (result + Escaped(character)) + tail;
      if character == QUOTE || character == BACKSLASH {
        result := result + [BACKSLASH, character];
      } else if character < 0x20 || character == 0x7F {
        result := result + [BACKSLASH, DIGIT_ZERO + character / 100, DIGIT_ZERO + character / 10 % 10,
                            DIGIT_ZERO + character % 10];
      } else {
        result := result + [character];
      }
      index := index + 1;
    }
    assert result == [QUOTE] + EscapedBody(value);
    result := result + [QUOTE];
  }

  // ---------------------------------------------------------------- printer and parser are inverse

  lemma ParseEscapedByte(character: byte, tail: Bytes)
    ensures ParseSegment(Escaped(character) + tail) == PrependSegment([character], ParseSegment(tail))
  {
    var head := Escaped(character);
    var s := head + tail;
    assert s[|head|..] == tail;
    assert s[0] == head[0];
    if |head| >= 2 {
      assert s[1] == head[1];
    }
    if |head| == 4 {
      assert s[2] == head[2] && s[3] == head[3];
      assert DecimalValue(s) == character;
    }
  }

  lemma {:induction false} ParseEscaped(value: Bytes, rest: Bytes)
    ensures ParseSegment(EscapedBody(value) + [QUOTE] + rest) == Ok(Segment(value, rest))
  {
    var s := EscapedBody(value) + [QUOTE] + rest;
    if value == [] {
      assert s == [QUOTE] + rest && s[1..] == rest;
    } else {
      var tail := EscapedBody(value[1..]) + [QUOTE] + rest;
      assert s == Escaped(value[0]) + tail;
      ParseEscapedByte(value[0], tail);
      ParseEscaped(value[1..], rest);
      assert [value[0]] + value[1..] == value;
    }
  }

  lemma {:induction false} ValidEscaped(value: Bytes)
    requires Valid(value)
    ensures Valid(EscapedBody(value))
    decreases |value|
  {
    if value != [] {
      var n := RuneLength(value);
      ValidEscaped(value[n..]);
      if n == 1 {
        ValidAscii(Escaped(value[0]));
        ValidConcat(Escaped(value[0]), EscapedBody(value[1..]));
      } else {
        EscapedAbove(value, n);
        RuneOfTake(value, n);
        assert Valid(value[..n]) by { assert value[..n][n..] == []; }
        ValidConcat(value[..n], EscapedBody(value[n..]));
      }
    }
  }

  /** Bytes above 0x7F are printed as they are. */
  lemma {:induction false} EscapedConcat(a: Bytes, b: Bytes)
    ensures EscapedBody(a + b) == EscapedBody(a) + EscapedBody(b)
  {
    if a == [] {
      assert a + b == b;
    } else {
      var whole := a + b;
      assert whole[0] == a[0] && whole[1..] == a[1..] + b;
      EscapedConcat(a[1..], b);
    }
  }

  lemma {:induction false} EscapedPlain(a: Bytes)
    requires forall i :: 0 <= i < |a| ==> a[i] >= 0x80
    ensures EscapedBody(a) == a
  {
    if a != [] {
      EscapedPlain(a[1..]);
    }
  }

  lemma EscapedAbove(value: Bytes, n: nat)
    requires n <= |value| && forall i :: 0 <= i < n ==> value[i] >= 0x80
    ensures EscapedBody(value) == value[..n] + EscapedBody(value[n..])
  {
    assert value == value[..n] + value[n..];
    EscapedConcat(value[..n], value[n..]);
    EscapedPlain(value[..n]);
  }

  lemma {:induction false} AboveIsUnchanged(value: Bytes, n: nat)
    requires n <= |EscapedBody(value)| && forall i :: 0 <= i < n ==> EscapedBody(value)[i] >= 0x80
    ensures n <= |value| && value[..n] == EscapedBody(value)[..n]
  {
    if n > 0 {
      var s := EscapedBody(value);
      assert s[0] == Escaped(value[0])[0];
      assert Escaped(value[0]) == [value[0]];
      var tail := EscapedBody(value[1..]);
      assert s == [value[0]] + tail;
      assert forall i :: 0 <= i < n - 1 ==> tail[i] == s[i + 1];
      AboveIsUnchanged(value[1..], n - 1);
      assert value[..n] == [value[0]] + value[1..][..n - 1];
    }
  }

  lemma ValidAfterEscape(character: byte, tail: Bytes)
    requires character < 0x80 && Valid(Escaped(character) + tail)
    ensures Valid(tail)
  {
    var head := Escaped(character);
    var n := |head| - 1;
    assert head + tail == head[..n] + [head[n]] + tail;
    ValidSplit(head[..n], head[n], tail);
  }

  lemma {:induction false} ValidUnescaped(value: Bytes)
    requires Valid(EscapedBody(value))
    ensures Valid(value)
    decreases |value|
  {
    if value != [] {
      var s := EscapedBody(value);
      if value[0] < 0x80 {
        ValidAfterEscape(value[0], EscapedBody(value[1..]));
        ValidUnescaped(value[1..]);
      } else {
        assert s[0] == Escaped(value[0])[0] == value[0];
        var n := RuneLength(s);
        AboveIsUnchanged(value, n);
        RuneOfTake(s, n);
        RuneOfPrefix(value[..n], value[n..]);
        assert value == value[..n] + value[n..];
        EscapedAbove(value, n);
        assert s[n..] == EscapedBody(value[n..]);
        ValidUnescaped(value[n..]);
      }
    }
  }

  /** What a printed segment body reads back as, whatever follows its closing quote. */
  ghost predicate Reads(body: Bytes, value: Bytes, rest: Bytes) {
    ParseSegment(body + [QUOTE] + rest) == Ok(Segment(value, rest))
  }

  ghost predicate FitsSegments(values: seq<Bytes>) {
    forall i :: 0 <= i < |values| ==> |values[i]| <= MAXIMUM_SEGMENT_BYTES
  }

  ghost predicate AllValid(values: seq<Bytes>) {
    forall i :: 0 <= i < |values| ==> Valid(values[i])
  }

  /** Space-joined quoted segments parse to the concatenation of their values, unless one is too long. */
  lemma {:induction false} ParseJoined(bodies: seq<Bytes>, values: seq<Bytes>)
    requires |bodies| == |values| > 0
    requires forall i, rest :: 0 <= i < |bodies| ==> Reads(bodies[i], values[i], rest)
    ensures ParseSegments(Joined(QuotedAll(bodies)))
            == if FitsSegments(values) then Ok(Concat(values)) else Err(SegmentInvalid)
  {
    var s := Joined(QuotedAll(bodies));
    var rest := if |bodies| == 1 then [] else [SPACE] + Joined(QuotedAll(bodies[1..]));
    assert s == Quoted(bodies[0]) + rest;
    assert s[0] == QUOTE;
    assert s[1..] == bodies[0] + [QUOTE] + rest;
    assert Reads(bodies[0], values[0], rest);
    if |bodies| == 1 {
      assert values == [values[0]];
      assert Concat(values) == values[0] + [];
      PrependNothing(ParseSegments(rest));
    } else {
      var tail := Joined(QuotedAll(bodies[1..]));
      JoinedStartsQuoted(bodies[1..]);
      assert rest[1..] == tail;
      assert SkipBlanks(rest) == SkipBlanks(tail) == tail;
      assert ParseSegments(rest) == ParseSegments(tail);
      forall i, r | 0 <= i < |bodies[1..]| ensures Reads(bodies[1..][i], values[1..][i], r) {
        assert Reads(bodies[i + 1], values[i + 1], r);
      }
      ParseJoined(bodies[1..], values[1..]);
      FitsTail(values);
    }
  }

  lemma FitsTail(values: seq<Bytes>)
    requires values != []
    ensures FitsSegments(values) <==> |values[0]| <= MAXIMUM_SEGMENT_BYTES && FitsSegments(values[1..])
  {
    if |values[0]| <= MAXIMUM_SEGMENT_BYTES && FitsSegments(values[1..]) {
      forall i | 0 <= i < |values| ensures |values[i]| <= MAXIMUM_SEGMENT_BYTES {
        if i > 0 {
          assert values[i] == values[1..][i - 1];
        }
      }
    }
  }

  lemma JoinedStartsQuoted(bodies: seq<Bytes>)
    requires bodies != []
    ensures var s := Joined(QuotedAll(bodies)); s != [] && s[0] == QUOTE && s[|s| - 1] == QUOTE
    decreases |bodies|
  {
    if |bodies| > 1 {
      JoinedStartsQuoted(bodies[1..]);
    }
  }

  lemma TrimQuoted(s: Bytes)
    requires s != [] && s[0] == QUOTE && s[|s| - 1] == QUOTE
    ensures TrimSpace(s) == s
  {
    assert SpaceLength(s) == 0 && TrimLeft(s) == s;
    assert SpaceSuffix(s) == 0;
  }

  lemma QuotedValidIff(value: Bytes)
    ensures Valid(Quoted(EscapedBody(value))) <==> Valid(value)
  {
    var body := EscapedBody(value);
    if Valid(value) {
      ValidEscaped(value);
      ValidAscii([QUOTE]);
      ValidConcat([QUOTE], body);
      ValidConcat([QUOTE] + body, [QUOTE]);
    }
    if Valid(Quoted(body)) {
      assert Quoted(body) == ([QUOTE] + body) + [QUOTE] + [];
      ValidSplit([QUOTE] + body, QUOTE, []);
      assert [QUOTE] + body == [] + [QUOTE] + body;
      ValidSplit([], QUOTE, body);
      ValidUnescaped(value);
    }
  }

  lemma SpacedValidIff(a: Bytes, b: Bytes)
    ensures Valid(a + [SPACE] + b) <==> Valid(a) && Valid(b)
  {
    if Valid(a + [SPACE] + b) {
      ValidSplit(a, SPACE, b);
    }
    if Valid(a) && Valid(b) {
      ValidAscii([SPACE]);
      ValidConcat(a, [SPACE]);
      ValidConcat(a + [SPACE], b);
    }
  }

  lemma AllValidTail(values: seq<Bytes>)
    requires values != []
    ensures AllValid(values) <==> Valid(values[0]) && AllValid(values[1..])
  {
    if Valid(values[0]) && AllValid(values[1..]) {
      forall i | 0 <= i < |values| ensures Valid(values[i]) {
        if i > 0 {
          assert values[i] == values[1..][i - 1];
        }
      }
    }
  }

  lemma {:induction false} JoinedNoControl(values: seq<Bytes>)
    requires values != []
    ensures forall b :: b in Joined(QuotedAll(EscapedAll(values))) ==> !IsLineControl(b)
  {
    if |values| > 1 {
      JoinedNoControl(values[1..]);
    }
  }

  /** Joined printed segments are acceptable text exactly when every value is well-formed. */
  lemma {:induction false} JoinedAcceptable(values: seq<Bytes>)
    requires values != []
    ensures Acceptable(Joined(QuotedAll(EscapedAll(values)))) <==> AllValid(values)
  {
    JoinedNoControl(values);
    QuotedValidIff(values[0]);
    AllValidTail(values);
    if |values| > 1 {
      JoinedNoControl(values[1..]);
      JoinedAcceptable(values[1..]);
      SpacedValidIff(Quoted(EscapedBody(values[0])), Joined(QuotedAll(EscapedAll(values[1..]))));
    }
  }

  lemma {:induction false} ConcatValid(values: seq<Bytes>)
    requires AllValid(values)
    ensures Valid(Concat(values))
  {
    if values != [] {
      assert AllValid(values[1..]) by {
        assert forall i :: 0 <= i < |values| - 1 ==> values[1..][i] == values[i + 1];
      }
      ConcatValid(values[1..]);
      ValidConcat(values[0], Concat(values[1..]));
    }
  }

  lemma {:induction false} EscapedAllAt(values: seq<Bytes>, i: nat)
    requires i < |values|
    ensures EscapedAll(values)[i] == EscapedBody(values[i])
  {
    if i > 0 {
      EscapedAllAt(values[1..], i - 1);
    }
  }

  /**
    Printing a list of values as space-joined quoted strings and parsing the text gives back their
    concatenation exactly when every value is well-formed UTF-8 of at most 255 bytes and the total
    is at most 65535 bytes.
   */
  lemma JoinedRoundTrip(values: seq<Bytes>)
    requires values != []
    ensures Canonical(Joined(QuotedAll(EscapedAll(values)))) == Ok(Concat(values))
            <==> AllValid(values) && FitsSegments(values) && |Concat(values)| <= MAXIMUM_TXT_BYTES
    ensures AllValid(values) && !FitsSegments(values)
            ==> Canonical(Joined(QuotedAll(EscapedAll(values)))) == Err(SegmentInvalid)
  {
    var bodies := EscapedAll(values);
    forall i, rest | 0 <= i < |values| ensures Reads(bodies[i], values[i], rest) {
      EscapedAllAt(values, i);
      ParseEscaped(values[i], rest);
    }
    ParseJoined(bodies, values);
    JoinedStartsQuoted(bodies);
    TrimQuoted(Joined(QuotedAll(bodies)));
    JoinedAcceptable(values);
    if AllValid(values) {
      ConcatValid(values);
    }
  }

  /** The printer's exact domain: one value comes back unchanged iff it is well-formed and at most 255 bytes. */
  lemma PrintedRoundTrip(value: Bytes)
    ensures Canonical(Quoted(EscapedBody(value))) == Ok(value)
            <==> Valid(value) && |value| <= MAXIMUM_SEGMENT_BYTES
    ensures Canonical(Quoted(EscapedBody(value))).Ok? ==> Canonical(Quoted(EscapedBody(value))) == Ok(value)
  {
    var values := [value];
    JoinedRoundTrip(values);
    JoinedAcceptable(values);
    OneSegment(values);
  }

  /** A list of one value. */
  lemma OneSegment(values: seq<Bytes>)
    requires |values| == 1
    ensures Concat(values) == values[0] && Joined(QuotedAll(EscapedAll(values))) == Quoted(EscapedBody(values[0]))
    ensures AllValid(values) <==> Valid(values[0])
    ensures FitsSegments(values) <==> |values[0]| <= MAXIMUM_SEGMENT_BYTES
  {
    var none := values[1..];
    assert Concat(none) == [];
  }

  // ---------------------------------------------------------------- when canonical values stay put

  lemma {:induction false} SegmentShrinks(s: Bytes)
    ensures ParseSegment(s).Ok? ==> |ParseSegment(s).value.content| + |ParseSegment(s).value.rest| < |s|
    decreases |s|
  {
    if s != [] && s[0] != QUOTE {
      if s[0] != BACKSLASH {
        SegmentShrinks(s[1..]);
      } else if IsDecimalEscape(s) {
        SegmentShrinks(s[4..]);
      } else if |s| > 1 {
        SegmentShrinks(s[2..]);
      }
    }
  }

  lemma {:induction false} SegmentsShrink(s: Bytes)
    ensures ParseSegments(s).Ok? ==> |ParseSegments(s).value| <= |s|
    ensures ParseSegments(s).Ok? && s != [] && s[0] == QUOTE ==> |ParseSegments(s).value| < |s|
    decreases |s|
  {
    var t := SkipBlanks(s);
    if t != [] && t[0] == QUOTE {
      SegmentShrinks(t[1..]);
      if ParseSegment(t[1..]).Ok? {
        SegmentsShrink(ParseSegment(t[1..]).value.rest);
      }
    }
  }

  /** A value is its own canonical form iff it is acceptable text that does not look quoted and fits. */
  lemma FixedIff(value: Bytes)
    ensures Canonical(value) == Ok(value)
            <==> Acceptable(value) && !StartsQuoted(value) && |value| <= MAXIMUM_TXT_BYTES
  {
    if Acceptable(value) && StartsQuoted(value) {
      SegmentsShrink(TrimSpace(value));
    }
  }

  /**
    Canonicalizing twice changes nothing exactly when the first result has no NUL, CR or LF
    (they can enter through decimal escapes) and does not itself start with a quote.
   */
  lemma IdempotentIff(value: Bytes)
    requires Canonical(value).Ok?
    ensures var v := Canonical(value).value;
            Canonical(v) == Ok(v) <==> !StartsQuoted(v) && forall b :: b in v ==> !IsLineControl(b)
  {
    FixedIff(Canonical(value).value);
  }

  /** Text that does not look quoted is canonicalized once and for all. */
  lemma UnquotedIsIdempotent(value: Bytes)
    requires Canonical(value).Ok? && !StartsQuoted(value)
    ensures Canonical(Canonical(value).value) == Canonical(value)
  {
  }

  /** A printed list is, exactly when its values together neither look quoted nor hold a line control. */
  lemma JoinedIdempotentIff(values: seq<Bytes>)
    requires values != [] && AllValid(values) && FitsSegments(values) && |Concat(values)| <= MAXIMUM_TXT_BYTES
    ensures var first := Canonical(Joined(QuotedAll(EscapedAll(values))));
            && first == Ok(Concat(values))
            && (Canonical(first.value) == first
                <==> !StartsQuoted(Concat(values)) && forall b :: b in Concat(values) ==> !IsLineControl(b))
  {
    JoinedRoundTrip(values);
    IdempotentIff(Joined(QuotedAll(EscapedAll(values))));
  }

  lemma EscapedSmall()
    ensures Quoted(EscapedBody([QUOTE, 97, QUOTE])) == [QUOTE, BACKSLASH, QUOTE, 97, BACKSLASH, QUOTE, QUOTE]
    ensures Quoted(EscapedBody([97])) == [QUOTE, 97, QUOTE]
  {
    assert [QUOTE, 97, QUOTE][1..] == [97, QUOTE] && [97, QUOTE][1..] == [QUOTE];
    assert EscapedBody([QUOTE]) == [BACKSLASH, QUOTE] + [];
    assert EscapedBody([97, QUOTE]) == [97] + EscapedBody([QUOTE]);
    assert EscapedBody([97]) == [97] + [];
  }

  /** A doubly quoted text decodes to a quoted one, which decodes again to its bare content. */
  lemma NotIdempotent()
    ensures Canonical([QUOTE, BACKSLASH, QUOTE, 97, BACKSLASH, QUOTE, QUOTE]) == Ok([QUOTE, 97, QUOTE])
    ensures Canonical([QUOTE, 97, QUOTE]) == Ok([97])
  {
    EscapedSmall();
    ValidAscii([QUOTE, 97, QUOTE]);
    ValidAscii([97]);
    PrintedRoundTrip([QUOTE, 97, QUOTE]);
    PrintedRoundTrip([97]);
  }

  /** A record's TXT content is parsed when it is read and normalized again when its set is built. */
  function ReadBack(content: Bytes): Parsed {
    match Canonical(content)
    case Err(error) => Err(error)
    case Ok(value) => Canonical(value)
  }

  /** Exactly the TXT values whose printed form reads back as themselves, up to the refusal of blank values. */
  lemma SurvivesIff(value: Bytes)
    ensures ReadBack(Quoted(EscapedBody(value))) == Ok(value)
            <==> Acceptable(value) && !StartsQuoted(value) && |value| <= MAXIMUM_SEGMENT_BYTES
  {
    PrintedRoundTrip(value);
    FixedIff(value);
  }
}
