/** Huawei Cloud's TXT codec: long values are cut at rune boundaries into quoted strings of at most 255 bytes. */
module HuaweiTxt {
  import opened Wrappers
  import opened Utf8
  import opened Txt

  const MAXIMUM_HUAWEI_TXT_BYTES: nat := 4096

  datatype QuoteError = TextUnsupported | TextTooLong

  /** The size `utf8.DecodeRuneInString` reports for non-empty text. */
  function DecodeSize(s: Bytes): (n: nat)
    requires s != []
    ensures 1 <= n <= |s| && n <= RUNE_MAX
  {
    if RuneLength(s) > 0 then RuneLength(s) else 1
  }

  function Last(segments: seq<Bytes>): Bytes
    requires segments != []
  {
    segments[|segments| - 1]
  }

  /** No segment could have taken in the rune that opens the next one. */
  ghost predicate Greedy(segments: seq<Bytes>, maximumBytes: nat) {
    forall i :: 0 <= i < |segments| - 1 ==> |segments[i]| + RuneLength(segments[i + 1]) > maximumBytes
  }

  /** Backs up from the byte limit to the nearest rune start. */
  method CutPoint(text: Bytes, start: nat, maximumBytes: nat) returns (end: nat)
    requires start < |text| && maximumBytes >= 1
    ensures start < end <= |text|
    ensures end <= start + (if maximumBytes < RUNE_MAX then RUNE_MAX else maximumBytes)
    ensures Valid(text[start..]) ==> Valid(text[start..end]) && Valid(text[end..])
    ensures Valid(text[start..]) && end < |text| ==> end - start + RuneLength(text[end..]) > maximumBytes
  {
    var limit := if start + maximumBytes < |text| then start + maximumBytes else |text|;
    end := limit;
    while end < |text| && end > start && !RuneStart(text[end])
      invariant start <= end <= limit
      invariant end < limit ==> limit < |text|
      invariant forall k :: end < k <= limit && k < |text| ==> IsContinuation(text[k])
      decreases end
    {
      end := end - 1;
    }
    if end == start {
      end := start + DecodeSize(text[start..]);
      if Valid(text[start..]) {
        RuneReaches(text, start, limit);
        FirstRuneCut(text, start);
      }
    } else if Valid(text[start..]) {
      InnerCut(text, start, end);
      if end < |text| {
        RuneReaches(text, end, limit);
      }
    }
  }

  lemma FirstRuneCut(text: Bytes, start: nat)
    requires start < |text| && Valid(text[start..])
    ensures var end := start + RuneLength(text[start..]); Valid(text[start..end]) && Valid(text[end..])
  {
    var s := text[start..];
    var n := RuneLength(s);
    RuneOfTake(s, n);
    assert text[start..start + n] == s[..n];
    assert s[..n][n..] == [];
    assert text[start + n..] == s[n..];
  }

  lemma InnerCut(text: Bytes, start: nat, end: nat)
    requires start <= end <= |text| && Valid(text[start..])
    requires end == |text| || RuneStart(text[end])
    ensures Valid(text[start..end]) && Valid(text[end..])
  {
    var s := text[start..];
    ValidCut(s, end - start);
    assert s[..end - start] == text[start..end] && s[end - start..] == text[end..];
  }

  /** The rune at `end` covers every continuation byte that follows it. */
  lemma RuneReaches(text: Bytes, end: nat, limit: nat)
    requires end <= limit < |text| && Valid(text[end..])
    requires forall k :: end < k <= limit ==> IsContinuation(text[k])
    ensures RuneLength(text[end..]) > limit - end
  {
    var s := text[end..];
    assert forall i :: 0 < i <= limit - end ==> IsContinuation(s[i]);
  }

  lemma {:induction false} ConcatAppend(segments: seq<Bytes>, segment: Bytes)
    ensures Concat(segments + [segment]) == Concat(segments) + segment
  {
    if segments == [] {
      assert segments + [segment] == [segment];
      assert Concat([segment]) == segment + [];
    } else {
      assert (segments + [segment])[1..] == segments[1..] + [segment];
      ConcatAppend(segments[1..], segment);
    }
  }

  /** What has been cut off the front of well-formed text, up to `start`. */
  ghost predicate CutSoFar(text: Bytes, segments: seq<Bytes>, start: nat, maximumBytes: nat) {
    && start <= |text| && Valid(text[start..])
    && AllValid(segments) && Greedy(segments, maximumBytes)
    && (segments != [] && start < |text| ==> |Last(segments)| + RuneLength(text[start..]) > maximumBytes)
  }

  lemma CutOneMore(text: Bytes, segments: seq<Bytes>, start: nat, end: nat, maximumBytes: nat)
    requires CutSoFar(text, segments, start, maximumBytes) && start < end <= |text|
    requires Valid(text[start..end]) && Valid(text[end..])
    requires end < |text| ==> end - start + RuneLength(text[end..]) > maximumBytes
    ensures CutSoFar(text, segments + [text[start..end]], end, maximumBytes)
  {
    var segment := text[start..end];
    var more := segments + [segment];
    RuneOfPrefix(segment, text[end..]);
    assert segment + text[end..] == text[start..];
    forall i | 0 <= i < |more| - 1
      ensures |more[i]| + RuneLength(more[i + 1]) > maximumBytes
    {
      if i == |segments| - 1 {
        assert more[i] == Last(segments) && more[i + 1] == segment;
      } else {
        assert more[i] == segments[i] && more[i + 1] == segments[i + 1];
      }
    }
  }

  method SplitUTF8(text: Bytes, maximumBytes: nat) returns (segments: seq<Bytes>)
    requires maximumBytes >= 1
    ensures Concat(segments) == text
    ensures forall i :: 0 <= i < |segments| ==> segments[i] != []
    ensures maximumBytes >= RUNE_MAX ==> forall i :: 0 <= i < |segments| ==> |segments[i]| <= maximumBytes
    ensures Valid(text) ==> AllValid(segments) && Greedy(segments, maximumBytes)
  {
    segments := [];
    var start := 0;
    assert text[0..] == text;
    while start < |text|
      invariant start <= |text|
      invariant Concat(segments) == text[..start]
      invariant forall i :: 0 <= i < |segments| ==> segments[i] != []
      invariant maximumBytes >= RUNE_MAX ==> forall i :: 0 <= i < |segments| ==> |segments[i]| <= maximumBytes
      invariant Valid(text) ==> CutSoFar(text, segments, start, maximumBytes)
      decreases |text| - start
    {
      var end := CutPoint(text, start, maximumBytes);
      if Valid(text) {
        CutOneMore(text, segments, start, end, maximumBytes);
      }
      ConcatAppend(segments, text[start..end]);
      assert text[..start] + text[start..end] == text[..end];
      segments := segments + [text[start..end]];
      start := end;
    }
    assert text[..start] == text;
  }

  // ---------------------------------------------------------------- the quoted form

  predicate Accepts(text: Bytes) {
    && text != [] && Valid(text)
    && (forall b :: b in text ==> b != BACKSLASH && b != QUOTE && !IsLineControl(b))
    && |text| <= 4096
  }

  method QuoteHuaweiTXT(text: Bytes) returns (r: Result<Bytes, QuoteError>)
    ensures r.Ok? <==> Accepts(text)
    ensures r.Ok? ==> Canonical(r.value) == Ok(text) && ReadBack(r.value) == Ok(text)
  {
    if text == [] || !Valid(text) || exists b :: b in text && (b == BACKSLASH || b == QUOTE || IsLineControl(b)) {
      return Err(TextUnsupported);
    }
    if |text| > MAXIMUM_HUAWEI_TXT_BYTES {
      return Err(TextTooLong);
    }
    var segments := SplitUTF8(text, MAXIMUM_SEGMENT_BYTES);
    var quoted: seq<Bytes> := [];
    var index := 0;
    while index < |segments|
      invariant index <= |segments|
      invariant quoted + QuotedAll(segments[index..]) == QuotedAll(segments)
    {
      assert segments[index..][1..] == segments[index + 1..];
      quoted := quoted + [Quoted(segments[index])];
      index := index + 1;
    }
    assert quoted == QuotedAll(segments);
    QuotedSegmentsReadBack(segments, text);
    return Ok(Joined(quoted));
  }

  lemma {:induction false} ParsePlain(value: Bytes, rest: Bytes)
    requires forall b :: b in value ==> b != BACKSLASH && b != QUOTE
    ensures Reads(value, value, rest)
  {
    var s := value + [QUOTE] + rest;
    if value == [] {
      assert s == [QUOTE] + rest && s[1..] == rest;
    } else {
      assert s[1..] == value[1..] + [QUOTE] + rest;
      assert forall b :: b in value[1..] ==> b in value;
      assert value[0] in value;
      ParsePlain(value[1..], rest);
      assert Reads(value[1..], value[1..], rest);
      assert [value[0]] + value[1..] == value;
    }
  }

  lemma {:induction false} SegmentInConcat(segments: seq<Bytes>, i: nat)
    requires i < |segments|
    ensures forall b :: b in segments[i] ==> b in Concat(segments)
  {
    if i > 0 {
      SegmentInConcat(segments[1..], i - 1);
    }
  }

  lemma {:induction false} PlainJoinedAcceptable(segments: seq<Bytes>)
    requires segments != [] && AllValid(segments)
    requires forall i, b :: 0 <= i < |segments| && b in segments[i] ==> !IsLineControl(b)
    ensures Acceptable(Joined(QuotedAll(segments)))
  {
    var head := segments[0];
    ValidAscii([QUOTE]);
    ValidConcat([QUOTE], head);
    ValidConcat([QUOTE] + head, [QUOTE]);
    assert forall b :: b in Quoted(head) ==> !IsLineControl(b) by {
      assert forall b :: b in head ==> !IsLineControl(b);
    }
    if |segments| > 1 {
      AllValidTail(segments);
      forall i, b | 0 <= i < |segments[1..]| && b in segments[1..][i] ensures !IsLineControl(b) {
        assert b in segments[i + 1];
      }
      PlainJoinedAcceptable(segments[1..]);
      SpacedValidIff(Quoted(head), Joined(QuotedAll(segments[1..])));
    }
  }

  /** Quoted pieces of an accepted text, joined by spaces, read back as that text and stay put. */
  lemma QuotedSegmentsReadBack(segments: seq<Bytes>, text: Bytes)
    requires Accepts(text) && Concat(segments) == text
    requires AllValid(segments) && FitsSegments(segments)
    ensures segments != []
    ensures Canonical(Joined(QuotedAll(segments))) == Ok(text)
    ensures ReadBack(Joined(QuotedAll(segments))) == Ok(text)
  {
    forall i | 0 <= i < |segments|
      ensures forall b :: b in segments[i] ==> b in text
    {
      SegmentInConcat(segments, i);
    }
    forall i, rest | 0 <= i < |segments| ensures Reads(segments[i], segments[i], rest) {
      ParsePlain(segments[i], rest);
    }
    ParseJoined(segments, segments);
    JoinedStartsQuoted(segments);
    TrimQuoted(Joined(QuotedAll(segments)));
    PlainJoinedAcceptable(segments);
    TrimWithin(text);
    FixedIff(text);
  }

  /** Trimming only removes bytes. */
  lemma TrimWithin(s: Bytes)
    ensures forall b :: b in TrimSpace(s) ==> b in s
  {
    TrimLeftWithin(s);
    TrimRightWithin(TrimLeft(s));
  }

  lemma {:induction false} TrimLeftWithin(s: Bytes)
    ensures forall b :: b in TrimLeft(s) ==> b in s
    decreases |s|
  {
    if SpaceLength(s) > 0 {
      TrimLeftWithin(s[SpaceLength(s)..]);
    }
  }

  lemma {:induction false} TrimRightWithin(s: Bytes)
    ensures forall b :: b in TrimRight(s) ==> b in s
    decreases |s|
  {
    if SpaceSuffix(s) > 0 {
      TrimRightWithin(s[..|s| - SpaceSuffix(s)]);
    }
  }
}
