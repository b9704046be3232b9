/**
  Owner names within a zone, and the relative names one provider uses for them. The IDNA mapping of
  one label is a parameter.
 */
module Names {
  import opened Wrappers
  import opened Utf8
  import opened Labels

  const AT: Bytes := [0x40]
  const STAR: Bytes := [0x2A]
  const UNDERSCORE: byte := 0x5F
  const HYPHEN: byte := 0x2D
  const MAXIMUM_LABEL: nat := 63
  const MAXIMUM_NAME: nat := 253

  type Idna = Bytes -> Option<Bytes>

  // ---------------------------------------------------------------- labels

  function Lower(text: Bytes): (r: Bytes)
    ensures |r| == |text|
  {
    seq(|text|, i requires 0 <= i < |text| => if 0x41 <= text[i] <= 0x5A then text[i] + 0x20 else text[i])
  }

  predicate OwnerByte(b: byte) {
    0x61 <= b <= 0x7A || 0x41 <= b <= 0x5A || 0x30 <= b <= 0x39 || b == HYPHEN || b == UNDERSCORE
  }

  predicate ValidOwnerLabel(piece: Bytes) {
    && 0 < |piece| <= MAXIMUM_LABEL && piece[0] != HYPHEN && piece[|piece| - 1] != HYPHEN
    && forall i :: 0 <= i < |piece| ==> OwnerByte(piece[i])
  }

  /** Lower-case letters, digits and hyphens. */
  predicate PlainLabel(piece: Bytes) {
    piece != [] && forall i :: 0 <= i < |piece| ==>
      OwnerByte(piece[i]) && piece[i] != UNDERSCORE && !(0x41 <= piece[i] <= 0x5A)
  }

  /**
    The mapping may divide a label, since it turns ideographic full stops into dots (section 4 of
    UTS 46). The pieces of a mapped label, lower-cased, are empty or plain and map to themselves.
   */
  ghost predicate LawfulIdna(idna: Idna) {
    forall piece :: idna(piece).Some? ==> PiecesMap(idna, Split(Lower(idna(piece).value)))
  }

  predicate PiecesMap(idna: Idna, pieces: seq<Bytes>) {
    forall i :: 0 <= i < |pieces| ==> pieces[i] == [] || MapsToItself(idna, pieces[i])
  }

  predicate MapsToItself(idna: Idna, piece: Bytes) {
    PlainLabel(piece) && idna(piece) == Some(piece)
  }

  /** The mapping that knows plain labels only; the laws hold of it. */
  function PlainOnly(): Idna {
    piece => if PlainLabel(piece) then Some(piece) else None
  }

  lemma PlainOnlyIsLawful()
    ensures LawfulIdna(PlainOnly())
  {
    forall piece | PlainLabel(piece) ensures PiecesMap(PlainOnly(), Split(Lower(piece))) {
      assert Lower(piece) == piece;
      SplitLabel(piece, []);
    }
  }

  function CanonicalLabel(idna: Idna, piece: Bytes, owner: bool, first: bool): Option<Bytes> {
    if piece == [] then None
    else if owner && piece == STAR && first then Some(piece)
    else if owner && UNDERSCORE in piece then
      if ValidOwnerLabel(piece) then Some(Lower(piece)) else None
    else
      match idna(piece)
      case None => None
      case Some(ascii) => if ascii == [] || |ascii| > MAXIMUM_LABEL then None else Some(Lower(ascii))
  }

  /** Bytes that neither end a label nor are trimmed. */
  predicate LabelBytes(piece: Bytes) {
    piece != [] && forall i :: 0 <= i < |piece| ==> piece[i] == STAR[0] || OwnerByte(piece[i])
  }

  predicate FixedLabel(idna: Idna, piece: Bytes, owner: bool, first: bool) {
    LabelBytes(piece) && CanonicalLabel(idna, piece, owner, first) == Some(piece)
  }

  lemma LowerTwice(piece: Bytes)
    ensures Lower(Lower(piece)) == Lower(piece)
    ensures ValidOwnerLabel(piece) ==> ValidOwnerLabel(Lower(piece))
    ensures UNDERSCORE in piece ==> UNDERSCORE in Lower(piece)
  {
    if UNDERSCORE in piece {
      var i :| 0 <= i < |piece| && piece[i] == UNDERSCORE;
      assert Lower(piece)[i] == UNDERSCORE;
    }
  }

  /** A plain label is its own canonical form wherever it stands. */
  predicate PlainFixed(idna: Idna, piece: Bytes) {
    MapsToItself(idna, piece) && |piece| <= MAXIMUM_LABEL
  }

  lemma PlainIsFixedAnywhere(idna: Idna, piece: Bytes, owner: bool, first: bool)
    requires PlainFixed(idna, piece)
    ensures FixedLabel(idna, piece, owner, first)
  {
    assert Lower(piece) == piece;
    assert UNDERSCORE !in piece;
  }

  // ---------------------------------------------------------------- joined labels

  predicate AllLabelBytes(labels: seq<Bytes>) {
    forall i :: 0 <= i < |labels| ==> LabelBytes(labels[i])
  }

  lemma {:induction false} SplitJoined(labels: seq<Bytes>)
    requires labels != [] && AllLabelBytes(labels)
    ensures Split(Join(labels)) == labels
  {
    assert LabelBytes(labels[0]);
    if |labels| == 1 {
      SplitLabel(labels[0], []);
    } else {
      SplitLabel(labels[0], Join(labels[1..]));
      assert AllLabelBytes(labels[1..]) by {
        assert forall i :: 0 <= i < |labels| - 1 ==> labels[1..][i] == labels[i + 1];
      }
      SplitJoined(labels[1..]);
      assert [labels[0]] + labels[1..] == labels;
    }
  }

  /** The ends of a joined name: ordinary bytes, so nothing is trimmed. */
  lemma {:induction false} JoinEnds(labels: seq<Bytes>)
    requires labels != [] && AllLabelBytes(labels)
    ensures var s := Join(labels); s != [] && LabelBytes([s[0]]) && LabelBytes([s[|s| - 1]])
    decreases |labels|
  {
    assert LabelBytes(labels[0]);
    if |labels| > 1 {
      assert AllLabelBytes(labels[1..]) by {
        assert forall i :: 0 <= i < |labels| - 1 ==> labels[1..][i] == labels[i + 1];
      }
      JoinEnds(labels[1..]);
    }
  }

  lemma OrdinaryEndsStay(text: Bytes)
    requires text != [] && LabelBytes([text[0]]) && LabelBytes([text[|text| - 1]])
    ensures TrimSpace(text) == text && text[|text| - 1] != DOT && text[0] != DOT
  {
    assert LabelBytes([text[0]]) ==> [text[0]][0] == text[0];
    assert LabelBytes([text[|text| - 1]]) ==> [text[|text| - 1]][0] == text[|text| - 1];
    assert SpaceLength(text) == 0 && SpaceSuffix(text) == 0;
  }

  lemma NotAt(text: Bytes)
    requires text != [] && LabelBytes([text[0]])
    ensures text != AT
  {
    assert [text[0]][0] == text[0];
  }

  // ---------------------------------------------------------------- canonical names

  function CanonicalLabels(idna: Idna, labels: seq<Bytes>, owner: bool, first: bool): (r: Option<seq<Bytes>>)
    ensures r.Some? ==> |r.value| == |labels|
  {
    if labels == [] then Some([])
    else
      var head := CanonicalLabel(idna, labels[0], owner, first);
      var tail := CanonicalLabels(idna, labels[1..], owner, false);
      if head.None? || tail.None? then None else Some([head.value] + tail.value)
  }

  function WithoutFinalDot(text: Bytes): Bytes {
    if text != [] && text[|text| - 1] == DOT then text[..|text| - 1] else text
  }

  predicate EndsInTwoDots(text: Bytes) {
    |text| >= 2 && text[|text| - 1] == DOT && text[|text| - 2] == DOT
  }

  /** `canonicalizeName` with the root not allowed. */
  function CanonicalName(idna: Idna, name: Bytes, owner: bool): Option<Bytes> {
    var trimmed := TrimSpace(name);
    if trimmed == [] || trimmed == [DOT] || EndsInTwoDots(trimmed) then None
    else
      match CanonicalLabels(idna, Split(WithoutFinalDot(trimmed)), owner, true)
      case None => None
      case Some(labels) =>
        if labels == [] then None
        else if |Join(labels)| > MAXIMUM_NAME then None else Some(Join(labels))
  }

  function Following(done: seq<Bytes>, rest: Option<seq<Bytes>>): Option<seq<Bytes>> {
    match rest
    case None => None
    case Some(more) => Some(done + more)
  }

  lemma NothingBefore(rest: Option<seq<Bytes>>)
    ensures Following([], rest) == rest
  {
    if rest.Some? {
      assert [] + rest.value == rest.value;
    }
  }

  /** The loop over the labels. */
  method CanonicalizeName(idna: Idna, name: Bytes, owner: bool) returns (r: Option<Bytes>)
    ensures r == CanonicalName(idna, name, owner)
  {
    var trimmed := TrimSpace(name);
    if trimmed == [] || trimmed == [DOT] || EndsInTwoDots(trimmed) {
      return None;
    }
    trimmed := WithoutFinalDot(trimmed);
    var labels := Split(trimmed);
    var canonical: seq<Bytes> := [];
    assert labels[0..] == labels;
    NothingBefore(CanonicalLabels(idna, labels, owner, true));
    for index := 0 to |labels|
      invariant |canonical| == index
      invariant CanonicalLabels(idna, labels, owner, true)
              == Following(canonical, CanonicalLabels(idna, labels[index..], owner, index == 0))
    {
      assert labels[index..][1..] == labels[index + 1..];
      var piece := CanonicalLabel(idna, labels[index], owner, index == 0);
      if piece.None? {
        return None;
      }
      Regroup(canonical, piece.value);
      canonical := canonical + [piece.value];
    }
    assert canonical + [] == canonical;
    var joined := Join(canonical);
    if |joined| > MAXIMUM_NAME {
      return None;
    }
    return Some(joined);
  }

  lemma Regroup(canonical: seq<Bytes>, piece: Bytes)
    ensures forall rest: seq<Bytes> :: canonical + ([piece] + rest) == (canonical + [piece]) + rest
  {
    forall rest: seq<Bytes> ensures canonical + ([piece] + rest) == (canonical + [piece]) + rest {
    }
  }

  /** Labels that canonicalize to themselves where they stand. */
  predicate FixedLabels(idna: Idna, labels: seq<Bytes>, owner: bool, first: bool) {
    labels == [] || (FixedLabel(idna, labels[0], owner, first) && FixedLabels(idna, labels[1..], owner, false))
  }

  lemma {:induction false} FixedLabelsStay(idna: Idna, labels: seq<Bytes>, owner: bool, first: bool)
    requires FixedLabels(idna, labels, owner, first)
    ensures CanonicalLabels(idna, labels, owner, first) == Some(labels) && AllLabelBytes(labels)
  {
    if labels != [] {
      FixedLabelsStay(idna, labels[1..], owner, false);
      assert [labels[0]] + labels[1..] == labels;
      forall i | 0 <= i < |labels| ensures LabelBytes(labels[i]) {
        assert i > 0 ==> labels[i] == labels[1..][i - 1];
      }
    }
  }

  lemma JoinedStays(idna: Idna, text: Bytes, labels: seq<Bytes>, owner: bool)
    requires labels != [] && Split(text) == labels && Join(labels) == text
    requires CanonicalLabels(idna, labels, owner, true) == Some(labels)
    requires text != [] && TrimSpace(text) == text && text[|text| - 1] != DOT
    ensures CanonicalName(idna, text, owner) == if |text| > MAXIMUM_NAME then None else Some(text)
  {
  }

  /** A name made of fixed labels is its own canonical form if it is short enough. */
  lemma JoinedIsCanonical(idna: Idna, labels: seq<Bytes>, owner: bool)
    requires labels != [] && FixedLabels(idna, labels, owner, true)
    ensures CanonicalName(idna, Join(labels), owner)
            == if |Join(labels)| > MAXIMUM_NAME then None else Some(Join(labels))
  {
    FixedLabelsStay(idna, labels, owner, true);
    JoinEnds(labels);
    OrdinaryEndsStay(Join(labels));
    SplitJoined(labels);
    JoinedStays(idna, Join(labels), labels, owner);
  }

  /** The labels of a canonical name. */
  ghost predicate Spelled(idna: Idna, name: Bytes, owner: bool, labels: seq<Bytes>) {
    labels != [] && FixedLabels(idna, labels, owner, true) && name == Join(labels) && |name| <= MAXIMUM_NAME
  }

  // ---------------------------------------------------------------- labels the mapping divided

  /** Fixed where they stand, or empty. */
  predicate NearlyFixed(idna: Idna, labels: seq<Bytes>, owner: bool, first: bool) {
    || labels == []
    || ((labels[0] == [] || FixedLabel(idna, labels[0], owner, first)) && NearlyFixed(idna, labels[1..], owner, false))
  }

  predicate NearlyPlain(idna: Idna, labels: seq<Bytes>) {
    forall i :: 0 <= i < |labels| ==> labels[i] == [] || PlainFixed(idna, labels[i])
  }

  lemma {:induction false} NearlyPlainIsFixed(idna: Idna, labels: seq<Bytes>, owner: bool, first: bool)
    requires NearlyPlain(idna, labels)
    ensures NearlyFixed(idna, labels, owner, first)
  {
    if labels != [] {
      if labels[0] != [] {
        PlainIsFixedAnywhere(idna, labels[0], owner, first);
      }
      assert forall i :: 0 <= i < |labels| - 1 ==> labels[1..][i] == labels[i + 1];
      NearlyPlainIsFixed(idna, labels[1..], owner, false);
    }
  }

  lemma {:induction false} NearlyFixedAppends(idna: Idna, left: seq<Bytes>, right: seq<Bytes>, owner: bool, first: bool)
    requires left != []
    ensures NearlyFixed(idna, left + right, owner, first)
            <==> NearlyFixed(idna, left, owner, first) && NearlyFixed(idna, right, owner, false)
  {
    assert (left + right)[1..] == left[1..] + right;
    if |left| > 1 {
      NearlyFixedAppends(idna, left[1..], right, owner, false);
    } else {
      assert left[1..] + right == right;
    }
  }

  lemma {:induction false} WholeIsFixed(idna: Idna, labels: seq<Bytes>, owner: bool, first: bool)
    requires NearlyFixed(idna, labels, owner, first) && [] !in labels
    ensures FixedLabels(idna, labels, owner, first)
  {
    if labels != [] {
      assert labels[0] in labels && forall piece :: piece in labels[1..] ==> piece in labels;
      WholeIsFixed(idna, labels[1..], owner, false);
    }
  }

  /** The pieces of one canonical label. */
  lemma LabelPieces(idna: Idna, piece: Bytes, owner: bool, first: bool)
    requires LawfulIdna(idna) && CanonicalLabel(idna, piece, owner, first).Some?
    ensures var pieces := Split(CanonicalLabel(idna, piece, owner, first).value);
            NearlyFixed(idna, pieces, owner, first) && (!owner ==> NearlyPlain(idna, pieces))
  {
    var r := CanonicalLabel(idna, piece, owner, first).value;
    LowerTwice(piece);
    if owner && ((piece == STAR && first) || UNDERSCORE in piece) {
      SplitLabel(r, []);
    } else {
      PiecesAreShort(r);
      NearlyPlainIsFixed(idna, Split(r), owner, first);
    }
  }

  predicate AllWhole(labels: seq<Bytes>) {
    forall i :: 0 <= i < |labels| ==> NoEmptyLabel(labels[i])
  }

  /** The pieces of all canonical labels are the labels of the joined name. */
  lemma {:induction false} JoinedPieces(idna: Idna, labels: seq<Bytes>, owner: bool, first: bool)
    requires LawfulIdna(idna) && labels != [] && CanonicalLabels(idna, labels, owner, first).Some?
    ensures var canonical := CanonicalLabels(idna, labels, owner, first).value;
            && NearlyFixed(idna, Split(Join(canonical)), owner, first)
            && (!owner ==> NearlyPlain(idna, Split(Join(canonical))))
            && (NoEmptyLabel(Join(canonical)) <==> AllWhole(canonical))
  {
    var canonical := CanonicalLabels(idna, labels, owner, first).value;
    LabelPieces(idna, labels[0], owner, first);
    if |labels| > 1 {
      JoinedPieces(idna, labels[1..], owner, false);
      var rest := CanonicalLabels(idna, labels[1..], owner, false).value;
      assert canonical[1..] == rest;
      SplitAppends(canonical[0], Join(rest));
      NearlyFixedAppends(idna, Split(canonical[0]), Split(Join(rest)), owner, first);
      AllWholeCons(canonical);
    }
  }

  lemma AllWholeCons(labels: seq<Bytes>)
    requires labels != []
    ensures AllWhole(labels) <==> NoEmptyLabel(labels[0]) && AllWhole(labels[1..])
  {
    if NoEmptyLabel(labels[0]) && AllWhole(labels[1..]) {
      forall i | 0 <= i < |labels| ensures NoEmptyLabel(labels[i]) {
        assert i > 0 ==> labels[i] == labels[1..][i - 1];
      }
    }
  }

  /** The labels of a name before the mapping. */
  function SourceLabels(name: Bytes): (labels: seq<Bytes>)
    ensures labels != []
  {
    Split(WithoutFinalDot(TrimSpace(name)))
  }

  lemma CanonicalPieces(idna: Idna, name: Bytes, owner: bool)
    requires LawfulIdna(idna) && CanonicalName(idna, name, owner).Some?
    ensures var r := CanonicalName(idna, name, owner).value;
            && NearlyFixed(idna, Split(r), owner, true) && (!owner ==> NearlyPlain(idna, Split(r)))
            && (NoEmptyLabel(r) <==> AllWhole(CanonicalLabels(idna, SourceLabels(name), owner, true).value))
  {
    JoinedPieces(idna, SourceLabels(name), owner, true);
  }

  predicate NameByte(b: byte) {
    b == DOT || b == STAR[0] || OwnerByte(b)
  }

  lemma {:induction false} JoinedBytes(idna: Idna, labels: seq<Bytes>, owner: bool, first: bool)
    requires labels != [] && NearlyFixed(idna, labels, owner, first)
    ensures forall i :: 0 <= i < |Join(labels)| ==> NameByte(Join(labels)[i])
    decreases |labels|
  {
    if |labels| > 1 {
      JoinedBytes(idna, labels[1..], owner, false);
    }
  }

  lemma NameBytesStay(text: Bytes)
    requires forall i :: 0 <= i < |text| ==> NameByte(text[i])
    ensures TrimSpace(text) == text
  {
    if text != [] {
      assert NameByte(text[0]) && NameByte(text[|text| - 1]);
      assert SpaceLength(text) == 0 && SpaceSuffix(text) == 0;
    }
  }

  lemma CanonicalIsSpelled(idna: Idna, name: Bytes, owner: bool) returns (labels: seq<Bytes>)
    requires LawfulIdna(idna) && CanonicalName(idna, name, owner).Some?
    requires NoEmptyLabel(CanonicalName(idna, name, owner).value)
    ensures Spelled(idna, CanonicalName(idna, name, owner).value, owner, labels)
    ensures !owner ==> forall i :: 0 <= i < |labels| ==> PlainFixed(idna, labels[i])
  {
    var r := CanonicalName(idna, name, owner).value;
    CanonicalPieces(idna, name, owner);
    WholeIsFixed(idna, Split(r), owner, true);
    JoinOfSplit(r);
    labels := Split(r);
    if !owner {
      forall i | 0 <= i < |labels| ensures PlainFixed(idna, labels[i]) {
        assert labels[i] in labels;
      }
    }
  }

  lemma {:induction false} AcceptedLabels(idna: Idna, labels: seq<Bytes>, owner: bool, first: bool)
    requires CanonicalLabels(idna, labels, owner, first).Some?
    ensures [] !in labels
  {
    if labels != [] {
      AcceptedLabels(idna, labels[1..], owner, false);
      assert [labels[0]] + labels[1..] == labels;
    }
  }

  // ---------------------------------------------------------------- canonicalizing twice

  /** The labels of the name are fixed where they stand, or empty: the shape of every canonical name. */
  predicate Pieced(idna: Idna, name: Bytes, owner: bool) {
    NearlyFixed(idna, Split(name), owner, true)
  }

  function Fitting(name: Option<Bytes>): Option<Bytes> {
    if name.Some? && |name.value| <= MAXIMUM_NAME then name else None
  }

  lemma PiecedBytes(idna: Idna, name: Bytes, owner: bool)
    requires Pieced(idna, name, owner)
    ensures TrimSpace(name) == name && forall i :: 0 <= i < |name| ==> NameByte(name[i])
  {
    JoinOfSplit(name);
    JoinedBytes(idna, Split(name), owner, true);
    NameBytesStay(name);
  }

  lemma WholeStays(idna: Idna, name: Bytes, owner: bool)
    requires Pieced(idna, name, owner) && NoEmptyLabel(name)
    ensures CanonicalName(idna, name, owner) == Fitting(Some(name))
  {
    WholeIsFixed(idna, Split(name), owner, true);
    JoinOfSplit(name);
    JoinedIsCanonical(idna, Split(name), owner);
  }

  lemma FixedDotGoes(idna: Idna, front: Bytes, owner: bool)
    requires TrimSpace(front + [DOT]) == front + [DOT] && NoEmptyLabel(front)
    requires CanonicalLabels(idna, Split(front), owner, true) == Some(Split(front))
    ensures CanonicalName(idna, front + [DOT], owner) == Fitting(Some(front))
  {
    WholeEndsPlainly(front);
    JoinOfSplit(front);
    assert (front + [DOT])[..|front|] == front;
  }

  /** A name that ends in a dot loses it. */
  lemma FinalDotGoes(idna: Idna, front: Bytes, owner: bool)
    requires Pieced(idna, front + [DOT], owner) && NoEmptyLabel(front)
    ensures CanonicalName(idna, front + [DOT], owner) == Fitting(Some(front))
  {
    PiecedBytes(idna, front + [DOT], owner);
    SplitAppends(front, []);
    assert front + [DOT] + [] == front + [DOT];
    NearlyFixedAppends(idna, Split(front), Split([]), owner, true);
    WholeIsFixed(idna, Split(front), owner, true);
    FixedLabelsStay(idna, Split(front), owner, true);
    FixedDotGoes(idna, front, owner);
  }

  /** A name with an empty label before its end is refused. */
  lemma DividedIsRefused(idna: Idna, name: Bytes, owner: bool)
    requires TrimSpace(name) == name && Recanonical(name) == None
    ensures CanonicalName(idna, name, owner) == None
  {
    if CanonicalName(idna, name, owner).Some? {
      AcceptedLabels(idna, Split(WithoutFinalDot(name)), owner, true);
    }
  }

  lemma PiecedTwice(idna: Idna, name: Bytes, owner: bool)
    requires Pieced(idna, name, owner)
    ensures CanonicalName(idna, name, owner) == Fitting(Recanonical(name))
  {
    PiecedBytes(idna, name, owner);
    if NoEmptyLabel(name) {
      WholeStays(idna, name, owner);
    } else if Recanonical(name).Some? {
      var front := name[..|name| - 1];
      assert front + [DOT] == name;
      FinalDotGoes(idna, front, owner);
    } else {
      DividedIsRefused(idna, name, owner);
    }
  }

  lemma CanonicalIsNonEmpty(idna: Idna, name: Bytes, owner: bool)
    requires CanonicalName(idna, name, owner).Some?
    ensures CanonicalName(idna, name, owner).value != []
  {
    var labels := CanonicalLabels(idna, SourceLabels(name), owner, true).value;
    assert labels[0] == CanonicalLabel(idna, SourceLabels(name)[0], owner, true).value;
  }

  /**
    Canonicalizing a canonical name leaves it alone when it has no empty label, takes off a final dot
    that the mapping left, and refuses every other name.
   */
  lemma CanonicalNameTwice(idna: Idna, name: Bytes, owner: bool)
    requires LawfulIdna(idna) && CanonicalName(idna, name, owner).Some?
    ensures var r := CanonicalName(idna, name, owner).value;
            CanonicalName(idna, r, owner) == Recanonical(r)
  {
    CanonicalPieces(idna, name, owner);
    PiecedTwice(idna, CanonicalName(idna, name, owner).value, owner);
  }

  /** Canonicalizing a canonical name changes nothing exactly when the mapping left no label with an empty piece. */
  lemma CanonicalNameIsIdempotentIff(idna: Idna, name: Bytes, owner: bool)
    requires LawfulIdna(idna) && CanonicalName(idna, name, owner).Some?
    ensures CanonicalName(idna, CanonicalName(idna, name, owner).value, owner) == CanonicalName(idna, name, owner)
            <==> AllWhole(CanonicalLabels(idna, SourceLabels(name), owner, true).value)
  {
    CanonicalPieces(idna, name, owner);
    CanonicalNameTwice(idna, name, owner);
  }

  /** Only names without empty labels are their own canonical form. */
  lemma FixedIsWhole(idna: Idna, name: Bytes, owner: bool)
    requires LawfulIdna(idna) && CanonicalName(idna, name, owner) == Some(name)
    ensures NoEmptyLabel(name)
  {
    CanonicalNameTwice(idna, name, owner);
  }

  lemma FixedIsSpelled(idna: Idna, name: Bytes, owner: bool) returns (labels: seq<Bytes>)
    requires LawfulIdna(idna) && CanonicalName(idna, name, owner) == Some(name)
    ensures Spelled(idna, name, owner, labels)
    ensures !owner ==> forall i :: 0 <= i < |labels| ==> PlainFixed(idna, labels[i])
  {
    FixedIsWhole(idna, name, owner);
    labels := CanonicalIsSpelled(idna, name, owner);
  }

  // ---------------------------------------------------------------- names in a zone

  predicate HasSuffix(text: Bytes, suffix: Bytes) {
    |suffix| <= |text| && text[|text| - |suffix|..] == suffix
  }

  /** The apex or a name below it. */
  predicate InZone(name: Bytes, zone: Bytes) {
    name == zone || HasSuffix(name, [DOT] + zone)
  }

  function CanonicalRecordName(idna: Idna, name: Bytes, zoneName: Bytes): Option<Bytes> {
    match CanonicalName(idna, zoneName, false)
    case None => None
    case Some(zone) =>
      var trimmed := TrimSpace(name);
      if trimmed == [] || trimmed == AT then Some(zone)
      else
        match CanonicalName(idna, trimmed, true)
        case None => None
        case Some(canonical) =>
          if InZone(canonical, zone) then Some(canonical)
          else if trimmed[|trimmed| - 1] == DOT then None
          else CanonicalName(idna, canonical + [DOT] + zone, true)
  }

  lemma {:induction false} PlainLabelsAreFixed(idna: Idna, labels: seq<Bytes>, owner: bool, first: bool)
    requires forall i :: 0 <= i < |labels| ==> PlainFixed(idna, labels[i])
    ensures FixedLabels(idna, labels, owner, first)
  {
    if labels != [] {
      PlainIsFixedAnywhere(idna, labels[0], owner, first);
      assert forall i :: 0 <= i < |labels| - 1 ==> labels[1..][i] == labels[i + 1];
      PlainLabelsAreFixed(idna, labels[1..], owner, false);
    }
  }

  lemma {:induction false} FixedLabelsAppend(idna: Idna, left: seq<Bytes>, right: seq<Bytes>, first: bool)
    requires FixedLabels(idna, left, true, first) && FixedLabels(idna, right, true, false) && left != []
    ensures FixedLabels(idna, left + right, true, first)
  {
    assert (left + right)[1..] == left[1..] + right;
    if |left| > 1 {
      FixedLabelsAppend(idna, left[1..], right, false);
    } else {
      assert left[1..] + right == right;
    }
  }

  lemma BelowZone(idna: Idna, labels: seq<Bytes>, zoneLabels: seq<Bytes>)
    requires labels != [] && zoneLabels != [] && FixedLabels(idna, labels, true, true)
    requires forall i :: 0 <= i < |zoneLabels| ==> PlainFixed(idna, zoneLabels[i])
    ensures var name := Join(labels) + [DOT] + Join(zoneLabels);
            CanonicalName(idna, name, true) == if |name| > MAXIMUM_NAME then None else Some(name)
  {
    PlainLabelsAreFixed(idna, zoneLabels, true, false);
    FixedLabelsAppend(idna, labels, zoneLabels, true);
    JoinAppends(labels, zoneLabels);
    JoinedIsCanonical(idna, labels + zoneLabels, true);
  }

  lemma SuffixOfBelow(head: Bytes, zone: Bytes)
    ensures HasSuffix(head + [DOT] + zone, [DOT] + zone)
  {
    assert (head + [DOT] + zone)[|head|..] == [DOT] + zone;
  }

  /** A name that is canonical and in the zone is the canonical name of itself. */
  lemma CanonicalInZoneStays(idna: Idna, name: Bytes, zoneName: Bytes)
    requires LawfulIdna(idna) && CanonicalName(idna, zoneName, false).Some?
    requires CanonicalName(idna, name, true) == Some(name) && InZone(name, CanonicalName(idna, zoneName, false).value)
    ensures CanonicalRecordName(idna, name, zoneName) == Some(name)
  {
    var labels := FixedIsSpelled(idna, name, true);
    FixedLabelsStay(idna, labels, true, true);
    JoinEnds(labels);
    OrdinaryEndsStay(name);
    NotAt(name);
  }

  // ---------------------------------------------------------------- where record names end up

  /** The name is given below the zone without the zone's name. */
  predicate Completes(idna: Idna, name: Bytes, zoneName: Bytes)
    requires CanonicalName(idna, zoneName, false).Some?
  {
    var trimmed := TrimSpace(name);
    && trimmed != [] && trimmed != AT && CanonicalName(idna, trimmed, true).Some?
    && !InZone(CanonicalName(idna, trimmed, true).value, CanonicalName(idna, zoneName, false).value)
  }

  /** Completing the name with a zone name that ends in a dot loses that dot, and with it the zone. */
  predicate LosesZone(idna: Idna, name: Bytes, zoneName: Bytes)
    requires CanonicalName(idna, zoneName, false).Some?
  {
    Completes(idna, name, zoneName) && !NoEmptyLabel(CanonicalName(idna, zoneName, false).value)
  }

  /** The zone's own name has no empty label. */
  predicate WholeZone(idna: Idna, zoneName: Bytes) {
    CanonicalName(idna, zoneName, false).Some? && NoEmptyLabel(CanonicalName(idna, zoneName, false).value)
  }

  /** Zones are listed under canonical names; every such zone that can be used at all is whole. */
  lemma CanonicalZonesAreWhole(idna: Idna, raw: Bytes, zoneName: Bytes)
    requires LawfulIdna(idna) && CanonicalName(idna, raw, false) == Some(zoneName)
    ensures CanonicalName(idna, zoneName, false).Some? <==> WholeZone(idna, zoneName)
  {
    CanonicalNameTwice(idna, raw, false);
  }

  lemma ZonePieces(idna: Idna, zoneName: Bytes)
    requires LawfulIdna(idna) && CanonicalName(idna, zoneName, false).Some?
    ensures var zone := CanonicalName(idna, zoneName, false).value;
            NearlyPlain(idna, Split(zone)) && Pieced(idna, zone, true) && zone != []
  {
    var zone := CanonicalName(idna, zoneName, false).value;
    CanonicalPieces(idna, zoneName, false);
    NearlyPlainIsFixed(idna, Split(zone), true, true);
    CanonicalIsNonEmpty(idna, zoneName, false);
  }

  lemma PiecesJoin(idna: Idna, head: Bytes, zone: Bytes)
    requires Pieced(idna, head, true) && NearlyPlain(idna, Split(zone))
    ensures Pieced(idna, head + [DOT] + zone, true)
  {
    SplitAppends(head, zone);
    NearlyPlainIsFixed(idna, Split(zone), true, false);
    NearlyFixedAppends(idna, Split(head), Split(zone), true, true);
  }

  /** What completing a name gives: the name below the zone, or below the zone without its final dot. */
  lemma CompletedName(idna: Idna, head: Bytes, zone: Bytes)
    requires Pieced(idna, head, true) && NearlyPlain(idna, Split(zone)) && zone != []
    requires CanonicalName(idna, head + [DOT] + zone, true).Some?
    ensures var r := CanonicalName(idna, head + [DOT] + zone, true).value;
            && NoEmptyLabel(r) && Pieced(idna, r, true)
            && if NoEmptyLabel(zone) then r == head + [DOT] + zone
               else zone[|zone| - 1] == DOT && r == head + [DOT] + zone[..|zone| - 1]
  {
    PiecesJoin(idna, head, zone);
    PiecedTwice(idna, head + [DOT] + zone, true);
    RecanonicalBelow(head, zone);
    RecanonicalIsPieced(idna, head + [DOT] + zone);
  }

  lemma RecanonicalIsPieced(idna: Idna, name: Bytes)
    requires Pieced(idna, name, true) && Recanonical(name).Some?
    ensures Pieced(idna, Recanonical(name).value, true)
  {
    if !NoEmptyLabel(name) {
      var front := name[..|name| - 1];
      assert front + [DOT] == name;
      FrontIsPieced(idna, front);
    }
  }

  lemma FrontIsPieced(idna: Idna, front: Bytes)
    ensures Pieced(idna, front + [DOT], true) ==> Pieced(idna, front, true)
  {
    SplitAppends(front, []);
    assert front + [DOT] + [] == front + [DOT];
    NearlyFixedAppends(idna, Split(front), Split([]), true, true);
  }

  lemma BelowEnds(name: Bytes, zone: Bytes)
    requires InZone(name, zone) && zone != []
    ensures name != [] && name[|name| - 1] == zone[|zone| - 1]
    ensures name != zone ==> exists head: Bytes :: name == head + [DOT] + zone
  {
    if name != zone {
      var head := name[..|name| - |zone| - 1];
      assert name == head + ([DOT] + zone);
      assert name == head + [DOT] + zone;
    }
  }

  lemma RecordNameShape(idna: Idna, name: Bytes, zoneName: Bytes)
    requires LawfulIdna(idna) && CanonicalRecordName(idna, name, zoneName).Some?
    ensures var r := CanonicalRecordName(idna, name, zoneName).value;
            && Pieced(idna, r, true) && 0 < |r| <= MAXIMUM_NAME
            && (Completes(idna, name, zoneName) ==> NoEmptyLabel(r))
  {
    var trimmed := TrimSpace(name);
    ZonePieces(idna, zoneName);
    if trimmed != [] && trimmed != AT {
      CanonicalPieces(idna, trimmed, true);
      CanonicalIsNonEmpty(idna, trimmed, true);
      if Completes(idna, name, zoneName) {
        CompletedName(idna, CanonicalName(idna, trimmed, true).value, CanonicalName(idna, zoneName, false).value);
      }
    }
  }

  /** What `CanonicalRecordName` returns is the apex or below it, unless completing the name lost the zone. */
  lemma RecordNameIsInZoneIff(idna: Idna, name: Bytes, zoneName: Bytes)
    requires LawfulIdna(idna) && CanonicalRecordName(idna, name, zoneName).Some?
    ensures InZone(CanonicalRecordName(idna, name, zoneName).value, CanonicalName(idna, zoneName, false).value)
            <==> !LosesZone(idna, name, zoneName)
  {
    var zone := CanonicalName(idna, zoneName, false).value;
    var trimmed := TrimSpace(name);
    ZonePieces(idna, zoneName);
    if Completes(idna, name, zoneName) {
      var head := CanonicalName(idna, trimmed, true).value;
      CanonicalPieces(idna, trimmed, true);
      CompletedName(idna, head, zone);
      SuffixOfBelow(head, zone);
      var r := CanonicalRecordName(idna, name, zoneName).value;
      WholeEndsPlainly(r);
      if InZone(r, zone) {
        BelowEnds(r, zone);
      }
    }
  }

  /** Canonicalizing a record name again, step by step. */
  lemma RecordNameAgain(idna: Idna, r: Bytes, zoneName: Bytes)
    requires CanonicalName(idna, zoneName, false).Some? && Pieced(idna, r, true) && 0 < |r| <= MAXIMUM_NAME
    ensures var zone := CanonicalName(idna, zoneName, false).value;
            CanonicalRecordName(idna, r, zoneName)
            == match Recanonical(r)
               case None => None
               case Some(c) => if InZone(c, zone) then Some(c)
                               else if r[|r| - 1] == DOT then None
                               else CanonicalName(idna, c + [DOT] + zone, true)
  {
    PiecedBytes(idna, r, true);
    PiecedTwice(idna, r, true);
    assert NameByte(r[0]);
  }

  /** A name in the zone that has an empty label is refused the second time: only its zone can end in a dot. */
  lemma DividedInZone(idna: Idna, r: Bytes, zoneName: Bytes)
    requires CanonicalName(idna, zoneName, false).Some? && Pieced(idna, r, true) && 0 < |r| <= MAXIMUM_NAME
    requires CanonicalName(idna, zoneName, false).value != []
    requires InZone(r, CanonicalName(idna, zoneName, false).value) && !NoEmptyLabel(r)
    ensures CanonicalRecordName(idna, r, zoneName) == None
  {
    var zone := CanonicalName(idna, zoneName, false).value;
    RecordNameAgain(idna, r, zoneName);
    BelowEnds(r, zone);
    if Recanonical(r).Some? {
      var front := Recanonical(r).value;
      WholeEndsPlainly(front);
      if InZone(front, zone) {
        BelowEnds(front, zone);
      }
    }
  }

  lemma LostZoneMoves(idna: Idna, r: Bytes, zoneName: Bytes)
    requires LawfulIdna(idna) && CanonicalName(idna, zoneName, false).Some?
    requires Pieced(idna, r, true) && NoEmptyLabel(r) && |r| <= MAXIMUM_NAME
    requires !InZone(r, CanonicalName(idna, zoneName, false).value)
    ensures CanonicalRecordName(idna, r, zoneName) != Some(r)
  {
    var zone := CanonicalName(idna, zoneName, false).value;
    WholeEndsPlainly(r);
    RecordNameAgain(idna, r, zoneName);
    ZonePieces(idna, zoneName);
    if CanonicalName(idna, r + [DOT] + zone, true).Some? {
      CompletedName(idna, r, zone);
    }
  }

  /**
    Canonicalizing a record name again leaves it alone, or refuses it when the mapping left an empty
    label in it. It gives another name only when completing the name lost the zone.
   */
  lemma RecordNameTwice(idna: Idna, name: Bytes, zoneName: Bytes)
    requires LawfulIdna(idna) && CanonicalRecordName(idna, name, zoneName).Some?
    ensures var r := CanonicalRecordName(idna, name, zoneName).value;
            if LosesZone(idna, name, zoneName) then CanonicalRecordName(idna, r, zoneName) != Some(r)
            else CanonicalRecordName(idna, r, zoneName) == if NoEmptyLabel(r) then Some(r) else None
  {
    var r := CanonicalRecordName(idna, name, zoneName).value;
    RecordNameShape(idna, name, zoneName);
    RecordNameIsInZoneIff(idna, name, zoneName);
    ZonePieces(idna, zoneName);
    if LosesZone(idna, name, zoneName) {
      LostZoneMoves(idna, r, zoneName);
    } else if NoEmptyLabel(r) {
      RecordNameAgain(idna, r, zoneName);
    } else {
      DividedInZone(idna, r, zoneName);
    }
  }

  /** The apex is a canonical owner name. */
  lemma ApexIsCanonical(idna: Idna, zoneName: Bytes)
    requires LawfulIdna(idna) && CanonicalName(idna, zoneName, false) == Some(zoneName)
    ensures CanonicalName(idna, zoneName, true) == Some(zoneName)
  {
    FixedIsWhole(idna, zoneName, false);
    ZonePieces(idna, zoneName);
    PiecedTwice(idna, zoneName, true);
  }

  // ---------------------------------------------------------------- relative names

  /** `tencentSubDomain` of a canonical name. */
  function SubDomain(name: Bytes, zone: Bytes): Bytes
    requires InZone(name, zone)
  {
    if name == zone then AT else name[..|name| - |zone| - 1]
  }

  /** The relative form is `@` for the apex and what stands before the zone's name otherwise. */
  lemma RelativeFormIff(name: Bytes, zone: Bytes, relative: Bytes)
    requires InZone(name, zone)
    ensures SubDomain(name, zone) == relative
            <==> if name == zone then relative == [0x40] else name == relative + [0x2E] + zone
  {
    if name != zone {
      assert name == name[..|name| - |zone| - 1] + ([DOT] + zone);
      if name == relative + [DOT] + zone {
        assert name[..|relative|] == relative;
      }
    }
  }

  /** `tencentRecordName`. */
  function RecordName(idna: Idna, owner: Bytes, zoneName: Bytes): Option<Bytes> {
    var trimmed := TrimSpace(owner);
    CanonicalRecordName(idna, if trimmed == [] || trimmed == AT then zoneName else trimmed, zoneName)
  }

  lemma ZoneNamesItself(idna: Idna, zoneName: Bytes)
    requires LawfulIdna(idna) && CanonicalName(idna, zoneName, false) == Some(zoneName)
    ensures CanonicalRecordName(idna, zoneName, zoneName) == Some(zoneName)
  {
    ApexIsCanonical(idna, zoneName);
    CanonicalInZoneStays(idna, zoneName, zoneName);
  }

  lemma AtIsBlankless()
    ensures TrimSpace(AT) == AT
  {
  }

  lemma HeadReads(idna: Idna, zone: Bytes, head: Bytes)
    requires CanonicalName(idna, zone, false) == Some(zone) && CanonicalName(idna, head, true) == Some(head)
    requires head != [] && TrimSpace(head) == head && head != AT && head[|head| - 1] != DOT
    requires CanonicalName(idna, head + [DOT] + zone, true) == Some(head + [DOT] + zone)
    ensures RecordName(idna, head, zone) == Some(if InZone(head, zone) then head else head + [DOT] + zone)
  {
  }

  lemma FixedHead(idna: Idna, head: seq<Bytes>)
    requires head != [] && FixedLabels(idna, head, true, true) && |Join(head)| <= MAXIMUM_NAME
    ensures var text := Join(head);
            CanonicalName(idna, text, true) == Some(text) && text != [] && TrimSpace(text) == text && text != AT
            && text[|text| - 1] != DOT
  {
    FixedLabelsStay(idna, head, true, true);
    JoinEnds(head);
    OrdinaryEndsStay(Join(head));
    NotAt(Join(head));
    JoinedIsCanonical(idna, head, true);
  }

  /** How the relative part of a name is read: as it stands if it lies in the zone, else below the zone. */
  lemma RelativeReads(idna: Idna, zone: Bytes, head: seq<Bytes>)
    requires LawfulIdna(idna) && CanonicalName(idna, zone, false) == Some(zone)
    requires head != [] && FixedLabels(idna, head, true, true) && |Join(head)| + 1 + |zone| <= MAXIMUM_NAME
    ensures RecordName(idna, Join(head), zone)
            == Some(if InZone(Join(head), zone) then Join(head) else Join(head) + [DOT] + zone)
  {
    var zoneLabels := FixedIsSpelled(idna, zone, false);
    BelowZone(idna, head, zoneLabels);
    FixedHead(idna, head);
    HeadReads(idna, zone, Join(head));
  }

  lemma SubDomainOf(head: Bytes, zone: Bytes)
    ensures var name := head + [DOT] + zone;
            name != zone && name != head && InZone(name, zone) && SubDomain(name, zone) == head
  {
    var name := head + [DOT] + zone;
    SuffixOfBelow(head, zone);
    assert |name| == |head| + 1 + |zone| && name[..|head|] == head;
  }

  lemma BelowIsCanonical(idna: Idna, zone: Bytes, head: seq<Bytes>)
    requires LawfulIdna(idna) && CanonicalName(idna, zone, false) == Some(zone)
    requires head != [] && FixedLabels(idna, head, true, true) && |Join(head)| + 1 + |zone| <= MAXIMUM_NAME
    ensures CanonicalRecordName(idna, Join(head) + [DOT] + zone, zone) == Some(Join(head) + [DOT] + zone)
  {
    var zoneLabels := FixedIsSpelled(idna, zone, false);
    BelowZone(idna, head, zoneLabels);
    SuffixOfBelow(Join(head), zone);
    CanonicalInZoneStays(idna, Join(head) + [DOT] + zone, zone);
  }

  /**
    Reading back the relative name of a name below the apex gives the name exactly when the relative
    part does not itself lie in the zone. `head` is the relative part's labels.
   */
  lemma RelativeRoundTripIff(idna: Idna, zone: Bytes, head: seq<Bytes>)
    requires LawfulIdna(idna) && CanonicalName(idna, zone, false) == Some(zone)
    requires head != [] && FixedLabels(idna, head, true, true) && |Join(head)| + 1 + |zone| <= MAXIMUM_NAME
    ensures var name := Join(head) + [DOT] + zone;
            && CanonicalRecordName(idna, name, zone) == Some(name) && InZone(name, zone)
            && SubDomain(name, zone) == Join(head)
            && (RecordName(idna, SubDomain(name, zone), zone) == Some(name) <==> !InZone(SubDomain(name, zone), zone))
  {
    BelowIsCanonical(idna, zone, head);
    RelativeReads(idna, zone, head);
    SubDomainOf(Join(head), zone);
  }

  lemma {:induction false} FixedPrefix(idna: Idna, left: seq<Bytes>, right: seq<Bytes>, owner: bool, first: bool)
    requires FixedLabels(idna, left + right, owner, first)
    ensures FixedLabels(idna, left, owner, first)
  {
    if left != [] {
      assert (left + right)[1..] == left[1..] + right;
      FixedPrefix(idna, left[1..], right, owner, false);
    }
  }

  lemma CanonicalSplits(idna: Idna, name: Bytes)
    requires LawfulIdna(idna) && CanonicalName(idna, name, true) == Some(name)
    ensures FixedLabels(idna, Split(name), true, true) && |name| <= MAXIMUM_NAME
  {
    var labels := FixedIsSpelled(idna, name, true);
    FixedLabelsStay(idna, labels, true, true);
    SplitJoined(labels);
  }

  /** A canonical name below the apex is a run of fixed labels above the zone. */
  lemma HeadOf(idna: Idna, zone: Bytes, name: Bytes) returns (head: seq<Bytes>)
    requires LawfulIdna(idna) && CanonicalName(idna, name, true) == Some(name)
    requires name != zone && InZone(name, zone)
    ensures head != [] && FixedLabels(idna, head, true, true)
    ensures name == Join(head) + [DOT] + zone && |name| <= MAXIMUM_NAME
  {
    CanonicalSplits(idna, name);
    var text := SubDomain(name, zone);
    assert name == text + [DOT] + zone;
    SplitAppends(text, zone);
    head := Split(text);
    FixedPrefix(idna, head, Split(zone), true, true);
    JoinOfSplit(text);
  }

  /** A record name that is its own canonical form is a canonical owner name. */
  lemma RecordNameIsFixed(idna: Idna, zone: Bytes, name: Bytes)
    requires LawfulIdna(idna) && CanonicalName(idna, zone, false) == Some(zone)
    requires CanonicalRecordName(idna, name, zone) == Some(name) && name != zone
    ensures CanonicalName(idna, name, true) == Some(name)
  {
    FixedIsWhole(idna, zone, false);
    RecordNameShape(idna, name, zone);
    RecordNameTwice(idna, name, zone);
    WholeStays(idna, name, true);
  }

  /** The apex round trip needs no condition. */
  lemma ApexRoundTrip(idna: Idna, zone: Bytes)
    requires LawfulIdna(idna) && CanonicalName(idna, zone, false) == Some(zone)
    ensures RecordName(idna, SubDomain(zone, zone), zone) == Some(zone)
  {
    AtIsBlankless();
    ZoneNamesItself(idna, zone);
  }

  /**
    For every canonical record name: its relative form reads back as the name exactly when the name
    is the apex or its relative part does not itself lie in the zone.
   */
  lemma RecordNameRoundTripIff(idna: Idna, zone: Bytes, name: Bytes)
    requires LawfulIdna(idna) && CanonicalName(idna, zone, false) == Some(zone)
    requires CanonicalRecordName(idna, name, zone) == Some(name)
    ensures InZone(name, zone)
    ensures RecordName(idna, SubDomain(name, zone), zone) == Some(name)
            <==> name == zone || !InZone(SubDomain(name, zone), zone)
  {
    FixedIsWhole(idna, zone, false);
    RecordNameIsInZoneIff(idna, name, zone);
    if name == zone {
      ApexRoundTrip(idna, zone);
    } else {
      RecordNameIsFixed(idna, zone, name);
      var head := HeadOf(idna, zone, name);
      RelativeRoundTripIff(idna, zone, head);
    }
  }

  // ---------------------------------------------------------------- names that do not come back

  /**
    In every zone short enough, the zone's name written twice is a record name whose relative form
    reads back as the apex.
   */
  lemma DoubledZoneIsMisread(idna: Idna, zone: Bytes)
    requires LawfulIdna(idna) && CanonicalName(idna, zone, false) == Some(zone) && 2 * |zone| + 1 <= MAXIMUM_NAME
    ensures var name := zone + [DOT] + zone;
            && CanonicalRecordName(idna, name, zone) == Some(name) && name != zone && InZone(name, zone)
            && RecordName(idna, SubDomain(name, zone), zone) == Some(zone)
  {
    var labels := FixedIsSpelled(idna, zone, false);
    PlainLabelsAreFixed(idna, labels, true, true);
    RelativeRoundTripIff(idna, zone, labels);
    RelativeReads(idna, zone, labels);
  }

  /** In the zone `a` the name `a.a` is sent as the relative name `a`, which reads back as the zone itself. */
  lemma RelativeNameCanBeMisread()
    ensures LawfulIdna(PlainOnly())
    ensures var zone: Bytes, name: Bytes := [0x61], [0x61, DOT, 0x61];
            && CanonicalRecordName(PlainOnly(), name, zone) == Some(name) && InZone(name, zone)
            && SubDomain(name, zone) == zone && RecordName(PlainOnly(), zone, zone) == Some(zone)
  {
    var zone: Bytes := [0x61];
    PlainOnlyIsLawful();
    LetterIsCanonical(PlainOnly(), 0x61, false);
    DoubledZoneIsMisread(PlainOnly(), zone);
    assert zone + [DOT] + zone == [0x61, DOT, 0x61];
  }

  /** A mapping that also knows the letter a followed by an ideographic full stop. */
  function StopMapper(): Idna {
    piece =>
      if piece == [0x61, 0xE3, 0x80, 0x82] then Some([0x61, DOT])
      else if PlainLabel(piece) then Some(piece)
      else None
  }

  lemma StopMapperIsLawful()
    ensures LawfulIdna(StopMapper())
  {
    forall piece | StopMapper()(piece).Some? ensures PiecesMap(StopMapper(), Split(Lower(StopMapper()(piece).value))) {
      if PlainLabel(piece) {
        assert Lower(piece) == piece;
        SplitLabel(piece, []);
      } else {
        SplitLabel([0x61], []);
        assert Lower([0x61, DOT]) == [0x61] + [DOT] + [];
        assert MapsToItself(StopMapper(), [0x61]);
      }
    }
  }

  lemma OneLabel(idna: Idna, name: Bytes, ascii: Bytes, owner: bool)
    requires CanonicalLabel(idna, name, owner, true) == Some(ascii)
    ensures CanonicalLabels(idna, [name], owner, true) == Some([ascii])
  {
    assert [name][1..] == [];
    assert [ascii] + [] == [ascii];
  }

  lemma OneLabelName(idna: Idna, name: Bytes, ascii: Bytes, owner: bool)
    requires name != [] && TrimSpace(name) == name && name[|name| - 1] != DOT && Split(name) == [name]
    requires CanonicalLabel(idna, name, owner, true) == Some(ascii) && |ascii| <= MAXIMUM_NAME
    ensures CanonicalName(idna, name, owner) == Some(ascii)
  {
    OneLabel(idna, name, ascii, owner);
  }

  /** A single letter is its own canonical name. */
  lemma LetterIsCanonical(idna: Idna, letter: byte, owner: bool)
    requires 0x61 <= letter <= 0x7A && idna([letter]) == Some([letter])
    ensures CanonicalName(idna, [letter], owner) == Some([letter]) && NoEmptyLabel([letter])
  {
    NameBytesStay([letter]);
    SplitLabel([letter], []);
    assert Lower([letter]) == [letter];
    assert UNDERSCORE !in [letter];
    OneLabelName(idna, [letter], [letter], owner);
  }

  const STOPPED_LABEL: Bytes := [0x61, 0xE3, 0x80, 0x82]

  lemma StoppedIsDivided(owner: bool)
    ensures CanonicalLabel(StopMapper(), STOPPED_LABEL, owner, true) == Some([0x61, DOT])
    ensures Split(STOPPED_LABEL) == [STOPPED_LABEL]
    ensures SpaceLength(STOPPED_LABEL) == 0 && SpaceSuffix(STOPPED_LABEL) == 0
  {
    SplitLabel(STOPPED_LABEL, []);
    assert Lower([0x61, DOT]) == [0x61, DOT];
    assert UNDERSCORE !in STOPPED_LABEL;
  }

  lemma FinalDotIsDivided()
    ensures !NoEmptyLabel([0x61, DOT])
  {
    if NoEmptyLabel([0x61, DOT]) {
      WholeEndsPlainly([0x61, DOT]);
    }
  }

  lemma DividedLosesItsDot()
    ensures CanonicalName(StopMapper(), [0x61, DOT], false) == CanonicalName(StopMapper(), [0x61], false)
  {
    NameBytesStay([0x61, DOT]);
    NameBytesStay([0x61]);
    assert [0x61, DOT][..1] == [0x61];
  }

  /** A name that canonicalizes to `a.` and then to `a`: the mapping left an empty piece. */
  lemma CanonicalNameCanChange()
    ensures LawfulIdna(StopMapper())
    ensures CanonicalName(StopMapper(), STOPPED_LABEL, false) == Some([0x61, DOT])
    ensures CanonicalName(StopMapper(), [0x61, DOT], false) == Some([0x61])
  {
    StopMapperIsLawful();
    StoppedIsDivided(false);
    OneLabelName(StopMapper(), STOPPED_LABEL, [0x61, DOT], false);
    DividedLosesItsDot();
    LetterIsCanonical(StopMapper(), 0x61, false);
  }

  lemma CompletesTo(idna: Idna, name: Bytes, zoneName: Bytes, head: Bytes, zone: Bytes, r: Bytes)
    requires CanonicalName(idna, zoneName, false) == Some(zone) && TrimSpace(name) == name && name != [] && name != AT
    requires CanonicalName(idna, name, true) == Some(head) && !InZone(head, zone) && name[|name| - 1] != DOT
    requires CanonicalName(idna, head + [DOT] + zone, true) == Some(r)
    ensures CanonicalRecordName(idna, name, zoneName) == Some(r)
  {
  }

  /** Completing a name with a zone name that ends in a dot takes the dot off again. */
  lemma CompletedLosesDot(idna: Idna, head: Bytes, front: Bytes)
    requires Pieced(idna, head, true) && NearlyPlain(idna, Split(front + [DOT]))
    requires NoEmptyLabel(head) && NoEmptyLabel(front)
    ensures CanonicalName(idna, head + [DOT] + (front + [DOT]), true) == Fitting(Some(head + [DOT] + front))
  {
    PiecesJoin(idna, head, front + [DOT]);
    WholeAppends(head, front);
    assert head + [DOT] + front + [DOT] == head + [DOT] + (front + [DOT]);
    FinalDotGoes(idna, head + [DOT] + front, true);
  }

  lemma PlainEndLeavesDottedZone(name: Bytes, front: Bytes)
    requires NoEmptyLabel(name)
    ensures !InZone(name, front + [DOT])
  {
    WholeEndsPlainly(name);
    if InZone(name, front + [DOT]) {
      BelowEnds(name, front + [DOT]);
    }
  }

  lemma FixedIsPieced(idna: Idna, name: Bytes)
    requires LawfulIdna(idna) && CanonicalName(idna, name, true) == Some(name)
    ensures Pieced(idna, name, true) && NoEmptyLabel(name) && TrimSpace(name) == name && name != [] && name != AT
  {
    CanonicalPieces(idna, name, true);
    FixedIsWhole(idna, name, true);
    PiecedBytes(idna, name, true);
    WholeEndsPlainly(name);
    assert NameByte(name[0]);
  }

  /** When a raw zone name maps to a text that ends in a dot, every canonical name below it leaves the zone. */
  lemma RecordNameLeavesZone(idna: Idna, name: Bytes, zoneName: Bytes, front: Bytes)
    requires LawfulIdna(idna) && CanonicalName(idna, zoneName, false) == Some(front + [DOT]) && NoEmptyLabel(front)
    requires CanonicalName(idna, name, true) == Some(name) && |name| + 1 + |front| <= MAXIMUM_NAME
    ensures CanonicalRecordName(idna, name, zoneName) == Some(name + [DOT] + front)
    ensures LosesZone(idna, name, zoneName) && !InZone(name + [DOT] + front, front + [DOT])
  {
    FixedIsPieced(idna, name);
    ZonePieces(idna, zoneName);
    CompletedLosesDot(idna, name, front);
    WholeAppends(name, front);
    PlainEndLeavesDottedZone(name, front);
    PlainEndLeavesDottedZone(name + [DOT] + front, front);
    WholeEndsPlainly(name);
    CompletesTo(idna, name, zoneName, name, front + [DOT], name + [DOT] + front);
    RecordNameIsInZoneIff(idna, name, zoneName);
  }

  lemma StoppedZone()
    ensures CanonicalName(StopMapper(), STOPPED_LABEL, false) == Some([0x61] + [DOT])
  {
    CanonicalNameCanChange();
    assert [0x61] + [DOT] == [0x61, DOT];
  }

  lemma StopMapperKnowsLetters(letter: byte)
    requires 0x61 <= letter <= 0x7A
    ensures CanonicalName(StopMapper(), [letter], true) == Some([letter]) && NoEmptyLabel([letter])
  {
    LetterIsCanonical(StopMapper(), letter, true);
  }

  /** Such a zone name: below the letter a and an ideographic full stop, a letter such as `b` becomes `b.a`. */
  lemma RecordNameCanLeaveItsZone(letter: byte)
    requires 0x61 <= letter <= 0x7A
    ensures LosesZone(StopMapper(), [letter], STOPPED_LABEL)
    ensures CanonicalRecordName(StopMapper(), [letter], STOPPED_LABEL) == Some([letter] + [DOT] + [0x61])
  {
    StopMapperIsLawful();
    StoppedZone();
    StopMapperKnowsLetters(letter);
    StopMapperKnowsLetters(0x61);
    RecordNameLeavesZone(StopMapper(), [letter], STOPPED_LABEL, [0x61]);
  }
}
