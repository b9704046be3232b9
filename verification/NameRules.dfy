/** Which names are accepted and what they become, label by label. */
module NameRules {
  import opened Wrappers
  import opened Utf8
  import opened Labels
  import opened Names

  /** Lower-case letters, digits, hyphens and underscores. */
  predicate LowerOwnerByte(b: byte) {
    0x61 <= b <= 0x7A || 0x30 <= b <= 0x39 || b == 0x2D || b == 0x5F
  }

  /** ASCII letters in lower case, every other byte as it is. */
  predicate Lowered(text: Bytes, lower: Bytes) {
    && |lower| == |text|
    && forall i :: 0 <= i < |text| ==> lower[i] == if 0x41 <= text[i] <= 0x5A then text[i] + 32 else text[i]
  }

  /**
    A label and its canonical form: in an owner name a leading star stays and a label with an
    underscore is lower-cased if its letters, digits, hyphens and underscores are in order; every
    other label is mapped and lower-cased.
   */
  predicate LabelBecomes(idna: Idna, piece: Bytes, owner: bool, first: bool, canonical: Bytes) {
    piece != [] &&
    if owner && first && piece == [0x2A] then canonical == [0x2A]
    else if owner && 0x5F in piece then
      && Lowered(piece, canonical) && |piece| <= 63 && piece[0] != 0x2D && piece[|piece| - 1] != 0x2D
      && forall i :: 0 <= i < |canonical| ==> LowerOwnerByte(canonical[i])
    else
      idna(piece).Some? && 1 <= |idna(piece).value| <= 63 && Lowered(idna(piece).value, canonical)
  }

  lemma LoweredIff(text: Bytes, lower: Bytes)
    ensures Lowered(text, lower) <==> lower == Lower(text)
  {
  }

  lemma OwnerBytesIff(piece: Bytes)
    ensures (forall i :: 0 <= i < |piece| ==> OwnerByte(piece[i]))
            <==> forall i :: 0 <= i < |piece| ==> LowerOwnerByte(Lower(piece)[i])
  {
    forall i | 0 <= i < |piece| ensures OwnerByte(piece[i]) <==> LowerOwnerByte(Lower(piece)[i]) {
    }
  }

  lemma LabelIff(idna: Idna, piece: Bytes, owner: bool, first: bool, canonical: Bytes)
    ensures CanonicalLabel(idna, piece, owner, first) == Some(canonical)
            <==> LabelBecomes(idna, piece, owner, first, canonical)
  {
    LoweredIff(piece, canonical);
    OwnerBytesIff(piece);
    if idna(piece).Some? {
      LoweredIff(idna(piece).value, canonical);
    }
  }

  /** Every label becomes its canonical form; only the first may be a star. */
  predicate LabelsBecome(idna: Idna, labels: seq<Bytes>, owner: bool, first: bool, canonical: seq<Bytes>) {
    && |canonical| == |labels|
    && forall i :: 0 <= i < |labels| ==> LabelBecomes(idna, labels[i], owner, first && i == 0, canonical[i])
  }

  lemma {:induction false} LabelsIff(idna: Idna, labels: seq<Bytes>, owner: bool, first: bool, canonical: seq<Bytes>)
    ensures CanonicalLabels(idna, labels, owner, first) == Some(canonical)
            <==> LabelsBecome(idna, labels, owner, first, canonical)
  {
    if labels != [] && canonical != [] {
      LabelIff(idna, labels[0], owner, first, canonical[0]);
      LabelsIff(idna, labels[1..], owner, false, canonical[1..]);
      assert canonical == [canonical[0]] + canonical[1..];
      assert forall i :: 0 <= i < |labels| - 1 ==> labels[1..][i] == labels[i + 1];
      assert forall i :: 0 <= i < |canonical| - 1 ==> canonical[1..][i] == canonical[i + 1];
      if LabelsBecome(idna, labels[1..], owner, false, canonical[1..])
         && LabelBecomes(idna, labels[0], owner, first, canonical[0]) {
        forall i | 0 <= i < |labels| ensures LabelBecomes(idna, labels[i], owner, first && i == 0, canonical[i]) {
          assert i > 0 ==> labels[i] == labels[1..][i - 1] && canonical[i] == canonical[1..][i - 1];
        }
      }
      if LabelsBecome(idna, labels, owner, first, canonical) {
        forall i | 0 <= i < |labels| - 1
          ensures LabelBecomes(idna, labels[1..][i], owner, false && i == 0, canonical[1..][i])
        {
          assert LabelBecomes(idna, labels[i + 1], owner, first && i + 1 == 0, canonical[i + 1]);
        }
        assert LabelBecomes(idna, labels[0], owner, first && 0 == 0, canonical[0]);
      }
    }
  }

  /** The labels of a name, with or without its final dot. */
  predicate NameSpells(trimmed: Bytes, labels: seq<Bytes>)
    requires labels != []
  {
    trimmed == Join(labels) || trimmed == Join(labels) + [0x2E]
  }

  /** The name has these labels between its dots, and this is what they become. */
  predicate NameBecomes(idna: Idna, name: Bytes, owner: bool, labels: seq<Bytes>, canonical: seq<Bytes>) {
    && labels != [] && NameSpells(TrimSpace(name), labels)
    && (forall i :: 0 <= i < |labels| ==> labels[i] != [] && 0x2E !in labels[i])
    && LabelsBecome(idna, labels, owner, true, canonical) && |Join(canonical)| <= 253
  }

  lemma {:induction false} SplitHasNoDots(text: Bytes)
    ensures forall i :: 0 <= i < |Split(text)| ==> DOT !in Split(text)[i]
  {
    if text != [] {
      SplitHasNoDots(text[1..]);
    }
  }

  lemma {:induction false} SplitOfJoin(labels: seq<Bytes>)
    requires labels != [] && forall i :: 0 <= i < |labels| ==> DOT !in labels[i]
    ensures Split(Join(labels)) == labels
  {
    var head := labels[0];
    assert forall i :: 0 <= i < |head| ==> head[i] in head;
    if |labels| == 1 {
      SplitLabel(head, []);
    } else {
      assert forall i :: 0 <= i < |labels| - 1 ==> labels[1..][i] == labels[i + 1];
      SplitOfJoin(labels[1..]);
      SplitLabel(head, Join(labels[1..]));
      assert [head] + labels[1..] == labels;
    }
  }

  lemma AcceptedSpells(idna: Idna, name: Bytes, owner: bool, r: Bytes)
    requires CanonicalName(idna, name, owner) == Some(r)
    ensures var labels := Split(WithoutFinalDot(TrimSpace(name)));
            exists canonical :: NameBecomes(idna, name, owner, labels, canonical) && r == Join(canonical)
  {
    var trimmed := TrimSpace(name);
    var labels := Split(WithoutFinalDot(trimmed));
    var canonical := CanonicalLabels(idna, labels, owner, true).value;
    LabelsIff(idna, labels, owner, true, canonical);
    JoinOfSplit(WithoutFinalDot(trimmed));
    SplitHasNoDots(WithoutFinalDot(trimmed));
    assert trimmed == WithoutFinalDot(trimmed) || trimmed == WithoutFinalDot(trimmed) + [DOT];
    assert NameBecomes(idna, name, owner, labels, canonical) by {
      forall i | 0 <= i < |labels| ensures labels[i] != [] {
        assert LabelBecomes(idna, labels[i], owner, true && i == 0, canonical[i]);
      }
    }
  }

  /** A joined name of non-empty labels does not end in a dot. */
  lemma {:induction false} JoinEndsPlainly(labels: seq<Bytes>)
    requires labels != [] && forall i :: 0 <= i < |labels| ==> labels[i] != [] && DOT !in labels[i]
    ensures Join(labels) != [] && Join(labels)[|Join(labels)| - 1] != DOT
  {
    if |labels| == 1 {
      assert labels[0][|labels[0]| - 1] in labels[0];
    } else {
      assert forall i :: 0 <= i < |labels| - 1 ==> labels[1..][i] == labels[i + 1];
      JoinEndsPlainly(labels[1..]);
    }
  }

  lemma SpelledIsAccepted(idna: Idna, name: Bytes, owner: bool, labels: seq<Bytes>, canonical: seq<Bytes>)
    requires NameBecomes(idna, name, owner, labels, canonical)
    ensures CanonicalName(idna, name, owner) == Some(Join(canonical))
  {
    var trimmed, joined := TrimSpace(name), Join(labels);
    JoinEndsPlainly(labels);
    assert WithoutFinalDot(trimmed) == joined;
    assert !EndsInTwoDots(trimmed) && trimmed != [] && trimmed != [DOT];
    SplitOfJoin(labels);
    LabelsIff(idna, labels, owner, true, canonical);
  }

  /** A name is accepted exactly when every label between its dots is, and becomes the canonical labels joined. */
  lemma NameIff(idna: Idna, name: Bytes, owner: bool, r: Bytes)
    ensures CanonicalName(idna, name, owner) == Some(r)
            <==> exists labels, canonical ::
                   NameBecomes(idna, name, owner, labels, canonical) && r == Join(canonical)
  {
    if CanonicalName(idna, name, owner) == Some(r) {
      AcceptedSpells(idna, name, owner, r);
    }
    forall labels, canonical | NameBecomes(idna, name, owner, labels, canonical)
      ensures CanonicalName(idna, name, owner) == Some(Join(canonical))
    {
      SpelledIsAccepted(idna, name, owner, labels, canonical);
    }
  }

  /**
    Where a record name leads: nothing or `@` to the apex, a name in the zone to itself, any other
    name below the zone, unless a final dot says that it is complete.
   */
  lemma RecordNameLeadsTo(idna: Idna, name: Bytes, zoneName: Bytes, r: Bytes)
    requires CanonicalName(idna, zoneName, false).Some?
    ensures var zone, trimmed := CanonicalName(idna, zoneName, false).value, TrimSpace(name);
            var canonical := CanonicalName(idna, trimmed, true);
            CanonicalRecordName(idna, name, zoneName) == Some(r) <==>
              || ((trimmed == [] || trimmed == [0x40]) && r == zone)
              || (trimmed != [] && trimmed != [0x40] && canonical == Some(r) && InZone(r, zone))
              || (trimmed != [] && trimmed != [0x40] && canonical.Some? && !InZone(canonical.value, zone)
                  && trimmed[|trimmed| - 1] != 0x2E
                  && CanonicalName(idna, canonical.value + [0x2E] + zone, true) == Some(r))
  {
  }
}
