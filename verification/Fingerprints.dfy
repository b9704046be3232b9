/**
  Order-independent fingerprints of record sets and the precondition built on them. JSON encoding
  and the digest are injective parameters.
 */
module Fingerprints {
  import opened Wrappers
  import opened Utf8
  import opened Txt
  import opened RecordEntries
  import opened Sorting

  /** An entry without its record ID; the extension is opaque here. */
  datatype PrintedEntry = PrintedEntry(data: EntryData, extension: Bytes)

  /** The canonical form of a record set that is digested. */
  datatype Document = Document(name: Bytes, rtype: RecordType, ttl: nat, entries: seq<PrintedEntry>, extension: Bytes,
                               version: Bytes)

  /** `valid` recognizes well-formed fingerprints: the prefix and a digest of the right size. */
  datatype Encoding = Encoding(entry: PrintedEntry -> Bytes, document: Document -> Bytes, digest: Bytes -> Bytes,
                               valid: Bytes -> bool)

  ghost predicate Faithful(encoding: Encoding) {
    && Injective(encoding.entry)
    && (forall a, b :: encoding.document(a) == encoding.document(b) ==> a == b)
    && (forall a, b :: encoding.digest(a) == encoding.digest(b) ==> a == b)
    && (forall a :: encoding.valid(encoding.digest(a)))
  }

  // ---------------------------------------------------------------- fingerprints

  function Fingerprint(encoding: Encoding, recordSet: Document): Bytes {
    encoding.digest(encoding.document(recordSet.(entries := Sorted(ByKey(encoding.entry), recordSet.entries))))
  }

  /** Equal but for the order of the entries. */
  predicate SameContent(a: Document, b: Document) {
    a.(entries := []) == b.(entries := []) && multiset(a.entries) == multiset(b.entries)
  }

  /** Equal fingerprints mean equal content, whatever the entry order. */
  lemma FingerprintIff(encoding: Encoding, a: Document, b: Document)
    requires Faithful(encoding)
    ensures Fingerprint(encoding, a) == Fingerprint(encoding, b) <==> SameContent(a, b)
  {
    var left, right := Sorted(ByKey(encoding.entry), a.entries), Sorted(ByKey(encoding.entry), b.entries);
    if SameContent(a, b) {
      ByKeyIsSortable(encoding.entry);
      SortedIsOrdered(ByKey(encoding.entry), a.entries);
      SortedIsOrdered(ByKey(encoding.entry), b.entries);
      KeyedIsStrict(encoding.entry, left);
      OrderingIsUnique(ByKey(encoding.entry), left, right);
      assert a.(entries := left) == a.(entries := []).(entries := left);
    }
    if Fingerprint(encoding, a) == Fingerprint(encoding, b) {
      assert a.(entries := left) == b.(entries := right);
      assert left == right;
    }
  }

  // ---------------------------------------------------------------- the precondition

  function Values(entries: seq<PrintedEntry>): (r: seq<EntryData>)
    ensures |r| == |entries| && forall i :: 0 <= i < |r| ==> r[i] == entries[i].data
  {
    seq(|entries|, i requires 0 <= i < |entries| => entries[i].data)
  }

  function WithValues(entries: seq<PrintedEntry>, values: seq<EntryData>): (r: seq<PrintedEntry>)
    requires |values| == |entries|
    ensures |r| == |entries| && forall i :: 0 <= i < |r| ==> r[i] == entries[i].(data := values[i])
  {
    seq(|entries|, i requires 0 <= i < |entries| => entries[i].(data := values[i]))
  }

  function NormalizeEntries(lib: Library, rtype: RecordType,
                            entries: seq<PrintedEntry>): (r: Option<seq<PrintedEntry>>) {
    match NormalizeAll(lib, rtype, Values(entries))
    case None => None
    case Some(values) => Some(WithValues(entries, values))
  }

  predicate DistinctEntries(entries: seq<PrintedEntry>) {
    forall i, j :: 0 <= i < j < |entries| ==> entries[i] != entries[j]
  }

  /** `normalizeRecordSet` without a zone; `canonicalName` canonicalizes the owner name. */
  function Normalize(lib: Library, canonicalName: Bytes -> Option<Bytes>, recordSet: Document): Option<Document> {
    var name := canonicalName(recordSet.name);
    if name.None? || recordSet.rtype.Unknown? || recordSet.ttl == 0 || recordSet.entries == [] then None
    else
      var entries := NormalizeEntries(lib, recordSet.rtype, recordSet.entries);
      if entries.None? || !DistinctEntries(entries.value) then None
      else Some(recordSet.(name := name.value, entries := entries.value, version := TrimSpace(recordSet.version)))
  }

  datatype Precondition = Precondition(expected: Bytes, version: Bytes)

  /** `Precondition.Matches`: an error is `None`. */
  function Matches(lib: Library, canonicalName: Bytes -> Option<Bytes>, encoding: Encoding, precondition: Precondition,
                   recordSet: Document): Option<bool> {
    if !encoding.valid(precondition.expected) then None
    else if precondition.version != [] && precondition.version != recordSet.version then Some(false)
    else
      match Normalize(lib, canonicalName, recordSet)
      case None => None
      case Some(normalized) => Some(Fingerprint(encoding, normalized) == precondition.expected)
  }

  /** The normal form keeps type, TTL, extensions and the order of the entries, whose data are normalized. */
  predicate NormalDocument(lib: Library, canonicalName: Bytes -> Option<Bytes>, recordSet: Document, normal: Document) {
    && canonicalName(recordSet.name) == Some(normal.name) && normal.rtype == recordSet.rtype
    && !normal.rtype.Unknown? && normal.ttl == recordSet.ttl > 0
    && normal.extension == recordSet.extension && normal.version == TrimSpace(recordSet.version)
    && |normal.entries| == |recordSet.entries| > 0
    && (forall i :: 0 <= i < |normal.entries| ==>
          && NormalizeEntry(lib, recordSet.rtype, recordSet.entries[i].data) == Some(normal.entries[i].data)
          && normal.entries[i].extension == recordSet.entries[i].extension)
    && forall i, j :: 0 <= i < j < |normal.entries| ==> normal.entries[i] != normal.entries[j]
  }

  lemma NormalizeIff(lib: Library, canonicalName: Bytes -> Option<Bytes>, recordSet: Document, normal: Document)
    ensures Normalize(lib, canonicalName, recordSet) == Some(normal)
            <==> NormalDocument(lib, canonicalName, recordSet, normal)
  {
    var entries, rtype := recordSet.entries, recordSet.rtype;
    var values := NormalizeAll(lib, rtype, Values(entries));
    if NormalDocument(lib, canonicalName, recordSet, normal) {
      forall i | 0 <= i < |entries| ensures NormalizeEntry(lib, rtype, Values(entries)[i]).Some? {
      }
      assert values.Some?;
      assert WithValues(entries, values.value) == normal.entries;
    }
    if Normalize(lib, canonicalName, recordSet) == Some(normal) {
      assert normal.entries == WithValues(entries, values.value);
    }
  }

  /**
    The precondition accepts exactly the sets whose normal form has the content it was taken from, and
    whose version is the one given, if one is.
   */
  lemma MatchesIff(lib: Library, canonicalName: Bytes -> Option<Bytes>, encoding: Encoding, version: Bytes,
                   taken: Document, recordSet: Document)
    requires Faithful(encoding)
    ensures var r := Matches(lib, canonicalName, encoding, Precondition(Fingerprint(encoding, taken), version),
                             recordSet);
            && (r == Some(true) <==>
                  && (version == [] || version == recordSet.version)
                  && exists normal :: NormalDocument(lib, canonicalName, recordSet, normal)
                                      && SameContent(taken, normal))
            && (r == None <==>
                  && (version == [] || version == recordSet.version)
                  && forall normal :: !NormalDocument(lib, canonicalName, recordSet, normal))
  {
    forall normal ensures Normalize(lib, canonicalName, recordSet) == Some(normal)
                          <==> NormalDocument(lib, canonicalName, recordSet, normal)
    {
      NormalizeIff(lib, canonicalName, recordSet, normal);
    }
    var normalized := Normalize(lib, canonicalName, recordSet);
    if normalized.Some? {
      assert NormalDocument(lib, canonicalName, recordSet, normalized.value);
      FingerprintIff(encoding, normalized.value, taken);
    }
  }

  // ---------------------------------------------------------------- does a listed set match its own fingerprint?

  lemma TrimShortens(text: Bytes)
    ensures |TrimSpace(text)| == |text| ==> TrimSpace(text) == text
  {
    TrimRightWhole(TrimLeft(text));
  }

  lemma TrimRightWhole(text: Bytes)
    ensures |TrimRight(text)| == |text| ==> TrimRight(text) == text
  {
  }

  lemma CanonicalShortens(value: Bytes)
    requires Canonical(value).Ok? && Canonical(value).value != value
    ensures |Canonical(value).value| < |value|
  {
    SegmentsShrink(TrimSpace(value));
  }

  lemma CaaShortens(value: Bytes)
    requires CaaValue(value).Some? && CaaValue(value).value != value
    ensures |CaaValue(value).value| < |value|
  {
    TrimShortens(value);
    var trimmed := TrimSpace(value);
    if trimmed != [] && trimmed[0] == QUOTE {
      TrimTwice(value);
      SegmentsShrink(trimmed);
    }
  }

  lemma TxtEntryShortens(lib: Library, data: EntryData)
    requires Shown(lib, TXT, data) && NormalizeEntry(lib, TXT, data).Some?
    ensures FixedEntry(lib, TXT, data) || TextBytes(NormalizeEntry(lib, TXT, data).value) < TextBytes(data)
  {
    if Canonical(data.value).value != data.value {
      CanonicalShortens(data.value);
    }
  }

  lemma CaaEntryShortens(lib: Library, data: EntryData)
    requires Lawful(lib) && Shown(lib, CAA, data) && NormalizeEntry(lib, CAA, data).Some?
    ensures FixedEntry(lib, CAA, data) || TextBytes(NormalizeEntry(lib, CAA, data).value) < TextBytes(data)
  {
    var raw :| NormalizeEntry(lib, CAA, raw) == Some(data);
    TrimLettersDigits(data.tag.value);
    if CaaValue(data.value).value != data.value {
      CaaShortens(data.value);
    }
  }

  /** Normalizing a shown entry again either leaves it alone or makes its value or its target shorter. */
  lemma NormalizingAgainShortens(lib: Library, rtype: RecordType, data: EntryData)
    requires Lawful(lib) && Shown(lib, rtype, data) && NormalizeEntry(lib, rtype, data).Some?
    ensures FixedEntry(lib, rtype, data) || TextBytes(NormalizeEntry(lib, rtype, data).value) < TextBytes(data)
  {
    if rtype == TXT {
      TxtEntryShortens(lib, data);
    } else if rtype == CAA {
      CaaEntryShortens(lib, data);
    } else if HasTarget(rtype) {
      TargetFixedIff(lib, rtype, data);
    } else {
      OthersAreFixed(lib, rtype, data);
    }
  }

  function AllTextBytes(entries: seq<PrintedEntry>): nat {
    if entries == [] then 0 else TextBytes(entries[0].data) + AllTextBytes(entries[1..])
  }

  predicate AllFixed(lib: Library, rtype: RecordType, entries: seq<PrintedEntry>) {
    forall i :: 0 <= i < |entries| ==> FixedEntry(lib, rtype, entries[i].data)
  }

  ghost predicate AllShown(lib: Library, rtype: RecordType, entries: seq<PrintedEntry>) {
    forall i :: 0 <= i < |entries| ==> Shown(lib, rtype, entries[i].data)
  }

  lemma FixedEntriesStay(lib: Library, rtype: RecordType, entries: seq<PrintedEntry>)
    ensures NormalizeEntries(lib, rtype, entries) == Some(entries) <==> AllFixed(lib, rtype, entries)
  {
    var values := NormalizeAll(lib, rtype, Values(entries));
    if AllFixed(lib, rtype, entries) {
      assert forall i :: 0 <= i < |entries| ==>
        Values(entries)[i] == entries[i].data && FixedEntry(lib, rtype, entries[i].data);
      assert values.Some?;
      assert WithValues(entries, values.value) == entries;
    }
    if NormalizeEntries(lib, rtype, entries) == Some(entries) {
      forall i | 0 <= i < |entries| ensures FixedEntry(lib, rtype, entries[i].data) {
        assert WithValues(entries, values.value)[i].data == values.value[i];
      }
    }
  }

  predicate Shorter(a: seq<PrintedEntry>, b: seq<PrintedEntry>)
    requires |a| == |b|
  {
    forall i :: 0 <= i < |a| ==> TextBytes(a[i].data) <= TextBytes(b[i].data)
  }

  lemma {:induction false} ShorterBytes(a: seq<PrintedEntry>, b: seq<PrintedEntry>)
    requires |a| == |b| && Shorter(a, b)
    ensures AllTextBytes(a) <= AllTextBytes(b)
    ensures AllTextBytes(a) == AllTextBytes(b) ==> Shorter(b, a)
  {
    if a != [] {
      assert forall i :: 0 <= i < |a| - 1 ==> a[1..][i] == a[i + 1] && b[1..][i] == b[i + 1];
      ShorterBytes(a[1..], b[1..]);
      if AllTextBytes(a) == AllTextBytes(b) {
        forall i | 0 <= i < |a| ensures TextBytes(b[i].data) <= TextBytes(a[i].data) {
          assert i > 0 ==> a[i] == a[1..][i - 1] && b[i] == b[1..][i - 1];
        }
      }
    }
  }

  /** If some entry is not fixed, the texts get shorter in total, so the entries cannot be the same. */
  lemma NormalizedBytes(lib: Library, rtype: RecordType, entries: seq<PrintedEntry>)
    requires Lawful(lib) && AllShown(lib, rtype, entries) && NormalizeEntries(lib, rtype, entries).Some?
    requires AllTextBytes(NormalizeEntries(lib, rtype, entries).value) == AllTextBytes(entries)
    ensures AllFixed(lib, rtype, entries)
  {
    var normalized := NormalizeEntries(lib, rtype, entries).value;
    forall i | 0 <= i < |entries|
      ensures NormalizeEntry(lib, rtype, entries[i].data) == Some(normalized[i].data)
      ensures FixedEntry(lib, rtype, entries[i].data) || TextBytes(normalized[i].data) < TextBytes(entries[i].data)
    {
      assert Values(entries)[i] == entries[i].data;
      NormalizingAgainShortens(lib, rtype, entries[i].data);
    }
    ShorterBytes(normalized, entries);
  }

  lemma {:induction false} BytesSplit(entries: seq<PrintedEntry>, k: nat)
    requires k < |entries|
    ensures AllTextBytes(entries) == TextBytes(entries[k].data) + AllTextBytes(entries[..k] + entries[k + 1..])
  {
    if k > 0 {
      BytesSplit(entries[1..], k - 1);
      var rest := entries[..k] + entries[k + 1..];
      assert rest[1..] == entries[1..][..k - 1] + entries[1..][k..];
    } else {
      assert entries[..0] + entries[1..] == entries[1..];
    }
  }

  lemma {:induction false} BytesOfMultiset(a: seq<PrintedEntry>, b: seq<PrintedEntry>)
    requires multiset(a) == multiset(b)
    ensures AllTextBytes(a) == AllTextBytes(b)
    decreases |a|
  {
    if a == [] {
      assert |b| == |multiset(b)| == 0;
    } else {
      assert a[0] in multiset(b);
      var k :| 0 <= k < |b| && b[k] == a[0];
      var rest := b[..k] + b[k + 1..];
      BytesSplit(b, k);
      assert b == b[..k] + [b[k]] + b[k + 1..];
      assert multiset(b) == multiset(rest) + multiset{b[k]};
      TailMultiset(a);
      BytesOfMultiset(a[1..], rest);
    }
  }

  /** If the content survives another normalization, no entry changes. */
  lemma SameContentIsFixed(lib: Library, listed: Document, entries: seq<PrintedEntry>)
    requires Lawful(lib) && AllShown(lib, listed.rtype, listed.entries)
    requires NormalizeEntries(lib, listed.rtype, listed.entries) == Some(entries)
    requires multiset(entries) == multiset(listed.entries)
    ensures AllFixed(lib, listed.rtype, listed.entries)
  {
    BytesOfMultiset(entries, listed.entries);
    NormalizedBytes(lib, listed.rtype, listed.entries);
  }

  lemma MatchesIffFixed(lib: Library, canonicalName: Bytes -> Option<Bytes>, encoding: Encoding, listed: Document)
    requires Lawful(lib) && Faithful(encoding) && ListedDocument(lib, canonicalName, listed)
    ensures MatchesItself(lib, canonicalName, encoding, listed) <==> AllFixed(lib, listed.rtype, listed.entries)
  {
    var normalized := Normalize(lib, canonicalName, listed);
    FixedEntriesStay(lib, listed.rtype, listed.entries);
    if AllFixed(lib, listed.rtype, listed.entries) {
      assert normalized == Some(listed);
    } else if normalized.Some? {
      FingerprintIff(encoding, normalized.value, listed);
      if multiset(normalized.value.entries) == multiset(listed.entries) {
        SameContentIsFixed(lib, listed, normalized.value.entries);
      }
    }
  }

  /** What a listing shows: canonical name, trimmed version, distinct normalized entries. */
  ghost predicate ListedDocument(lib: Library, canonicalName: Bytes -> Option<Bytes>, listed: Document) {
    && canonicalName(listed.name) == Some(listed.name) && !listed.rtype.Unknown? && listed.ttl != 0
    && listed.entries != [] && DistinctEntries(listed.entries) && TrimSpace(listed.version) == listed.version
    && AllShown(lib, listed.rtype, listed.entries)
  }

  /** Is the precondition taken from a listed set met by that very set? */
  predicate MatchesItself(lib: Library, canonicalName: Bytes -> Option<Bytes>, encoding: Encoding, listed: Document) {
    Matches(lib, canonicalName, encoding, Precondition(Fingerprint(encoding, listed), listed.version), listed)
      == Some(true)
  }

  /**
    A listed set matches the fingerprint it was listed with exactly when all its entries look plain;
    otherwise the precondition taken from that listing can never be met.
   */
  lemma OwnFingerprintMatchesIff(lib: Library, canonicalName: Bytes -> Option<Bytes>, encoding: Encoding,
                                 listed: Document)
    requires Lawful(lib) && Faithful(encoding) && ListedDocument(lib, canonicalName, listed)
    ensures MatchesItself(lib, canonicalName, encoding, listed)
            <==> forall i :: 0 <= i < |listed.entries| ==> LooksPlain(listed.rtype, listed.entries[i].data)
  {
    MatchesIffFixed(lib, canonicalName, encoding, listed);
    forall i | 0 <= i < |listed.entries|
      ensures FixedEntry(lib, listed.rtype, listed.entries[i].data)
              <==> LooksPlain(listed.rtype, listed.entries[i].data)
    {
      assert Shown(lib, listed.rtype, listed.entries[i].data);
      FixedEntryIff(lib, listed.rtype, listed.entries[i].data);
    }
  }

  /** A set of one TXT record whose value is a letter between quotes. */
  function QuotedLetter(name: Bytes): Document {
    Document(name, TXT, 300, [PrintedEntry(NO_DATA.(value := [QUOTE, 0x61, QUOTE]), [])], [], [])
  }

  lemma QuotedLetterIsShown(lib: Library)
    ensures Shown(lib, TXT, NO_DATA.(value := [QUOTE, 0x61, QUOTE]))
  {
    var raw := NO_DATA.(value := [QUOTE, BACKSLASH, QUOTE, 0x61, BACKSLASH, QUOTE, QUOTE]);
    NotIdempotent();
    TrimQuoted(raw.value);
    assert NormalizeEntry(lib, TXT, raw) == Some(NO_DATA.(value := [QUOTE, 0x61, QUOTE]));
  }

  /**
    A listed set that never matches its own fingerprint: given as `"\"a\""` it is shown as `"a"`,
    which normalizes to `a`.
   */
  lemma ListedSetCanMissItsFingerprint(lib: Library, canonicalName: Bytes -> Option<Bytes>, encoding: Encoding,
                                       name: Bytes)
    requires Lawful(lib) && Faithful(encoding) && canonicalName(name) == Some(name)
    ensures ListedDocument(lib, canonicalName, QuotedLetter(name))
    ensures !MatchesItself(lib, canonicalName, encoding, QuotedLetter(name))
  {
    QuotedLetterIsShown(lib);
    OwnFingerprintMatchesIff(lib, canonicalName, encoding, QuotedLetter(name));
  }
}
