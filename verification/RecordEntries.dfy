/**
  Record-set entries and their normal form. Address parsing, IDNA and Unicode case mapping are
  library functions and appear as parameters.
 */
module RecordEntries {
  import opened Wrappers
  import opened Utf8
  import opened Labels
  import opened Txt

  type uint8 = n: nat | n < 0x100
  type uint16 = n: nat | n < 0x1_0000

  datatype RecordType = A | AAAA | CNAME | TXT | MX | NS | SRV | CAA | SOA | Unknown(name: Bytes)

  /** The type as the provider spells it. */
  function TypeText(rtype: RecordType): Bytes {
    match rtype
    case A => [0x41]
    case AAAA => [0x41, 0x41, 0x41, 0x41]
    case CNAME => [0x43, 0x4E, 0x41, 0x4D, 0x45]
    case TXT => [0x54, 0x58, 0x54]
    case MX => [0x4D, 0x58]
    case NS => [0x4E, 0x53]
    case SRV => [0x53, 0x52, 0x56]
    case CAA => [0x43, 0x41, 0x41]
    case SOA => [0x53, 0x4F, 0x41]
    case Unknown(name) => name
  }

  /** An entry without its provider record ID; absent pointers are `None`. */
  datatype EntryData = EntryData(value: Bytes, priority: Option<uint16>, weight: Option<uint16>, port: Option<uint16>,
                                 target: Option<Bytes>, flags: Option<uint8>, tag: Option<Bytes>)

  const NO_DATA := EntryData([], None, None, None, None, None, None)

  /**
    `address` parses and prints an IP address of the type, `hostname` and `owner` canonicalize a DNS
    name and a name within the zone, `lower` is `strings.ToLower`, `textual` reads SRV and CAA
    records that carry no structured data, and `proxiable` is the provider's own rule.
   */
  datatype Library = Library(
    address: (RecordType, Bytes) -> Option<Bytes>,
    hostname: Bytes -> Option<Bytes>,
    owner: Bytes -> Option<Bytes>,
    lower: Bytes -> Bytes,
    textual: (RecordType, Bytes) -> Option<EntryData>,
    proxiable: (Bytes, RecordType) -> bool)

  /**
    Canonical addresses are trimmed, non-empty fixed points. Canonical names are canonicalized again as
    `Names` proves it. Lower case leaves lower-case ASCII alone.
   */
  ghost predicate Lawful(lib: Library) {
    && (forall rtype, text :: lib.address(rtype, text).Some? ==>
          AddressFixed(lib, rtype, lib.address(rtype, text).value))
    && (forall text :: lib.hostname(text).Some? ==> HostnameTwice(lib, lib.hostname(text).value))
    && (forall text :: lib.owner(text).Some? ==> OwnerTwice(lib, lib.owner(text).value))
    && (forall text :: LettersDigits(text) ==> lib.lower(text) == text)
  }

  predicate AddressFixed(lib: Library, rtype: RecordType, text: Bytes) {
    text != [] && TrimSpace(text) == text && lib.address(rtype, text) == Some(text)
  }

  /** A canonical name keeps its form when it has no empty label; a final dot goes, and any other is refused. */
  predicate HostnameTwice(lib: Library, text: Bytes) {
    text != [] && TrimSpace(text) == text && lib.hostname(text) == Recanonical(text)
  }

  /** A record name keeps its form when it has no empty label, and is refused otherwise. */
  predicate OwnerTwice(lib: Library, text: Bytes) {
    lib.owner(text) == if NoEmptyLabel(text) then Some(text) else None
  }

  predicate LettersDigits(text: Bytes) {
    forall b :: b in text ==> 0x61 <= b <= 0x7A || 0x30 <= b <= 0x39
  }

  /** A library that takes letters and digits for addresses and names; the laws hold of it. */
  function PlainLibrary(): Library {
    Library((_, text) => if text != [] && LettersDigits(text) then Some(text) else None,
            text => if text != [] && LettersDigits(text) then Some(text) else None,
            text => if NoEmptyLabel(text) then Some(text) else None,
            text => text, (_, _) => None, (_, _) => true)
  }

  lemma PlainLibraryIsLawful()
    ensures Lawful(PlainLibrary())
  {
    forall text | text != [] && LettersDigits(text) ensures TrimSpace(text) == text && NoEmptyLabel(text) {
      TrimLettersDigits(text);
      assert forall i :: 0 <= i < |text| ==> text[i] in text;
      SplitLabel(text, []);
    }
  }

  predicate Supported(rtype: RecordType) {
    !rtype.SOA? && !rtype.Unknown?
  }

  // ---------------------------------------------------------------- normalization

  predicate OnlyValue(data: EntryData) {
    TrimSpace(data.value) != [] && data == NO_DATA.(value := data.value)
  }

  /** The entry's target, which may be given as its value; a lone dot stands for the root. */
  function EntryTarget(lib: Library, data: EntryData): Option<Bytes> {
    if data.target.Some? && data.value != [] then None
    else
      var raw := if data.target.Some? then data.target.value else data.value;
      if TrimSpace(raw) == [DOT] then Some([DOT]) else lib.hostname(raw)
  }

  function CaaValue(value: Bytes): Option<Bytes> {
    var trimmed := TrimSpace(value);
    if trimmed != [] && trimmed[0] == QUOTE then
      match Canonical(trimmed)
      case Err(_) => None
      case Ok(text) => CheckedCaaValue(text)
    else CheckedCaaValue(trimmed)
  }

  function CheckedCaaValue(value: Bytes): Option<Bytes> {
    if value == [] || !Valid(value) || 0 in value then None else Some(value)
  }

  function NormalizeEntry(lib: Library, rtype: RecordType, data: EntryData): Option<EntryData> {
    match rtype
    case A | AAAA =>
      if !OnlyValue(data) then None
      else (match lib.address(rtype, TrimSpace(data.value))
            case None => None
            case Some(text) => Some(data.(value := text)))
    case TXT =>
      if !OnlyValue(data) then None
      else (match Canonical(data.value)
            case Err(_) => None
            case Ok(text) => Some(data.(value := text)))
    case CNAME | NS =>
      (match EntryTarget(lib, data)
       case None => None
       case Some(target) => if target == [DOT] then None else Some(NO_DATA.(target := Some(target))))
    case MX =>
      if data.priority.None? || data.weight.Some? || data.port.Some? || data.flags.Some? || data.tag.Some? then None
      else (match EntryTarget(lib, data)
            case None => None
            case Some(target) => Some(NO_DATA.(priority := data.priority, target := Some(target))))
    case SRV =>
      if data.priority.None? || data.weight.None? || data.port.None? || data.flags.Some? || data.tag.Some? then None
      else (match EntryTarget(lib, data)
            case None => None
            case Some(target) =>
              Some(NO_DATA.(priority := data.priority, weight := data.weight, port := data.port,
                            target := Some(target))))
    case CAA =>
      if data.flags.None? || data.tag.None? then None
      else if data.priority.Some? || data.weight.Some? || data.port.Some? || data.target.Some? then None
      else
        var tag := lib.lower(TrimSpace(data.tag.value));
        if tag == [] || !LettersDigits(tag) then None
        else (match CaaValue(data.value)
              case None => None
              case Some(value) => Some(NO_DATA.(flags := data.flags, tag := Some(tag), value := value)))
    case SOA =>
      if !OnlyValue(data) || !Valid(data.value) || (exists b :: b in data.value && IsLineControl(b)) then None
      else Some(data)
    case Unknown(_) => None
  }

  /** The loop over a set's entries: all of them normalized, or nothing. */
  function NormalizeAll(lib: Library, rtype: RecordType, entries: seq<EntryData>): (r: Option<seq<EntryData>>)
    ensures r.Some? ==> |r.value| == |entries|
    ensures r.Some? ==> forall i :: 0 <= i < |entries| ==> NormalizeEntry(lib, rtype, entries[i]) == Some(r.value[i])
    ensures r.None? ==> exists i :: 0 <= i < |entries| && NormalizeEntry(lib, rtype, entries[i]).None?
  {
    if entries == [] then Some([])
    else
      var head := NormalizeEntry(lib, rtype, entries[0]);
      var tail := NormalizeAll(lib, rtype, entries[1..]);
      if head.None? || tail.None? then None else Some([head.value] + tail.value)
  }

  // ---------------------------------------------------------------- helpers

  function ValueOr<T>(option: Option<T>, fallback: T): T {
    if option.Some? then option.value else fallback
  }

  lemma TrimLettersDigits(text: Bytes)
    requires LettersDigits(text)
    ensures TrimSpace(text) == text
  {
    if text != [] {
      assert text[0] in text && text[|text| - 1] in text;
      assert SpaceLength(text) == 0 && SpaceSuffix(text) == 0;
    }
  }

  /** The trimmed form never ends or begins in white space, so trimming again changes nothing. */
  lemma {:induction false} TrimLeftHead(text: Bytes)
    ensures SpaceLength(TrimLeft(text)) == 0
    decreases |text|
  {
    if SpaceLength(text) > 0 {
      TrimLeftHead(text[SpaceLength(text)..]);
    }
  }

  lemma {:induction false} TrimRightEnds(text: Bytes)
    requires SpaceLength(text) == 0
    ensures SpaceSuffix(TrimRight(text)) == 0 && SpaceLength(TrimRight(text)) == 0
    decreases |text|
  {
    var n := SpaceSuffix(text);
    if n > 0 {
      var shorter := text[..|text| - n];
      assert forall i :: 0 <= i < |shorter| ==> shorter[i] == text[i];
      assert SpaceLength(shorter) == 0;
      TrimRightEnds(shorter);
    }
  }

  lemma TrimTwice(text: Bytes)
    ensures TrimSpace(TrimSpace(text)) == TrimSpace(text)
  {
    TrimLeftHead(text);
    TrimRightEnds(TrimLeft(text));
  }

  // ---------------------------------------------------------------- when normalizing again changes nothing

  /** The entry is the normal form of something. */
  ghost predicate Shown(lib: Library, rtype: RecordType, data: EntryData) {
    exists raw :: NormalizeEntry(lib, rtype, raw) == Some(data)
  }

  predicate FixedEntry(lib: Library, rtype: RecordType, data: EntryData) {
    NormalizeEntry(lib, rtype, data) == Some(data)
  }

  /**
    TXT text that is not blank, does not look quoted and holds no NUL, CR or LF; CAA text without
    outer blanks or opening quote; a target that is the root or has no empty label.
   */
  predicate LooksPlain(rtype: RecordType, data: EntryData) {
    match rtype
    case TXT =>
      && TrimSpace(data.value) != [] && TrimSpace(data.value)[0] != QUOTE
      && forall b :: b in data.value ==> !IsLineControl(b)
    case CAA => data.value != [] && data.value[0] != QUOTE && TrimSpace(data.value) == data.value
    case CNAME | NS | MX | SRV => data.target.Some? && WholeTarget(data.target.value)
    case _ => true
  }

  predicate WholeTarget(target: Bytes) {
    target == [DOT] || NoEmptyLabel(target)
  }

  predicate HasTarget(rtype: RecordType) {
    rtype.CNAME? || rtype.NS? || rtype.MX? || rtype.SRV?
  }

  /** The bytes of an entry that normalizing may change. */
  function TextBytes(data: EntryData): nat {
    |data.value| + |ValueOr(data.target, [])|
  }

  /** A CAA value is its own canonical form iff it is checked text with no outer blanks and no opening quote. */
  lemma CaaFixedIff(value: Bytes)
    requires CheckedCaaValue(value) == Some(value)
    ensures CaaValue(value) == Some(value) <==> TrimSpace(value) == value && value[0] != QUOTE
  {
    var trimmed := TrimSpace(value);
    if trimmed != [] && trimmed[0] == QUOTE {
      TrimTwice(value);
      if Canonical(trimmed).Ok? {
        SegmentsShrink(trimmed);
      }
    }
  }

  lemma NormalizedText(value: Bytes)
    requires Canonical(value).Ok?
    ensures Valid(Canonical(value).value) && |Canonical(value).value| <= MAXIMUM_TXT_BYTES
  {
  }

  lemma TxtFixedIff(lib: Library, data: EntryData)
    requires Shown(lib, TXT, data)
    ensures FixedEntry(lib, TXT, data) <==> LooksPlain(TXT, data)
  {
    var raw :| NormalizeEntry(lib, TXT, raw) == Some(data);
    NormalizedText(raw.value);
    assert data == NO_DATA.(value := data.value);
    FixedIff(data.value);
  }

  lemma CaaEntryFixedIff(lib: Library, data: EntryData)
    requires Lawful(lib) && Shown(lib, CAA, data)
    ensures FixedEntry(lib, CAA, data) <==> LooksPlain(CAA, data)
  {
    var raw :| NormalizeEntry(lib, CAA, raw) == Some(data);
    TrimLettersDigits(data.tag.value);
    assert CheckedCaaValue(data.value) == Some(data.value);
    CaaFixedIff(data.value);
  }

  /** A canonical target is read again as itself exactly when it is the root or has no empty label. */
  lemma TargetTwice(lib: Library, raw: EntryData)
    requires Lawful(lib) && EntryTarget(lib, raw).Some?
    ensures var target := EntryTarget(lib, raw).value;
            && target != [] && TrimSpace(target) == target
            && EntryTarget(lib, NO_DATA.(target := Some(target)))
               == if target == [DOT] then Some(target) else Recanonical(target)
  {
    var target := EntryTarget(lib, raw).value;
    assert TrimSpace([DOT]) == [DOT];
    assert target != [DOT] ==> HostnameTwice(lib, target);
  }

  /** Addresses have one normal form. */
  lemma OthersAreFixed(lib: Library, rtype: RecordType, data: EntryData)
    requires Lawful(lib) && Shown(lib, rtype, data) && !rtype.TXT? && !rtype.CAA? && !HasTarget(rtype)
    ensures FixedEntry(lib, rtype, data)
  {
    var raw :| NormalizeEntry(lib, rtype, raw) == Some(data);
    if rtype.A? || rtype.AAAA? {
      assert AddressFixed(lib, rtype, data.value);
    }
  }

  lemma TargetFixedIff(lib: Library, rtype: RecordType, data: EntryData)
    requires Lawful(lib) && Shown(lib, rtype, data) && HasTarget(rtype)
    ensures FixedEntry(lib, rtype, data) <==> LooksPlain(rtype, data)
    ensures NormalizeEntry(lib, rtype, data).Some? && !FixedEntry(lib, rtype, data) ==>
              TextBytes(NormalizeEntry(lib, rtype, data).value) < TextBytes(data)
  {
    var raw :| NormalizeEntry(lib, rtype, raw) == Some(data);
    TargetTwice(lib, raw);
  }

  /** Normalizing a normalized entry again changes nothing exactly when it looks plain. */
  lemma FixedEntryIff(lib: Library, rtype: RecordType, data: EntryData)
    requires Lawful(lib) && Shown(lib, rtype, data)
    ensures FixedEntry(lib, rtype, data) <==> LooksPlain(rtype, data)
  {
    if rtype == TXT {
      TxtFixedIff(lib, data);
    } else if rtype == CAA {
      CaaEntryFixedIff(lib, data);
    } else if HasTarget(rtype) {
      TargetFixedIff(lib, rtype, data);
    } else {
      OthersAreFixed(lib, rtype, data);
    }
  }
}
