/**
  How an entry is written to a Cloudflare zone and read back, and exactly which entries survive
  that trip.
 */
module CloudflareCodec {
  import opened Wrappers
  import opened Utf8
  import opened Txt
  import opened RecordEntries

  /** The part of a provider's record that carries the entry. */
  datatype Wire =
    | Content(text: Bytes, preference: nat)
    | CaaData(caaFlags: nat, caaTag: Bytes, caaValue: Bytes)
    | SrvData(srvPriority: nat, srvWeight: nat, srvPort: nat, srvTarget: Bytes)

  // ---------------------------------------------------------------- the wire

  /** `wireRecordContent` and `structuredRecordData`. */
  function WireRecord(rtype: RecordType, data: EntryData): Wire
    requires Supported(rtype)
  {
    match rtype
    case A | AAAA => Content(data.value, 0)
    case TXT => Content(Quoted(EscapedBody(data.value)), 0)
    case CNAME | NS => Content(ValueOr(data.target, []), 0)
    case MX => Content(ValueOr(data.target, []), ValueOr(data.priority, 0))
    case SRV =>
      SrvData(ValueOr(data.priority, 0), ValueOr(data.weight, 0), ValueOr(data.port, 0), ValueOr(data.target, []))
    case CAA => CaaData(ValueOr(data.flags, 0), ValueOr(data.tag, []), data.value)
  }

  /** `parseRecordResponse`: what one provider record says before its set is normalized. */
  function ParseRecord(lib: Library, rtype: RecordType, wire: Wire): Option<EntryData> {
    match wire
    case CaaData(flags, tag, value) =>
      if rtype != CAA || flags > 0xFF then None
      else Some(NO_DATA.(flags := Some(flags), tag := Some(tag), value := value))
    case SrvData(priority, weight, port, target) =>
      if rtype != SRV || priority > 0xFFFF || weight > 0xFFFF || port > 0xFFFF then None
      else Some(NO_DATA.(priority := Some(priority), weight := Some(weight), port := Some(port),
                         target := Some(target)))
    case Content(text, preference) =>
      match rtype
      case TXT => NormalizeEntry(lib, TXT, NO_DATA.(value := text))
      case A | AAAA => Some(NO_DATA.(value := TrimSpace(text)))
      case CNAME | NS => Some(NO_DATA.(target := Some(TrimSpace(text))))
      case MX =>
        if preference > 0xFFFF then None
        else Some(NO_DATA.(priority := Some(preference), target := Some(TrimSpace(text))))
      case SRV | CAA => lib.textual(rtype, text)
      case SOA | Unknown(_) => None
  }

  /** A listed record's entry: parsed, then normalized with its set. */
  function ReadEntry(lib: Library, rtype: RecordType, wire: Wire): Option<EntryData> {
    match ParseRecord(lib, rtype, wire)
    case None => None
    case Some(data) => NormalizeEntry(lib, rtype, data)
  }

  // ---------------------------------------------------------------- what survives the trip

  ghost predicate Preserved(lib: Library, rtype: RecordType, data: EntryData) {
    Supported(rtype) && ReadEntry(lib, rtype, WireRecord(rtype, data)) == Some(data)
  }

  /** A condition on the normalized entry alone that decides whether it survives being written and listed. */
  predicate Durable(rtype: RecordType, data: EntryData) {
    LooksPlain(rtype, data) && (rtype.TXT? ==> |data.value| <= MAXIMUM_SEGMENT_BYTES)
  }

  /**
    Exactly the TXT values that come back from a zone. A printed value is read, normalized, and
    normalized again with its set, and blank results are refused.
   */
  lemma TxtReadsBack(lib: Library, value: Bytes)
    ensures Preserved(lib, TXT, NO_DATA.(value := value))
            <==> Acceptable(value) && !StartsQuoted(value) && |value| <= MAXIMUM_SEGMENT_BYTES && TrimSpace(value) != []
  {
    var wire := Quoted(EscapedBody(value));
    TrimQuoted(wire);
    PrintedRoundTrip(value);
    SurvivesIff(value);
  }

  lemma TxtDurable(lib: Library, data: EntryData, raw: EntryData)
    requires NormalizeEntry(lib, TXT, raw) == Some(data)
    ensures Preserved(lib, TXT, data) <==> Durable(TXT, data)
  {
    NormalizedText(raw.value);
    assert data == NO_DATA.(value := data.value);
    TxtReadsBack(lib, data.value);
  }

  lemma CaaDurable(lib: Library, data: EntryData, raw: EntryData)
    requires Lawful(lib)
    requires NormalizeEntry(lib, CAA, raw) == Some(data)
    ensures Preserved(lib, CAA, data) <==> Durable(CAA, data)
  {
    TrimLettersDigits(data.tag.value);
    assert CheckedCaaValue(data.value) == Some(data.value);
    CaaFixedIff(data.value);
  }

  lemma AddressSurvives(lib: Library, rtype: RecordType, data: EntryData, raw: EntryData)
    requires Lawful(lib) && (rtype.A? || rtype.AAAA?) && NormalizeEntry(lib, rtype, raw) == Some(data)
    ensures Preserved(lib, rtype, data)
  {
    assert AddressFixed(lib, rtype, data.value);
  }

  lemma TargetDurable(lib: Library, rtype: RecordType, data: EntryData, raw: EntryData)
    requires Lawful(lib) && HasTarget(rtype) && NormalizeEntry(lib, rtype, raw) == Some(data)
    ensures Preserved(lib, rtype, data) <==> Durable(rtype, data)
  {
    TargetTwice(lib, raw);
  }

  /**
    Exactly which normalized entries come back unchanged after being written to the zone: all but
    TXT values that look quoted, are blank, hold NUL, CR or LF, or exceed one character string,
    CAA values with outer blanks or an opening quote, and targets with an empty label.
   */
  lemma PreservedIff(lib: Library, rtype: RecordType, data: EntryData, raw: EntryData)
    requires Lawful(lib) && Supported(rtype)
    requires NormalizeEntry(lib, rtype, raw) == Some(data)
    ensures Preserved(lib, rtype, data) <==> Durable(rtype, data)
  {
    match rtype
    case TXT => TxtDurable(lib, data, raw);
    case CAA => CaaDurable(lib, data, raw);
    case A | AAAA => AddressSurvives(lib, rtype, data, raw);
    case _ => TargetDurable(lib, rtype, data, raw);
  }
}
