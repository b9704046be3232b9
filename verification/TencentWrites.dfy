/**
  When an update of a Tencent Cloud record set may skip a record: the printed value determines the
  normalized entry, and the comparison made before a write is exactly equality with the entry the
  confirmation expects, up to the remark of an entry that carries no extension.
 */
module TencentWrites {
  import opened Wrappers
  import opened Utf8
  import opened Decimals
  import opened RecordEntries

  const SPACE: byte := 0x20

  /** `strconv.Quote` and `strconv.Unquote`, and upper-casing, are library functions. */
  datatype Printer = Printer(quote: Bytes -> Bytes, unquote: Bytes -> Option<Bytes>, upper: Bytes -> Bytes)

  ghost predicate QuotingIsLossless(printer: Printer) {
    forall text :: Valid(text) ==> printer.unquote(printer.quote(text)) == Some(text)
  }

  // ---------------------------------------------------------------- fields

  /** Text without blanks ends at the first blank, so it and the rest can be told apart. */
  lemma FieldsSplit(a: Bytes, x: Bytes, b: Bytes, y: Bytes)
    requires SPACE !in a && SPACE !in b
    requires a + [SPACE] + x == b + [SPACE] + y
    ensures a == b && x == y
  {
    var left, right := a + [SPACE] + x, b + [SPACE] + y;
    assert left[|a|] == SPACE && right[|b|] == SPACE;
    assert |a| == |b|;
    assert a == left[..|a|] && b == right[..|b|];
    assert x == left[|a| + 1..] && y == right[|b| + 1..];
  }

  // ---------------------------------------------------------------- printing an entry

  /** The record value and, for MX, the separate preference. */
  datatype Printed = Printed(text: Bytes, mx: Option<nat>)

  function WireValue(printer: Printer, rtype: RecordType, data: EntryData): Option<Printed> {
    match rtype
    case A | AAAA | TXT => Some(Printed(data.value, None))
    case CNAME | NS => Some(Printed(ValueOr(data.target, []), None))
    case MX => Some(Printed(ValueOr(data.target, []), Some(ValueOr(data.priority, 0))))
    case SRV =>
      Some(Printed(Decimal(ValueOr(data.priority, 0)) + [SPACE] + (Decimal(ValueOr(data.weight, 0)) + [SPACE]
                   + (Decimal(ValueOr(data.port, 0)) + [SPACE] + ValueOr(data.target, []))), None))
    case CAA =>
      Some(Printed(Decimal(ValueOr(data.flags, 0)) + [SPACE] + (ValueOr(data.tag, []) + [SPACE]
                   + printer.quote(data.value)), None))
    case SOA | Unknown(_) => None
  }

  lemma SrvIsInjective(left: EntryData, right: EntryData, printer: Printer)
    requires left.priority.Some? && left.weight.Some? && left.port.Some? && left.target.Some?
    requires right.priority.Some? && right.weight.Some? && right.port.Some? && right.target.Some?
    requires WireValue(printer, SRV, left) == WireValue(printer, SRV, right)
    ensures left.priority == right.priority && left.weight == right.weight
    ensures left.port == right.port && left.target == right.target
  {
    var a, b := Decimal(left.priority.value), Decimal(right.priority.value);
    var c, d := Decimal(left.weight.value), Decimal(right.weight.value);
    var e, f := Decimal(left.port.value), Decimal(right.port.value);
    var x, y := left.target.value, right.target.value;
    FieldsSplit(a, c + [SPACE] + (e + [SPACE] + x), b, d + [SPACE] + (f + [SPACE] + y));
    FieldsSplit(c, e + [SPACE] + x, d, f + [SPACE] + y);
    FieldsSplit(e, x, f, y);
    DecimalIsInjective(left.priority.value, right.priority.value);
    DecimalIsInjective(left.weight.value, right.weight.value);
    DecimalIsInjective(left.port.value, right.port.value);
  }

  lemma CaaIsInjective(left: EntryData, right: EntryData, printer: Printer)
    requires QuotingIsLossless(printer) && Valid(left.value) && Valid(right.value)
    requires left.flags.Some? && left.tag.Some? && LettersDigits(left.tag.value)
    requires right.flags.Some? && right.tag.Some? && LettersDigits(right.tag.value)
    requires WireValue(printer, CAA, left) == WireValue(printer, CAA, right)
    ensures left.flags == right.flags && left.tag == right.tag && left.value == right.value
  {
    var a, b := Decimal(left.flags.value), Decimal(right.flags.value);
    var x, y := printer.quote(left.value), printer.quote(right.value);
    FieldsSplit(a, left.tag.value + [SPACE] + x, b, right.tag.value + [SPACE] + y);
    FieldsSplit(left.tag.value, x, right.tag.value, y);
    DecimalIsInjective(left.flags.value, right.flags.value);
    assert Some(left.value) == printer.unquote(x) == Some(right.value);
  }

  /** The fields a normalized entry of a type has, and no others. */
  predicate Shaped(rtype: RecordType, data: EntryData) {
    match rtype
    case A | AAAA | TXT | SOA => data == NO_DATA.(value := data.value)
    case CNAME | NS => data.target.Some? && data == NO_DATA.(target := data.target)
    case MX =>
      data.priority.Some? && data.target.Some? && data == NO_DATA.(priority := data.priority, target := data.target)
    case SRV =>
      && data.priority.Some? && data.weight.Some? && data.port.Some? && data.target.Some?
      && data == NO_DATA.(priority := data.priority, weight := data.weight, port := data.port, target := data.target)
    case CAA =>
      && data.flags.Some? && data.tag.Some? && LettersDigits(data.tag.value) && Valid(data.value)
      && data == NO_DATA.(flags := data.flags, tag := data.tag, value := data.value)
    case Unknown(_) => false
  }

  lemma ShapeOf(lib: Library, rtype: RecordType, data: EntryData)
    requires Shown(lib, rtype, data)
    ensures Shaped(rtype, data)
  {
    var raw :| NormalizeEntry(lib, rtype, raw) == Some(data);
  }

  /** Printing loses nothing: two normalized entries of a type with the same wire value are the same entry. */
  lemma WireValueIsInjective(lib: Library, printer: Printer, rtype: RecordType, left: EntryData, right: EntryData)
    requires QuotingIsLossless(printer) && Supported(rtype)
    requires Shown(lib, rtype, left) && Shown(lib, rtype, right)
    requires WireValue(printer, rtype, left) == WireValue(printer, rtype, right)
    ensures left == right
  {
    ShapeOf(lib, rtype, left);
    ShapeOf(lib, rtype, right);
    match rtype
    case SRV => SrvIsInjective(left, right, printer);
    case CAA => CaaIsInjective(left, right, printer);
    case _ =>
  }

  // ---------------------------------------------------------------- the comparison before a write

  const ENABLE: Bytes := [0x45, 0x4E, 0x41, 0x42, 0x4C, 0x45]
  const DISABLE: Bytes := [0x44, 0x49, 0x53, 0x41, 0x42, 0x4C, 0x45]
  const ENABLED: Bytes := ENABLE + [0x44]
  const DISABLED: Bytes := DISABLE + [0x44]
  const ACTIVE: Bytes := [0x41, 0x43, 0x54, 0x49, 0x56, 0x45]
  const PAUSED: Bytes := [0x50, 0x41, 0x55, 0x53, 0x45, 0x44]

  datatype Extension = Extension(line: Bytes, lineId: Bytes, weight: Option<uint16>, status: Bytes, remark: Bytes)

  const NO_EXTENSION := Extension([], [], None, [], [])

  datatype TencentEntry = TencentEntry(data: EntryData, extension: Option<Extension>)

  datatype Routing = Routing(line: Bytes, lineId: Bytes, status: Bytes, statusOverride: bool)

  const NO_ROUTING := Routing([], [], [], false)

  /** The shared part of a set. */
  datatype Shared = Shared(name: Bytes, rtype: RecordType, ttl: nat)

  function NormalizeStatus(printer: Printer, value: Bytes): Option<Bytes> {
    var status := printer.upper(TrimSpace(value));
    if status == ENABLE || status == ENABLED || status == ACTIVE || status == [0x31] then Some(ENABLE)
    else if status == DISABLE || status == DISABLED || status == PAUSED || status == [0x30] then Some(DISABLE)
    else None
  }

  /** The words a status may be given in, whatever their case and the blanks around them. */
  lemma StatusIff(printer: Printer, value: Bytes, status: Bytes)
    ensures var given := printer.upper(TrimSpace(value));
            NormalizeStatus(printer, value) == Some(status) <==>
              || (status == ENABLE && given in {ENABLE, ENABLE + [0x44], ACTIVE, [0x31]})
              || (status == DISABLE && given in {DISABLE, DISABLE + [0x44], PAUSED, [0x30]})
  {
    assert ENABLE[0] != DISABLE[0] && ACTIVE[0] != DISABLE[0] && PAUSED[0] != ENABLE[0] && PAUSED[0] != ACTIVE[0];
  }

  function EffectiveStatus(printer: Printer, entry: TencentEntry, route: Routing, fallback: Bytes): Option<Bytes> {
    if route.statusOverride then NormalizeStatus(printer, route.status)
    else if entry.extension.Some? && TrimSpace(entry.extension.value.status) != [] then
      NormalizeStatus(printer, entry.extension.value.status)
    else if TrimSpace(route.status) != [] then NormalizeStatus(printer, route.status)
    else if TrimSpace(fallback) != [] then NormalizeStatus(printer, fallback)
    else Some(ENABLE)
  }

  predicate SameRouting(left: Routing, right: Routing) {
    left.line == right.line && left.lineId == right.lineId
  }

  function Weight(entry: TencentEntry): Option<uint16> {
    if entry.extension.None? then None else entry.extension.value.weight
  }

  function Remark(entry: TencentEntry): Bytes {
    if entry.extension.None? then [] else entry.extension.value.remark
  }

  /** `recordNeedsUpdate`. */
  predicate NeedsUpdate(printer: Printer, current: Shared, currentRoute: Routing, currentEntry: TencentEntry,
                        desired: Shared, desiredRoute: Routing, desiredStatus: Bytes, desiredEntry: TencentEntry) {
    if current != desired || !SameRouting(currentRoute, desiredRoute) then true
    else if EffectiveStatus(printer, currentEntry, NO_ROUTING, []) != Some(desiredStatus) then true
    else if desiredEntry.extension.Some? && Remark(currentEntry) != desiredEntry.extension.value.remark then true
    else
      var currentValue := WireValue(printer, current.rtype, currentEntry.data);
      var desiredValue := WireValue(printer, desired.rtype, desiredEntry.data);
      if currentValue.None? || desiredValue.None? || currentValue != desiredValue then true
      else Weight(currentEntry) != Weight(desiredEntry)
  }

  /** `expectedTencentEntryExtensions`: what the confirmation looks for. */
  function Expected(entry: TencentEntry, route: Routing, status: Bytes): TencentEntry {
    var base := ValueOr(entry.extension, NO_EXTENSION);
    TencentEntry(entry.data, Some(base.(line := route.line, lineId := route.lineId, status := status)))
  }

  /** What a listing shows for a member of a set with this routing. */
  ghost predicate Listed(lib: Library, printer: Printer, shared: Shared, route: Routing, entry: TencentEntry) {
    && Shown(lib, shared.rtype, entry.data)
    && entry.extension.Some?
    && entry.extension.value.line == route.line && entry.extension.value.lineId == route.lineId
    && (entry.extension.value.status == ENABLE || entry.extension.value.status == DISABLE)
    && NormalizeStatus(printer, entry.extension.value.status) == Some(entry.extension.value.status)
  }

  /** The desired entry says what the remark is to be, or there is none to lose. */
  predicate RemarkSettled(currentEntry: TencentEntry, desiredEntry: TencentEntry) {
    desiredEntry.extension.Some? || Remark(currentEntry) == []
  }

  lemma StatusIsNotBlank(status: Bytes)
    requires status == ENABLE || status == DISABLE
    ensures TrimSpace(status) == status != []
  {
    assert SpaceLength(status) == 0 && SpaceSuffix(status) == 0;
  }

  /** A record that already is the expected one is not written. */
  lemma ExpectedIsSkipped(printer: Printer, current: Shared, currentRoute: Routing, currentEntry: TencentEntry,
                          desiredRoute: Routing, desiredStatus: Bytes, desiredEntry: TencentEntry)
    requires Supported(current.rtype) && SameRouting(currentRoute, desiredRoute)
    requires currentEntry == Expected(desiredEntry, desiredRoute, desiredStatus)
    requires desiredStatus == ENABLE || desiredStatus == DISABLE
    requires NormalizeStatus(printer, desiredStatus) == Some(desiredStatus)
    requires desiredEntry.extension.None? ==> Weight(currentEntry) == None
    ensures !NeedsUpdate(printer, current, currentRoute, currentEntry, current, desiredRoute, desiredStatus,
                         desiredEntry)
  {
    StatusIsNotBlank(desiredStatus);
  }

  /**
    A record whose remark is settled is left alone exactly when it already is what the confirmation
    expects: a skip loses nothing and a write is never made for nothing.
   */
  lemma SkipIff(lib: Library, printer: Printer, current: Shared, currentRoute: Routing, currentEntry: TencentEntry,
                desired: Shared, desiredRoute: Routing, desiredStatus: Bytes, desiredEntry: TencentEntry)
    requires QuotingIsLossless(printer) && Supported(current.rtype)
    requires Listed(lib, printer, current, currentRoute, currentEntry)
    requires Shown(lib, desired.rtype, desiredEntry.data)
    requires RemarkSettled(currentEntry, desiredEntry)
    ensures !NeedsUpdate(printer, current, currentRoute, currentEntry, desired, desiredRoute, desiredStatus,
                         desiredEntry)
            <==> current == desired && currentEntry == Expected(desiredEntry, desiredRoute, desiredStatus)
  {
    if !NeedsUpdate(printer, current, currentRoute, currentEntry, desired, desiredRoute, desiredStatus, desiredEntry) {
      SkippedIsExpectedIff(lib, printer, current, currentRoute, currentEntry, desired, desiredRoute, desiredStatus,
                           desiredEntry);
    } else if current == desired && currentEntry == Expected(desiredEntry, desiredRoute, desiredStatus) {
      ExpectedIsSkipped(printer, current, currentRoute, currentEntry, desiredRoute, desiredStatus, desiredEntry);
    }
  }

  /** A skipped record is the expected one exactly when its remark is settled. */
  lemma SkippedIsExpectedIff(lib: Library, printer: Printer, current: Shared, currentRoute: Routing,
                             currentEntry: TencentEntry,
                             desired: Shared, desiredRoute: Routing, desiredStatus: Bytes, desiredEntry: TencentEntry)
    requires QuotingIsLossless(printer) && Supported(current.rtype)
    requires Listed(lib, printer, current, currentRoute, currentEntry)
    requires Shown(lib, desired.rtype, desiredEntry.data)
    requires !NeedsUpdate(printer, current, currentRoute, currentEntry, desired, desiredRoute, desiredStatus,
                          desiredEntry)
    ensures currentEntry == Expected(desiredEntry, desiredRoute, desiredStatus)
            <==> RemarkSettled(currentEntry, desiredEntry)
  {
    StatusIsNotBlank(currentEntry.extension.value.status);
    WireValueIsInjective(lib, printer, current.rtype, currentEntry.data, desiredEntry.data);
  }

  /** A skipped record whose old remark keeps the confirmation from ever succeeding. */
  lemma OldRemarkIsOverlooked(printer: Printer, shared: Shared, route: Routing, data: EntryData)
    requires shared.rtype == TXT && NormalizeStatus(printer, ENABLE) == Some(ENABLE)
    ensures var current := TencentEntry(data, Some(Extension(route.line, route.lineId, None, ENABLE, [0x78])));
            var desired := TencentEntry(data, None);
            && !NeedsUpdate(printer, shared, route, current, shared, route, ENABLE, desired)
            && current != Expected(desired, route, ENABLE)
  {
    StatusIsNotBlank(ENABLE);
  }
}
