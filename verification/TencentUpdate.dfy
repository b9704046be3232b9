/**
  A whole update of a Tencent Cloud record set, with every call answered: which records it leaves
  alone, what it writes to the others, and exactly when the final listing confirms it.
 */
module TencentUpdate {
  import opened Collections
  import opened Wrappers
  import opened Utf8
  import opened RecordEntries
  import opened Listings
  import opened Names
  import opened TencentListing
  import W = TencentWrites

  /** A desired entry in normal form, with the record it is to replace and the status it is to have. */
  datatype Desired = Desired(id: Option<Id>, entry: W.TencentEntry, status: Bytes)

  datatype Plan = Plan(current: Key, desired: Key, entries: seq<Desired>)

  type Entries = map<Id, W.TencentEntry>

  function SharedOf(key: Key): W.Shared {
    W.Shared(key.name, key.rtype, key.ttl)
  }

  function RouteOf(key: Key): W.Routing {
    W.Routing(key.line, key.lineId, [], false)
  }

  /** Upper-casing leaves the two statuses alone. */
  ghost predicate LawfulPrinter(printer: W.Printer) {
    && W.QuotingIsLossless(printer)
    && W.NormalizeStatus(printer, W.ENABLE) == Some(W.ENABLE)
    && W.NormalizeStatus(printer, W.DISABLE) == Some(W.DISABLE)
  }

  predicate IsStatus(status: Bytes) {
    status == W.ENABLE || status == W.DISABLE
  }

  // ---------------------------------------------------------------- the plan

  function MembersOf(setting: Setting, before: Zone, plan: Plan): Entries {
    Members(setting, before, plan.current)
  }

  /** What the checks before the first write guarantee. */
  ghost predicate Planned(setting: Setting, before: Zone, plan: Plan) {
    && plan.entries != [] && Supported(plan.desired.rtype) && KeyPlanned(setting, plan.desired)
    && (plan.desired in Keys(setting, before) ==> plan.desired == plan.current)
    && (forall i, j :: 0 <= i < j < |plan.entries| && plan.entries[i].id.Some? ==>
          plan.entries[i].id != plan.entries[j].id)
    && forall i :: 0 <= i < |plan.entries| ==> EntryPlanned(setting, before, plan, i)
  }

  /** The name is canonical in the zone, and TTL and line are in order. */
  predicate KeyPlanned(setting: Setting, key: Key) {
    && CanonicalRecordName(setting.idna, key.name, setting.zoneName) == Some(key.name)
    && 1 <= key.ttl <= 604800
    && key.line != [] && TrimSpace(key.line) == key.line && key.lineId != [] && TrimSpace(key.lineId) == key.lineId
  }

  ghost predicate EntryPlanned(setting: Setting, before: Zone, plan: Plan, i: nat)
    requires i < |plan.entries|
  {
    var desired := plan.entries[i];
    && (desired.id.Some? ==> desired.id.value in MembersOf(setting, before, plan))
    && IsStatus(desired.status)
    && Shown(setting.lib, plan.desired.rtype, desired.entry.data)
    && (desired.entry.extension.Some? && desired.entry.extension.value.weight.Some? ==>
          desired.entry.extension.value.weight.value <= 100)
  }

  /** `recordNeedsUpdate` finds nothing to do for the entry. */
  predicate Skips(setting: Setting, before: Zone, plan: Plan, i: nat)
    requires i < |plan.entries|
  {
    var desired, members := plan.entries[i], MembersOf(setting, before, plan);
    && desired.id.Some? && desired.id.value in members
    && !W.NeedsUpdate(setting.printer, SharedOf(plan.current), RouteOf(plan.current), members[desired.id.value],
                      SharedOf(plan.desired), RouteOf(plan.desired), desired.status, desired.entry)
  }

  /** What the final listing is expected to show for the entry. */
  function Expected(plan: Plan, i: nat): W.TencentEntry
    requires i < |plan.entries|
  {
    W.Expected(plan.entries[i].entry, RouteOf(plan.desired), plan.entries[i].status)
  }

  // ---------------------------------------------------------------- the writes

  function Relative(setting: Setting, name: Bytes): Bytes {
    match CanonicalName(setting.idna, setting.zoneName, false)
    case None => name
    case Some(zone) => if InZone(name, zone) then SubDomain(name, zone) else name
  }

  /** The record an add or a modify call leaves; without an extension the remark is not sent and stays. */
  function Payload(setting: Setting, plan: Plan, i: nat, oldRemark: Bytes): Native
    requires i < |plan.entries|
  {
    var entry, key := plan.entries[i].entry, plan.desired;
    var printed := ValueOr(W.WireValue(setting.printer, key.rtype, entry.data), W.Printed([], None));
    Native(Relative(setting, key.name), key.rtype, key.ttl, key.line, key.lineId, W.Weight(entry),
           plan.entries[i].status, printed.text, ValueOr(printed.mx, 0),
           if entry.extension.Some? then W.Remark(entry) else oldRemark)
  }

  function OldRemark(before: Zone, id: Id): Bytes {
    if id in before then before[id].remark else []
  }

  predicate EntryApplied(setting: Setting, before: Zone, after: Zone, plan: Plan, i: nat, id: Id)
    requires i < |plan.entries|
  {
    && id in after
    && (plan.entries[i].id.Some? ==> id == plan.entries[i].id.value && id in before)
    && (plan.entries[i].id.None? ==> id !in before && id != 0)
    && if Skips(setting, before, plan, i) then id in before && after[id] == before[id]
       else after[id] == Payload(setting, plan, i, OldRemark(before, id))
  }

  /**
    Every call was answered: entry `i` is in place under `placed[i]`, replaced members are gone, the
    rest is as it was.
   */
  predicate Applied(setting: Setting, before: Zone, after: Zone, plan: Plan, placed: seq<Id>) {
    && |placed| == |plan.entries| && NoRepeat(placed)
    && (forall i :: 0 <= i < |placed| ==> EntryApplied(setting, before, after, plan, i, placed[i]))
    && (forall id :: id in after && id !in placed ==>
          id in before && after[id] == before[id] && id !in MembersOf(setting, before, plan))
    && (forall id :: id in before && id !in MembersOf(setting, before, plan) ==> id in after)
  }

  // ---------------------------------------------------------------- the confirmation

  function Final(plan: Plan, placed: seq<Id>): Entries
    requires |placed| == |plan.entries| && NoRepeat(placed)
  {
    map i | 0 <= i < |placed| :: placed[i] := Expected(plan, i)
  }

  /** The final listing has a set under the desired key with exactly the expected entries. */
  predicate Confirmed(setting: Setting, after: Zone, plan: Plan, placed: seq<Id>)
    requires |placed| == |plan.entries| && NoRepeat(placed)
  {
    && Groupable(setting, after)
    && plan.desired in Grouped(setting, after) && Grouped(setting, after)[plan.desired] == Final(plan, placed)
  }

  /** No two entries are expected to look the same. */
  predicate ExpectedApart(plan: Plan) {
    forall i, j :: 0 <= i < j < |plan.entries| ==> Expected(plan, i) != Expected(plan, j)
  }

  /** A skipped record's remark is settled; a written record reads back as the expected entry. */
  predicate EntryConfirmable(setting: Setting, before: Zone, after: Zone, plan: Plan, i: nat, id: Id)
    requires i < |plan.entries| && id in after
  {
    if Skips(setting, before, plan, i)
    then W.RemarkSettled(MembersOf(setting, before, plan)[plan.entries[i].id.value], plan.entries[i].entry)
    else Decode(setting, id, after[id]) == Mapped(plan.desired, Expected(plan, i))
  }

  lemma MemberDecodes(setting: Setting, before: Zone, key: Key, id: Id)
    requires id in Members(setting, before, key)
    ensures id in before && Decode(setting, id, before[id]) == Mapped(key, Members(setting, before, key)[id])
  {
  }

  lemma ReadIsShown(setting: Setting, native: Native)
    requires ReadEntry(setting, native).Some?
    ensures Shown(setting.lib, native.rtype, ReadEntry(setting, native).value)
  {
    var raw := ParseValue(setting.lib, native.rtype, native.value, native.mx).value;
    assert NormalizeEntry(setting.lib, native.rtype, raw) == ReadEntry(setting, native);
  }

  /** What a decoded record's entry carries. */
  lemma DecodedEntry(setting: Setting, id: Id, native: Native)
    requires Decode(setting, id, native).Mapped?
    ensures var decoded := Decode(setting, id, native);
            && ReadEntry(setting, native) == Some(decoded.entry.data) && decoded.key.rtype == native.rtype
            && Supported(native.rtype) && decoded.entry.extension.Some?
            && decoded.entry.extension.value.line == decoded.key.line
            && decoded.entry.extension.value.lineId == decoded.key.lineId
            && IsStatus(decoded.entry.extension.value.status)
  {
  }

  /** A member shows the normalized entry, line and status the skip test relies on. */
  lemma MemberIsListed(setting: Setting, before: Zone, key: Key, id: Id)
    requires LawfulPrinter(setting.printer) && id in Members(setting, before, key)
    ensures W.Listed(setting.lib, setting.printer, SharedOf(key), RouteOf(key), Members(setting, before, key)[id])
    ensures Supported(key.rtype)
  {
    MemberDecodes(setting, before, key, id);
    DecodedEntry(setting, id, before[id]);
    ReadIsShown(setting, before[id]);
  }

  /** A skipped record already has the desired key, and is the expected entry exactly when its remark is settled. */
  lemma SkippedIff(setting: Setting, before: Zone, plan: Plan, i: nat)
    requires LawfulPrinter(setting.printer) && Planned(setting, before, plan)
    requires i < |plan.entries| && Skips(setting, before, plan, i)
    ensures var member := MembersOf(setting, before, plan)[plan.entries[i].id.value];
            && plan.current == plan.desired
            && (member == Expected(plan, i) <==> W.RemarkSettled(member, plan.entries[i].entry))
  {
    var id := plan.entries[i].id.value;
    var member := MembersOf(setting, before, plan)[id];
    assert EntryPlanned(setting, before, plan, i);
    MemberIsListed(setting, before, plan.current, id);
    W.SkippedIsExpectedIff(setting.lib, setting.printer, SharedOf(plan.current), RouteOf(plan.current), member,
                           SharedOf(plan.desired), RouteOf(plan.desired), plan.entries[i].status,
                           plan.entries[i].entry);
  }

  /** One entry: its record decodes as expected exactly when it is confirmable. */
  lemma PlacedIff(setting: Setting, before: Zone, after: Zone, plan: Plan, i: nat, id: Id)
    requires LawfulPrinter(setting.printer) && Planned(setting, before, plan)
    requires i < |plan.entries| && EntryApplied(setting, before, after, plan, i, id)
    ensures Decode(setting, id, after[id]) == Mapped(plan.desired, Expected(plan, i))
            <==> EntryConfirmable(setting, before, after, plan, i, id)
  {
    if Skips(setting, before, plan, i) {
      SkippedIff(setting, before, plan, i);
      MemberDecodes(setting, before, plan.current, id);
    }
  }

  lemma FinalAt(plan: Plan, placed: seq<Id>, i: nat)
    requires |placed| == |plan.entries| && NoRepeat(placed) && i < |placed|
    ensures placed[i] in Final(plan, placed) && Final(plan, placed)[placed[i]] == Expected(plan, i)
  {
  }

  /** A record outside the set keeps its key, which is not the desired one. */
  lemma OutsideDecodes(setting: Setting, before: Zone, after: Zone, plan: Plan, placed: seq<Id>, id: Id)
    requires Planned(setting, before, plan) && Applied(setting, before, after, plan, placed)
    requires id in after && id !in placed
    ensures id in before && after[id] == before[id] && !Under(setting, after, plan.desired, id)
  {
  }

  lemma ConfirmedEntry(setting: Setting, before: Zone, after: Zone, plan: Plan, placed: seq<Id>, i: nat)
    requires LawfulPrinter(setting.printer) && Planned(setting, before, plan)
    requires Applied(setting, before, after, plan, placed) && Confirmed(setting, after, plan, placed) && i < |placed|
    ensures EntryConfirmable(setting, before, after, plan, i, placed[i])
  {
    FinalAt(plan, placed, i);
    MemberDecodes(setting, after, plan.desired, placed[i]);
    assert EntryApplied(setting, before, after, plan, i, placed[i]);
    PlacedIff(setting, before, after, plan, i, placed[i]);
  }

  lemma ConfirmedIsApart(setting: Setting, after: Zone, plan: Plan, placed: seq<Id>)
    requires |placed| == |plan.entries| && NoRepeat(placed) && Confirmed(setting, after, plan, placed)
    ensures ExpectedApart(plan)
  {
    forall i, j | 0 <= i < j < |plan.entries| ensures Expected(plan, i) != Expected(plan, j) {
      FinalAt(plan, placed, i);
      FinalAt(plan, placed, j);
      assert Distinct(Members(setting, after, plan.desired));
    }
  }

  // ---------------------------------------------------------------- when every entry is in order

  ghost predicate AllDecode(setting: Setting, after: Zone, plan: Plan, placed: seq<Id>)
    requires |placed| == |plan.entries|
  {
    forall i :: 0 <= i < |placed| ==>
      placed[i] in after && Decode(setting, placed[i], after[placed[i]]) == Mapped(plan.desired, Expected(plan, i))
  }

  lemma FinalMemberAt(setting: Setting, before: Zone, after: Zone, plan: Plan, placed: seq<Id>, id: Id)
    requires Planned(setting, before, plan) && Applied(setting, before, after, plan, placed)
    requires AllDecode(setting, after, plan, placed)
    ensures var left, right := Members(setting, after, plan.desired), Final(plan, placed);
            (id in left <==> id in right) && (id in left ==> left[id] == right[id])
  {
    if id in placed {
      var i :| 0 <= i < |placed| && placed[i] == id;
      FinalAt(plan, placed, i);
    } else if id in after {
      OutsideDecodes(setting, before, after, plan, placed, id);
    }
  }

  lemma SameEntries(left: Entries, right: Entries)
    requires forall id :: (id in left <==> id in right) && (id in left ==> left[id] == right[id])
    ensures left == right
  {
  }

  lemma FinalMembers(setting: Setting, before: Zone, after: Zone, plan: Plan, placed: seq<Id>)
    requires Planned(setting, before, plan) && Applied(setting, before, after, plan, placed)
    requires AllDecode(setting, after, plan, placed)
    ensures Members(setting, after, plan.desired) == Final(plan, placed)
  {
    var left, right := Members(setting, after, plan.desired), Final(plan, placed);
    forall id ensures (id in left <==> id in right) && (id in left ==> left[id] == right[id]) {
      FinalMemberAt(setting, before, after, plan, placed, id);
    }
    SameEntries(left, right);
  }

  lemma PlacedElsewhere(setting: Setting, after: Zone, plan: Plan, placed: seq<Id>, key: Key, id: Id)
    requires |placed| == |plan.entries| && AllDecode(setting, after, plan, placed)
    requires key != plan.desired && id in Members(setting, after, key)
    ensures id !in placed
  {
    forall i | 0 <= i < |placed| ensures placed[i] != id {
    }
  }

  /** Under any other key there is nothing that was not there before. */
  lemma OtherMembers(setting: Setting, before: Zone, after: Zone, plan: Plan, placed: seq<Id>, key: Key)
    requires Planned(setting, before, plan) && Applied(setting, before, after, plan, placed)
    requires AllDecode(setting, after, plan, placed) && key != plan.desired
    ensures forall id :: id in Members(setting, after, key) ==>
              id in Members(setting, before, key)
              && Members(setting, after, key)[id] == Members(setting, before, key)[id]
  {
    forall id | id in Members(setting, after, key)
      ensures id in Members(setting, before, key)
      ensures Members(setting, after, key)[id] == Members(setting, before, key)[id]
    {
      MemberDecodes(setting, after, key, id);
      PlacedElsewhere(setting, after, plan, placed, key, id);
      OutsideDecodes(setting, before, after, plan, placed, id);
    }
  }

  lemma FinalIsDistinct(plan: Plan, placed: seq<Id>)
    requires |placed| == |plan.entries| && NoRepeat(placed) && ExpectedApart(plan)
    ensures Distinct(Final(plan, placed))
  {
    var final := Final(plan, placed);
    forall id, other | id in final && other in final && id != other ensures final[id] != final[other] {
      var i :| 0 <= i < |placed| && placed[i] == id;
      var j :| 0 <= j < |placed| && placed[j] == other;
      FinalAt(plan, placed, i);
      FinalAt(plan, placed, j);
    }
  }

  lemma AfterReads(setting: Setting, before: Zone, after: Zone, plan: Plan, placed: seq<Id>, id: Id)
    requires Groupable(setting, before) && Planned(setting, before, plan)
    requires Applied(setting, before, after, plan, placed) && AllDecode(setting, after, plan, placed) && id in after
    ensures !Decode(setting, id, after[id]).Invalid?
  {
    if id in placed {
      var i :| 0 <= i < |placed| && placed[i] == id;
    } else {
      OutsideDecodes(setting, before, after, plan, placed, id);
    }
  }

  lemma AfterIsDistinct(setting: Setting, before: Zone, after: Zone, plan: Plan, placed: seq<Id>, key: Key)
    requires Groupable(setting, before) && Planned(setting, before, plan)
    requires Applied(setting, before, after, plan, placed) && AllDecode(setting, after, plan, placed)
    requires ExpectedApart(plan)
    ensures Distinct(Members(setting, after, key))
  {
    if key == plan.desired {
      FinalMembers(setting, before, after, plan, placed);
      FinalIsDistinct(plan, placed);
    } else {
      OtherMembers(setting, before, after, plan, placed, key);
      var left, right := Members(setting, after, key), Members(setting, before, key);
      forall id, other | id in left && other in left && id != other ensures left[id] != left[other] {
        MemberDecodes(setting, before, key, id);
        assert key in Keys(setting, before);
      }
    }
  }

  lemma AfterIsGroupable(setting: Setting, before: Zone, after: Zone, plan: Plan, placed: seq<Id>)
    requires Groupable(setting, before) && Planned(setting, before, plan)
    requires Applied(setting, before, after, plan, placed) && AllDecode(setting, after, plan, placed)
    requires ExpectedApart(plan)
    ensures Groupable(setting, after)
  {
    forall id | id in after ensures !Decode(setting, id, after[id]).Invalid? {
      AfterReads(setting, before, after, plan, placed, id);
    }
    forall key | key in Keys(setting, after) ensures Distinct(Members(setting, after, key)) {
      AfterIsDistinct(setting, before, after, plan, placed, key);
    }
  }

  lemma KeyOf(setting: Setting, zone: Zone, id: Id)
    requires id in zone && Decode(setting, id, zone[id]).Mapped?
    ensures Decode(setting, id, zone[id]).key in Grouped(setting, zone)
  {
  }

  lemma AllInOrder(setting: Setting, before: Zone, after: Zone, plan: Plan, placed: seq<Id>)
    requires Groupable(setting, before) && Planned(setting, before, plan)
    requires Applied(setting, before, after, plan, placed) && AllDecode(setting, after, plan, placed)
    requires ExpectedApart(plan)
    ensures Confirmed(setting, after, plan, placed)
  {
    AfterIsGroupable(setting, before, after, plan, placed);
    FinalMembers(setting, before, after, plan, placed);
    assert placed[0] in after;
    assert Decode(setting, placed[0], after[placed[0]]) == Mapped(plan.desired, Expected(plan, 0));
    KeyOf(setting, after, placed[0]);
  }

  /**
    With every call answered, the final listing confirms the update exactly when no two entries are
    expected to look the same, each skipped record's remark is settled, and each written record reads
    back as expected.
   */
  lemma ConfirmedIff(setting: Setting, before: Zone, after: Zone, plan: Plan, placed: seq<Id>)
    requires LawfulPrinter(setting.printer) && Groupable(setting, before) && Planned(setting, before, plan)
    requires Applied(setting, before, after, plan, placed)
    ensures Confirmed(setting, after, plan, placed)
            <==> ExpectedApart(plan)
                 && forall i :: 0 <= i < |placed| ==> EntryConfirmable(setting, before, after, plan, i, placed[i])
  {
    if Confirmed(setting, after, plan, placed) {
      ConfirmedIsApart(setting, after, plan, placed);
      forall i | 0 <= i < |placed| ensures EntryConfirmable(setting, before, after, plan, i, placed[i]) {
        ConfirmedEntry(setting, before, after, plan, placed, i);
      }
    }
    if ExpectedApart(plan)
       && forall i :: 0 <= i < |placed| ==> EntryConfirmable(setting, before, after, plan, i, placed[i]) {
      forall i | 0 <= i < |placed|
        ensures placed[i] in after
        ensures Decode(setting, placed[i], after[placed[i]]) == Mapped(plan.desired, Expected(plan, i))
      {
        PlacedIff(setting, before, after, plan, i, placed[i]);
      }
      AllInOrder(setting, before, after, plan, placed);
    }
  }

  // ---------------------------------------------------------------- which records read back

  /** Reading a printed SRV or CAA value gives back what was printed. */
  ghost predicate ReadsPrinted(lib: Library, printer: W.Printer) {
    forall rtype: RecordType, data :: (rtype.SRV? || rtype.CAA?) && Shown(lib, rtype, data) ==>
      lib.textual(rtype, TrimSpace(W.WireValue(printer, rtype, data).value.text)) == Some(data)
  }

  ghost predicate LawfulProvider(setting: Setting) {
    && Lawful(setting.lib) && LawfulPrinter(setting.printer) && ReadsPrinted(setting.lib, setting.printer)
    && LawfulIdna(setting.idna) && CanonicalName(setting.idna, setting.zoneName, false) == Some(setting.zoneName)
  }

  lemma AddressPrints(lib: Library, printer: W.Printer, rtype: RecordType, data: EntryData)
    requires Lawful(lib) && (rtype.A? || rtype.AAAA?) && Shown(lib, rtype, data)
    ensures ParseValue(lib, rtype, W.WireValue(printer, rtype, data).value.text, 0) == Some(data)
  {
    W.ShapeOf(lib, rtype, data);
    var raw :| NormalizeEntry(lib, rtype, raw) == Some(data);
    assert AddressFixed(lib, rtype, data.value);
  }

  lemma TargetPrints(lib: Library, printer: W.Printer, rtype: RecordType, data: EntryData)
    requires Lawful(lib) && HasTarget(rtype) && !rtype.SRV? && Shown(lib, rtype, data)
    ensures var printed := W.WireValue(printer, rtype, data).value;
            ParseValue(lib, rtype, printed.text, ValueOr(printed.mx, 0)) == Some(data)
  {
    W.ShapeOf(lib, rtype, data);
    var raw :| NormalizeEntry(lib, rtype, raw) == Some(data);
    TargetTwice(lib, raw);
  }

  /** A printed entry parses back as the entry, before it is normalized with its set. */
  lemma ParsesBack(lib: Library, printer: W.Printer, rtype: RecordType, data: EntryData)
    requires Lawful(lib) && ReadsPrinted(lib, printer) && Supported(rtype) && Shown(lib, rtype, data)
    ensures var printed := W.WireValue(printer, rtype, data).value;
            ParseValue(lib, rtype, printed.text, ValueOr(printed.mx, 0)) == Some(data)
  {
    W.ShapeOf(lib, rtype, data);
    match rtype
    case A | AAAA => AddressPrints(lib, printer, rtype, data);
    case CNAME | NS | MX => TargetPrints(lib, printer, rtype, data);
    case _ =>
  }

  /** The name sent is relative, and reads back unless the relative part lies in the zone itself. */
  lemma NameReadsBackIff(setting: Setting, name: Bytes, native: Native)
    requires LawfulProvider(setting) && CanonicalRecordName(setting.idna, name, setting.zoneName) == Some(name)
    requires native.name == Relative(setting, name)
    ensures InZone(name, setting.zoneName)
    ensures ReadName(setting, native) == Some(name)
            <==> name == setting.zoneName || !InZone(SubDomain(name, setting.zoneName), setting.zoneName)
  {
    RecordNameRoundTripIff(setting.idna, setting.zoneName, name);
  }

  /** The name comes back from the zone under its relative form. */
  predicate NameComesBack(setting: Setting, name: Bytes)
    requires InZone(name, setting.zoneName)
  {
    name == setting.zoneName || !InZone(SubDomain(name, setting.zoneName), setting.zoneName)
  }

  /** What is sent for an entry, column by column. */
  lemma PayloadColumns(setting: Setting, before: Zone, plan: Plan, i: nat, oldRemark: Bytes)
    requires Planned(setting, before, plan) && i < |plan.entries|
    ensures var native, desired := Payload(setting, plan, i, oldRemark), plan.entries[i];
            && native.name == Relative(setting, plan.desired.name) && native.rtype == plan.desired.rtype
            && native.ttl == plan.desired.ttl && native.line == plan.desired.line
            && native.lineId == plan.desired.lineId && native.status == desired.status
            && (desired.entry.extension.Some? ==>
                  native.remark == desired.entry.extension.value.remark
                  && native.weight == desired.entry.extension.value.weight)
            && (desired.entry.extension.None? ==> native.remark == oldRemark && native.weight == None)
            && W.WireValue(setting.printer, plan.desired.rtype, desired.entry.data).Some?
            && var printed := W.WireValue(setting.printer, plan.desired.rtype, desired.entry.data).value;
               native.value == printed.text && native.mx == ValueOr(printed.mx, 0)
  {
  }

  lemma PlannedFieldsAreTaken(setting: Setting, key: Key, id: Id, native: Native)
    requires KeyPlanned(setting, key) && id != 0
    requires native.ttl == key.ttl && native.line == key.line && native.lineId == key.lineId
    requires native.weight.Some? ==> native.weight.value <= 100
    ensures !RefusedFields(id, native)
  {
  }

  lemma StatusIsKept(printer: W.Printer, status: Bytes)
    requires LawfulPrinter(printer) && IsStatus(status)
    ensures W.NormalizeStatus(printer, status) == Some(status)
  {
  }

  lemma FieldsReadBack(setting: Setting, before: Zone, plan: Plan, i: nat, id: Id, oldRemark: Bytes)
    requires LawfulProvider(setting) && Planned(setting, before, plan) && i < |plan.entries| && id != 0
    ensures var native := Payload(setting, plan, i, oldRemark);
            !RefusedFields(id, native) && W.NormalizeStatus(setting.printer, native.status) == Some(native.status)
  {
    assert EntryPlanned(setting, before, plan, i);
    PayloadColumns(setting, before, plan, i, oldRemark);
    PlannedFieldsAreTaken(setting, plan.desired, id, Payload(setting, plan, i, oldRemark));
    StatusIsKept(setting.printer, plan.entries[i].status);
  }

  lemma EntryReadsBack(setting: Setting, before: Zone, plan: Plan, i: nat, oldRemark: Bytes)
    requires LawfulProvider(setting) && Planned(setting, before, plan) && i < |plan.entries|
    ensures ReadEntry(setting, Payload(setting, plan, i, oldRemark))
            == NormalizeEntry(setting.lib, plan.desired.rtype, plan.entries[i].entry.data)
  {
    assert EntryPlanned(setting, before, plan, i);
    PayloadColumns(setting, before, plan, i, oldRemark);
    ParsesBack(setting.lib, setting.printer, plan.desired.rtype, plan.entries[i].entry.data);
  }

  /**
    A written record is listed as the update expects exactly when its name comes back, its entry looks
    plain, and its remark was either sent or empty before.
   */
  lemma WrittenReadsBackIff(setting: Setting, before: Zone, plan: Plan, i: nat, id: Id, oldRemark: Bytes)
    requires LawfulProvider(setting) && Planned(setting, before, plan) && i < |plan.entries| && id != 0
    ensures InZone(plan.desired.name, setting.zoneName)
    ensures Decode(setting, id, Payload(setting, plan, i, oldRemark)) == Mapped(plan.desired, Expected(plan, i))
            <==> && NameComesBack(setting, plan.desired.name)
                 && LooksPlain(plan.desired.rtype, plan.entries[i].entry.data)
                 && (plan.entries[i].entry.extension.Some? || oldRemark == [])
  {
    var native, entry := Payload(setting, plan, i, oldRemark), plan.entries[i].entry;
    FieldsReadBack(setting, before, plan, i, id, oldRemark);
    EntryReadsBack(setting, before, plan, i, oldRemark);
    PayloadColumns(setting, before, plan, i, oldRemark);
    NameReadsBackIff(setting, plan.desired.name, native);
    assert EntryPlanned(setting, before, plan, i);
    FixedEntryIff(setting.lib, plan.desired.rtype, entry.data);
  }

  /** Whether an entry can be confirmed, from the plan and the old zone alone. */
  predicate EntryInOrder(setting: Setting, before: Zone, plan: Plan, i: nat)
    requires i < |plan.entries| && InZone(plan.desired.name, setting.zoneName)
  {
    var desired := plan.entries[i];
    var remark := if desired.id.Some? && desired.id.value in before then before[desired.id.value].remark else [];
    && (desired.entry.extension.Some? || remark == [])
    && (Skips(setting, before, plan, i)
        || (NameComesBack(setting, plan.desired.name) && LooksPlain(plan.desired.rtype, desired.entry.data)))
  }

  lemma EntryInOrderIff(setting: Setting, before: Zone, after: Zone, plan: Plan, i: nat, id: Id)
    requires LawfulProvider(setting) && Planned(setting, before, plan)
    requires i < |plan.entries| && EntryApplied(setting, before, after, plan, i, id)
    ensures InZone(plan.desired.name, setting.zoneName)
    ensures EntryConfirmable(setting, before, after, plan, i, id) <==> EntryInOrder(setting, before, plan, i)
  {
    var desired := plan.entries[i];
    assert EntryPlanned(setting, before, plan, i);
    if desired.id.Some? {
      MemberDecodes(setting, before, plan.current, id);
      DecodedEntry(setting, id, before[id]);
      assert !RefusedFields(id, before[id]);
    }
    WrittenReadsBackIff(setting, before, plan, i, id, OldRemark(before, id));
  }

  lemma AllInOrderIff(setting: Setting, before: Zone, after: Zone, plan: Plan, placed: seq<Id>)
    requires LawfulProvider(setting) && Planned(setting, before, plan)
    requires Applied(setting, before, after, plan, placed)
    ensures InZone(plan.desired.name, setting.zoneName)
    ensures (forall i :: 0 <= i < |placed| ==> EntryConfirmable(setting, before, after, plan, i, placed[i]))
            <==> forall i :: 0 <= i < |placed| ==> EntryInOrder(setting, before, plan, i)
  {
    RecordNameRoundTripIff(setting.idna, setting.zoneName, plan.desired.name);
    forall i | 0 <= i < |placed|
      ensures EntryConfirmable(setting, before, after, plan, i, placed[i]) <==> EntryInOrder(setting, before, plan, i)
    {
      EntryInOrderIff(setting, before, after, plan, i, placed[i]);
    }
  }

  /**
    With every call answered, the update is confirmed exactly when no two entries are expected to look
    the same, an entry without an extension replaces no remark, and what is written has a name that
    comes back and looks plain.
   */
  lemma UpdateConfirmedIff(setting: Setting, before: Zone, after: Zone, plan: Plan, placed: seq<Id>)
    requires LawfulProvider(setting) && Groupable(setting, before) && Planned(setting, before, plan)
    requires Applied(setting, before, after, plan, placed)
    ensures InZone(plan.desired.name, setting.zoneName)
    ensures Confirmed(setting, after, plan, placed)
            <==> ExpectedApart(plan) && forall i :: 0 <= i < |plan.entries| ==> EntryInOrder(setting, before, plan, i)
  {
    ConfirmedIff(setting, before, after, plan, placed);
    AllInOrderIff(setting, before, after, plan, placed);
  }

  /**
    Two different entries for the same data, one without an extension and one that spells out the
    defaults, are expected to look the same, so an update with both is never confirmed.
   */
  lemma DifferentEntriesCanBeExpectedAlike(data: EntryData, key: Key)
    ensures var bare := Desired(None, W.TencentEntry(data, None), W.ENABLE);
            var defaults := W.Extension(key.line, key.lineId, None, W.ENABLE, []);
            var spelled := Desired(None, W.TencentEntry(data, Some(defaults)), W.ENABLE);
            bare.entry != spelled.entry && !ExpectedApart(Plan(key, key, [bare, spelled]))
  {
    var bare := Desired(None, W.TencentEntry(data, None), W.ENABLE);
    var defaults := W.Extension(key.line, key.lineId, None, W.ENABLE, []);
    var spelled := Desired(None, W.TencentEntry(data, Some(defaults)), W.ENABLE);
    assert Expected(Plan(key, key, [bare, spelled]), 0) == Expected(Plan(key, key, [bare, spelled]), 1);
  }
}
