/**
  What a caller asks of a Cloudflare record set and what the zone stores for it: when an update or a
  creation is accepted, under which key and with which entries, and the columns of a record.
 */
module CloudflareRequests {
  import opened Wrappers
  import opened Utf8
  import opened Txt
  import opened RecordEntries
  import opened CloudflareCodec
  import opened Listings
  import opened CloudflareGrouping
  import opened CloudflarePlan

  // ---------------------------------------------------------------- entries

  const DOT_BYTE: byte := 0x2E

  /** The entry names its target once, as target or as value, and this is its canonical form. */
  predicate TargetOf(lib: Library, raw: EntryData, target: Bytes) {
    && (raw.target.Some? ==> raw.value == [])
    && var given := if raw.target.Some? then raw.target.value else raw.value;
       if TrimSpace(given) == [DOT_BYTE] then target == [DOT_BYTE] else lib.hostname(given) == Some(target)
  }

  predicate OnlyText(raw: EntryData) {
    && raw.priority.None? && raw.weight.None? && raw.port.None? && raw.target.None? && raw.flags.None? && raw.tag.None?
    && TrimSpace(raw.value) != []
  }

  /** `data` is how the program shows `raw`, field by field. */
  predicate ShowsEntry(lib: Library, rtype: RecordType, raw: EntryData, data: EntryData) {
    match rtype
    case A | AAAA =>
      OnlyText(raw) && lib.address(rtype, TrimSpace(raw.value)) == Some(data.value) && data == raw.(value := data.value)
    case TXT => OnlyText(raw) && Canonical(raw.value) == Ok(data.value) && data == raw.(value := data.value)
    case CNAME | NS =>
      && data.target.Some? && data.target.value != [DOT_BYTE] && TargetOf(lib, raw, data.target.value)
      && data == EntryData([], None, None, None, data.target, None, None)
    case MX =>
      && raw.priority.Some? && raw.weight.None? && raw.port.None? && raw.flags.None? && raw.tag.None?
      && data.target.Some? && TargetOf(lib, raw, data.target.value)
      && data == EntryData([], raw.priority, None, None, data.target, None, None)
    case SRV =>
      && raw.priority.Some? && raw.weight.Some? && raw.port.Some? && raw.flags.None? && raw.tag.None?
      && data.target.Some? && TargetOf(lib, raw, data.target.value)
      && data == EntryData([], raw.priority, raw.weight, raw.port, data.target, None, None)
    case CAA =>
      && raw.flags.Some? && raw.tag.Some? && raw.priority.None? && raw.weight.None? && raw.port.None?
      && raw.target.None? && data.tag.Some? && data.tag.value != [] && LettersDigits(data.tag.value)
      && data.tag.value == lib.lower(TrimSpace(raw.tag.value)) && CaaValue(raw.value) == Some(data.value)
      && data == EntryData(data.value, None, None, None, None, raw.flags, data.tag)
    case SOA =>
      OnlyText(raw) && Valid(raw.value) && data == raw && forall b :: b in raw.value ==> b != 0 && b != 10 && b != 13
    case Unknown(_) => false
  }

  lemma OnlyTextIff(raw: EntryData)
    ensures OnlyText(raw) <==> OnlyValue(raw)
  {
  }

  lemma TextNormalizedIff(lib: Library, rtype: RecordType, raw: EntryData, data: EntryData)
    requires !rtype.CAA? && !HasTarget(rtype)
    ensures NormalizeEntry(lib, rtype, raw) == Some(data) <==> ShowsEntry(lib, rtype, raw, data)
  {
    OnlyTextIff(raw);
  }

  lemma TargetIff(lib: Library, raw: EntryData, target: Bytes)
    ensures EntryTarget(lib, raw) == Some(target) <==> TargetOf(lib, raw, target)
  {
  }

  lemma TargetNormalizedIff(lib: Library, rtype: RecordType, raw: EntryData, data: EntryData)
    requires HasTarget(rtype)
    ensures NormalizeEntry(lib, rtype, raw) == Some(data) <==> ShowsEntry(lib, rtype, raw, data)
  {
    if data.target.Some? {
      TargetIff(lib, raw, data.target.value);
    }
  }

  lemma CaaNormalizedIff(lib: Library, raw: EntryData, data: EntryData)
    ensures NormalizeEntry(lib, CAA, raw) == Some(data) <==> ShowsEntry(lib, CAA, raw, data)
  {
  }

  /** Numbers are kept, names and texts canonicalized, and fields that do not belong are refused or dropped. */
  lemma NormalizedIff(lib: Library, rtype: RecordType, raw: EntryData, data: EntryData)
    ensures NormalizeEntry(lib, rtype, raw) == Some(data) <==> ShowsEntry(lib, rtype, raw, data)
  {
    if rtype.CAA? {
      CaaNormalizedIff(lib, raw, data);
    } else if HasTarget(rtype) {
      TargetNormalizedIff(lib, rtype, raw, data);
    } else {
      TextNormalizedIff(lib, rtype, raw, data);
    }
  }

  // ---------------------------------------------------------------- records

  /** The fields a stored record of the type carries an entry in. */
  predicate Carries(rtype: RecordType, wire: Wire, data: EntryData) {
    match rtype
    case A | AAAA => wire == Content(data.value, 0)
    case TXT => wire.Content? && wire.text == [0x22] + EscapedBody(data.value) + [0x22] && wire.preference == 0
    case CNAME | NS => data.target.Some? && wire == Content(data.target.value, 0)
    case MX =>
      data.target.Some? && data.priority.Some? && wire == Content(data.target.value, data.priority.value)
    case SRV =>
      && wire.SrvData? && Some(wire.srvTarget) == data.target && data.priority.Some? && data.weight.Some?
      && data.port.Some? && wire.srvPriority == data.priority.value && wire.srvWeight == data.weight.value
      && wire.srvPort == data.port.value
    case CAA =>
      && wire.CaaData? && data.flags.Some? && wire.caaFlags == data.flags.value && Some(wire.caaTag) == data.tag
      && wire.caaValue == data.value
    case _ => false
  }

  /** A record is written with exactly the desired name, type, options and entry; automatic TTL is sent as 1. */
  lemma WrittenColumns(lib: Library, key: Key, data: EntryData)
    requires Supported(key.rtype) && Shown(lib, key.rtype, data)
    ensures var native := Written(lib, key, data);
            && native.name == key.name && native.rtype == key.rtype && native.proxied == key.proxied
            && native.comment == key.comment && native.tags == key.tags
            && native.ttl == (if key.automaticTTL then 1 else key.ttl)
            && Carries(key.rtype, native.wire, data)
  {
    var raw :| NormalizeEntry(lib, key.rtype, raw) == Some(data);
    NormalizedIff(lib, key.rtype, raw, data);
  }

  /** The tags without outer blanks, none of them empty. */
  predicate TagsOf(given: set<Bytes>, tags: set<Bytes>) {
    && (forall tag :: tag in given ==> TrimSpace(tag) != [] && TrimSpace(tag) in tags)
    && (forall tag :: tag in tags ==> exists source :: source in given && TrimSpace(source) == tag)
  }

  lemma TagsIff(given: set<Bytes>, tags: set<Bytes>)
    ensures NormalizeTags(given) == Some(tags) <==> TagsOf(given, tags)
  {
    if TagsOf(given, tags) {
      assert tags == set tag | tag in given :: TrimSpace(tag);
    }
  }

  /** How a record is shown: its columns under their key, TTL 1 as automatic 300 seconds, and its entry. */
  predicate ShowsRecord(lib: Library, native: Native, key: Key, data: EntryData) {
    && Supported(native.rtype) && key.rtype == native.rtype && key.proxied == native.proxied
    && key.proxiable == native.proxiable && key.comment == native.comment && TagsOf(native.tags, key.tags)
    && 1 <= native.ttl <= 0xFFFF_FFFF && (key.automaticTTL <==> native.ttl == 1)
    && key.ttl == (if native.ttl == 1 then 300 else native.ttl)
    && lib.owner(native.name) == Some(key.name) && lib.owner(key.name).Some?
    && ReadEntry(lib, native.rtype, native.wire) == Some(data)
  }

  lemma DecodedIff(lib: Library, native: Native, key: Key, data: EntryData)
    ensures Decode(lib, native) == Mapped(key, data) <==> ShowsRecord(lib, native, key, data)
    ensures Decode(lib, native).Skipped? <==> native.rtype.SOA? || native.rtype.Unknown?
  {
    TagsIff(native.tags, key.tags);
  }

  // ---------------------------------------------------------------- options

  /** The options under `key` are the extension's where it gives them and the base's otherwise. */
  predicate OptionsAsked(input: Input, base: Key, key: Key) {
    && key.proxiable == base.proxiable
    && match input.extension
       case None =>
         && key.proxied == base.proxied && key.comment == base.comment && key.tags == base.tags
         && (key.automaticTTL <==> base.proxied || base.automaticTTL)
       case Some(extension) =>
         && (extension.proxied.Some? ==> key.proxied == extension.proxied.value)
         && (extension.proxied.None? ==> key.proxied == base.proxied)
         && key.comment == extension.comment && TagsOf(extension.tags, key.tags)
         && (key.automaticTTL <==>
               || key.proxied
               || (if extension.automaticTTL.Some? then extension.automaticTTL.value else base.automaticTTL))
  }

  /** What is refused: foreign extensions, other types, changed read-only flags, impossible proxying and TTLs. */
  predicate OptionsAllowed(input: Input, base: Key, update: bool, key: Key) {
    && !input.foreign && !input.rtype.SOA? && !input.rtype.Unknown?
    && (key.proxied ==> input.rtype.A? || input.rtype.AAAA? || input.rtype.CNAME?)
    && (if key.automaticTTL then input.ttl == 300 else 30 <= input.ttl <= 86400)
    && (input.extension.Some? ==>
          && (input.extension.value.proxiable.Some? ==>
                update && input.extension.value.proxiable.value == base.proxiable)
          && (key.proxied ==> input.extension.value.automaticTTL != Some(false)))
  }

  lemma OptionsIff(input: Input, base: Key, update: bool, key: Key)
    ensures ValidateInput(input, OptionsOf(base), update) == Ok(OptionsOf(key))
            <==> OptionsAsked(input, base, key) && OptionsAllowed(input, base, update, key)
  {
    if input.extension.Some? {
      TagsIff(input.extension.value.tags, key.tags);
    }
  }

  // ---------------------------------------------------------------- acceptance

  /** The name and entries are the input's in canonical form, each entry in its place. */
  predicate EntriesAsked(lib: Library, input: Input, key: Key, entries: seq<Entry>) {
    && lib.owner(input.name) == Some(key.name) && key.rtype == input.rtype && key.ttl == input.ttl
    && |entries| == |input.entries| > 0
    && (forall i :: 0 <= i < |entries| ==> ShowsEntry(lib, input.rtype, input.entries[i].data, entries[i].data))
    && (forall i, j :: 0 <= i < j < |entries| ==> entries[i].data != entries[j].data)
  }

  predicate SameIds(input: Input, entries: seq<Entry>) {
    |entries| == |input.entries| && forall i :: 0 <= i < |entries| ==> entries[i].id == input.entries[i].id
  }

  predicate NoIds(entries: seq<Entry>) {
    forall i :: 0 <= i < |entries| ==> entries[i].id.None?
  }

  /** The other listed sets differ from the desired one in more than `proxiable`. */
  predicate StandsAlone(view: View, current: Key, desired: Key) {
    forall key :: key in view && key != current ==> key.(proxiable := desired.proxiable) != desired
  }

  /** Given IDs are members of the current set, each given once. */
  predicate IdsAsked(entries: seq<Entry>, members: Entries) {
    && (forall i :: 0 <= i < |entries| && entries[i].id.Some? ==> entries[i].id.value in members)
    && (forall i, j :: 0 <= i < j < |entries| && entries[i].id.Some? ==> entries[i].id != entries[j].id)
  }

  /** The plan does what the input asks of the set under `current`, and the checks allow it. */
  predicate UpdateAsked(lib: Library, view: View, current: Key, matches: RecordSet -> Option<bool>, input: Input,
                        plan: Plan)
    requires current in view
  {
    && matches(RecordSet(current, view[current])) == Some(true)
    && plan.current == Some(current)
    && EntriesAsked(lib, input, plan.desired, plan.entries) && SameIds(input, plan.entries)
    && OptionsAsked(input, current, plan.desired) && OptionsAllowed(input, current, true, plan.desired)
    && StandsAlone(view, current, plan.desired) && IdsAsked(plan.entries, view[current])
  }

  /** What a new set starts from: not proxied, no fixed TTL mode, no comment, no tags. */
  function Defaults(rtype: RecordType): Key {
    Key([], rtype, 0, false, rtype.A? || rtype.AAAA? || rtype.CNAME?, false, [], {})
  }

  predicate CreationAsked(lib: Library, input: Input, plan: Plan) {
    && plan.current == None
    && EntriesAsked(lib, input, plan.desired, plan.entries) && NoIds(plan.entries)
    && OptionsAsked(input, Defaults(input.rtype), plan.desired)
    && OptionsAllowed(input, Defaults(input.rtype), false, plan.desired)
  }

  predicate Named(lib: Library, input: Input, normalized: Input) {
    && lib.owner(input.name) == Some(normalized.name) && !input.rtype.Unknown? && input.ttl > 0
    && normalized == input.(name := normalized.name, entries := normalized.entries)
    && |normalized.entries| == |input.entries| > 0 && SameIds(input, normalized.entries)
    && (forall i :: 0 <= i < |input.entries| ==>
          ShowsEntry(lib, input.rtype, input.entries[i].data, normalized.entries[i].data))
    && (forall i, j :: 0 <= i < j < |input.entries| ==> normalized.entries[i].data != normalized.entries[j].data)
  }

  lemma EntriesIff(lib: Library, rtype: RecordType, entries: seq<Entry>, normal: seq<Entry>)
    ensures NormalizeEntries(lib, rtype, entries) == Some(normal)
            <==> |normal| == |entries| && forall i :: 0 <= i < |entries| ==>
                   normal[i].id == entries[i].id && ShowsEntry(lib, rtype, entries[i].data, normal[i].data)
  {
    forall i | 0 <= i < |entries| && i < |normal|
      ensures NormalizeEntry(lib, rtype, entries[i].data) == Some(normal[i].data)
              <==> ShowsEntry(lib, rtype, entries[i].data, normal[i].data)
    {
      NormalizedIff(lib, rtype, entries[i].data, normal[i].data);
    }
    var values := NormalizeAll(lib, rtype, Values(entries));
    if |normal| == |entries| && forall i :: 0 <= i < |entries| ==>
         normal[i].id == entries[i].id && ShowsEntry(lib, rtype, entries[i].data, normal[i].data) {
      forall i | 0 <= i < |entries| ensures NormalizeEntry(lib, rtype, Values(entries)[i]) == Some(normal[i].data) {
      }
      assert values.Some?;
      assert WithValues(entries, values.value) == normal;
    }
  }

  lemma NormalizeInputIff(lib: Library, input: Input, normalized: Input)
    ensures NormalizeInput(lib, input) == Ok(normalized) <==> Named(lib, input, normalized)
  {
    EntriesIff(lib, input.rtype, input.entries, normalized.entries);
  }

  lemma StandsAloneIff(view: View, current: Key, desired: Key)
    ensures StandsAlone(view, current, desired) <==> !Merges(view, Some(current), desired)
  {
    forall key | key in view && key != current
      ensures key.(proxiable := desired.proxiable) != desired <==> !Equivalent(key, desired)
    {
    }
  }

  lemma IdsIff(entries: seq<Entry>, members: Entries)
    ensures IdsAsked(entries, members) <==> !RepeatedId(entries) && !OutsideId(entries, members)
  {
  }

  /** Validation sees only the parts of the input that normalization leaves alone. */
  lemma ValidationIgnores(input: Input, normalized: Input, base: Key, update: bool)
    requires normalized == input.(name := normalized.name, entries := normalized.entries)
    ensures ValidateInput(normalized, OptionsOf(base), update) == ValidateInput(input, OptionsOf(base), update)
  {
  }

  lemma KeyIff(input: Input, normalized: Input, base: Key, update: bool, key: Key)
    requires normalized == input.(name := normalized.name, entries := normalized.entries)
    ensures && ValidateInput(normalized, OptionsOf(base), update).Ok?
            && KeyFromInput(normalized, ValidateInput(normalized, OptionsOf(base), update).value) == key
            <==> && key.name == normalized.name && key.rtype == input.rtype && key.ttl == input.ttl
                 && OptionsAsked(input, base, key) && OptionsAllowed(input, base, update, key)
  {
    ValidationIgnores(input, normalized, base, update);
    OptionsIff(input, base, update, key);
  }

  lemma AcceptedIsAsked(lib: Library, view: View, current: Key, matches: RecordSet -> Option<bool>, input: Input,
                        plan: Plan)
    requires current in view && PlanUpdate(lib, view, current, matches, input) == Ok(plan)
    ensures UpdateAsked(lib, view, current, matches, input, plan)
  {
    var normalized := NormalizeInput(lib, input).value;
    NormalizeInputIff(lib, input, normalized);
    KeyIff(input, normalized, current, true, plan.desired);
    StandsAloneIff(view, current, plan.desired);
    IdsIff(plan.entries, view[current]);
  }

  lemma AskedIsAccepted(lib: Library, view: View, current: Key, matches: RecordSet -> Option<bool>, input: Input,
                        plan: Plan)
    requires current in view && UpdateAsked(lib, view, current, matches, input, plan)
    ensures PlanUpdate(lib, view, current, matches, input) == Ok(plan)
  {
    var normalized := input.(name := plan.desired.name, entries := plan.entries);
    NormalizeInputIff(lib, input, normalized);
    KeyIff(input, normalized, current, true, plan.desired);
    StandsAloneIff(view, current, plan.desired);
    IdsIff(plan.entries, view[current]);
  }

  /** An update is accepted with a plan exactly when the plan is what was asked and the checks allow it. */
  lemma UpdateAcceptedIff(lib: Library, view: View, current: Key, matches: RecordSet -> Option<bool>, input: Input,
                          plan: Plan)
    requires current in view
    ensures PlanUpdate(lib, view, current, matches, input) == Ok(plan)
            <==> UpdateAsked(lib, view, current, matches, input, plan)
  {
    if PlanUpdate(lib, view, current, matches, input) == Ok(plan) {
      AcceptedIsAsked(lib, view, current, matches, input, plan);
    }
    if UpdateAsked(lib, view, current, matches, input, plan) {
      AskedIsAccepted(lib, view, current, matches, input, plan);
    }
  }

  /** The same for a creation, which starts from the defaults and whose entries get IDs of their own. */
  lemma CreationAcceptedIff(lib: Library, input: Input, plan: Plan)
    ensures ValidateCreate(lib, input) == Ok(plan) <==> CreationAsked(lib, input, plan)
  {
    var base := Defaults(input.rtype);
    if ValidateCreate(lib, input) == Ok(plan) {
      var normalized := NormalizeInput(lib, input).value;
      NormalizeInputIff(lib, input, normalized);
      KeyIff(input, normalized, base, false, plan.desired);
    }
    if CreationAsked(lib, input, plan) {
      var entries := seq(|input.entries|, i requires 0 <= i < |input.entries| =>
        Entry(input.entries[i].id, plan.entries[i].data));
      var normalized := input.(name := plan.desired.name, entries := entries);
      NormalizeInputIff(lib, input, normalized);
      KeyIff(input, normalized, base, false, plan.desired);
      assert WithoutIds(entries) == plan.entries;
    }
  }

  /** The input itself is in order, whatever else the zone holds. */
  predicate WellAsked(lib: Library, current: Key, input: Input, plan: Plan) {
    && plan.current == Some(current)
    && EntriesAsked(lib, input, plan.desired, plan.entries) && SameIds(input, plan.entries)
    && OptionsAsked(input, current, plan.desired) && OptionsAllowed(input, current, true, plan.desired)
  }

  /** Another set is in the way, or an entry names a record outside the set. */
  predicate Clashes(view: View, current: Key, plan: Plan)
    requires current in view
  {
    || !StandsAlone(view, current, plan.desired)
    || ((exists i :: 0 <= i < |plan.entries| && plan.entries[i].id.Some? && plan.entries[i].id.value !in view[current])
        && forall i, j :: 0 <= i < j < |plan.entries| && plan.entries[i].id.Some? ==>
             plan.entries[i].id != plan.entries[j].id)
  }

  lemma WellAskedIff(lib: Library, current: Key, input: Input, normalized: Input, options: Options, plan: Plan)
    requires plan.current == Some(current) && plan.desired == KeyFromInput(normalized, options)
    requires NormalizeInput(lib, input) == Ok(normalized) && plan.entries == normalized.entries
    ensures ValidateInput(normalized, OptionsOf(current), true) == Ok(options) <==> WellAsked(lib, current, input, plan)
  {
    NormalizeInputIff(lib, input, normalized);
    KeyIff(input, normalized, current, true, plan.desired);
  }

  /** A well-formed update is refused as a conflict exactly when it clashes with what the zone holds. */
  lemma ClashIsConflict(lib: Library, view: View, current: Key, matches: RecordSet -> Option<bool>, input: Input,
                        plan: Plan)
    requires current in view && matches(RecordSet(current, view[current])) == Some(true)
    requires WellAsked(lib, current, input, plan)
    ensures PlanUpdate(lib, view, current, matches, input) == Err(Conflict) <==> Clashes(view, current, plan)
  {
    var normalized := input.(name := plan.desired.name, entries := plan.entries);
    NormalizeInputIff(lib, input, normalized);
    KeyIff(input, normalized, current, true, plan.desired);
    StandsAloneIff(view, current, plan.desired);
  }

  /** A refused update that is not a conflict is invalid; the caller's precondition is looked at first. */
  lemma UpdateRefusedWith(lib: Library, view: View, current: Key, matches: RecordSet -> Option<bool>, input: Input)
    requires current in view
    ensures var same, r := matches(RecordSet(current, view[current])), PlanUpdate(lib, view, current, matches, input);
            && (same.None? ==> r == Err(Validation))
            && (same == Some(false) ==> r == Err(Conflict))
            && (same == Some(true) && (forall plan :: !WellAsked(lib, current, input, plan)) ==> r == Err(Validation))
  {
    var normalized := NormalizeInput(lib, input);
    if normalized.Ok? {
      var options := ValidateInput(normalized.value, OptionsOf(current), true);
      if options.Ok? {
        var plan := Plan(Some(current), KeyFromInput(normalized.value, options.value), normalized.value.entries);
        WellAskedIff(lib, current, input, normalized.value, options.value, plan);
        assert WellAsked(lib, current, input, plan);
      }
    }
  }
}
