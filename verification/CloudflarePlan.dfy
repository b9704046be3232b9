/** What an update of a logical record set checks and plans, and what the zone looks like while and after it runs. */
module CloudflarePlan {
  import opened Collections
  import opened Wrappers
  import opened Utf8
  import opened Labels
  import opened RecordEntries
  import opened CloudflareCodec
  import opened Listings
  import opened CloudflareGrouping

  const MINIMUM_TTL: nat := 30
  const LONGEST_TTL: nat := 86400

  datatype Entry = Entry(id: Option<Id>, data: EntryData)

  datatype Extension = Extension(proxied: Option<bool>, proxiable: Option<bool>, automaticTTL: Option<bool>,
                                 comment: Bytes, tags: set<Bytes>)

  /** `foreign` says that the set or an entry carries another provider's extension. */
  datatype Input = Input(name: Bytes, rtype: RecordType, ttl: nat, entries: seq<Entry>, extension: Option<Extension>,
                         foreign: bool)

  datatype Options = Options(proxied: bool, proxiable: bool, automaticTTL: bool, comment: Bytes, tags: set<Bytes>)

  datatype RecordSet = RecordSet(key: Key, entries: Entries)

  // ---------------------------------------------------------------- normalization and validation

  function Values(entries: seq<Entry>): (r: seq<EntryData>)
    ensures |r| == |entries| && forall i :: 0 <= i < |r| ==> r[i] == entries[i].data
  {
    seq(|entries|, i requires 0 <= i < |entries| => entries[i].data)
  }

  function WithValues(entries: seq<Entry>, values: seq<EntryData>): (r: seq<Entry>)
    requires |values| == |entries|
    ensures |r| == |entries| && forall i :: 0 <= i < |r| ==> r[i] == Entry(entries[i].id, values[i])
  {
    seq(|entries|, i requires 0 <= i < |entries| => Entry(entries[i].id, values[i]))
  }

  function NormalizeEntries(lib: Library, rtype: RecordType, entries: seq<Entry>): (r: Option<seq<Entry>>)
    ensures r.Some? ==> |r.value| == |entries|
  {
    match NormalizeAll(lib, rtype, Values(entries))
    case None => None
    case Some(values) => Some(WithValues(entries, values))
  }

  lemma OneEntryNormalizes(lib: Library, rtype: RecordType, data: EntryData, normal: EntryData)
    requires NormalizeEntry(lib, rtype, data) == Some(normal)
    ensures NormalizeEntries(lib, rtype, [Entry(None, data)]) == Some([Entry(None, normal)])
  {
    assert Values([Entry(None, data)]) == [data];
    assert NormalizeEntry(lib, rtype, [data][0]) == Some(normal);
    var values := NormalizeAll(lib, rtype, [data]);
    assert values.Some?;
    assert values.value == [normal];
    assert WithValues([Entry(None, data)], [normal]) == [Entry(None, normal)];
  }

  predicate DistinctData(entries: seq<Entry>) {
    forall i, j :: 0 <= i < j < |entries| ==> entries[i].data != entries[j].data
  }

  function NormalizeInput(lib: Library, input: Input): Result<Input, Error> {
    var name := lib.owner(input.name);
    if name.None? || input.rtype.Unknown? || input.ttl == 0 || input.entries == [] then Err(Validation)
    else
      var entries := NormalizeEntries(lib, input.rtype, input.entries);
      if entries.None? || !DistinctData(entries.value) then Err(Validation)
      else Ok(input.(name := name.value, entries := entries.value))
  }

  predicate ProxyTypeSupported(rtype: RecordType) {
    rtype.A? || rtype.AAAA? || rtype.CNAME?
  }

  /** The extension laid over the fallback options; `proxiable` may only repeat what the provider says. */
  function Overlaid(input: Input, fallback: Options, allowReadOnly: bool): Result<Options, Error> {
    match input.extension
    case None => Ok(fallback)
    case Some(extension) =>
      var tags := NormalizeTags(extension.tags);
      if extension.proxiable.Some? && (!allowReadOnly || extension.proxiable.value != fallback.proxiable) then
        Err(Validation)
      else if tags.None? then Err(Validation)
      else Ok(Options(ValueOr(extension.proxied, fallback.proxied), fallback.proxiable,
                      ValueOr(extension.automaticTTL, fallback.automaticTTL), extension.comment, tags.value))
  }

  function ValidateInput(input: Input, fallback: Options, allowReadOnly: bool): Result<Options, Error> {
    if !Supported(input.rtype) || input.foreign then Err(Validation)
    else
      match Overlaid(input, fallback, allowReadOnly)
      case Err(error) => Err(error)
      case Ok(options) =>
        var refusesAutomatic := input.extension.Some? && input.extension.value.automaticTTL == Some(false);
        if options.proxied && (!ProxyTypeSupported(input.rtype) || refusesAutomatic) then Err(Validation)
        else
          var automatic := options.proxied || options.automaticTTL;
          if automatic && input.ttl != AUTOMATIC_TTL then Err(Validation)
          else if !automatic && !(MINIMUM_TTL <= input.ttl <= LONGEST_TTL) then Err(Validation)
          else Ok(options.(automaticTTL := automatic))
  }

  function KeyFromInput(input: Input, options: Options): Key {
    Key(input.name, input.rtype, input.ttl, options.proxied, options.proxiable, options.automaticTTL, options.comment,
        options.tags)
  }

  function OptionsOf(key: Key): Options {
    Options(key.proxied, key.proxiable, key.automaticTTL, key.comment, key.tags)
  }

  /** Keys compare without `proxiable`, which the provider decides. */
  predicate Equivalent(left: Key, right: Key) {
    left.(proxiable := false) == right.(proxiable := false)
  }

  // ---------------------------------------------------------------- the plan

  /** Replace the set under `current`, if any, by `entries` under `desired`. */
  datatype Plan = Plan(current: Option<Key>, desired: Key, entries: seq<Entry>)

  predicate Merges(view: View, current: Option<Key>, desired: Key) {
    exists key :: key in view && Some(key) != current && Equivalent(key, desired)
  }

  predicate RepeatedId(entries: seq<Entry>) {
    exists i, j :: 0 <= i < j < |entries| && entries[i].id.Some? && entries[i].id == entries[j].id
  }

  predicate OutsideId(entries: seq<Entry>, members: Entries) {
    exists i :: 0 <= i < |entries| && entries[i].id.Some? && entries[i].id.value !in members
  }

  /** The checks of an update, in the order they are made. `matches` is the caller's precondition. */
  function PlanUpdate(lib: Library, view: View, current: Key, matches: RecordSet -> Option<bool>,
                      input: Input): (r: Result<Plan, Error>)
    requires current in view
    ensures r.Ok? ==> r.value.current == Some(current) && !Merges(view, Some(current), r.value.desired)
  {
    match matches(RecordSet(current, view[current]))
    case None => Err(Validation)
    case Some(false) => Err(Conflict)
    case Some(true) =>
      match NormalizeInput(lib, input)
      case Err(error) => Err(error)
      case Ok(normalized) =>
        match ValidateInput(normalized, OptionsOf(current), true)
        case Err(error) => Err(error)
        case Ok(options) =>
          var desired := KeyFromInput(normalized, options);
          if Merges(view, Some(current), desired) then Err(Conflict)
          else if RepeatedId(normalized.entries) then Err(Validation)
          else if OutsideId(normalized.entries, view[current]) then Err(Conflict)
          else Ok(Plan(Some(current), desired, normalized.entries))
  }

  function WithoutIds(entries: seq<Entry>): (r: seq<Entry>)
    ensures |r| == |entries| && forall i :: 0 <= i < |r| ==> r[i] == Entry(None, entries[i].data)
  {
    seq(|entries|, i requires 0 <= i < |entries| => Entry(None, entries[i].data))
  }

  /** The checks of a creation that come before the listing; IDs in the input are ignored. */
  function ValidateCreate(lib: Library, input: Input): Result<Plan, Error> {
    match NormalizeInput(lib, input)
    case Err(error) => Err(error)
    case Ok(normalized) =>
      match ValidateInput(normalized, Options(false, ProxyTypeSupported(normalized.rtype), false, [], {}), false)
      case Err(error) => Err(error)
      case Ok(options) => Ok(Plan(None, KeyFromInput(normalized, options), WithoutIds(normalized.entries)))
  }

  function MembersOf(view: View, plan: Plan): Entries {
    if plan.current.Some? && plan.current.value in view then view[plan.current.value] else map[]
  }

  /** The key's options can be written and read back as themselves, up to `proxiable`. */
  predicate Writable(key: Key) {
    && Supported(key.rtype)
    && (if key.automaticTTL then key.ttl == AUTOMATIC_TTL else MINIMUM_TTL <= key.ttl <= LONGEST_TTL)
    && NormalizeTags(key.tags) == Some(key.tags)
  }

  predicate KeepsOwnIds(entries: seq<Entry>, members: Entries) {
    forall i :: 0 <= i < |entries| && entries[i].id.Some? ==> entries[i].id.value in members
  }

  predicate IdsDistinct(entries: seq<Entry>) {
    forall i, j :: 0 <= i < j < |entries| && entries[i].id.Some? ==> entries[i].id != entries[j].id
  }

  /** What a plan that passed the checks guarantees. */
  ghost predicate Sound(view: View, plan: Plan) {
    && (plan.current.Some? ==> plan.current.value in view)
    && Writable(plan.desired)
    && plan.entries != [] && DistinctData(plan.entries)
    && IdsDistinct(plan.entries)
    && KeepsOwnIds(plan.entries, MembersOf(view, plan))
    && !Merges(view, plan.current, plan.desired)
  }

  lemma TagsTwice(tags: set<Bytes>)
    requires NormalizeTags(tags).Some?
    ensures NormalizeTags(NormalizeTags(tags).value) == NormalizeTags(tags)
  {
    var trimmed := NormalizeTags(tags).value;
    forall tag | tag in trimmed ensures TrimSpace(tag) == tag && tag != [] {
      var source :| source in tags && tag == TrimSpace(source);
      TrimTwice(source);
    }
    assert trimmed == set tag | tag in trimmed :: TrimSpace(tag);
  }

  /** A key in a listing carries normalized tags. */
  lemma ListedTags(lib: Library, zone: Zone, key: Key)
    requires key in Grouped(lib, zone)
    ensures NormalizeTags(key.tags) == Some(key.tags)
  {
    var id :| id in zone && Decode(lib, zone[id]).Mapped? && Decode(lib, zone[id]).key == key;
    TagsTwice(zone[id].tags);
  }

  lemma ValidatedIsWritable(input: Input, fallback: Options, allowReadOnly: bool)
    requires NormalizeTags(fallback.tags) == Some(fallback.tags)
    requires ValidateInput(input, fallback, allowReadOnly).Ok?
    ensures Writable(KeyFromInput(input, ValidateInput(input, fallback, allowReadOnly).value))
  {
    if input.extension.Some? {
      TagsTwice(input.extension.value.tags);
    }
  }

  /** What accepted options say: the input's wish over the fallback, the provider's own flag, and the TTL rules. */
  lemma ValidatedOptions(input: Input, fallback: Options, allowReadOnly: bool)
    requires ValidateInput(input, fallback, allowReadOnly).Ok?
    ensures var options := ValidateInput(input, fallback, allowReadOnly).value;
            && !input.foreign && Supported(input.rtype) && options.proxiable == fallback.proxiable
            && (options.proxied ==> ProxyTypeSupported(input.rtype) && options.automaticTTL)
            && (if options.automaticTTL then input.ttl == AUTOMATIC_TTL else MINIMUM_TTL <= input.ttl <= LONGEST_TTL)
            && (input.extension.None? ==>
                  options.proxied == fallback.proxied && options.comment == fallback.comment
                  && options.tags == fallback.tags)
            && (input.extension.Some? ==>
                  && options.comment == input.extension.value.comment
                  && Some(options.tags) == NormalizeTags(input.extension.value.tags)
                  && (input.extension.value.proxied.Some? ==> options.proxied == input.extension.value.proxied.value)
                  && (input.extension.value.automaticTTL.Some? ==>
                        || options.automaticTTL == input.extension.value.automaticTTL.value
                        || (options.proxied && options.automaticTTL))
                  && (input.extension.value.proxiable.Some? ==>
                        allowReadOnly && input.extension.value.proxiable.value == fallback.proxiable))
  {
  }

  lemma PlanUpdateIsSound(lib: Library, zone: Zone, current: Key, matches: RecordSet -> Option<bool>, input: Input)
    requires current in Grouped(lib, zone)
    requires PlanUpdate(lib, Grouped(lib, zone), current, matches, input).Ok?
    ensures Sound(Grouped(lib, zone), PlanUpdate(lib, Grouped(lib, zone), current, matches, input).value)
  {
    ListedTags(lib, zone, current);
    var normalized := NormalizeInput(lib, input).value;
    ValidatedIsWritable(normalized, OptionsOf(current), true);
  }

  lemma NoTags()
    ensures NormalizeTags({}) == Some({})
  {
    var none: set<Bytes> := {};
    assert (set tag | tag in none :: TrimSpace(tag)) == none;
  }

  lemma ValidateCreateIsSound(lib: Library, view: View, input: Input)
    requires ValidateCreate(lib, input).Ok?
    requires !Merges(view, None, ValidateCreate(lib, input).value.desired)
    ensures Sound(view, ValidateCreate(lib, input).value)
  {
    var normalized := NormalizeInput(lib, input).value;
    NoTags();
    ValidatedIsWritable(normalized, Options(false, ProxyTypeSupported(normalized.rtype), false, [], {}), false);
  }

  // ---------------------------------------------------------------- writing one record

  /** A create or update body. The provider fills in `proxiable`. */
  function Written(lib: Library, key: Key, data: EntryData): Native
    requires Supported(key.rtype)
  {
    Native(key.name, key.rtype, if key.automaticTTL then 1 else key.ttl, WireRecord(key.rtype, data), key.proxied,
           lib.proxiable(key.name, key.rtype), key.comment, key.tags)
  }

  /** The key under which the desired set will be listed. */
  function Landing(lib: Library, key: Key): Key {
    key.(proxiable := lib.proxiable(key.name, key.rtype))
  }

  /** The name and the entry both come back as they were written. */
  ghost predicate Survives(lib: Library, key: Key, data: EntryData) {
    lib.owner(key.name) == Some(key.name) && Preserved(lib, key.rtype, data)
  }

  lemma WrittenReads(lib: Library, key: Key, data: EntryData)
    requires Writable(key)
    ensures Survives(lib, key, data) <==> Decode(lib, Written(lib, key, data)) == Mapped(Landing(lib, key), data)
    ensures !Decode(lib, Written(lib, key, data)).Skipped?
  {
  }

  /** Must the entry be written, or does the stored record already show it? */
  predicate NeedsWrite(plan: Plan, members: Entries, entry: Entry) {
    || entry.id.None?
    || plan.current.None? || !Equivalent(plan.current.value, plan.desired)
    || entry.id.value !in members || members[entry.id.value] != entry.data
  }

  // ---------------------------------------------------------------- where a run can be

  /** The record at `id` shows entry `i`: just written, or left alone because it already did. */
  predicate Shows(lib: Library, before: Zone, now: Zone, plan: Plan, i: nat, id: Id)
    requires Supported(plan.desired.rtype) && i < |plan.entries|
  {
    && id in now
    && (plan.entries[i].id.Some? ==> id == plan.entries[i].id.value && id in before)
    && (plan.entries[i].id.None? ==> id !in before)
    && if NeedsWrite(plan, MembersOf(Grouped(lib, before), plan), plan.entries[i])
       then now[id] == Written(lib, plan.desired, plan.entries[i].data)
       else id in before && now[id] == before[id]
  }

  /** The first `|placed|` entries are in place under these IDs; every other record is as it was. */
  predicate Progress(lib: Library, before: Zone, now: Zone, plan: Plan, placed: seq<Id>)
    requires Supported(plan.desired.rtype)
  {
    && |placed| <= |plan.entries| && NoRepeat(placed)
    && AllShow(lib, before, now, plan, placed)
    && Framed(before, now, placed)
  }

  predicate AllShow(lib: Library, before: Zone, now: Zone, plan: Plan, placed: seq<Id>)
    requires Supported(plan.desired.rtype) && |placed| <= |plan.entries|
  {
    forall i :: 0 <= i < |placed| ==> Shows(lib, before, now, plan, i, placed[i])
  }

  predicate Framed(before: Zone, now: Zone, placed: seq<Id>) {
    forall id :: id in now && id !in placed ==> id in before && now[id] == before[id]
  }

  /** The IDs the update keeps. */
  predicate Kept(plan: Plan, id: Id) {
    exists i :: 0 <= i < |plan.entries| && plan.entries[i].id == Some(id)
  }

  predicate Removable(lib: Library, before: Zone, plan: Plan, id: Id) {
    id in MembersOf(Grouped(lib, before), plan) && !Kept(plan, id)
  }

  /** Still writing: nothing is missing. */
  predicate Writing(lib: Library, before: Zone, now: Zone, plan: Plan, placed: seq<Id>)
    requires Supported(plan.desired.rtype)
  {
    Progress(lib, before, now, plan, placed) && before.Keys <= now.Keys
  }

  /** All entries are in place and only replaced members may be missing. */
  predicate Deleting(lib: Library, before: Zone, now: Zone, plan: Plan, placed: seq<Id>)
    requires Supported(plan.desired.rtype)
  {
    && |placed| == |plan.entries|
    && Progress(lib, before, now, plan, placed)
    && forall id :: id in before && id !in now ==> Removable(lib, before, plan, id)
  }

  /** All entries are in place and every replaced member is gone. */
  predicate Finished(lib: Library, before: Zone, now: Zone, plan: Plan, placed: seq<Id>)
    requires Supported(plan.desired.rtype)
  {
    && Deleting(lib, before, now, plan, placed)
    && forall id :: Removable(lib, before, plan, id) ==> id !in now
  }

  // ---------------------------------------------------------------- an update commutes with grouping

  /** The provider decides `proxiable` by name and type, for the records already there too. */
  ghost predicate Consistent(lib: Library, zone: Zone) {
    forall id :: id in zone && Decode(lib, zone[id]).Mapped? ==>
      Decode(lib, zone[id]).key == Landing(lib, Decode(lib, zone[id]).key)
  }

  /** The entries of the finished set, by record ID. */
  function Final(plan: Plan, placed: seq<Id>): Entries
    requires |placed| == |plan.entries| && NoRepeat(placed)
  {
    map i | 0 <= i < |placed| :: placed[i] := plan.entries[i].data
  }

  function Replaced(lib: Library, view: View, plan: Plan, placed: seq<Id>): View
    requires |placed| == |plan.entries| && NoRepeat(placed)
  {
    var others := if plan.current.Some? then view - {plan.current.value} else view;
    others[Landing(lib, plan.desired) := Final(plan, placed)]
  }

  /** Every entry the plan writes survives being written and listed under the desired name. */
  ghost predicate WritesSurvive(lib: Library, view: View, plan: Plan) {
    forall i :: 0 <= i < |plan.entries| && NeedsWrite(plan, MembersOf(view, plan), plan.entries[i]) ==>
      Survives(lib, plan.desired, plan.entries[i].data)
  }

  /** The plan's name and entries are normal forms of what the caller gave. */
  ghost predicate NormalFormed(lib: Library, plan: Plan) {
    && (exists text :: lib.owner(text) == Some(plan.desired.name))
    && forall i :: 0 <= i < |plan.entries| ==> Shown(lib, plan.desired.rtype, plan.entries[i].data)
  }

  lemma NormalizedIsNormal(lib: Library, input: Input, i: nat)
    requires NormalizeInput(lib, input).Ok? && i < |input.entries|
    ensures |NormalizeInput(lib, input).value.entries| == |input.entries|
    ensures Shown(lib, input.rtype, NormalizeInput(lib, input).value.entries[i].data)
  {
    assert Values(input.entries)[i] == input.entries[i].data;
  }

  lemma PlanUpdateIsNormal(lib: Library, view: View, current: Key, matches: RecordSet -> Option<bool>, input: Input)
    requires current in view && PlanUpdate(lib, view, current, matches, input).Ok?
    ensures NormalFormed(lib, PlanUpdate(lib, view, current, matches, input).value)
  {
    assert lib.owner(input.name) == Some(NormalizeInput(lib, input).value.name);
    forall i | 0 <= i < |input.entries|
      ensures Shown(lib, input.rtype, NormalizeInput(lib, input).value.entries[i].data)
    {
      NormalizedIsNormal(lib, input, i);
    }
  }

  lemma ValidateCreateIsNormal(lib: Library, input: Input)
    requires ValidateCreate(lib, input).Ok?
    ensures NormalFormed(lib, ValidateCreate(lib, input).value)
  {
    assert lib.owner(input.name) == Some(NormalizeInput(lib, input).value.name);
    forall i | 0 <= i < |input.entries|
      ensures Shown(lib, input.rtype, NormalizeInput(lib, input).value.entries[i].data)
    {
      NormalizedIsNormal(lib, input, i);
    }
  }

  /** The desired name has no empty label and every entry to be written is durable. */
  predicate WritesDurable(view: View, plan: Plan) {
    forall i :: 0 <= i < |plan.entries| && NeedsWrite(plan, MembersOf(view, plan), plan.entries[i]) ==>
      NoEmptyLabel(plan.desired.name) && Durable(plan.desired.rtype, plan.entries[i].data)
  }

  lemma EntrySurvivesIff(lib: Library, plan: Plan, i: nat)
    requires Lawful(lib) && NormalFormed(lib, plan) && Supported(plan.desired.rtype) && i < |plan.entries|
    ensures Survives(lib, plan.desired, plan.entries[i].data)
            <==> NoEmptyLabel(plan.desired.name) && Durable(plan.desired.rtype, plan.entries[i].data)
  {
    var text :| lib.owner(text) == Some(plan.desired.name);
    assert OwnerTwice(lib, plan.desired.name);
    var data := plan.entries[i].data;
    assert Shown(lib, plan.desired.rtype, data);
    var raw :| NormalizeEntry(lib, plan.desired.rtype, raw) == Some(data);
    PreservedIff(lib, plan.desired.rtype, data, raw);
  }

  /** What an admitted plan writes survives exactly when a look at its name and entries says so. */
  lemma WritesSurviveIff(lib: Library, view: View, plan: Plan)
    requires Lawful(lib) && NormalFormed(lib, plan) && Supported(plan.desired.rtype)
    ensures WritesSurvive(lib, view, plan) <==> WritesDurable(view, plan)
  {
    forall i | 0 <= i < |plan.entries|
      ensures Survives(lib, plan.desired, plan.entries[i].data)
              <==> NoEmptyLabel(plan.desired.name) && Durable(plan.desired.rtype, plan.entries[i].data)
    {
      EntrySurvivesIff(lib, plan, i);
    }
  }

  /** A record written under a name with an empty label makes the whole zone unreadable. */
  lemma UnreadableNameBlocksListing(lib: Library, before: Zone, now: Zone, plan: Plan, placed: seq<Id>, i: nat)
    requires Lawful(lib) && NormalFormed(lib, plan) && Supported(plan.desired.rtype)
    requires Progress(lib, before, now, plan, placed) && i < |placed| && !NoEmptyLabel(plan.desired.name)
    requires NeedsWrite(plan, MembersOf(Grouped(lib, before), plan), plan.entries[i])
    ensures Listed(lib, now) == Err(Provider)
  {
    var text :| lib.owner(text) == Some(plan.desired.name);
    assert OwnerTwice(lib, plan.desired.name);
    assert Shows(lib, before, now, plan, i, placed[i]);
    assert Decode(lib, now[placed[i]]).Invalid?;
  }

  lemma ListedKeysAreConsistent(lib: Library, zone: Zone, key: Key)
    requires Consistent(lib, zone) && key in Grouped(lib, zone)
    ensures key == Landing(lib, key)
  {
    var id :| id in zone && Decode(lib, zone[id]).Mapped? && Decode(lib, zone[id]).key == key;
  }

  /** When the provider decides `proxiable`, keys that compare equal are equal. */
  lemma EquivalentListedKeys(lib: Library, zone: Zone, left: Key, right: Key)
    requires Consistent(lib, zone) && left in Grouped(lib, zone) && right in Grouped(lib, zone)
    requires Equivalent(left, right)
    ensures left == right
  {
    ListedKeysAreConsistent(lib, zone, left);
    ListedKeysAreConsistent(lib, zone, right);
  }

  lemma ShownDecodes(lib: Library, before: Zone, now: Zone, plan: Plan, i: nat, id: Id)
    requires Groupable(lib, before) && Consistent(lib, before) && Sound(Grouped(lib, before), plan)
    requires WritesSurvive(lib, Grouped(lib, before), plan)
    requires i < |plan.entries| && Shows(lib, before, now, plan, i, id)
    ensures Decode(lib, now[id]) == Mapped(Landing(lib, plan.desired), plan.entries[i].data)
  {
    WrittenReads(lib, plan.desired, plan.entries[i].data);
    if !NeedsWrite(plan, MembersOf(Grouped(lib, before), plan), plan.entries[i]) {
      ListedKeysAreConsistent(lib, before, plan.current.value);
    }
  }

  /** A record outside the replaced set never lists under the desired key. */
  lemma OthersLandElsewhere(lib: Library, before: Zone, plan: Plan, id: Id)
    requires Consistent(lib, before) && Sound(Grouped(lib, before), plan)
    requires id in before && Decode(lib, before[id]).Mapped? && id !in MembersOf(Grouped(lib, before), plan)
    ensures Decode(lib, before[id]).key != Landing(lib, plan.desired)
    ensures Some(Decode(lib, before[id]).key) != plan.current
  {
    var key := Decode(lib, before[id]).key;
    KeyOf(lib, before, id);
    assert key in Grouped(lib, before) && id in Grouped(lib, before)[key];
    assert Some(key) != plan.current;
    assert !Equivalent(key, plan.desired);
  }

  lemma PlacedDecodes(lib: Library, before: Zone, after: Zone, plan: Plan, placed: seq<Id>, i: nat)
    requires Groupable(lib, before) && Consistent(lib, before) && Sound(Grouped(lib, before), plan)
    requires WritesSurvive(lib, Grouped(lib, before), plan) && Progress(lib, before, after, plan, placed)
    requires i < |placed|
    ensures placed[i] in after
    ensures Decode(lib, after[placed[i]]) == Mapped(Landing(lib, plan.desired), plan.entries[i].data)
  {
    assert Shows(lib, before, after, plan, i, placed[i]);
    ShownDecodes(lib, before, after, plan, i, placed[i]);
  }

  lemma FinalRecord(lib: Library, before: Zone, after: Zone, plan: Plan, placed: seq<Id>, id: Id)
    requires Groupable(lib, before) && Consistent(lib, before) && Sound(Grouped(lib, before), plan)
    requires WritesSurvive(lib, Grouped(lib, before), plan) && Finished(lib, before, after, plan, placed)
    requires id in Final(plan, placed)
    ensures id in after && Decode(lib, after[id]) == Mapped(Landing(lib, plan.desired), Final(plan, placed)[id])
  {
    var i := FinalIndex(plan, placed, id);
    PlacedDecodes(lib, before, after, plan, placed, i);
  }

  lemma RemainingRecord(lib: Library, before: Zone, after: Zone, plan: Plan, placed: seq<Id>, id: Id)
    requires Sound(Grouped(lib, before), plan) && Finished(lib, before, after, plan, placed)
    requires id in after && id !in Final(plan, placed)
    ensures id in before && after[id] == before[id] && id !in MembersOf(Grouped(lib, before), plan)
  {
    forall i | 0 <= i < |placed| ensures placed[i] != id && plan.entries[i].id != Some(id) {
      assert placed[i] in Final(plan, placed);
      assert Shows(lib, before, after, plan, i, placed[i]);
    }
    assert !Removable(lib, before, plan, id);
  }

  /** What every record of the finished zone decodes to. */
  lemma FinishedRecord(lib: Library, before: Zone, after: Zone, plan: Plan, placed: seq<Id>, id: Id)
    requires Groupable(lib, before) && Consistent(lib, before) && Sound(Grouped(lib, before), plan)
    requires WritesSurvive(lib, Grouped(lib, before), plan) && Finished(lib, before, after, plan, placed)
    requires id in after
    ensures if id in Final(plan, placed)
            then Decode(lib, after[id]) == Mapped(Landing(lib, plan.desired), Final(plan, placed)[id])
            else id in before && after[id] == before[id] && id !in MembersOf(Grouped(lib, before), plan)
                 && !Under(lib, after[id], Landing(lib, plan.desired))
  {
    if id in Final(plan, placed) {
      FinalRecord(lib, before, after, plan, placed, id);
    } else {
      RemainingRecord(lib, before, after, plan, placed, id);
      if Decode(lib, before[id]).Mapped? {
        OthersLandElsewhere(lib, before, plan, id);
      }
    }
  }

  /** A record of the finished zone is listed under the desired key exactly when it is one of the final entries. */
  lemma FinishedMember(lib: Library, before: Zone, after: Zone, plan: Plan, placed: seq<Id>, id: Id)
    requires Groupable(lib, before) && Consistent(lib, before) && Sound(Grouped(lib, before), plan)
    requires WritesSurvive(lib, Grouped(lib, before), plan) && Finished(lib, before, after, plan, placed)
    ensures id in Final(plan, placed) <==> id in after && Under(lib, after[id], Landing(lib, plan.desired))
    ensures id in Final(plan, placed) ==> Decode(lib, after[id]).data == Final(plan, placed)[id]
  {
    if id in Final(plan, placed) {
      FinalRecord(lib, before, after, plan, placed, id);
    } else if id in after {
      FinishedRecord(lib, before, after, plan, placed, id);
    }
  }

  lemma FinishedMemberAt(lib: Library, before: Zone, after: Zone, plan: Plan, placed: seq<Id>, id: Id)
    requires Groupable(lib, before) && Consistent(lib, before) && Sound(Grouped(lib, before), plan)
    requires WritesSurvive(lib, Grouped(lib, before), plan) && Finished(lib, before, after, plan, placed)
    ensures var left, right := Members(lib, after, Landing(lib, plan.desired)), Final(plan, placed);
            (id in left <==> id in right) && (id in left ==> left[id] == right[id])
  {
    FinishedMember(lib, before, after, plan, placed, id);
  }

  lemma SameEntries(left: Entries, right: Entries)
    requires forall id :: (id in left <==> id in right) && (id in left ==> left[id] == right[id])
    ensures left == right
  {
  }

  lemma FinishedMembers(lib: Library, before: Zone, after: Zone, plan: Plan, placed: seq<Id>)
    requires Groupable(lib, before) && Consistent(lib, before) && Sound(Grouped(lib, before), plan)
    requires WritesSurvive(lib, Grouped(lib, before), plan) && Finished(lib, before, after, plan, placed)
    ensures Members(lib, after, Landing(lib, plan.desired)) == Final(plan, placed)
  {
    var left, right := Members(lib, after, Landing(lib, plan.desired)), Final(plan, placed);
    forall id ensures (id in left <==> id in right) && (id in left ==> left[id] == right[id]) {
      FinishedMemberAt(lib, before, after, plan, placed, id);
    }
    SameEntries(left, right);
  }

  /** A record listed under any other key was there before, under the same key, and was not replaced. */
  lemma OldMember(lib: Library, before: Zone, after: Zone, plan: Plan, placed: seq<Id>, key: Key, id: Id)
    requires Groupable(lib, before) && Consistent(lib, before) && Sound(Grouped(lib, before), plan)
    requires WritesSurvive(lib, Grouped(lib, before), plan) && Finished(lib, before, after, plan, placed)
    requires key != Landing(lib, plan.desired) && id in after && Under(lib, after[id], key)
    ensures id in before && after[id] == before[id] && Some(key) != plan.current
  {
    FinishedRecord(lib, before, after, plan, placed, id);
    OthersLandElsewhere(lib, before, plan, id);
  }

  /** A record of another set is still there, untouched. */
  lemma SurvivesOutside(lib: Library, before: Zone, after: Zone, plan: Plan, placed: seq<Id>, id: Id)
    requires Sound(Grouped(lib, before), plan) && Deleting(lib, before, after, plan, placed)
    requires id in before && id !in MembersOf(Grouped(lib, before), plan)
    ensures id in after && after[id] == before[id] && id !in placed
  {
    assert !Removable(lib, before, plan, id);
    forall i | 0 <= i < |placed| ensures placed[i] != id {
      assert Shows(lib, before, after, plan, i, placed[i]);
    }
  }

  lemma OutsideCurrent(lib: Library, before: Zone, plan: Plan, key: Key, id: Id)
    requires Sound(Grouped(lib, before), plan)
    requires id in before && Under(lib, before[id], key) && Some(key) != plan.current
    ensures id !in MembersOf(Grouped(lib, before), plan)
  {
  }

  /** `left`'s records under `key` are in `right` unchanged. */
  ghost predicate Carried(lib: Library, left: Zone, right: Zone, key: Key) {
    forall id :: id in left && Under(lib, left[id], key) ==> id in right && left[id] == right[id]
  }

  lemma SameMembers(lib: Library, left: Zone, right: Zone, key: Key)
    requires Carried(lib, left, right, key) && Carried(lib, right, left, key)
    ensures Members(lib, left, key) == Members(lib, right, key)
  {
  }

  lemma UntouchedMembers(lib: Library, before: Zone, after: Zone, plan: Plan, placed: seq<Id>, key: Key)
    requires Groupable(lib, before) && Consistent(lib, before) && Sound(Grouped(lib, before), plan)
    requires WritesSurvive(lib, Grouped(lib, before), plan) && Finished(lib, before, after, plan, placed)
    requires key != Landing(lib, plan.desired) && Some(key) != plan.current
    ensures Members(lib, after, key) == Members(lib, before, key)
  {
    forall id | id in after && Under(lib, after[id], key) ensures id in before && after[id] == before[id] {
      OldMember(lib, before, after, plan, placed, key, id);
    }
    forall id | id in before && Under(lib, before[id], key) ensures id in after && after[id] == before[id] {
      OutsideCurrent(lib, before, plan, key, id);
      SurvivesOutside(lib, before, after, plan, placed, id);
    }
    SameMembers(lib, after, before, key);
  }

  lemma HasMembers(lib: Library, zone: Zone, key: Key)
    ensures key in Keys(lib, zone) <==> Members(lib, zone, key) != map[]
  {
    if key in Keys(lib, zone) {
      var id :| id in zone && Decode(lib, zone[id]).Mapped? && Decode(lib, zone[id]).key == key;
      assert id in Members(lib, zone, key);
    } else {
      NoMembers(lib, zone, key);
    }
  }

  lemma MembersAfter(lib: Library, before: Zone, after: Zone, plan: Plan, placed: seq<Id>, key: Key)
    requires Groupable(lib, before) && Consistent(lib, before) && Sound(Grouped(lib, before), plan)
    requires WritesSurvive(lib, Grouped(lib, before), plan) && Finished(lib, before, after, plan, placed)
    ensures Members(lib, after, key)
            == if key == Landing(lib, plan.desired) then Final(plan, placed)
               else if Some(key) == plan.current then map[]
               else Members(lib, before, key)
  {
    if key == Landing(lib, plan.desired) {
      FinishedMembers(lib, before, after, plan, placed);
    } else if Some(key) == plan.current {
      forall id | id in after ensures !Under(lib, after[id], key) {
        if Under(lib, after[id], key) {
          OldMember(lib, before, after, plan, placed, key, id);
        }
      }
    } else {
      UntouchedMembers(lib, before, after, plan, placed, key);
    }
  }

  lemma FinishedReads(lib: Library, before: Zone, after: Zone, plan: Plan, placed: seq<Id>)
    requires Groupable(lib, before) && Consistent(lib, before) && Sound(Grouped(lib, before), plan)
    requires WritesSurvive(lib, Grouped(lib, before), plan) && Finished(lib, before, after, plan, placed)
    ensures Readable(lib, after)
  {
    forall id | id in after ensures !Decode(lib, after[id]).Invalid? {
      FinishedRecord(lib, before, after, plan, placed, id);
    }
  }

  lemma FinalAt(plan: Plan, placed: seq<Id>, i: nat)
    requires |placed| == |plan.entries| && NoRepeat(placed) && i < |placed|
    ensures placed[i] in Final(plan, placed) && Final(plan, placed)[placed[i]] == plan.entries[i].data
  {
  }

  lemma FinalIsDistinct(plan: Plan, placed: seq<Id>)
    requires |placed| == |plan.entries| && NoRepeat(placed) && DistinctData(plan.entries)
    ensures Distinct(Final(plan, placed))
  {
    var final := Final(plan, placed);
    forall id, other | id in final && other in final && id != other ensures final[id] != final[other] {
      var i := FinalIndex(plan, placed, id);
      var j := FinalIndex(plan, placed, other);
      assert plan.entries[i].data != plan.entries[j].data;
    }
  }

  lemma FinalIndex(plan: Plan, placed: seq<Id>, id: Id) returns (i: nat)
    requires |placed| == |plan.entries| && NoRepeat(placed) && id in Final(plan, placed)
    ensures i < |placed| && placed[i] == id && Final(plan, placed)[id] == plan.entries[i].data
  {
    i :| 0 <= i < |placed| && placed[i] == id;
  }

  lemma FinalSize(plan: Plan, placed: seq<Id>)
    requires |placed| == |plan.entries| && NoRepeat(placed)
    ensures |Final(plan, placed)| == |placed|
  {
    IdSetSize(placed);
    assert Final(plan, placed).Keys == IdSet(placed);
  }

  function IdSet(ids: seq<Id>): set<Id> {
    set i | 0 <= i < |ids| :: ids[i]
  }

  lemma {:induction false} IdSetSize(ids: seq<Id>)
    requires NoRepeat(ids)
    ensures |IdSet(ids)| == |ids|
  {
    if ids != [] {
      var n := |ids| - 1;
      IdSetSize(ids[..n]);
      assert IdSet(ids) == IdSet(ids[..n]) + {ids[n]};
      assert ids[n] !in IdSet(ids[..n]);
    }
  }

  lemma GroupedAt(lib: Library, zone: Zone, key: Key)
    ensures key in Grouped(lib, zone) <==> Members(lib, zone, key) != map[]
    ensures key in Grouped(lib, zone) ==> Grouped(lib, zone)[key] == Members(lib, zone, key)
  {
    HasMembers(lib, zone, key);
  }

  function At(view: View, key: Key): Entries {
    if key in view then view[key] else map[]
  }

  lemma ReplacedAt(lib: Library, view: View, plan: Plan, placed: seq<Id>, key: Key)
    requires |placed| == |plan.entries| && NoRepeat(placed)
    ensures var replaced := Replaced(lib, view, plan, placed);
            && (key in replaced <==> key == Landing(lib, plan.desired) || (key in view && Some(key) != plan.current))
            && At(replaced, key) == if key == Landing(lib, plan.desired) then Final(plan, placed)
                                    else if Some(key) == plan.current then map[]
                                    else At(view, key)
  {
  }

  lemma AfterAt(lib: Library, before: Zone, after: Zone, plan: Plan, placed: seq<Id>, key: Key)
    requires Groupable(lib, before) && Consistent(lib, before) && Sound(Grouped(lib, before), plan)
    requires WritesSurvive(lib, Grouped(lib, before), plan) && Finished(lib, before, after, plan, placed)
    ensures var left, right := Grouped(lib, after), Replaced(lib, Grouped(lib, before), plan, placed);
            (key in left <==> key in right) && At(left, key) == At(right, key)
  {
    MembersAfter(lib, before, after, plan, placed, key);
    GroupedAt(lib, after, key);
    GroupedAt(lib, before, key);
    FinalAt(plan, placed, 0);
    ReplacedAt(lib, Grouped(lib, before), plan, placed, key);
  }

  lemma AfterIsDistinct(lib: Library, before: Zone, after: Zone, plan: Plan, placed: seq<Id>, key: Key)
    requires Groupable(lib, before) && Consistent(lib, before) && Sound(Grouped(lib, before), plan)
    requires WritesSurvive(lib, Grouped(lib, before), plan) && Finished(lib, before, after, plan, placed)
    ensures Distinct(Members(lib, after, key))
  {
    MembersAfter(lib, before, after, plan, placed, key);
    FinalIsDistinct(plan, placed);
    GroupedAt(lib, before, key);
  }

  lemma AfterIsGroupable(lib: Library, before: Zone, after: Zone, plan: Plan, placed: seq<Id>)
    requires Groupable(lib, before) && Consistent(lib, before) && Sound(Grouped(lib, before), plan)
    requires WritesSurvive(lib, Grouped(lib, before), plan) && Finished(lib, before, after, plan, placed)
    ensures Groupable(lib, after)
  {
    FinishedReads(lib, before, after, plan, placed);
    forall key | key in Keys(lib, after) ensures Distinct(Members(lib, after, key)) {
      AfterIsDistinct(lib, before, after, plan, placed, key);
    }
  }

  /**
    The commuting diagram. When the provider applied every call exactly, listing the finished zone
    gives the old record sets with the current one replaced by the desired one, and nothing else.
   */
  lemma ReconcileCommutes(lib: Library, before: Zone, after: Zone, plan: Plan, placed: seq<Id>)
    requires Groupable(lib, before) && Consistent(lib, before) && Sound(Grouped(lib, before), plan)
    requires WritesSurvive(lib, Grouped(lib, before), plan) && Finished(lib, before, after, plan, placed)
    ensures Listed(lib, after) == Ok(Replaced(lib, Grouped(lib, before), plan, placed))
  {
    var left, right := Grouped(lib, after), Replaced(lib, Grouped(lib, before), plan, placed);
    forall key ensures (key in left <==> key in right) && At(left, key) == At(right, key) {
      AfterAt(lib, before, after, plan, placed, key);
    }
    SameView(left, right);
    AfterIsGroupable(lib, before, after, plan, placed);
  }

  // ---------------------------------------------------------------- the re-fetch that confirms it

  /** The listed set has exactly the expected entries under the expected IDs. */
  predicate HasExactEntries(entries: Entries, plan: Plan, placed: seq<Id>)
    requires |placed| == |plan.entries|
  {
    && |entries| == |placed|
    && forall i :: 0 <= i < |placed| ==> placed[i] in entries && entries[placed[i]] == plan.entries[i].data
  }

  lemma ExactIff(entries: Entries, plan: Plan, placed: seq<Id>)
    requires |placed| == |plan.entries| && NoRepeat(placed)
    ensures HasExactEntries(entries, plan, placed) <==> entries == Final(plan, placed)
  {
    var final := Final(plan, placed);
    FinalSize(plan, placed);
    if HasExactEntries(entries, plan, placed) {
      assert final.Keys <= entries.Keys;
      SameSize(final.Keys, entries.Keys);
    }
    if entries == final {
      forall i | 0 <= i < |placed| ensures placed[i] in entries && entries[placed[i]] == plan.entries[i].data {
        FinalAt(plan, placed, i);
      }
    }
  }

  predicate Confirms(view: View, plan: Plan, placed: seq<Id>, key: Key)
    requires |placed| == |plan.entries|
  {
    key in view && HasExactEntries(view[key], plan, placed) && Equivalent(key, plan.desired)
  }

  /** No two sets of a listing have the same members. */
  lemma SetsHaveTheirOwnIds(lib: Library, zone: Zone, left: Key, right: Key)
    requires left in Grouped(lib, zone) && right in Grouped(lib, zone)
    requires Grouped(lib, zone)[left].Keys == Grouped(lib, zone)[right].Keys
    ensures left == right
  {
    HasMembers(lib, zone, left);
    var id :| id in Grouped(lib, zone)[left];
    assert id in Grouped(lib, zone)[right];
  }

  lemma SurvivingIsConfirmed(lib: Library, before: Zone, after: Zone, plan: Plan, placed: seq<Id>)
    requires Groupable(lib, before) && Consistent(lib, before) && Sound(Grouped(lib, before), plan)
    requires Finished(lib, before, after, plan, placed) && WritesSurvive(lib, Grouped(lib, before), plan)
    ensures Groupable(lib, after) && Confirms(Grouped(lib, after), plan, placed, Landing(lib, plan.desired))
  {
    ReconcileCommutes(lib, before, after, plan, placed);
    ExactIff(Final(plan, placed), plan, placed);
  }

  /** A written entry that a listing shows again survived. */
  lemma ShownSurvived(lib: Library, before: Zone, after: Zone, plan: Plan, placed: seq<Id>, key: Key, i: nat)
    requires Sound(Grouped(lib, before), plan) && Finished(lib, before, after, plan, placed)
    requires Confirms(Grouped(lib, after), plan, placed, key) && i < |plan.entries|
    requires NeedsWrite(plan, MembersOf(Grouped(lib, before), plan), plan.entries[i])
    ensures Survives(lib, plan.desired, plan.entries[i].data)
  {
    assert Shows(lib, before, after, plan, i, placed[i]);
    WrittenReads(lib, plan.desired, plan.entries[i].data);
    assert Grouped(lib, after)[key][placed[i]] == plan.entries[i].data;
  }

  /**
    On a provider that applied every call, the update is confirmed exactly when every entry it had
    to write survives being written and listed; then the confirmed set is the desired one.
   */
  lemma ConfirmedIff(lib: Library, before: Zone, after: Zone, plan: Plan, placed: seq<Id>)
    requires Groupable(lib, before) && Consistent(lib, before) && Sound(Grouped(lib, before), plan)
    requires Finished(lib, before, after, plan, placed)
    ensures Groupable(lib, after) && (exists key :: Confirms(Grouped(lib, after), plan, placed, key))
            <==> WritesSurvive(lib, Grouped(lib, before), plan)
  {
    if WritesSurvive(lib, Grouped(lib, before), plan) {
      SurvivingIsConfirmed(lib, before, after, plan, placed);
    }
    if Groupable(lib, after) && exists key :: Confirms(Grouped(lib, after), plan, placed, key) {
      var key :| Confirms(Grouped(lib, after), plan, placed, key);
      forall i | 0 <= i < |plan.entries| && NeedsWrite(plan, MembersOf(Grouped(lib, before), plan), plan.entries[i])
        ensures Survives(lib, plan.desired, plan.entries[i].data)
      {
        ShownSurvived(lib, before, after, plan, placed, key, i);
      }
    }
  }

  lemma LandingHolds(lib: Library, before: Zone, after: Zone, plan: Plan, placed: seq<Id>)
    requires Groupable(lib, before) && Consistent(lib, before) && Sound(Grouped(lib, before), plan)
    requires Finished(lib, before, after, plan, placed) && WritesSurvive(lib, Grouped(lib, before), plan)
    ensures var view := Grouped(lib, after);
            Landing(lib, plan.desired) in view && view[Landing(lib, plan.desired)] == Final(plan, placed)
  {
    ReconcileCommutes(lib, before, after, plan, placed);
    ReplacedAt(lib, Grouped(lib, before), plan, placed, Landing(lib, plan.desired));
  }

  /** Whichever listed set has exactly the expected entries, it is the desired one. */
  lemma ConfirmedSet(lib: Library, before: Zone, after: Zone, plan: Plan, placed: seq<Id>, key: Key)
    requires Groupable(lib, before) && Consistent(lib, before) && Sound(Grouped(lib, before), plan)
    requires Finished(lib, before, after, plan, placed) && WritesSurvive(lib, Grouped(lib, before), plan)
    requires key in Grouped(lib, after) && HasExactEntries(Grouped(lib, after)[key], plan, placed)
    ensures key == Landing(lib, plan.desired) && Grouped(lib, after)[key] == Final(plan, placed)
  {
    LandingHolds(lib, before, after, plan, placed);
    ExactIff(Grouped(lib, after)[key], plan, placed);
    SetsHaveTheirOwnIds(lib, after, key, Landing(lib, plan.desired));
  }

  // ---------------------------------------------------------------- deleting a set

  lemma MembersWithout(lib: Library, before: Zone, current: Key, key: Key)
    requires current in Grouped(lib, before)
    ensures Members(lib, before - Grouped(lib, before)[current].Keys, key)
            == if key == current then map[] else Members(lib, before, key)
  {
    if key != current {
      SameMembers(lib, before - Grouped(lib, before)[current].Keys, before, key);
    }
  }

  /** Deleting a set's records deletes the set and nothing else. */
  lemma DeletionCommutes(lib: Library, before: Zone, current: Key)
    requires Groupable(lib, before) && current in Grouped(lib, before)
    ensures Listed(lib, before - Grouped(lib, before)[current].Keys) == Ok(Grouped(lib, before) - {current})
  {
    var after := before - Grouped(lib, before)[current].Keys;
    var left, right := Grouped(lib, after), Grouped(lib, before) - {current};
    forall key ensures (key in left <==> key in right) && At(left, key) == At(right, key) {
      MembersWithout(lib, before, current, key);
      GroupedAt(lib, after, key);
      GroupedAt(lib, before, key);
    }
    SameView(left, right);
    GroupableIff(lib, after);
    GroupableIff(lib, before);
  }

  lemma SameView(left: View, right: View)
    requires forall key :: (key in left <==> key in right) && At(left, key) == At(right, key)
    ensures left == right
  {
    forall key | key in left ensures left[key] == right[key] {
      assert At(left, key) == At(right, key);
    }
  }
}
