/**
  Names that the label mapping leaves with an empty label, carried through the record-set model: an
  entry that does not come back, a set that misses its own fingerprint, and two creations that are
  admitted and never confirmed.
 */
module DividedNames {
  import opened Wrappers
  import opened Utf8
  import opened Labels
  import opened RecordEntries
  import opened Names
  import opened NameLaws
  import opened CloudflareCodec
  import opened Listings
  import opened CloudflareGrouping
  import opened CloudflarePlan
  import Fingerprints

  const ZONE_NAME: Bytes := [0x62]
  const A_DOT: Bytes := [0x61, DOT]

  /** The zone `b`, with a mapping that knows plain labels and the letter a before an ideographic full stop. */
  function Lib(): Library {
    WithNames(PlainLibrary(), StopMapper(), ZONE_NAME)
  }

  function Target(name: Bytes): EntryData {
    NO_DATA.(target := Some(name))
  }

  lemma LibIsLawful()
    ensures Lawful(Lib()) && CanonicalName(StopMapper(), ZONE_NAME, false) == Some(ZONE_NAME)
  {
    PlainLibraryIsLawful();
    StopMapperIsLawful();
    LetterIsCanonical(StopMapper(), 0x62, false);
    NamesAreLawful(PlainLibrary(), StopMapper(), ZONE_NAME);
  }

  // ---------------------------------------------------------------- a target

  lemma LibNames(text: Bytes)
    ensures Lib().hostname(text) == CanonicalName(StopMapper(), text, false)
    ensures Lib().owner(text) == CanonicalRecordName(StopMapper(), text, ZONE_NAME)
  {
  }

  lemma CnameNormalizes(lib: Library, given: Bytes, canonical: Bytes)
    requires lib.hostname(given) == Some(canonical) && TrimSpace(given) != [DOT] && canonical != [DOT]
    ensures NormalizeEntry(lib, CNAME, Target(given)) == Some(Target(canonical))
  {
  }

  lemma StoppedNormalizes()
    ensures NormalizeEntry(Lib(), CNAME, Target(STOPPED_LABEL)) == Some(Target(A_DOT))
  {
    CanonicalNameCanChange();
    LibNames(STOPPED_LABEL);
    StoppedIsDivided(false);
    assert TrimSpace(STOPPED_LABEL) == STOPPED_LABEL;
    CnameNormalizes(Lib(), STOPPED_LABEL, A_DOT);
  }

  lemma DotNormalizes()
    ensures NormalizeEntry(Lib(), CNAME, Target(A_DOT)) == Some(Target([0x61]))
  {
    CanonicalNameCanChange();
    LibNames(A_DOT);
    NameBytesStay(A_DOT);
    CnameNormalizes(Lib(), A_DOT, [0x61]);
  }

  lemma LostTarget(lib: Library, data: EntryData, raw: EntryData)
    requires Lawful(lib) && NormalizeEntry(lib, CNAME, raw) == Some(data) && !LooksPlain(CNAME, data)
    ensures Shown(lib, CNAME, data) && !FixedEntry(lib, CNAME, data) && !Preserved(lib, CNAME, data)
  {
    FixedEntryIff(lib, CNAME, data);
    PreservedIff(lib, CNAME, data, raw);
  }

  /** The target given as `a` and an ideographic full stop is shown as `a.`; normalized or listed again it is `a`. */
  lemma DividedTargetIsLost()
    ensures Lawful(Lib()) && Shown(Lib(), CNAME, Target(A_DOT))
    ensures !FixedEntry(Lib(), CNAME, Target(A_DOT)) && !Preserved(Lib(), CNAME, Target(A_DOT))
    ensures NormalizeEntry(Lib(), CNAME, Target(A_DOT)) == Some(Target([0x61]))
  {
    LibIsLawful();
    StoppedNormalizes();
    DotNormalizes();
    FinalDotIsDivided();
    LostTarget(Lib(), Target(A_DOT), Target(STOPPED_LABEL));
  }

  function TargetSet(name: Bytes): Fingerprints.Document {
    Fingerprints.Document(name, CNAME, 300, [Fingerprints.PrintedEntry(Target(A_DOT), [])], [], [])
  }

  /** A listed set with that target never meets its own precondition. */
  lemma TargetSetMissesItsFingerprint(canonicalName: Bytes -> Option<Bytes>, encoding: Fingerprints.Encoding,
                                      name: Bytes)
    requires Fingerprints.Faithful(encoding) && canonicalName(name) == Some(name)
    ensures Fingerprints.ListedDocument(Lib(), canonicalName, TargetSet(name))
    ensures !Fingerprints.MatchesItself(Lib(), canonicalName, encoding, TargetSet(name))
  {
    DividedTargetIsLost();
    FinalDotIsDivided();
    Fingerprints.OwnFingerprintMatchesIff(Lib(), canonicalName, encoding, TargetSet(name));
  }

  // ---------------------------------------------------------------- creations in an empty zone

  function Creation(name: Bytes, rtype: RecordType, data: EntryData): Input {
    Input(name, rtype, 300, [Entry(None, data)], None, false)
  }

  function Created(name: Bytes, rtype: RecordType, data: EntryData): Plan {
    Plan(None, Key(name, rtype, 300, false, ProxyTypeSupported(rtype), false, [], {}), [Entry(None, data)])
  }

  lemma CreationNormalizes(lib: Library, name: Bytes, canonical: Bytes, rtype: RecordType, data: EntryData,
                           normal: EntryData)
    requires lib.owner(name) == Some(canonical) && Supported(rtype)
    requires NormalizeEntry(lib, rtype, data) == Some(normal)
    ensures NormalizeInput(lib, Creation(name, rtype, data)) == Ok(Creation(canonical, rtype, normal))
  {
    OneEntryNormalizes(lib, rtype, data, normal);
  }

  /** The checks of a creation accept it. */
  lemma CreationIsAdmitted(lib: Library, name: Bytes, canonical: Bytes, rtype: RecordType, data: EntryData,
                           normal: EntryData)
    requires lib.owner(name) == Some(canonical) && Supported(rtype)
    requires NormalizeEntry(lib, rtype, data) == Some(normal)
    ensures ValidateCreate(lib, Creation(name, rtype, data)) == Ok(Created(canonical, rtype, normal))
  {
    CreationNormalizes(lib, name, canonical, rtype, data, normal);
    var options := Options(false, ProxyTypeSupported(rtype), false, [], {});
    assert ValidateInput(Creation(canonical, rtype, normal), options, false) == Ok(options);
    assert WithoutIds([Entry(None, normal)]) == [Entry(None, normal)];
  }

  lemma EmptyZone(lib: Library)
    ensures Groupable(lib, map[]) && Consistent(lib, map[]) && Grouped(lib, map[]) == map[]
  {
  }

  /** The provider can carry it out. */
  lemma CreationCanFinish(lib: Library, plan: Plan)
    requires Supported(plan.desired.rtype) && plan.current.None? && |plan.entries| == 1 && plan.entries[0].id.None?
    ensures Finished(lib, map[], map[0 := Written(lib, plan.desired, plan.entries[0].data)], plan, [0])
  {
    var after: Zone := map[0 := Written(lib, plan.desired, plan.entries[0].data)];
    EmptyZone(lib);
    assert Shows(lib, map[], after, plan, 0, 0);
  }

  /** A creation whose one entry or name does not come back is never confirmed. */
  lemma CreationIsUnconfirmed(lib: Library, name: Bytes, canonical: Bytes, rtype: RecordType, data: EntryData,
                              normal: EntryData, after: Zone, placed: seq<Id>)
    requires lib.owner(name) == Some(canonical) && Supported(rtype)
    requires NormalizeEntry(lib, rtype, data) == Some(normal)
    requires !Survives(lib, Created(canonical, rtype, normal).desired, normal)
    requires Finished(lib, map[], after, Created(canonical, rtype, normal), placed)
    ensures !(Groupable(lib, after)
              && exists key :: Confirms(Grouped(lib, after), Created(canonical, rtype, normal), placed, key))
  {
    var plan := Created(canonical, rtype, normal);
    CreationIsAdmitted(lib, name, canonical, rtype, data, normal);
    EmptyZone(lib);
    ValidateCreateIsSound(lib, map[], Creation(name, rtype, data));
    assert NeedsWrite(plan, MembersOf(map[], plan), plan.entries[0]);
    ConfirmedIff(lib, map[], after, plan, placed);
  }

  lemma ApexIsOwner()
    ensures Lib().owner(ZONE_NAME) == Some(ZONE_NAME)
  {
    LibNames(ZONE_NAME);
    LibIsLawful();
    StopMapperIsLawful();
    ZoneNamesItself(StopMapper(), ZONE_NAME);
  }

  /** A CNAME with the divided target is accepted, and however it is created no listing confirms it. */
  lemma DividedTargetIsNeverConfirmed(after: Zone, placed: seq<Id>)
    requires Finished(Lib(), map[], after, Created(ZONE_NAME, CNAME, Target(A_DOT)), placed)
    ensures ValidateCreate(Lib(), Creation(ZONE_NAME, CNAME, Target(STOPPED_LABEL)))
            == Ok(Created(ZONE_NAME, CNAME, Target(A_DOT)))
    ensures !(Groupable(Lib(), after)
              && exists key :: Confirms(Grouped(Lib(), after), Created(ZONE_NAME, CNAME, Target(A_DOT)), placed, key))
  {
    ApexIsOwner();
    StoppedNormalizes();
    DividedTargetIsLost();
    CreationIsAdmitted(Lib(), ZONE_NAME, ZONE_NAME, CNAME, Target(STOPPED_LABEL), Target(A_DOT));
    CreationIsUnconfirmed(Lib(), ZONE_NAME, ZONE_NAME, CNAME, Target(STOPPED_LABEL), Target(A_DOT), after, placed);
  }

  // ---------------------------------------------------------------- an owner name

  const DIVIDED_OWNER: Bytes := [0x61, 0xE3, 0x80, 0x82, DOT, 0x62]
  const DIVIDED_NAME: Bytes := [0x61, DOT, DOT, 0x62]

  lemma TwoLabels(idna: Idna, first: Bytes, second: Bytes, a: Bytes, b: Bytes, owner: bool)
    requires CanonicalLabel(idna, first, owner, true) == Some(a)
    requires CanonicalLabel(idna, second, owner, false) == Some(b)
    ensures CanonicalLabels(idna, [first, second], owner, true) == Some([a, b])
    ensures Join([a, b]) == a + [DOT] + b
  {
    assert [first, second][1..] == [second] && [second][1..] == [];
    assert CanonicalLabels(idna, [], owner, false) == Some([]);
    assert [b] + [] == [b];
    assert CanonicalLabels(idna, [second], owner, false) == Some([b]);
    assert [a] + [b] == [a, b] && [a, b][1..] == [b];
  }

  lemma TwoLabelName(idna: Idna, name: Bytes, first: Bytes, second: Bytes, a: Bytes, b: Bytes, owner: bool)
    requires name != [] && TrimSpace(name) == name && name[|name| - 1] != DOT && Split(name) == [first, second]
    requires CanonicalLabel(idna, first, owner, true) == Some(a)
    requires CanonicalLabel(idna, second, owner, false) == Some(b)
    requires |a| + 1 + |b| <= MAXIMUM_NAME
    ensures CanonicalName(idna, name, owner) == Some(a + [DOT] + b)
  {
    TwoLabels(idna, first, second, a, b, owner);
  }

  lemma DividedOwnerIsTrimmed()
    ensures TrimSpace(DIVIDED_OWNER) == DIVIDED_OWNER
  {
    assert SpaceLength(DIVIDED_OWNER) == 0 && SpaceSuffix(DIVIDED_OWNER) == 0;
  }

  lemma OwnerIsDivided()
    ensures CanonicalName(StopMapper(), DIVIDED_OWNER, true) == Some(DIVIDED_NAME)
  {
    StoppedIsDivided(true);
    assert DIVIDED_OWNER == STOPPED_LABEL + [DOT] + ZONE_NAME;
    SplitLabel(STOPPED_LABEL, ZONE_NAME);
    SplitLabel(ZONE_NAME, []);
    DividedOwnerIsTrimmed();
    assert Lower(ZONE_NAME) == ZONE_NAME && UNDERSCORE !in ZONE_NAME;
    TwoLabelName(StopMapper(), DIVIDED_OWNER, STOPPED_LABEL, ZONE_NAME, A_DOT, ZONE_NAME, true);
    assert A_DOT + [DOT] + ZONE_NAME == DIVIDED_NAME;
  }

  lemma StaysInZone(idna: Idna, name: Bytes, zoneName: Bytes, canonical: Bytes, zone: Bytes)
    requires CanonicalName(idna, zoneName, false) == Some(zone) && TrimSpace(name) == name && name != [] && name != AT
    requires CanonicalName(idna, name, true) == Some(canonical) && InZone(canonical, zone)
    ensures CanonicalRecordName(idna, name, zoneName) == Some(canonical)
  {
  }

  lemma DividedName()
    ensures DIVIDED_NAME == A_DOT + [DOT] + ZONE_NAME && InZone(DIVIDED_NAME, ZONE_NAME) && !NoEmptyLabel(DIVIDED_NAME)
  {
    FinalDotIsDivided();
    WholeAppends(A_DOT, ZONE_NAME);
    SuffixOfBelow(A_DOT, ZONE_NAME);
    assert A_DOT + [DOT] + ZONE_NAME == DIVIDED_NAME;
  }

  lemma DividedOwnerIsAccepted()
    ensures Lib().owner(DIVIDED_OWNER) == Some(DIVIDED_NAME)
  {
    LibNames(DIVIDED_OWNER);
    LibIsLawful();
    OwnerIsDivided();
    DividedName();
    DividedOwnerIsTrimmed();
    StaysInZone(StopMapper(), DIVIDED_OWNER, ZONE_NAME, DIVIDED_NAME, ZONE_NAME);
  }

  /**
    In the zone `b` a record named `a`, an ideographic full stop and `.b` is accepted as `a..b`. Once
    it is created, no listing of the zone succeeds.
   */
  lemma DividedOwnerBlocksListing(data: EntryData, normal: EntryData, after: Zone, placed: seq<Id>)
    requires NormalizeEntry(Lib(), TXT, data) == Some(normal)
    requires Finished(Lib(), map[], after, Created(DIVIDED_NAME, TXT, normal), placed)
    ensures ValidateCreate(Lib(), Creation(DIVIDED_OWNER, TXT, data)) == Ok(Created(DIVIDED_NAME, TXT, normal))
    ensures Listed(Lib(), after) == Err(Error.Provider)
  {
    var plan := Created(DIVIDED_NAME, TXT, normal);
    LibIsLawful();
    DividedOwnerIsAccepted();
    DividedName();
    CreationIsAdmitted(Lib(), DIVIDED_OWNER, DIVIDED_NAME, TXT, data, normal);
    ValidateCreateIsNormal(Lib(), Creation(DIVIDED_OWNER, TXT, data));
    EmptyZone(Lib());
    assert NeedsWrite(plan, MembersOf(map[], plan), plan.entries[0]);
    UnreadableNameBlocksListing(Lib(), map[], after, plan, placed, 0);
  }
}
