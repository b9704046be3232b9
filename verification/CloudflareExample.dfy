/** A concrete update that is admitted and applied, and can never be confirmed. */
module CloudflareExample {
  import opened Wrappers
  import opened Utf8
  import opened Labels
  import opened Txt
  import opened RecordEntries
  import opened CloudflareCodec
  import opened Listings
  import opened CloudflareGrouping
  import opened CloudflarePlan

  const LETTER: Bytes := [0x61]

  /** The letter between quotes, and that text printed. */
  const QUOTED_LETTER: Bytes := [QUOTE, 0x61, QUOTE]
  const PRINTED_LETTER: Bytes := [QUOTE, BACKSLASH, QUOTE, 0x61, BACKSLASH, QUOTE, QUOTE]

  function Text(value: Bytes): EntryData {
    NO_DATA.(value := value)
  }

  /** The one record set: the letter, at the name `a`. */
  function CurrentKey(): Key {
    Key(LETTER, TXT, 300, false, true, false, [], {})
  }

  function Record(value: Bytes): Native {
    Native(LETTER, TXT, 300, WireRecord(TXT, Text(value)), false, true, [], {})
  }

  function Before(): Zone {
    map[1 := Record(LETTER)]
  }

  /** The caller replaces the letter by a text that holds it between quotes. */
  function Change(): Input {
    Input(LETTER, TXT, 300, [Entry(None, Text(PRINTED_LETTER))], None, false)
  }

  function Admitted(): Plan {
    Plan(Some(CurrentKey()), CurrentKey(), [Entry(None, Text(QUOTED_LETTER))])
  }

  function After(): Zone {
    map[2 := Record(QUOTED_LETTER)]
  }

  lemma LetterSurvives(lib: Library)
    ensures Preserved(lib, TXT, Text(LETTER))
  {
    ValidAscii(LETTER);
    assert TrimSpace(LETTER) == LETTER;
    TxtReadsBack(lib, LETTER);
  }

  lemma QuotedIsLost(lib: Library)
    ensures !Preserved(lib, TXT, Text(QUOTED_LETTER))
  {
    TrimQuoted(QUOTED_LETTER);
    TxtReadsBack(lib, QUOTED_LETTER);
  }

  lemma OneRecord(lib: Library, id: Id, native: Native, key: Key, data: EntryData)
    requires Decode(lib, native) == Mapped(key, data)
    ensures Groupable(lib, map[id := native]) && Grouped(lib, map[id := native]) == map[key := map[id := data]]
    ensures key == Landing(lib, key) ==> Consistent(lib, map[id := native])
  {
    var zone: Zone := map[id := native];
    assert zone[id] == native;
    assert Keys(lib, zone) == {key};
    assert Members(lib, zone, key) == map[id := data];
  }

  lemma LetterIsName()
    ensures PlainLibrary().owner(LETTER) == Some(LETTER)
  {
    SplitLabel(LETTER, []);
  }

  lemma LetterDecodes()
    ensures Decode(PlainLibrary(), Record(LETTER)) == Mapped(CurrentKey(), Text(LETTER))
  {
    var lib := PlainLibrary();
    LetterSurvives(lib);
    LetterIsName();
    NoTags();
    WrittenReads(lib, CurrentKey(), Text(LETTER));
    assert Written(lib, CurrentKey(), Text(LETTER)) == Record(LETTER);
  }

  lemma BeforeIsListed()
    ensures Groupable(PlainLibrary(), Before()) && Consistent(PlainLibrary(), Before())
    ensures Grouped(PlainLibrary(), Before()) == map[CurrentKey() := map[1 := Text(LETTER)]]
  {
    LetterDecodes();
    OneRecord(PlainLibrary(), 1, Record(LETTER), CurrentKey(), Text(LETTER));
  }

  lemma ChangeNormalizes()
    ensures NormalizeInput(PlainLibrary(), Change()) == Ok(Change().(entries := Admitted().entries))
  {
    var lib := PlainLibrary();
    NotIdempotent();
    LetterIsName();
    TrimQuoted(PRINTED_LETTER);
    OneEntryNormalizes(lib, TXT, Text(PRINTED_LETTER), Text(QUOTED_LETTER));
  }

  lemma ChangeIsValid()
    ensures ValidateInput(Change().(entries := Admitted().entries), OptionsOf(CurrentKey()), true)
            == Ok(OptionsOf(CurrentKey()))
  {
  }

  lemma OnlySetUpdates(lib: Library, view: View, current: Key, members: Entries, matches: RecordSet -> Option<bool>,
                       input: Input, normalized: Input)
    requires view == map[current := members] && matches(RecordSet(current, members)) == Some(true)
    requires NormalizeInput(lib, input) == Ok(normalized) && |normalized.entries| == 1 && normalized.entries[0].id.None?
    requires ValidateInput(normalized, OptionsOf(current), true) == Ok(OptionsOf(current))
    requires KeyFromInput(normalized, OptionsOf(current)) == current
    ensures PlanUpdate(lib, view, current, matches, input) == Ok(Plan(Some(current), current, normalized.entries))
  {
  }

  /** The checks of an update accept it. */
  lemma ChangeIsAdmitted()
    ensures CurrentKey() in Grouped(PlainLibrary(), Before())
    ensures PlanUpdate(PlainLibrary(), Grouped(PlainLibrary(), Before()), CurrentKey(), _ => Some(true), Change())
            == Ok(Admitted())
  {
    BeforeIsListed();
    ChangeNormalizes();
    ChangeIsValid();
    OnlySetUpdates(PlainLibrary(), Grouped(PlainLibrary(), Before()), CurrentKey(), map[1 := Text(LETTER)],
                   _ => Some(true),
                   Change(), Change().(entries := Admitted().entries));
  }

  /** The provider can carry it out. */
  lemma ChangeCanFinish()
    ensures Finished(PlainLibrary(), Before(), After(), Admitted(), [2])
  {
    var lib := PlainLibrary();
    BeforeIsListed();
    assert Admitted().entries[0].id.None?;
    assert Written(lib, CurrentKey(), Text(QUOTED_LETTER)) == Record(QUOTED_LETTER);
    assert Shows(lib, Before(), After(), Admitted(), 0, 2);
    assert !Kept(Admitted(), 1);
  }

  /** However the provider carries it out, no listing ever confirms it. */
  lemma AdmittedUpdateCanBeUnconfirmed(after: Zone, placed: seq<Id>)
    requires Finished(PlainLibrary(), Before(), after, Admitted(), placed)
    ensures !(Groupable(PlainLibrary(), after)
              && exists key :: Confirms(Grouped(PlainLibrary(), after), Admitted(), placed, key))
  {
    var lib := PlainLibrary();
    BeforeIsListed();
    ChangeIsAdmitted();
    PlanUpdateIsSound(lib, Before(), CurrentKey(), _ => Some(true), Change());
    QuotedIsLost(lib);
    assert NeedsWrite(Admitted(), MembersOf(Grouped(lib, Before()), Admitted()), Admitted().entries[0]);
    ConfirmedIff(lib, Before(), after, Admitted(), placed);
  }
}
