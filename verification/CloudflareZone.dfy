/**
  The record-set mutations against a provider whose calls may fail, with or without having been
  applied. `history` is every zone state that a concurrent reader could have seen.
 */
module CloudflareZone {
  import opened Collections
  import opened Wrappers
  import opened Utf8
  import opened RecordEntries
  import opened Listings
  import opened CloudflareGrouping
  import opened CloudflarePlan
  import opened CloudflareRequests

  /** What is true of every state an admitted update passes through, including the one it stops in. */
  ghost predicate Safe(lib: Library, before: Zone, now: Zone, plan: Plan)
    requires Supported(plan.desired.rtype)
  {
    exists placed :: Writing(lib, before, now, plan, placed) || Deleting(lib, before, now, plan, placed)
  }

  /** Records outside the replaced set are never touched. */
  lemma OutsideIsUntouched(lib: Library, before: Zone, now: Zone, plan: Plan, id: Id)
    requires Sound(Grouped(lib, before), plan) && Safe(lib, before, now, plan)
    requires id in before && id !in MembersOf(Grouped(lib, before), plan)
    ensures id in now && now[id] == before[id]
  {
    var placed :| Writing(lib, before, now, plan, placed) || Deleting(lib, before, now, plan, placed);
    assert !Removable(lib, before, plan, id);
    forall i | 0 <= i < |placed| ensures placed[i] != id {
      assert Shows(lib, before, now, plan, i, placed[i]);
    }
  }

  /** A record the update keeps is present in every state. */
  lemma KeptIsPresent(lib: Library, before: Zone, now: Zone, plan: Plan, id: Id)
    requires Sound(Grouped(lib, before), plan) && Safe(lib, before, now, plan)
    requires id in before && Kept(plan, id)
    ensures id in now
  {
  }

  /** A replaced record is missing only after every create and update of the plan has been applied. */
  lemma NothingIsDeletedEarly(lib: Library, before: Zone, now: Zone, plan: Plan, id: Id)
    requires Sound(Grouped(lib, before), plan) && Safe(lib, before, now, plan)
    requires id in before && id !in now
    ensures exists placed :: |placed| == |plan.entries| && Progress(lib, before, now, plan, placed)
  {
    var placed :| Writing(lib, before, now, plan, placed) || Deleting(lib, before, now, plan, placed);
    assert Deleting(lib, before, now, plan, placed);
  }

  // ---------------------------------------------------------------- how calls move a run along

  lemma Begin(lib: Library, zone: Zone, plan: Plan)
    requires Supported(plan.desired.rtype)
    ensures Writing(lib, zone, zone, plan, [])
  {
  }

  /** The zone after entry `n` went to `id`, and the record that shows it. */
  function PlacedZone(lib: Library, before: Zone, now: Zone, plan: Plan, n: nat, id: Id): Zone
    requires Supported(plan.desired.rtype) && n < |plan.entries|
  {
    var entry := plan.entries[n];
    if NeedsWrite(plan, MembersOf(Grouped(lib, before), plan), entry)
    then now[id := Written(lib, plan.desired, entry.data)] else now
  }

  predicate Placeable(before: Zone, now: Zone, entry: Entry, id: Id) {
    if entry.id.Some? then id == entry.id.value && id in before else id !in now
  }

  lemma NotYetPlaced(lib: Library, before: Zone, now: Zone, plan: Plan, placed: seq<Id>, id: Id)
    requires Sound(Grouped(lib, before), plan)
    requires Writing(lib, before, now, plan, placed) && |placed| < |plan.entries|
    requires Placeable(before, now, plan.entries[|placed|], id)
    ensures forall i :: 0 <= i < |placed| ==> placed[i] != id
    ensures id in before ==> now[id] == before[id]
  {
    forall i | 0 <= i < |placed| ensures placed[i] != id {
      assert Shows(lib, before, now, plan, i, placed[i]);
    }
  }

  lemma ShowsNew(lib: Library, before: Zone, now: Zone, plan: Plan, n: nat, id: Id)
    requires Supported(plan.desired.rtype) && n < |plan.entries|
    requires before.Keys <= now.Keys && (id in before ==> now[id] == before[id])
    requires Placeable(before, now, plan.entries[n], id)
    ensures Shows(lib, before, PlacedZone(lib, before, now, plan, n, id), plan, n, id)
  {
  }

  lemma ShowsStill(lib: Library, before: Zone, now: Zone, plan: Plan, n: nat, id: Id, i: nat, other: Id)
    requires Supported(plan.desired.rtype) && n < |plan.entries| && i < |plan.entries|
    requires Shows(lib, before, now, plan, i, other) && other != id
    ensures Shows(lib, before, PlacedZone(lib, before, now, plan, n, id), plan, i, other)
  {
  }

  lemma PlaceFrames(before: Zone, now: Zone, now': Zone, placed: seq<Id>, id: Id)
    requires Framed(before, now, placed) && now'.Keys <= now.Keys + {id}
    requires forall other :: other in now' && other != id ==> now'[other] == now[other]
    ensures Framed(before, now', placed + [id])
  {
    var longer := placed + [id];
    assert longer[|placed|] == id;
    forall other | other in now' && other !in longer ensures other in before && now'[other] == before[other] {
      assert other !in placed && other != id;
    }
  }

  lemma PlaceShows(lib: Library, before: Zone, now: Zone, plan: Plan, placed: seq<Id>, id: Id)
    requires Supported(plan.desired.rtype) && |placed| < |plan.entries| && AllShow(lib, before, now, plan, placed)
    requires before.Keys <= now.Keys && (id in before ==> now[id] == before[id])
    requires Placeable(before, now, plan.entries[|placed|], id)
    requires forall i :: 0 <= i < |placed| ==> placed[i] != id
    ensures AllShow(lib, before, PlacedZone(lib, before, now, plan, |placed|, id), plan, placed + [id])
  {
    var n := |placed|;
    var longer := placed + [id];
    forall i | 0 <= i < |longer|
      ensures Shows(lib, before, PlacedZone(lib, before, now, plan, n, id), plan, i, longer[i])
    {
      if i < n {
        ShowsStill(lib, before, now, plan, n, id, i, placed[i]);
      } else {
        ShowsNew(lib, before, now, plan, n, id);
      }
    }
  }

  /** The next entry is put in place, by a call or because its record already shows it. */
  lemma Place(lib: Library, before: Zone, now: Zone, plan: Plan, placed: seq<Id>, id: Id)
    requires Sound(Grouped(lib, before), plan)
    requires Writing(lib, before, now, plan, placed) && |placed| < |plan.entries|
    requires Placeable(before, now, plan.entries[|placed|], id)
    ensures Writing(lib, before, PlacedZone(lib, before, now, plan, |placed|, id), plan, placed + [id])
  {
    NotYetPlaced(lib, before, now, plan, placed, id);
    PlaceShows(lib, before, now, plan, placed, id);
    PlaceFrames(before, now, PlacedZone(lib, before, now, plan, |placed|, id), placed, id);
  }

  lemma AllPlaced(lib: Library, before: Zone, now: Zone, plan: Plan, placed: seq<Id>)
    requires Supported(plan.desired.rtype)
    requires Writing(lib, before, now, plan, placed) && |placed| == |plan.entries|
    ensures Deleting(lib, before, now, plan, placed)
  {
  }

  lemma PlacedIsNotRemovable(lib: Library, before: Zone, now: Zone, plan: Plan, placed: seq<Id>, id: Id)
    requires Supported(plan.desired.rtype) && |placed| <= |plan.entries| && AllShow(lib, before, now, plan, placed)
    requires Removable(lib, before, plan, id) && id in before
    ensures forall i :: 0 <= i < |placed| ==> placed[i] != id
  {
    forall i | 0 <= i < |placed| ensures placed[i] != id {
      assert Shows(lib, before, now, plan, i, placed[i]);
    }
  }

  lemma DropShows(lib: Library, before: Zone, now: Zone, plan: Plan, placed: seq<Id>, id: Id)
    requires Supported(plan.desired.rtype) && |placed| <= |plan.entries| && AllShow(lib, before, now, plan, placed)
    requires forall i :: 0 <= i < |placed| ==> placed[i] != id
    ensures AllShow(lib, before, now - {id}, plan, placed)
  {
    forall i | 0 <= i < |placed| ensures Shows(lib, before, now - {id}, plan, i, placed[i]) {
      assert Shows(lib, before, now, plan, i, placed[i]);
    }
  }

  lemma Drop(lib: Library, before: Zone, now: Zone, plan: Plan, placed: seq<Id>, id: Id)
    requires Supported(plan.desired.rtype)
    requires Deleting(lib, before, now, plan, placed) && Removable(lib, before, plan, id) && id in before
    ensures Deleting(lib, before, now - {id}, plan, placed)
  {
    PlacedIsNotRemovable(lib, before, now, plan, placed, id);
    DropShows(lib, before, now, plan, placed, id);
  }

  /** Every state recorded from position `n` on is safe. */
  ghost predicate SafeSince(lib: Library, before: Zone, history: seq<Zone>, n: nat, plan: Plan)
    requires Supported(plan.desired.rtype)
  {
    n <= |history| && forall k :: n <= k < |history| ==> Safe(lib, before, history[k], plan)
  }

  lemma SafeAppend(lib: Library, before: Zone, seen: seq<Zone>, history: seq<Zone>, n: nat, plan: Plan)
    requires Supported(plan.desired.rtype) && seen <= history
    requires SafeSince(lib, before, seen, n, plan) && SafeSince(lib, before, history, |seen|, plan)
    ensures SafeSince(lib, before, history, n, plan)
  {
    forall k | n <= k < |seen| ensures history[k] == seen[k] {
    }
  }

  lemma WritingIsSafe(lib: Library, before: Zone, now: Zone, plan: Plan, placed: seq<Id>)
    requires Supported(plan.desired.rtype) && Writing(lib, before, now, plan, placed)
    ensures Safe(lib, before, now, plan)
  {
  }

  lemma DeletingIsSafe(lib: Library, before: Zone, now: Zone, plan: Plan, placed: seq<Id>)
    requires Supported(plan.desired.rtype) && Deleting(lib, before, now, plan, placed)
    ensures Safe(lib, before, now, plan)
  {
  }

  /** The set with exactly these record IDs, if the zone can be listed and has one. */
  ghost function CurrentKey(lib: Library, zone: Zone, ids: set<Id>): Option<Key> {
    if exists key :: key in Grouped(lib, zone) && Grouped(lib, zone)[key].Keys == ids then
      var key :| key in Grouped(lib, zone) && Grouped(lib, zone)[key].Keys == ids;
      Some(key)
    else None
  }

  /** What a replacement is admitted to do, or the error it reports before any write. */
  ghost function AdmitUpdate(lib: Library, zone: Zone, ids: set<Id>, matches: RecordSet -> Option<bool>,
                             input: Input): Result<Plan, Error> {
    if !Groupable(lib, zone) then Err(Provider)
    else
      var current := CurrentKey(lib, zone, ids);
      if current.None? then Err(Conflict)
      else PlanUpdate(lib, Grouped(lib, zone), current.value, matches, input)
  }

  ghost function AdmitCreate(lib: Library, zone: Zone, input: Input): Result<Plan, Error> {
    match ValidateCreate(lib, input)
    case Err(error) => Err(error)
    case Ok(plan) =>
      if !Groupable(lib, zone) then Err(Provider)
      else if Merges(Grouped(lib, zone), None, plan.desired) then Err(Conflict)
      else Ok(plan)
  }

  /** The plan is what was asked of the one listed set with these record IDs. */
  ghost predicate UpdateAskedOf(lib: Library, zone: Zone, ids: set<Id>, matches: RecordSet -> Option<bool>,
                                input: Input, plan: Plan) {
    && Groupable(lib, zone)
    && exists current :: current in Grouped(lib, zone) && Grouped(lib, zone)[current].Keys == ids
         && UpdateAsked(lib, Grouped(lib, zone), current, matches, input, plan)
  }

  /** The plan is what was asked, and no listed set has its key, `proxiable` aside. */
  ghost predicate CreationAskedOf(lib: Library, zone: Zone, input: Input, plan: Plan) {
    && Groupable(lib, zone) && CreationAsked(lib, input, plan)
    && forall key :: key in Grouped(lib, zone) ==> key.(proxiable := plan.desired.proxiable) != plan.desired
  }

  /** An update is admitted with a plan exactly when the plan is what was asked. */
  lemma AdmitUpdateIff(lib: Library, zone: Zone, ids: set<Id>, matches: RecordSet -> Option<bool>, input: Input,
                       plan: Plan)
    ensures AdmitUpdate(lib, zone, ids, matches, input) == Ok(plan)
            <==> UpdateAskedOf(lib, zone, ids, matches, input, plan)
  {
    if Groupable(lib, zone) {
      if UpdateAskedOf(lib, zone, ids, matches, input, plan) {
        var current :| current in Grouped(lib, zone) && Grouped(lib, zone)[current].Keys == ids
                       && UpdateAsked(lib, Grouped(lib, zone), current, matches, input, plan);
        TheCurrentKey(lib, zone, ids, current);
        UpdateAcceptedIff(lib, Grouped(lib, zone), current, matches, input, plan);
      }
      if AdmitUpdate(lib, zone, ids, matches, input) == Ok(plan) {
        UpdateAcceptedIff(lib, Grouped(lib, zone), CurrentKey(lib, zone, ids).value, matches, input, plan);
      }
    }
  }

  lemma AdmitCreateIff(lib: Library, zone: Zone, input: Input, plan: Plan)
    ensures AdmitCreate(lib, zone, input) == Ok(plan) <==> CreationAskedOf(lib, zone, input, plan)
  {
    CreationAcceptedIff(lib, input, plan);
    if AdmitCreate(lib, zone, input) == Ok(plan) || CreationAskedOf(lib, zone, input, plan) {
      forall key | key in Grouped(lib, zone)
        ensures key.(proxiable := plan.desired.proxiable) != plan.desired <==> !Equivalent(key, plan.desired)
      {
      }
    }
  }

  /** Of the members to delete only these are still there. */
  predicate RemovedAllBut(lib: Library, before: Zone, now: Zone, plan: Plan, remaining: set<Id>) {
    forall id :: Removable(lib, before, plan, id) && id in now ==> id in remaining
  }

  lemma PlacedMemberIsKept(lib: Library, before: Zone, now: Zone, plan: Plan, placed: seq<Id>, id: Id)
    requires Sound(Grouped(lib, before), plan) && Progress(lib, before, now, plan, placed)
    requires id in MembersOf(Grouped(lib, before), plan) && (id in placed || Kept(plan, id))
    ensures !Removable(lib, before, plan, id)
  {
    if id in placed {
      var i :| 0 <= i < |placed| && placed[i] == id;
      assert Shows(lib, before, now, plan, i, id);
      assert id in before && plan.entries[i].id == Some(id);
    }
  }

  /** At most one listed set has exactly the expected entries. */
  lemma OneExactSet(lib: Library, zone: Zone, plan: Plan, placed: seq<Id>, key: Key)
    requires |placed| == |plan.entries| && NoRepeat(placed)
    requires key in Grouped(lib, zone) && HasExactEntries(Grouped(lib, zone)[key], plan, placed)
    ensures forall other :: Confirms(Grouped(lib, zone), plan, placed, other) ==> other == key
  {
    forall other | Confirms(Grouped(lib, zone), plan, placed, other) ensures other == key {
      ExactIff(Grouped(lib, zone)[key], plan, placed);
      ExactIff(Grouped(lib, zone)[other], plan, placed);
      SetsHaveTheirOwnIds(lib, zone, key, other);
    }
  }

  /** The returned set is listed, holds exactly the planned entries and has the desired key. */
  ghost predicate ConfirmedAs(lib: Library, zone: Zone, plan: Plan, placed: seq<Id>, found: RecordSet) {
    && |placed| == |plan.entries|
    && Confirms(Grouped(lib, zone), plan, placed, found.key)
    && found.entries == Grouped(lib, zone)[found.key]
  }

  /** Success exactly when the written entries survive, and then the listing has just that set replaced. */
  ghost predicate Settled(lib: Library, before: Zone, after: Zone, plan: Plan, placed: seq<Id>,
                          r: Result<RecordSet, Error>) {
    && |placed| == |plan.entries| && NoRepeat(placed)
    && (r.Ok? <==> WritesSurvive(lib, Grouped(lib, before), plan))
    && (r.Ok? ==> r.value == RecordSet(Landing(lib, plan.desired), Final(plan, placed))
                  && Listed(lib, after) == Ok(Replaced(lib, Grouped(lib, before), plan, placed)))
  }

  lemma SettledAfter(lib: Library, before: Zone, after: Zone, plan: Plan, placed: seq<Id>, r: Result<RecordSet, Error>)
    requires Groupable(lib, before) && Consistent(lib, before) && Sound(Grouped(lib, before), plan)
    requires Finished(lib, before, after, plan, placed)
    requires r.Ok? <==> Groupable(lib, after) && exists key :: Confirms(Grouped(lib, after), plan, placed, key)
    requires r.Ok? ==> ConfirmedAs(lib, after, plan, placed, r.value)
    ensures Settled(lib, before, after, plan, placed, r)
  {
    ConfirmedIff(lib, before, after, plan, placed);
    if r.Ok? {
      ReconcileCommutes(lib, before, after, plan, placed);
      ConfirmedSet(lib, before, after, plan, placed, r.value.key);
    }
  }

  lemma CurrentKeyIff(lib: Library, zone: Zone, ids: set<Id>, key: Key)
    ensures CurrentKey(lib, zone, ids) == Some(key)
            <==> key in Grouped(lib, zone) && Grouped(lib, zone)[key].Keys == ids
  {
    if key in Grouped(lib, zone) && Grouped(lib, zone)[key].Keys == ids {
      TheCurrentKey(lib, zone, ids, key);
    }
  }

  lemma TheCurrentKey(lib: Library, zone: Zone, ids: set<Id>, key: Key)
    requires key in Grouped(lib, zone) && Grouped(lib, zone)[key].Keys == ids
    ensures CurrentKey(lib, zone, ids) == Some(key)
  {
    SetsHaveTheirOwnIds(lib, zone, key, CurrentKey(lib, zone, ids).value);
  }

  /**
    The state and result an admitted plan ends in; `answered` says that no call reported an error.
    The second clause needs no assumption about the provider at all.
   */
  ghost predicate Reconciled(lib: Library, before: Zone, after: Zone, plan: Plan, placed: seq<Id>,
                             r: Result<RecordSet, Error>,
                             answered: bool)
    requires Supported(plan.desired.rtype)
  {
    && Safe(lib, before, after, plan)
    && (r.Ok? ==> ConfirmedAs(lib, after, plan, placed, r.value))
    && (answered ==> Finished(lib, before, after, plan, placed))
    && (answered && Consistent(lib, before) ==> Settled(lib, before, after, plan, placed, r))
  }

  /** With lawful names, whether the plan's writes survive can be read off its name and entries. */
  ghost predicate DurabilityDecides(lib: Library, view: View, plan: Plan) {
    Lawful(lib) ==> (WritesSurvive(lib, view, plan) <==> WritesDurable(view, plan))
  }

  lemma AdmittedPlan(lib: Library, zone: Zone, ids: set<Id>, matches: RecordSet -> Option<bool>, input: Input)
    requires Groupable(lib, zone) && CurrentKey(lib, zone, ids).Some?
    ensures AdmitUpdate(lib, zone, ids, matches, input)
            == PlanUpdate(lib, Grouped(lib, zone), CurrentKey(lib, zone, ids).value, matches, input)
  {
  }

  lemma AdmittedIsSound(lib: Library, zone: Zone, ids: set<Id>, matches: RecordSet -> Option<bool>, input: Input)
    requires AdmitUpdate(lib, zone, ids, matches, input).Ok?
    ensures Sound(Grouped(lib, zone), AdmitUpdate(lib, zone, ids, matches, input).value)
    ensures DurabilityDecides(lib, Grouped(lib, zone), AdmitUpdate(lib, zone, ids, matches, input).value)
    ensures UpdateAskedOf(lib, zone, ids, matches, input, AdmitUpdate(lib, zone, ids, matches, input).value)
  {
    AdmitUpdateIff(lib, zone, ids, matches, input, AdmitUpdate(lib, zone, ids, matches, input).value);
    var current := CurrentKey(lib, zone, ids).value;
    PlanUpdateIsSound(lib, zone, current, matches, input);
    PlanUpdateIsNormal(lib, Grouped(lib, zone), current, matches, input);
    if Lawful(lib) {
      WritesSurviveIff(lib, Grouped(lib, zone), AdmitUpdate(lib, zone, ids, matches, input).value);
    }
  }

  lemma CreationIsSound(lib: Library, view: View, input: Input)
    requires ValidateCreate(lib, input).Ok? && !Merges(view, None, ValidateCreate(lib, input).value.desired)
    ensures Sound(view, ValidateCreate(lib, input).value)
    ensures DurabilityDecides(lib, view, ValidateCreate(lib, input).value)
  {
    ValidateCreateIsSound(lib, view, input);
    ValidateCreateIsNormal(lib, input);
    if Lawful(lib) {
      WritesSurviveIff(lib, view, ValidateCreate(lib, input).value);
    }
  }

  lemma AdmittedCreationIsSound(lib: Library, zone: Zone, input: Input)
    requires AdmitCreate(lib, zone, input).Ok?
    ensures var plan := AdmitCreate(lib, zone, input).value;
            && Groupable(lib, zone) && Sound(Grouped(lib, zone), plan) && plan.current.None?
            && DurabilityDecides(lib, Grouped(lib, zone), plan) && CreationAskedOf(lib, zone, input, plan)
  {
    AdmitCreateIff(lib, zone, input, AdmitCreate(lib, zone, input).value);
    CreationIsSound(lib, Grouped(lib, zone), input);
  }

  ghost function AdmitDelete(lib: Library, zone: Zone, ids: set<Id>,
                             matches: RecordSet -> Option<bool>): Result<Key, Error> {
    if !Groupable(lib, zone) then Err(Provider)
    else
      match CurrentKey(lib, zone, ids)
      case None => Err(Conflict)
      case Some(key) =>
        match matches(RecordSet(key, Grouped(lib, zone)[key]))
        case None => Err(Validation)
        case Some(same) => if same then Ok(key) else Err(Conflict)
  }

  /** A deletion is admitted exactly for the listed set with these record IDs, when the precondition accepts it. */
  lemma AdmitDeleteIff(lib: Library, zone: Zone, ids: set<Id>, matches: RecordSet -> Option<bool>, key: Key)
    ensures AdmitDelete(lib, zone, ids, matches) == Ok(key)
            <==> && Groupable(lib, zone) && key in Grouped(lib, zone) && Grouped(lib, zone)[key].Keys == ids
                 && matches(RecordSet(key, Grouped(lib, zone)[key])) == Some(true)
  {
    CurrentKeyIff(lib, zone, ids, key);
  }

  /** A kept record is left alone exactly when it already shows the desired entry under the desired key. */
  lemma LeftAloneIff(lib: Library, before: Zone, plan: Plan, entry: Entry)
    requires plan.current.Some? && plan.current.value in Grouped(lib, before) && entry.id.Some?
    requires entry.id.value in Grouped(lib, before)[plan.current.value]
    ensures !NeedsWrite(plan, MembersOf(Grouped(lib, before), plan), entry)
            <==> exists key :: Decode(lib, before[entry.id.value]) == Mapped(key, entry.data)
                               && key.(proxiable := plan.desired.proxiable) == plan.desired
  {
    var id, current := entry.id.value, plan.current.value;
    assert Under(lib, before[id], current);
    assert current.(proxiable := plan.desired.proxiable) == plan.desired <==> Equivalent(current, plan.desired);
  }

  /** Nothing changed but that some of these records are missing. */
  predicate OnlyMissing(before: Zone, now: Zone, ids: set<Id>) {
    && (forall id :: id in now ==> id in before && now[id] == before[id])
    && (forall id :: id in before && id !in now ==> id in ids)
  }

  /** No listed set shares a record with the deleted one or has its key. */
  predicate Gone(view: View, ids: set<Id>, deleted: Key) {
    forall key :: key in view ==> view[key].Keys !! ids && !Equivalent(key, deleted)
  }

  lemma GoneIff(lib: Library, before: Zone, key: Key)
    requires key in Grouped(lib, before)
    ensures Gone(Grouped(lib, before) - {key}, Grouped(lib, before)[key].Keys, key)
            <==> !Merges(Grouped(lib, before), Some(key), key)
  {
    var view := Grouped(lib, before);
    forall other | other in view - {key} ensures view[other].Keys !! view[key].Keys {
    }
  }

  // ---------------------------------------------------------------- the provider

  class ProviderZone {
    const lib: Library
    var records: Zone
    /** Record IDs are never handed out twice. */
    var nextId: Id
    /** Calls that reported an error. */
    var failures: nat
    ghost var history: seq<Zone>

    constructor (lib: Library)
      ensures Valid() && this.lib == lib && records == map[] && failures == 0 && history == []
    {
      this.lib := lib;
      records, nextId, failures, history := map[], 0, 0, [];
    }

    ghost predicate Valid()
      reads this
    {
      forall id :: id in records ==> id < nextId
    }

    method CreateRecord(key: Key, data: EntryData) returns (r: Result<Id, Error>)
      requires Valid() && Supported(key.rtype)
      modifies this
      ensures Valid() && old(nextId) <= nextId
      ensures r.Ok? ==> failures == old(failures) && r.value !in old(records)
                        && records == old(records)[r.value := Written(lib, key, data)]
      ensures r.Err? ==> failures == old(failures) + 1
                         && (records == old(records) || records == old(records)[old(nextId) := Written(lib, key, data)])
      ensures history == old(history) + [records]
    {
      var applied: bool, answered: bool := *, *;
      if applied {
        records := records[nextId := Written(lib, key, data)];
        nextId := nextId + 1;
      }
      if applied && answered {
        r := Ok(nextId - 1);
      } else {
        failures := failures + 1;
        r := Err(Provider);
      }
      history := history + [records];
    }

    method UpdateRecord(id: Id, key: Key, data: EntryData) returns (ok: bool)
      requires Valid() && Supported(key.rtype)
      modifies this
      ensures Valid() && nextId == old(nextId)
      ensures ok ==> failures == old(failures) && id in old(records)
                     && records == old(records)[id := Written(lib, key, data)]
      ensures !ok ==> failures == old(failures) + 1
                      && (records == old(records)
                          || (id in old(records) && records == old(records)[id := Written(lib, key, data)]))
      ensures history == old(history) + [records]
    {
      var applied: bool, answered: bool := *, *;
      applied := applied && id in records;
      if applied {
        records := records[id := Written(lib, key, data)];
      }
      ok := applied && answered;
      if !ok {
        failures := failures + 1;
      }
      history := history + [records];
    }

    method DeleteRecord(id: Id) returns (ok: bool)
      requires Valid()
      modifies this
      ensures Valid() && nextId == old(nextId)
      ensures ok ==> failures == old(failures) && records == old(records) - {id}
      ensures !ok ==> failures == old(failures) + 1 && (records == old(records) || records == old(records) - {id})
      ensures history == old(history) + [records]
    {
      var applied: bool, answered: bool := *, *;
      applied := applied && id in records;
      if applied {
        records := records - {id};
      }
      ok := applied && answered;
      if !ok {
        failures := failures + 1;
      }
      history := history + [records];
    }

    method Rows() returns (source: seq<Row<Native>>)
      ensures DistinctIds(source) && ZoneOf(source) == records
    {
      source := [];
      var remaining := records.Keys;
      while remaining != {}
        invariant remaining <= records.Keys
        invariant DistinctIds(source)
        invariant forall i :: 0 <= i < |source| ==>
                source[i].id in records.Keys - remaining && source[i].native == records[source[i].id]
        invariant forall id :: id in records.Keys - remaining ==> Row(id, records[id]) in source
        decreases |remaining|
      {
        var id :| id in remaining;
        source := source + [Row(id, records[id])];
        remaining := remaining - {id};
      }
      forall id | id in records ensures id in ZoneOf(source) {
        assert Row(id, records[id]) in source;
      }
    }

    /** Lists and groups the zone; the call itself may fail. */
    method ListRecordSets() returns (r: Result<View, Error>)
      modifies this`failures
      ensures failures == old(failures) || failures == old(failures) + 1
      ensures r == if failures == old(failures) then Listed(lib, records) else Err(Provider)
    {
      var reached: bool := *;
      if !reached {
        failures := failures + 1;
        return Err(Provider);
      }
      var source := Rows();
      r := GroupRecords(lib, source);
    }

    /** A desired entry without an ID gets a new record. */
    method WriteNew(ghost before: Zone, plan: Plan, placed: seq<Id>) returns (ok: bool, id: Id)
      requires Valid() && Sound(Grouped(lib, before), plan)
      requires |placed| < |plan.entries| && Writing(lib, before, records, plan, placed)
      requires plan.entries[|placed|].id.None?
      modifies this
      ensures Valid() && old(history) <= history && history == old(history) + [records]
      ensures ok ==> failures == old(failures) && Writing(lib, before, records, plan, placed + [id])
      ensures !ok ==> failures > old(failures) && exists p :: Writing(lib, before, records, plan, p)
    {
      id := nextId;
      Place(lib, before, records, plan, placed, id);
      ghost var now := records;
      var created := CreateRecord(plan.desired, plan.entries[|placed|].data);
      ok := created.Ok?;
      if ok {
        id := created.value;
        Place(lib, before, now, plan, placed, id);
      }
    }

    /** A desired entry with an ID is written unless its record already shows it. */
    method WriteKept(ghost before: Zone, plan: Plan, members: Entries, placed: seq<Id>) returns (ok: bool, id: Id)
      requires Valid() && Sound(Grouped(lib, before), plan) && members == MembersOf(Grouped(lib, before), plan)
      requires |placed| < |plan.entries| && Writing(lib, before, records, plan, placed)
      requires plan.entries[|placed|].id.Some?
      modifies this
      ensures Valid() && (history == old(history) || history == old(history) + [records])
      ensures ok ==> failures == old(failures) && Writing(lib, before, records, plan, placed + [id])
      ensures !ok ==> failures > old(failures) && exists p :: Writing(lib, before, records, plan, p)
    {
      var entry := plan.entries[|placed|];
      id := entry.id.value;
      Place(lib, before, records, plan, placed, id);
      ok := true;
      if NeedsWrite(plan, members, entry) {
        ok := UpdateRecord(id, plan.desired, entry.data);
      }
    }

    /** Puts one desired entry in place. */
    method WriteEntry(ghost before: Zone, plan: Plan, members: Entries, placed: seq<Id>) returns (ok: bool, id: Id)
      requires Valid() && Sound(Grouped(lib, before), plan) && members == MembersOf(Grouped(lib, before), plan)
      requires |placed| < |plan.entries| && Writing(lib, before, records, plan, placed)
      modifies this
      ensures Valid() && old(history) <= history && SafeSince(lib, before, history, |old(history)|, plan)
      ensures ok ==> failures == old(failures) && Writing(lib, before, records, plan, placed + [id])
      ensures !ok ==> failures > old(failures) && Safe(lib, before, records, plan)
    {
      if plan.entries[|placed|].id.None? {
        ok, id := WriteNew(before, plan, placed);
      } else {
        ok, id := WriteKept(before, plan, members, placed);
      }
      ghost var p :| Writing(lib, before, records, plan, p);
      WritingIsSafe(lib, before, records, plan, p);
    }

    /** Creates and updates, in the order of the desired entries. */
    method WriteEntries(plan: Plan, members: Entries) returns (ok: bool, placed: seq<Id>)
      requires Valid() && Sound(Grouped(lib, records), plan)
      requires members == MembersOf(Grouped(lib, records), plan)
      modifies this
      ensures Valid() && old(history) <= history
      ensures SafeSince(lib, old(records), history, |old(history)|, plan) && Safe(lib, old(records), records, plan)
      ensures ok ==> failures == old(failures) && |placed| == |plan.entries|
                     && Writing(lib, old(records), records, plan, placed)
      ensures !ok ==> failures > old(failures)
    {
      ghost var before := records;
      placed := [];
      Begin(lib, before, plan);
      while |placed| < |plan.entries|
        invariant Valid() && old(history) <= history && failures == old(failures)
        invariant SafeSince(lib, before, history, |old(history)|, plan)
        invariant |placed| <= |plan.entries| && Writing(lib, before, records, plan, placed)
      {
        ghost var seen := history;
        var written, id := WriteEntry(before, plan, members, placed);
        SafeAppend(lib, before, seen, history, |old(history)|, plan);
        if !written {
          return false, placed;
        }
        placed := placed + [id];
      }
      WritingIsSafe(lib, before, records, plan, placed);
      ok := true;
    }

    /** Deletes one member unless it is kept. */
    method DeleteUnlessKept(ghost before: Zone, plan: Plan, placed: seq<Id>, id: Id) returns (ok: bool)
      requires Valid() && Sound(Grouped(lib, before), plan) && Deleting(lib, before, records, plan, placed)
      requires id in MembersOf(Grouped(lib, before), plan)
      modifies this
      ensures Valid() && old(history) <= history && SafeSince(lib, before, history, |old(history)|, plan)
      ensures Deleting(lib, before, records, plan, placed)
      ensures ok ==> failures == old(failures) && records.Keys <= old(records).Keys
                     && (Removable(lib, before, plan, id) ==> id !in records)
      ensures !ok ==> failures > old(failures)
    {
      ok := true;
      if !Kept(plan, id) && id !in placed {
        Drop(lib, before, records, plan, placed, id);
        ok := DeleteRecord(id);
      } else {
        PlacedMemberIsKept(lib, before, records, plan, placed, id);
      }
      DeletingIsSafe(lib, before, records, plan, placed);
    }

    /** Deletes the members that are not kept, once everything else is in place. */
    method DeleteReplaced(ghost before: Zone, plan: Plan, members: Entries, placed: seq<Id>) returns (ok: bool)
      requires Valid() && Sound(Grouped(lib, before), plan) && members == MembersOf(Grouped(lib, before), plan)
      requires Deleting(lib, before, records, plan, placed)
      modifies this
      ensures Valid() && old(history) <= history && SafeSince(lib, before, history, |old(history)|, plan)
      ensures ok ==> failures == old(failures) && Finished(lib, before, records, plan, placed)
      ensures !ok ==> failures > old(failures) && Safe(lib, before, records, plan)
    {
      var remaining := members.Keys;
      while remaining != {}
        invariant Valid() && old(history) <= history && failures == old(failures)
        invariant SafeSince(lib, before, history, |old(history)|, plan)
        invariant remaining <= members.Keys && Deleting(lib, before, records, plan, placed)
        invariant RemovedAllBut(lib, before, records, plan, remaining)
        decreases |remaining|
      {
        var id :| id in remaining;
        remaining := remaining - {id};
        ghost var seen := history;
        var done := DeleteUnlessKept(before, plan, placed, id);
        SafeAppend(lib, before, seen, history, |old(history)|, plan);
        if !done {
          DeletingIsSafe(lib, before, records, plan, placed);
          return false;
        }
      }
      ok := true;
    }

    /** Lists the zone again and looks for exactly the expected entries. */
    method FindFinalRecordSet(plan: Plan, placed: seq<Id>) returns (r: Result<RecordSet, Error>)
      requires |placed| == |plan.entries| && NoRepeat(placed)
      modifies this`failures
      ensures failures == old(failures) || (failures == old(failures) + 1 && r.Err?)
      ensures failures == old(failures) ==>
                (r.Ok? <==> Groupable(lib, records) && exists key :: Confirms(Grouped(lib, records), plan, placed, key))
      ensures r.Ok? ==> Confirms(Grouped(lib, records), plan, placed, r.value.key)
                        && r.value.entries == Grouped(lib, records)[r.value.key]
    {
      var listed := ListRecordSets();
      if listed.Err? {
        return Err(listed.error);
      }
      var view := listed.value;
      if exists key :: key in view && HasExactEntries(view[key], plan, placed) {
        var key :| key in view && HasExactEntries(view[key], plan, placed);
        OneExactSet(lib, records, plan, placed, key);
        if !Equivalent(key, plan.desired) {
          return Err(Conflict);
        }
        assert Confirms(view, plan, placed, key);
        return Ok(RecordSet(key, view[key]));
      }
      return Err(Conflict);
    }

    /** All of a plan's calls: creates and updates, then deletes. */
    method ApplyPlan(plan: Plan, members: Entries) returns (ok: bool, placed: seq<Id>)
      requires Valid() && Sound(Grouped(lib, records), plan)
      requires members == MembersOf(Grouped(lib, records), plan)
      modifies this
      ensures Valid() && old(history) <= history
      ensures SafeSince(lib, old(records), history, |old(history)|, plan) && Safe(lib, old(records), records, plan)
      ensures ok ==> failures == old(failures) && Finished(lib, old(records), records, plan, placed)
      ensures !ok ==> failures > old(failures)
    {
      ghost var before := records;
      ok, placed := WriteEntries(plan, members);
      if ok {
        AllPlaced(lib, before, records, plan, placed);
        ghost var seen := history;
        ok := DeleteReplaced(before, plan, members, placed);
        SafeAppend(lib, before, seen, history, |old(history)|, plan);
        if ok {
          DeletingIsSafe(lib, before, records, plan, placed);
        }
      }
    }

    /** The common tail of a creation and an update: apply the plan and confirm it. */
    method Reconcile(plan: Plan, members: Entries) returns (r: Result<RecordSet, Error>, ghost placed: seq<Id>)
      requires Valid() && Groupable(lib, records) && Sound(Grouped(lib, records), plan)
      requires members == MembersOf(Grouped(lib, records), plan)
      modifies this
      ensures Valid() && old(history) <= history
      ensures SafeSince(lib, old(records), history, |old(history)|, plan)
      ensures failures != old(failures) ==> failures > old(failures) && r.Err?
      ensures Reconciled(lib, old(records), records, plan, placed, r, failures == old(failures))
    {
      ghost var before := records;
      var ok, ids := ApplyPlan(plan, members);
      placed := ids;
      if !ok {
        return Err(Provider), placed;
      }
      r := FindFinalRecordSet(plan, ids);
      if failures == old(failures) && Consistent(lib, before) {
        SettledAfter(lib, before, records, plan, ids, r);
      }
    }

    method FindCurrent(view: View, ids: set<Id>) returns (current: Option<Key>)
      requires view == Grouped(lib, records)
      ensures current == CurrentKey(lib, records, ids)
    {
      if exists key :: key in view && view[key].Keys == ids {
        var key :| key in view && view[key].Keys == ids;
        TheCurrentKey(lib, records, ids, key);
        return Some(key);
      }
      return None;
    }

    /** Everything an update does before its first write. */
    method PrepareUpdate(ids: set<Id>, matches: RecordSet -> Option<bool>, input: Input)
      returns (r: Result<Plan, Error>, members: Entries)
      modifies this`failures
      ensures failures == old(failures) || (failures == old(failures) + 1 && r.Err?)
      ensures failures == old(failures) ==> r == AdmitUpdate(lib, records, ids, matches, input)
      ensures r.Ok? ==> Groupable(lib, records) && members == MembersOf(Grouped(lib, records), r.value)
    {
      members := map[];
      var listed := ListRecordSets();
      if listed.Err? {
        return Err(listed.error), members;
      }
      var current := FindCurrent(listed.value, ids);
      if current.None? {
        return Err(Conflict), members;
      }
      members := listed.value[current.value];
      r := PlanUpdate(lib, listed.value, current.value, matches, input);
      AdmittedPlan(lib, records, ids, matches, input);
    }

    /**
      Replaces the set with record IDs `ids`. An update refused by its checks writes nothing; an
      admitted one passes through safe states only; with every call answered it finishes, and then
      it succeeds exactly when what it wrote survives, leaving the old listing with the one set replaced.
      What it wrote survives exactly when the name has no empty label and the entries are durable.
     */
    method UpdateRecordSet(ids: set<Id>, matches: RecordSet -> Option<bool>, input: Input)
      returns (r: Result<RecordSet, Error>, ghost placed: seq<Id>)
      requires Valid()
      modifies this
      ensures Valid() && old(history) <= history
      ensures failures != old(failures) ==> failures > old(failures) && r.Err?
      ensures AdmitUpdate(lib, old(records), ids, matches, input).Err? ==>
              r.Err? && records == old(records) && history == old(history)
      ensures failures == old(failures) && AdmitUpdate(lib, old(records), ids, matches, input).Err? ==>
                r == Err(AdmitUpdate(lib, old(records), ids, matches, input).error)
      ensures AdmitUpdate(lib, old(records), ids, matches, input).Ok? ==>
                var plan := AdmitUpdate(lib, old(records), ids, matches, input).value;
                UpdateAskedOf(lib, old(records), ids, matches, input, plan)
                && Sound(Grouped(lib, old(records)), plan)
                && DurabilityDecides(lib, Grouped(lib, old(records)), plan)
                && Reconciled(lib, old(records), records, plan, placed, r, failures == old(failures))
                && SafeSince(lib, old(records), history, |old(history)|, plan)
      ensures r.Ok? ==> exists plan :: UpdateAskedOf(lib, old(records), ids, matches, input, plan)
                                       && ConfirmedAs(lib, records, plan, placed, r.value)
    {
      placed := [];
      var planned, members := PrepareUpdate(ids, matches, input);
      if planned.Err? {
        ghost var admitted := AdmitUpdate(lib, records, ids, matches, input);
        if admitted.Ok? {
          AdmittedIsSound(lib, records, ids, matches, input);
          Begin(lib, records, admitted.value);
          WritingIsSafe(lib, records, records, admitted.value, []);
        }
        return Err(planned.error), placed;
      }
      AdmittedIsSound(lib, records, ids, matches, input);
      r, placed := Reconcile(planned.value, members);
    }

    /** The checks of a creation: validation first, then the listing, then the conflict. */
    method PrepareCreate(input: Input) returns (r: Result<Plan, Error>)
      modifies this`failures
      ensures failures == old(failures) || (failures == old(failures) + 1 && r.Err?)
      ensures failures == old(failures) ==> r == AdmitCreate(lib, records, input)
      ensures r.Ok? ==> Groupable(lib, records) && Sound(Grouped(lib, records), r.value) && r.value.current.None?
                        && DurabilityDecides(lib, Grouped(lib, records), r.value)
                        && CreationAskedOf(lib, records, input, r.value)
    {
      r := ValidateCreate(lib, input);
      if r.Ok? {
        var listed := ListRecordSets();
        if listed.Err? {
          return Err(listed.error);
        }
        if Merges(listed.value, None, r.value.desired) {
          return Err(Conflict);
        }
        AdmittedCreationIsSound(lib, records, input);
      }
    }

    /** Creates a new set; no set with an equivalent key may exist. */
    method CreateRecordSet(input: Input) returns (r: Result<RecordSet, Error>, ghost placed: seq<Id>)
      requires Valid()
      modifies this
      ensures Valid() && old(history) <= history
      ensures failures != old(failures) ==> failures > old(failures) && r.Err?
      ensures AdmitCreate(lib, old(records), input).Err? ==>
              r.Err? && records == old(records) && history == old(history)
      ensures failures == old(failures) && AdmitCreate(lib, old(records), input).Err? ==>
                r == Err(AdmitCreate(lib, old(records), input).error)
      ensures AdmitCreate(lib, old(records), input).Ok? ==>
                var plan := AdmitCreate(lib, old(records), input).value;
                CreationAskedOf(lib, old(records), input, plan)
                && Sound(Grouped(lib, old(records)), plan) && plan.current == None
                && DurabilityDecides(lib, Grouped(lib, old(records)), plan)
                && Reconciled(lib, old(records), records, plan, placed, r, failures == old(failures))
                && SafeSince(lib, old(records), history, |old(history)|, plan)
      ensures r.Ok? ==> exists plan :: CreationAskedOf(lib, old(records), input, plan)
                                       && ConfirmedAs(lib, records, plan, placed, r.value)
    {
      placed := [];
      var planned := PrepareCreate(input);
      if planned.Err? {
        ghost var admitted := AdmitCreate(lib, records, input);
        if admitted.Ok? {
          AdmittedCreationIsSound(lib, records, input);
          Begin(lib, records, admitted.value);
          WritingIsSafe(lib, records, records, admitted.value, []);
        }
        return Err(planned.error), placed;
      }
      r, placed := Reconcile(planned.value, map[]);
    }

    /** The checks of a deletion. */
    method PrepareDelete(ids: set<Id>, matches: RecordSet -> Option<bool>) returns (r: Result<Key, Error>)
      modifies this`failures
      ensures failures == old(failures) || (failures == old(failures) + 1 && r.Err?)
      ensures failures == old(failures) ==> r == AdmitDelete(lib, records, ids, matches)
      ensures r.Ok? ==>
              Groupable(lib, records) && r.value in Grouped(lib, records) && Grouped(lib, records)[r.value].Keys == ids
    {
      var listed := ListRecordSets();
      if listed.Err? {
        return Err(listed.error);
      }
      var current := FindCurrent(listed.value, ids);
      if current.None? {
        return Err(Conflict);
      }
      match matches(RecordSet(current.value, listed.value[current.value]))
      case None => r := Err(Validation);
      case Some(same) => r := if same then Ok(current.value) else Err(Conflict);
    }

    method DeleteMembers(members: set<Id>) returns (ok: bool)
      requires Valid() && members <= records.Keys
      modifies this
      ensures Valid() && old(history) <= history
      ensures forall k :: |old(history)| <= k < |history| ==> OnlyMissing(old(records), history[k], members)
      ensures OnlyMissing(old(records), records, members)
      ensures ok ==> failures == old(failures) && records == old(records) - members
      ensures !ok ==> failures > old(failures)
    {
      ghost var before := records;
      var remaining := members;
      while remaining != {}
        invariant Valid() && old(history) <= history && failures == old(failures)
        invariant remaining <= members && records == before - (members - remaining)
        invariant forall k :: |old(history)| <= k < |history| ==> OnlyMissing(before, history[k], members)
        decreases |remaining|
      {
        var id :| id in remaining;
        var deleted := DeleteRecord(id);
        if !deleted {
          return false;
        }
        remaining := remaining - {id};
      }
      ok := true;
    }

    /**
      Deletes a whole set and verifies that it is gone. With every call answered the zone lists as
      before without that set, and the verification passes exactly when no other set has an
      equivalent key.
     */
    method DeleteRecordSet(ids: set<Id>, matches: RecordSet -> Option<bool>) returns (failure: Option<Error>)
      requires Valid()
      modifies this
      ensures Valid() && old(history) <= history
      ensures failures != old(failures) ==> failures > old(failures) && failure.Some?
      ensures var admitted := AdmitDelete(lib, old(records), ids, matches);
              match admitted
              case Err(error) => records == old(records) && history == old(history) && failure.Some?
                                 && (failures == old(failures) ==> failure == Some(error))
              case Ok(key) => key in Grouped(lib, old(records)) && Grouped(lib, old(records))[key].Keys == ids
                              && matches(RecordSet(key, Grouped(lib, old(records))[key])) == Some(true)
                              && OnlyMissing(old(records), records, ids)
                              && (forall k :: |old(history)| <= k < |history| ==>
                                    OnlyMissing(old(records), history[k], ids))
                              && (failures == old(failures) ==>
                                    && Listed(lib, records) == Ok(Grouped(lib, old(records)) - {key})
                                    && (failure.None? <==> !Merges(Grouped(lib, old(records)), Some(key), key)))
    {
      var admitted := PrepareDelete(ids, matches);
      if admitted.Err? {
        return Some(admitted.error);
      }
      ghost var before := records;
      AdmitDeleteIff(lib, before, ids, matches, admitted.value);
      var deleted := DeleteMembers(ids);
      if !deleted {
        return Some(Provider);
      }
      DeletionCommutes(lib, before, admitted.value);
      var listed := ListRecordSets();
      if listed.Err? {
        return Some(listed.error);
      }
      GoneIff(lib, before, admitted.value);
      failure := if Gone(listed.value, ids, admitted.value) then None else Some(Conflict);
    }
  }
}
