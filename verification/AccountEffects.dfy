/** What lookups and account edits bring about: when a cached client is used, and what an edit leaves behind. */
module AccountEffects {
  import opened Wrappers
  import opened ClientRuntime
  import opened ProviderStore
  import opened AccountProtocol
  import opened AccountSafety

  // ---------------------------------------------------------------- lookups

  /**
    A lookup returns the cached client exactly when that is unexpired, of the generation the lookup
    started from, enabled and of the very version that was read; otherwise it goes on to build one.
   */
  lemma CacheHitIff(s: State, r: RequestId, expired: bool)
    requires Enabled(s, CheckCache(r, expired))
    ensures var q := s.requests[r];
            var p, runtime := q.phase, s.slots[q.rt].runtime;
            var after := Apply(s, CheckCache(r, expired));
            && (after.requests[r].Ready? <==>
                  && !expired && runtime.generation == p.generation && runtime.cached.Some?
                  && runtime.cached.value.account.enabled && runtime.cached.value.account.revision == p.row.revision
                  && runtime.cached.value.account.updatedAt == p.row.updatedAt
                  && runtime.cached.value.account.options == p.row.options)
            && (after.requests[r].Ready? ==>
                  && after.requests[r].client == runtime.cached.value.client && after.requests[r].row == p.row
                  && after.requests[r].readAt == p.readAt && after.requests[r].generation == p.generation
                  && after.slots[q.rt].runtime == runtime && after.slots[q.rt].builder.None?)
            && (!after.requests[r].Ready? ==>
                  && after.requests[r]
                     == q.(phase := Built(p.left, p.generation, p.row, Client(p.row.revision, p.row.options)))
                  && (runtime.generation == p.generation ==> after.slots[q.rt].runtime.cached.None?)
                  && (runtime.generation != p.generation ==> after.slots[q.rt].runtime == runtime))
  {
    var q := s.requests[r];
    LookupIff(s.slots[q.rt].runtime, q.phase.generation, q.phase.row, expired);
  }

  /** Reading the row ends the lookup exactly when the account is gone, disabled or without a credential. */
  lemma ReadRowIff(s: State, r: RequestId)
    requires Enabled(s, ReadRow(r))
    ensures var q, after := s.requests[r], Apply(s, ReadRow(r));
            if q.account in s.db.accounts && s.db.accounts[q.account].enabled
               && s.db.accounts[q.account].revision != 0
            then after.requests[r].Getting? && after.requests[r].phase.RowRead?
                 && after.requests[r].phase.row == s.db.accounts[q.account]
            else after.requests[r].Over? && after.slots[q.rt].builder.None?
  {
  }

  /** A built client is stored and returned when its generation is still current; otherwise an attempt is used up. */
  lemma StoreClientIff(s: State, r: RequestId)
    requires Enabled(s, StoreClient(r))
    ensures var q := s.requests[r];
            var p, runtime := q.phase, s.slots[q.rt].runtime;
            var after := Apply(s, StoreClient(r));
            if runtime.generation == p.generation
            then && after.requests[r].Ready? && after.requests[r].client == p.client
                 && after.requests[r].row == p.current && after.slots[q.rt].builder.None?
                 && after.slots[q.rt].runtime.cached.Some?
                 && after.slots[q.rt].runtime.cached.value.client == p.client
                 && after.slots[q.rt].runtime.cached.value.account == p.current
            else after == NextAttempt(s, r, q)
  {
  }

  /** An attempt is used up: the next one keeps the build slot, after the last one the lookup ends and frees it. */
  lemma AttemptIsUsedUp(s: State, r: RequestId)
    requires Enabled(s, Retry(r))
    ensures var q, after := s.requests[r], Apply(s, Retry(r));
            if q.phase.left > 1
            then after.requests[r] == q.(phase := Attempt(q.phase.left - 1)) && after.slots[q.rt].builder == Some(r)
            else after.requests[r].Over? && after.slots[q.rt].builder.None?
  {
  }

  /** In every run a lookup that holds the build slot has at most three attempts left. */
  lemma AttemptsAreBounded(states: seq<State>, i: nat, r: RequestId)
    requires Run(states) && i < |states|
    requires r in states[i].requests && HoldsBuild(states[i].requests[r])
    ensures 1 <= states[i].requests[r].phase.left <= 3
  {
    RunKeepsInv(states, i);
    assert RequestOk(states[i], r, states[i].requests[r]);
  }

  // ---------------------------------------------------------------- syncs

  /** The live zones of the account are the listed ones, with the listing's data; other accounts keep theirs. */
  ghost predicate Synced(before: map<ZoneKey, ZoneRow>, after: map<ZoneKey, ZoneRow>, a: AccountId,
                         entries: seq<ZoneEntry>, fetchedAt: nat) {
    && (forall k: ZoneKey :: k.account == a ==>
          (k in after && after[k].deletedAt.None? <==> exists e :: e in entries && e.zone == k.zone))
    && (forall e :: e in entries ==>
          var key := ZoneKey(a, e.zone);
          && key in after && after[key].name == e.name && after[key].listedBy == e.listedBy
          && after[key].fetchedAt == fetchedAt && after[key].id == if key in before then before[key].id else e.id)
    && (forall k: ZoneKey :: k.account != a ==>
          (k in after <==> k in before) && (k in before ==> after[k] == before[k]))
  }

  lemma SyncedContents(db: Database, a: AccountId, revision: nat, updatedAt: nat, entries: seq<ZoneEntry>,
                       fetchedAt: nat, stamp: nat)
    requires DistinctZones(entries) && Replaced(db, a, revision, updatedAt, entries, fetchedAt, stamp).Some?
    ensures Synced(db.zones, Replaced(db, a, revision, updatedAt, entries, fetchedAt, stamp).value.zones, a, entries,
                   fetchedAt)
  {
    ReplaceZoneIndexContents(db, a, revision, updatedAt, entries, fetchedAt, stamp);
    var after := Replaced(db, a, revision, updatedAt, entries, fetchedAt, stamp).value;
    forall k: ZoneKey | k.account == a
      ensures k in after.zones && after.zones[k].deletedAt.None? <==> exists e :: e in entries && e.zone == k.zone
    {
      assert k == ZoneKey(a, k.zone);
      assert k.zone in ListedZones(entries) <==> exists e :: e in entries && e.zone == k.zone;
    }
    forall e | e in entries ensures e.zone in ListedZones(entries) {
    }
  }

  /**
    A sync commits exactly when the account's row is still the one its client was looked up with and
    the new identifiers are free; then the zone index is its listing.
   */
  lemma SyncCommitsIff(s: State, r: RequestId, fetchedAt: nat, stamp: nat)
    requires Inv(s) && Enabled(s, CommitSync(r, fetchedAt, stamp))
    ensures var q, after := s.requests[r], Apply(s, CommitSync(r, fetchedAt, stamp));
            if q.account in s.db.accounts && s.db.accounts[q.account] == q.row
               && IdsFree(s.db.zones, q.account, q.entries)
            then && Synced(s.db.zones, after.db.zones, q.account, q.entries, fetchedAt)
                 && RowChanged(s.db.accounts, after.db.accounts, q.account, None, None, stamp)
            else after.db == s.db
  {
    var q := s.requests[r];
    assert RequestOk(s, r, q) && LogOk(s, q.account);
    SyncContents(s.db, q.account, q.row.revision, q.row.updatedAt, q.entries, fetchedAt, stamp);
    if q.account in s.db.accounts && s.db.accounts[q.account].updatedAt == q.row.updatedAt {
      GuardFindsTheRow(s, q.account, q.readAt, q.row);
    }
    if Replaced(s.db, q.account, q.row.revision, q.row.updatedAt, q.entries, fetchedAt, stamp).Some? {
      SyncedContents(s.db, q.account, q.row.revision, q.row.updatedAt, q.entries, fetchedAt, stamp);
    }
  }

  // ---------------------------------------------------------------- edits

  /** The row the edit was begun on is still there: by stamp, by revision, or at all. */
  predicate Committable(db: Database, a: AccountId, edit: Edit, before: AccountRow) {
    && a in db.accounts
    && (edit.Update? ==> db.accounts[a].updatedAt == before.updatedAt)
    && (edit.Credentials? ==> db.accounts[a].revision == before.revision)
  }

  /** What a committed edit leaves in the tables. */
  ghost predicate EditDone(before: Database, after: Database, a: AccountId, edit: Edit, time: nat, stamp: nat) {
    match edit
    case Update(enabled, options) =>
      && RowChanged(before.accounts, after.accounts, a, enabled, options, stamp)
      && (if options.Some? then IndexDropped(before.zones, after.zones, a, time) else after.zones == before.zones)
    case Credentials =>
      RevisionRaised(before.accounts, after.accounts, a, stamp) && IndexDropped(before.zones, after.zones, a, time)
    case Delete =>
      && a !in after.accounts && OthersKept(before.accounts, after.accounts, a)
      && (forall k :: k in after.zones <==> k in before.zones && k.account != a)
      && (forall k :: k in after.zones ==> after.zones[k] == before.zones[k])
  }

  lemma EditedDbIff(db: Database, q: Request, time: nat, stamp: nat)
    requires q.Editing?
    ensures var after := EditedDb(db, q, time, stamp);
            && (after.Some? <==> Committable(db, q.account, q.edit, q.before))
            && (after.Some? ==> EditDone(db, after.value, q.account, q.edit, time, stamp))
  {
    match q.edit
    case Update(enabled, options) => UpdateContents(db, q.account, q.before.updatedAt, enabled, options, time, stamp);
    case Credentials => CredentialContents(db, q.account, q.before.revision, time, stamp);
    case Delete => DeletionContents(db, q.account);
  }

  /** An edit commits exactly when its row is still there, as the account's next version; otherwise nothing changes. */
  lemma EditCommitsIff(s: State, r: RequestId, time: nat, stamp: nat)
    requires (forall a :: a in s.db.accounts ==> Logged(s, a)) && Enabled(s, CommitEdit(r, time, stamp))
    ensures var q, after := s.requests[r], Apply(s, CommitEdit(r, time, stamp));
            if Committable(s.db, q.account, q.edit, q.before)
            then && EditDone(s.db, after.db, q.account, q.edit, time, stamp)
                 && after.log[q.account] == s.log[q.account] + [if q.edit.Delete? then None
                                                                else Some(after.db.accounts[q.account])]
                 && (Changes(q.edit) ==> after.requests[r] == Committed(q.account, q.edit, |s.log[q.account]|))
            else after.db == s.db && after.log == s.log && after.requests[r].Over?
  {
    EditedDbIff(s.db, s.requests[r], time, stamp);
  }

  /** In every run every account has its log. */
  lemma AccountsAreLogged(states: seq<State>, i: nat)
    requires Run(states) && i < |states|
    ensures forall a :: a in states[i].db.accounts ==> Logged(states[i], a)
  {
    RunKeepsInv(states, i);
    forall a | a in states[i].db.accounts ensures Logged(states[i], a) {
      assert LogOk(states[i], a);
    }
  }

  predicate Done(q: Request) {
    q.Committed? || q.Edited?
  }

  /**
    In every run a committed edit is a version of its account that differs from the one before in
    exactly the columns it gave.
   */
  lemma EditsLogTheirChange(states: seq<State>, i: nat, e: RequestId)
    requires Run(states) && i < |states| && e in states[i].requests && Done(states[i].requests[e])
    ensures EditShows(states[i], states[i].requests[e].account, states[i].requests[e].edit, states[i].requests[e].at)
  {
    RunKeepsInv(states, i);
    assert RequestOk(states[i], e, states[i].requests[e]);
  }

  /** Version `k` of the account is a row with this enabled flag. */
  predicate VersionHas(s: State, a: AccountId, k: nat, enabled: bool) {
    a in s.log && k < |s.log[a]| && s.log[a][k].Some? && s.log[a][k].value.enabled == enabled
  }

  predicate Disables(edit: Edit) {
    edit.Update? && edit.enabled == Some(false)
  }

  /**
    A committed disabling is a disabled version, and a lookup that read that version or a later one
    read an enabled one that came after it.
   */
  lemma DisabledVersionIsNeverServed(states: seq<State>, i: nat, e: RequestId, r: RequestId)
    requires Run(states) && i < |states|
    requires e in states[i].requests && Done(states[i].requests[e]) && Disables(states[i].requests[e].edit)
    requires r in states[i].requests && states[i].requests[r].Ready?
    requires states[i].requests[r].account == states[i].requests[e].account
    requires states[i].requests[e].at <= states[i].requests[r].readAt
    ensures var a, at, readAt := states[i].requests[e].account, states[i].requests[e].at, states[i].requests[r].readAt;
            at < readAt && VersionHas(states[i], a, at, false) && VersionHas(states[i], a, readAt, true)
  {
    EditsLogTheirChange(states, i, e);
    RunKeepsInv(states, i);
    assert RequestOk(states[i], r, states[i].requests[r]);
  }

  /**
    Once a disabling has returned, a client of the account is cached, or passes the generation check,
    only if the account was enabled again by a later version from which that client was looked up.
   */
  lemma DisabledAccountIsFenced(states: seq<State>, i: nat, e: RequestId, rt: RuntimeId, r: RequestId)
    requires Run(states) && i < |states|
    requires e in states[i].requests && states[i].requests[e].Edited? && Disables(states[i].requests[e].edit)
    requires rt in states[i].slots && states[i].slots[rt].account == states[i].requests[e].account
    ensures states[i].slots[rt].runtime.cached.Some? ==>
              var slot := states[i].slots[rt];
              && states[i].requests[e].at < slot.cachedAt && slot.runtime.cached.value.account.enabled
              && VersionAt(states[i], slot.account, slot.cachedAt, slot.runtime.cached.value.account)
    ensures r in states[i].requests && states[i].requests[r].Ready? && states[i].requests[r].rt == rt
            && states[i].requests[r].generation == states[i].slots[rt].runtime.generation
            ==> && states[i].requests[e].at < states[i].requests[r].readAt && states[i].requests[r].row.enabled
                && VersionAt(states[i], states[i].slots[rt].account, states[i].requests[r].readAt,
                             states[i].requests[r].row)
  {
    EditsLogTheirChange(states, i, e);
    EditFencesOlderClients(states, i, e, rt, r);
    RunKeepsInv(states, i);
    assert SlotOk(states[i], states[i].slots[rt]);
    if r in states[i].requests {
      assert RequestOk(states[i], r, states[i].requests[r]);
    }
  }
}
