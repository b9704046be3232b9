# Aster DNS: a model of its hard parts, with proofs

Aster DNS is a control plane over several DNS providers. This project models, in Dafny, the parts
of it that carry state, concurrency or parsing, and proves what they promise.

**Provider clients and the zone index** (`ClientRuntime`, `ProviderStore`, `AccountProtocol`,
`AccountSafety`, `AccountEffects`). A per-account client cache with generations, a database zone index
guarded by compare-and-set on credential revision and row stamp, and the operations that run over both.
Every database statement or transaction and every critical section of a runtime is one atomic step of a
state machine; any number of lookups, syncs, refreshes, validations, edits, timers and aborts
interleave. Where the manager looks a runtime up in its map and then invalidates it, two critical
sections follow each other in the program and are one step here (`AccountProtocol.Invalidated`,
`AccountProtocol.Removed`). The classes of the first two modules are proved against the functions the
steps use.

**The call gate** (`CallGate`). The generation check and the two semaphores in front of a client's
provider calls: bounds, fencing and freedom from deadlock.

**The record cache** (`RecordCache`, `RecordCacheSafety`). Generations per zone, concurrent fetches,
and mutations that invalidate before and after the provider call.

**The Cloudflare reconciler** (`RecordEntries`, `CloudflareCodec`, `CloudflareGrouping`,
`CloudflarePlan`, `CloudflareRequests`, `CloudflareZone`, with instances in `CloudflareExample` and
`DividedNames`). Native records are grouped into logical record sets; an update plans creates, updates
and deletes. The main theorem is a commuting diagram between the plan and the grouping; around it stand
exactly which plan an input is accepted with, field by field, the exact set of names and entries that
survive being written, and what holds in every intermediate state when any call may fail, with or
without having been applied.

**Listings of record sets** (`Sorting`, `Listings`, `CloudflareListing`, `TencentListing`). The sorted
list a provider returns: one sequence whatever the order of the native records and of the groups, in
which every set has its own ID and its own key, also when the key is recomputed from the set.

**Text forms** (`Utf8`, `Txt`, `TxtGrammar`, `HuaweiTxt`, `Decimals`, `Labels`, `Names`, `NameRules`,
`NameLaws`, `RecordSetIds`, `Fingerprints`). The TXT character-string parser and its printers (sections
3.3 and 5.1 of RFC 1035), owner names and relative names, record-set IDs, and order-independent
fingerprints.

**The Tencent Cloud update** (`TencentWrites`, `TencentUpdate`). The comparison that decides whether a
record has to be written, and exactly when a whole update with every call answered is confirmed.

**Paging** (`Paging`, `OffsetPages`, `ListPages`). Reading a whole provider list and handing it out in
pages, proved one by one and end to end.

**Authentication** (`AuthStore`, `AuthTransactions`, `AuthProtocol`, `AuthSafety`, `AuthTokens`,
`AuthConfirmation`, `AuthLogin`, `AuthEffects`, `AuthHistory`). Users, passkeys, challenges and TOTP
credentials. Requests read rows outside transactions and rely on `updated_at` to notice interference;
all interleavings are covered. Where the order of reads matters, confirming and logging in, the row and
the credential are read in separate steps; a setup's user row is read only for its ID.

`Wrappers` holds optional values and results, `Collections` facts about sets and sequences.

## How the model reads the program

- A transaction is serializable: committed, it is one atomic step; failed, it changes nothing.
- Every committed write of a row gives `updated_at` a value that row never had. Generations and
  sequence numbers do not wrap.
- Clocks, expiry and cancellation are steps that may happen at any time, so no result depends on timing.
- Digests, JSON, base64, quoting, IDNA of one label, address parsing and Unicode case mapping are
  parameters with the laws named where they are used: injective, inverse to each other, or idempotent.
  Each law is asked only of the inputs that occur: cursors of 64-bit offsets, JSON lists of record IDs,
  pieces of mapped labels. The record-set model takes canonicalized targets and owner names as
  parameters too; their laws say what a second canonicalization does to every result of a first, and
  `NameLaws.NamesAreLawful` derives them from `Names`. Where the laws are many, a parameter that meets
  them is given (`RecordEntries.PlainLibraryIsLawful`, `Names.PlainOnlyIsLawful`,
  `Names.StopMapperIsLawful`, `OffsetPages.DecimalCursorsAreLawful`,
  `RecordSetIds.DottedFormatIsLawful`, `Listings.DecimalNamingIsLawful`).
- Go's JSON replaces invalid UTF-8, so a fingerprint's encoding is injective only on texts that are
  valid UTF-8; other texts are outside what `Fingerprints` says.
- Random values (users' challenges, passkeys, TOTP secrets, native record IDs) never repeat.
- State machines allow more than the program does where it costs nothing: a request may be abandoned
  at any step, listings may be made with superseded clients, a validation result may be committed at
  any time. The per-account sync lock is not relied on.

## Findings

Where the code does not do what one would expect, the model follows the code and the exact condition
is proved:

- Canonicalizing TXT twice can differ from once (`Txt.NotIdempotent`, `Txt.IdempotentIff`), so a TXT
  or CAA entry that looks quoted cannot be kept in a Cloudflare zone (`CloudflareCodec.PreservedIff`):
  an update that writes one is applied but never confirmed (`CloudflarePlan.ConfirmedIff`, with an
  instance in `CloudflareExample.AdmittedUpdateCanBeUnconfirmed`).
- For the same reason a set holding such an entry never matches its own fingerprint
  (`Fingerprints.OwnFingerprintMatchesIff`, `Fingerprints.ListedSetCanMissItsFingerprint`).
- IDNA turns an ideographic full stop inside a label into a dot. When that leaves an empty piece,
  canonicalizing the name again takes off a final dot or refuses the name (`Names.CanonicalNameTwice`,
  `Names.CanonicalNameIsIdempotentIff`, `Names.CanonicalNameCanChange`), and a record name is refused
  (`Names.RecordNameTwice`). Hence
  - a target with an empty label is stored, comes back as another name and is never confirmed, and a
    set that shows one misses its own fingerprint (`CloudflareCodec.PreservedIff`,
    `DividedNames.DividedTargetIsNeverConfirmed`, `DividedNames.TargetSetMissesItsFingerprint`);
  - a record name with an empty label is accepted, and once it is written no listing of the zone
    succeeds (`CloudflarePlan.UnreadableNameBlocksListing`, `DividedNames.DividedOwnerBlocksListing`);
  - a zone name so given ends in a dot that is lost when a name is completed with it, so the record
    name leaves the zone (`Names.RecordNameIsInZoneIff`, `Names.RecordNameCanLeaveItsZone`). Zones are
    used under canonical names, with which this cannot happen (`Names.CanonicalZonesAreWhole`).
- A relative name that itself lies in the zone reads back as a different name
  (`Names.RecordNameRoundTripIff`): in every zone short enough for it, the zone's name written twice
  reads back as the apex (`Names.DoubledZoneIsMisread`).
- Without a Tencent extension an old remark is left in place and the confirmation waits for its
  absence (`TencentWrites.SkippedIsExpectedIff`). `TencentUpdate.UpdateConfirmedIff` says exactly when
  an update as a whole is confirmed; two different entries, one bare and one that spells out the defaults,
  are never confirmed together (`TencentUpdate.DifferentEntriesCanBeExpectedAlike`).
- A TOTP setup that read "not confirmed" and commits after a confirmation leaves a required second
  factor without a confirmed credential (`AuthTokens.BackedUnlessLateSetup`,
  `AuthTokens.BackedUntilLateSetup`, `AuthTokens.RequirementCanLoseItsCredential`).
- A TOTP setup that commits while a confirmation is under way makes the confirmation confirm a
  credential no code was checked against (`AuthConfirmation.ConfirmedIsVerifiedIff`,
  `AuthConfirmation.UnverifiedCanBeConfirmed`). The login is not affected
  (`AuthLogin.LoginUsesTheVerifiedCredential`).

## Model

| member | source | states |
|---|---|---|
| `ClientRuntime.ProviderAccountRuntime.constructor` | internal/service/provider_clients.go:143-156 | a fresh runtime is at generation 1, caches nothing and has armed no timer |
| `ClientRuntime.ProviderAccountRuntime.Snapshot` | internal/service/provider_clients.go:158-162 | returns the current generation |
| `ClientRuntime.ProviderAccountRuntime.Lookup` | internal/service/provider_clients.go:170-183 | on the fields: hands out the stored client exactly for an unexpired lookup of the current generation, an enabled entry and the same revision, stamp and options; any other lookup of the generation leaves nothing cached; another generation changes nothing |
| `ClientRuntime.ProviderAccountRuntime.Store` | internal/service/provider_clients.go:185-206 | stores only into the generation the build started from, replacing entry and timer and taking the next sequence number |
| `ClientRuntime.ProviderAccountRuntime.Invalidate` | internal/service/provider_clients.go:218-225 | clears the entry and starts a new generation; the sequence number is kept |
| `ClientRuntime.ProviderAccountRuntime.TimerFires` | internal/service/provider_clients.go:197-203 | a late timer of an older store leaves the runtime as it is |
| `ClientRuntime.TimerClearsOnlyItsOwn` | internal/service/provider_clients.go:196-203 | an expiry timer clears exactly the client whose store armed it |
| `ClientRuntime.StoreThenLookup` | internal/service/provider_clients.go:170-225 | a stored client is handed out again exactly to an unexpired lookup of its generation that read the same version of an enabled row, and never after an invalidation |
| `ProviderStore.Store.ReplaceZoneIndex` | internal/db/provider_store.go:205-260 | succeeds exactly when every upsert avoids a taken identifier and the revision and stamp still hold; then upserts in order, marks the missing live rows and restamps the account |
| `ProviderStore.Store.ReplaceZoneIndexWithinTx` | internal/service/zone_sync.go:96-124 | the same inside its transaction: whole or not at all |
| `ProviderStore.Store.UpsertZoneIndex` | internal/db/provider_store.go:298-345 | writes one zone row, keeping an existing identifier and clearing its deletion, only while revision and stamp hold |
| `ProviderStore.Store.MarkZoneDeleted` | internal/db/provider_store.go:278-296 | marks exactly the live row with that identifier and account, only while revision and stamp hold; succeeds iff there is one |
| `ProviderStore.Store.InvalidateZoneIndex` | internal/db/provider_store.go:262-276 | marks every live row of the account deleted and touches no other account |
| `ProviderStore.Store.UpdateAccountWithinTx` | internal/service/provider_accounts.go:119-191 | commits exactly on the expected stamp; then each given column has the given value and each other its old one, other accounts are as they were, and the zone index is dropped exactly when options are given |
| `ProviderStore.Store.ReplaceCredentialWithinTx` | internal/db/provider_store.go:147-178 | commits exactly on the expected revision; then the revision is one higher, the other columns are kept and the zone index is dropped |
| `ProviderStore.UpsertedAllContents` | internal/db/provider_store.go:205-240 | after the upsert loop each listed zone has the row of its entry, identifiers of known zones survive, everything else is untouched |
| `ProviderStore.ReplaceZoneIndexContents` | internal/db/provider_store.go:205-260 | after a sync the live zones of the account are exactly the listed ones, with their data and old identifiers; other accounts are unchanged; missing rows are deleted once; identifiers stay distinct |
| `ProviderStore.SyncContents` | internal/db/provider_store.go:205-260 | a sync commits exactly on the expected version and with free identifiers for its new zones, and restamps the account alone |
| `ProviderStore.ValidationContents` | internal/db/provider_store.go:180-199 | a validation result commits exactly on the expected revision and stamp and changes the stamp alone |
| `ProviderStore.RefreshContents` | internal/db/provider_store.go:298-345 | a refresh leaves one live row with the listed data, under its old identifier if it had one, or fails on a taken identifier or a passed version |
| `ProviderStore.MarkContents` | internal/db/provider_store.go:278-296 | marking a missing zone deletes that one live row and nothing else |
| `ProviderStore.DeletionContents` | internal/db/provider_store.go:201-203 | deleting an account deletes its row and all its zone rows and nothing else |
| `ProviderStore.ReplaceKeepsCoherence` | internal/db/provider_store.go:205-260 | replacing the index from a listing by the current client keeps every live row listed by its account's current client |
| `ProviderStore.RefreshKeepsCoherence` | internal/db/provider_store.go:298-345 | so does refreshing one zone |
| `ProviderStore.UpdateKeepsCoherence` | internal/db/provider_store.go:121-145 | so does an account update, because changed options empty the index |
| `ProviderStore.CredentialKeepsCoherence` | internal/db/provider_store.go:147-178 | so does a credential replacement |
| `ProviderStore.MarkingKeepsCoherence` | internal/db/provider_store.go:278-296 | so does marking one zone deleted |
| `ProviderStore.DeletionKeepsCoherence` | internal/db/provider_store.go:201-203 | so does deleting an account together with its zones |
| `AccountSafety.GuardFindsTheRow` | internal/db/provider_store.go:240-258 | a commit guarded by revision and stamp that succeeds found exactly the row its client was looked up with |
| `AccountSafety.StepKeepsInv` | internal/service/provider_clients.go:57-116 | the inductive invariant over lookups, syncs, refreshes, validations, edits, expiries and aborts |
| `AccountSafety.ZoneIndexCoherent` | internal/service/zone_sync.go:45-124 | in every state of every run each live zone row belongs to an existing account and was last written from a listing by a client of its present credential revision and options |
| `AccountSafety.LookupLinearizes` | internal/service/provider_clients.go:57-116 | a lookup that returns a client and a row returns a version of the account that was current at an instant inside the call, enabled, with the client built from it |
| `AccountSafety.EditFencesOlderClients` | internal/service/provider_accounts.go:119-277 | once an edit, credential replacement or deletion has returned, no runtime caches an older client and no client that passes the generation check was looked up at an older version |
| `AccountSafety.BuildsAreExclusive` | internal/service/provider_clients.go:57-116 | at most one request holds a runtime's build slot |
| `AccountEffects.CacheHitIff` | internal/service/provider_clients.go:57-116 | a lookup returns the cached client exactly when it is unexpired, enabled, of its generation and of the version just read; otherwise nothing stays cached in its generation and a client is built from the row |
| `AccountEffects.ReadRowIff` | internal/service/provider_clients.go:57-116 | a lookup goes on exactly for an existing, enabled account with a credential |
| `AccountEffects.AttemptsAreBounded` | internal/service/provider_clients.go:57-116 | no lookup ever has more than three attempts |
| `AccountEffects.SyncCommitsIff` | internal/service/zone_sync.go:45-124 | a sync commits exactly when the account's row is still the one its client was looked up with and the identifiers of new zones are free; then the live zones are its listing, under their old identifiers, and nothing else changes but the stamp |
| `AccountEffects.StoreClientIff` | internal/service/provider_clients.go:185-206 | a built client is cached and returned exactly when its generation is still current; otherwise an attempt is used up |
| `AccountEffects.EditCommitsIff` | internal/service/provider_accounts.go:119-277 | an edit commits exactly when the row it was begun on is still there, as the next version, with its columns changed and its zone index dropped as asked; otherwise nothing changes |
| `AccountEffects.EditsLogTheirChange` | internal/service/provider_accounts.go:119-277 | in every run a committed edit is a version that differs from the one before in exactly the columns it gave |
| `AccountEffects.DisabledVersionIsNeverServed` | internal/service/provider_clients.go:57-116 | in every run a lookup that read at or after a committed disabling read a later, enabled version |
| `AccountEffects.DisabledAccountIsFenced` | internal/service/provider_accounts.go:119-191 | once a disabling has returned, a cached or still passing client of the account is from a later version that enabled it again |
| `CallGate.CallHoldersAfter` | internal/service/provider_clients.go:247-249 | the call semaphore counts exactly the calls that hold it |
| `CallGate.StepKeepsInv` | internal/service/provider_clients.go:238-276 | channel counters equal their holders, within capacity, after every step |
| `CallGate.ConcurrencyIsBounded` | internal/service/provider_clients.go:238-276 | in every reachable state at most eight calls and at most one mutation are inside the provider |
| `CallGate.SupersededCallsAreFenced` | internal/service/provider_clients.go:240-242 | a call that has not reached the provider when its generation passes never reaches it |
| `CallGate.EntersIff` | internal/service/provider_clients.go:238-276 | a call enters the provider exactly if its generation is still current; otherwise it gives its slot back |
| `CallGate.NeverStuck` | internal/service/provider_clients.go:267-276 | while a call is unfinished some call can take its own next step: taking mutations before calls cannot deadlock |
| `CallGate.WorkDecreases` | internal/service/provider_clients.go:238-276 | every step but an arrival or invalidation uses up work, so the calls present finish |
| `RecordCache.DNSRecordCache.constructor` | internal/service/dns.go:158-170 | the cache starts empty |
| `RecordCache.DNSRecordCache.InvalidateZone` | internal/service/dns.go:556-563 | drops the zone's entry and starts a new generation, also for an unknown zone |
| `RecordCache.DNSRecordCache.InvalidateAccount` | internal/service/dns.go:565-576 | does that for exactly the zones last fetched for the account |
| `RecordCache.DNSRecordCache.CachedRecordSets` | internal/service/dns.go:578-584 | hits exactly when the zone has an entry of the same account, revision and stamp, and returns that entry |
| `RecordCache.DNSRecordCache.BeginRecordFetch` | internal/service/dns.go:586-594 | every fetch takes a generation of its own; the entry stays |
| `RecordCache.DNSRecordCache.StoreRecordFetch` | internal/service/dns.go:596-604 | a result is kept only by the fetch that still holds the generation |
| `RecordCacheSafety.StepKeepsInv` | internal/service/dns.go:556-604 | the inductive invariant over fetches, mutations, lookups and invalidations |
| `RecordCacheSafety.ReadsItsOwnWrites` | internal/service/dns.go:335-336 | once a create, update or delete has returned, whatever its outcome, every later hit on the zone is from a fetch begun after it returned |
| `RecordCacheSafety.ListingsAreKeptInBeginOrder` | internal/service/dns.go:586-604 | kept listings of a zone follow each other in the order their fetches began |
| `RecordCacheSafety.AccountInvalidationIsFinal` | internal/service/dns.go:565-576 | after an account invalidation no entry of its zones is left and no fetch under way for them can be kept |
| `RecordCacheSafety.HitsWereKeptForTheirVersion` | internal/service/dns.go:578-604 | in every run each hit is a listing that was kept for exactly the account, credential revision and stamp asked for |
| `RecordCacheSafety.InvalidationIsSeen` | internal/service/dns.go:335-336 | from the beginning of a mutation on, and after every later invalidation, hits on the zone are listings fetched after it |
| `RecordCacheSafety.AccountInvalidationIsSeen` | internal/service/dns.go:565-576 | after an account invalidation every later hit on a zone the account owns is a listing fetched after it |
| `Txt.ScanEscape` | internal/provider/domain.go:361-380 | decodes one escape: three digits up to 255 as a byte, any other character as itself; refuses an incomplete or too large one |
| `Txt.ScanSegment` | internal/provider/domain.go:346-383 | reads one quoted segment exactly as the recursive grammar does, or reports the same error |
| `Txt.ScanSegments` | internal/provider/domain.go:337-385 | reads the whole list of segments, refusing one longer than 255 bytes |
| `Txt.CanonicalizeTXT` | internal/provider/domain.go:330-390 | the parser as a whole computes the canonical form of the grammar |
| `Txt.WireTXTContent` | internal/provider/cloudflare/mapping.go:349-372 | prints one quoted string with quotes, backslashes and control bytes escaped |
| `Txt.ParseEscaped` | internal/provider/domain.go:346-383 | what the printer escapes the parser reads back, whatever follows the closing quote |
| `Txt.ParseJoined` | internal/provider/domain.go:337-385 | space-joined segments read as the concatenation of their values, unless one is over 255 bytes |
| `Txt.JoinedRoundTrip` | internal/provider/domain.go:330-390 | printing a list and parsing it gives the concatenation exactly when every value is valid UTF-8 of at most 255 bytes and the total is at most 65535 |
| `Txt.PrintedRoundTrip` | internal/provider/cloudflare/mapping.go:349-372 | one printed value reads back as itself exactly when it is valid UTF-8 of at most 255 bytes |
| `Txt.FixedIff` | internal/provider/domain.go:330-337 | a value is its own canonical form exactly when it is acceptable, does not look quoted and fits |
| `Txt.IdempotentIff` | internal/provider/domain.go:330-390 | canonicalizing twice equals once exactly when the first result does not look quoted and has no NUL, CR or LF |
| `Txt.UnquotedIsIdempotent` | internal/provider/domain.go:330-337 | canonicalizing twice equals once for every accepted text that does not look quoted |
| `Txt.JoinedIdempotentIff` | internal/provider/domain.go:330-390 | for printed segments it does exactly when their concatenation neither looks quoted nor holds NUL, CR or LF |
| `Txt.NotIdempotent` | internal/provider/domain.go:330-390 | a doubly quoted text on which canonicalizing twice differs from once |
| `TxtGrammar.SegmentIff` | internal/provider/domain.go:346-383 | the parser reads one quoted string exactly as it can be spelled from plain, escaped and numbered bytes |
| `TxtGrammar.SegmentsIff` | internal/provider/domain.go:337-385 | the parser accepts exactly the lists of spelled strings of at most 255 bytes with blanks around them, and returns the concatenation of what they mean |
| `TxtGrammar.CanonicalIff` | internal/provider/domain.go:330-390 | exactly which texts are accepted and what each becomes, without reference to the parser |
| `CloudflareCodec.TxtReadsBack` | internal/provider/cloudflare/mapping.go:237-244 | exactly the TXT values that come back from a Cloudflare zone, whose content is parsed twice: acceptable, not opening with a quote, one character string long and not blank |
| `HuaweiTxt.CutPoint` | internal/provider/huawei/mapping.go:386-402 | a cut is after the start, within the limit (or one rune), at a rune boundary and as late as possible |
| `HuaweiTxt.SplitUTF8` | internal/provider/huawei/mapping.go:386-402 | the pieces are non-empty, bounded, valid, maximal, and concatenate to the input |
| `HuaweiTxt.QuoteHuaweiTXT` | internal/provider/huawei/mapping.go:364-377 | accepts exactly the non-empty, valid texts without quotes, backslashes and line controls up to the size limit, and its output parses back to the text |
| `HuaweiTxt.QuotedSegmentsReadBack` | internal/provider/huawei/mapping.go:364-377 | however an accepted text is cut into valid pieces of at most 255 bytes, the quoted pieces joined by spaces read back as the text |
| `Names.CanonicalizeName` | internal/provider/domain.go:267-304 | the label loop computes the canonical name |
| `NameRules.NameIff` | internal/provider/domain.go:267-304 | a name is accepted exactly when every label between its dots is, by the rules for stars, underscores and mapped labels, and becomes the canonical labels joined, within 63 and 253 bytes |
| `NameRules.RecordNameLeadsTo` | internal/provider/domain.go:24-45 | nothing or @ leads to the apex, a name in the zone to itself, any other name below the zone unless a final dot makes it complete |
| `Names.CanonicalNameIsIdempotentIff` | internal/provider/domain.go:267-304 | canonicalizing a canonical name changes nothing exactly when no label was mapped to a text with an empty piece |
| `Names.CanonicalNameCanChange` | internal/provider/domain.go:293-297 | a label with an ideographic full stop whose name changes when canonicalized again |
| `Names.CanonicalNameTwice` | internal/provider/domain.go:267-304 | canonicalizing a canonical name again leaves it alone when it has no empty label, takes off a final dot when that is its only empty label, and refuses it otherwise |
| `Names.RecordNameIsInZoneIff` | internal/provider/domain.go:24-45 | a canonical record name is the apex or below it, unless it was completed with a zone name that has an empty label |
| `Names.RecordNameCanLeaveItsZone` | internal/provider/domain.go:24-45 | a zone name and a record name whose canonical form is outside the zone |
| `Names.RecordNameTwice` | internal/provider/domain.go:24-45 | for every zone and name: canonicalizing a record name again leaves it alone, or refuses it exactly when it has an empty label; it is never stable when completing it lost the zone |
| `Names.CanonicalZonesAreWhole` | internal/provider/domain.go:16-24 | a canonical zone name can be used exactly when it has no empty label |
| `NameLaws.NamesAreLawful` | internal/provider/domain.go:16-45 | the laws the record-set model asks of targets and owner names hold of the program's canonicalization |
| `Names.RelativeRoundTripIff` | internal/provider/tencent/mapping.go:288-313 | for a name below the apex the relative form reads back as the name exactly when it does not itself lie in the zone |
| `Names.RecordNameRoundTripIff` | internal/provider/tencent/mapping.go:288-313 | the same for every canonical record name, the apex included |
| `Names.DoubledZoneIsMisread` | internal/provider/tencent/mapping.go:288-313 | in every zone short enough for it the zone's name written twice is a record name whose relative form reads back as the apex |
| `Names.RelativeFormIff` | internal/provider/tencent/mapping.go:296-313 | the relative form is @ for the apex and what stands before the zone's name otherwise |
| `Names.RelativeNameCanBeMisread` | internal/provider/tencent/mapping.go:288-313 | the same for the zone a and the name a.a, with a mapping that meets the laws |
| `RecordSetIds.EncodeRecordSetID` | internal/provider/tencent/mapping.go:504-523 | encodes the sorted IDs and rejects empty lists, invalid IDs and repetitions |
| `RecordSetIds.EncodableIff` | internal/provider/tencent/mapping.go:504-523 | a list of IDs is encoded exactly when it has IDs, every one is a positive 64-bit numeral and none is repeated |
| `RecordSetIds.EncodedEqualIff` | internal/provider/tencent/mapping.go:504-523 | two record-set IDs are equal exactly when they name the same native records |
| `RecordSetIds.DecodedIff` | internal/provider/tencent/mapping.go:525-542 | the decoder accepts exactly encoder output and returns the sorted IDs |
| `Decimals.AtoiReadsDecimal` | internal/service/dns.go:740-743 | a printed offset reads back, up to the largest 64-bit integer |
| `Decimals.AtoiIff` | internal/service/dns.go:740-743 | what is read as an offset: digits with or without one sign, within 64 bits |
| `Sorting.OrderingIsUnique` | internal/provider/fingerprint.go:61-65 | two orderings of the same items are the same list when the order leaves no ties |
| `Sorting.LessEqIff` | internal/provider/fingerprint.go:61-65 | texts are ordered by their first difference, a text before its extensions |
| `Fingerprints.FingerprintIff` | internal/provider/fingerprint.go:44-71 | fingerprints are equal exactly when name, type, TTL, extensions, version and the multiset of entries are |
| `Fingerprints.MatchesIff` | internal/provider/fingerprint.go:91-106 | the precondition accepts exactly the sets whose normal form has the content it was taken from and whose version is the one given, and is undecided exactly on sets without a normal form |
| `Fingerprints.NormalizeIff` | internal/provider/domain.go:92-142 | the normal form keeps type, TTL, extensions and entry order, normalizes each entry and refuses repetitions, and exists exactly when its parts do |
| `Fingerprints.NormalizingAgainShortens` | internal/provider/domain.go:144-230 | normalizing a normalized entry again leaves it alone or shortens its value or target |
| `Fingerprints.OwnFingerprintMatchesIff` | internal/provider/fingerprint.go:91-106 | a listed set meets the precondition taken from it exactly when all its entries look plain: TXT text neither blank, quoted nor with NUL, CR or LF, CAA text without outer blanks or opening quote, targets without empty labels |
| `Fingerprints.ListedSetCanMissItsFingerprint` | internal/provider/fingerprint.go:91-106 | a listed TXT set that never meets it |
| `RecordEntries.CaaFixedIff` | internal/provider/domain.go:205-216 | a CAA value is its own normal form exactly when it has no outer blanks and no opening quote |
| `RecordEntries.FixedEntryIff` | internal/provider/domain.go:144-230 | a normalized entry is its own normal form exactly when it looks plain, by type: TXT and CAA text as above, a target that is the root or has no empty label, addresses always |
| `CloudflareCodec.PreservedIff` | internal/provider/cloudflare/mapping.go:197-347 | exactly which normalized entries come back unchanged after being written and listed, by type |
| `CloudflareRequests.NormalizedIff` | internal/provider/domain.go:144-230 | for every type which entries are accepted and what each becomes, field by field: numbers are kept, targets, addresses and texts canonicalized |
| `CloudflareRequests.WrittenColumns` | internal/provider/cloudflare/mapping.go:311-347 | a record is written with exactly the desired name, type, options and entry fields, automatic TTL as 1 |
| `CloudflareRequests.DecodedIff` | internal/provider/cloudflare/mapping.go:117-154 | which records are shown, and under which key and entry, column by column |
| `CloudflareGrouping.CheckDistinct` | internal/provider/domain.go:114-130 | a group is refused exactly when two of its records hold the same entry |
| `CloudflareGrouping.CollectGroups` | internal/provider/cloudflare/mapping.go:50-71 | the grouping loop fails exactly on an undecodable supported record and otherwise builds the partition by key |
| `CloudflareGrouping.GroupRecords` | internal/provider/cloudflare/mapping.go:50-71 | groups the listed records, or fails exactly when one does not decode or a set holds an entry twice |
| `CloudflareGrouping.GroupingPartitions` | internal/provider/cloudflare/mapping.go:50-115 | each supported record is in exactly one set and no set is empty |
| `CloudflareGrouping.GroupedIff` | internal/provider/cloudflare/mapping.go:50-71 | a set holds exactly the records shown under its key, each with the entry it is shown with |
| `CloudflareListing.ListRows` | internal/provider/cloudflare/mapping.go:50-115 | returns the listing of the groups: members sorted by record ID, the set ID made of theirs, the newest version, the sets sorted by name, type, TTL and ID; or fails exactly when grouping does |
| `CloudflareListing.ListingIgnoresOrder` | internal/provider/cloudflare/mapping.go:50-115 | permuting the listed records changes neither success nor the sorted list |
| `CloudflareListing.ListedInOrder` | internal/provider/cloudflare/mapping.go:100-115 | listed sets stand in the order of name, type, TTL and ID, each deciding where those before it tie |
| `Listings.SortGroups` | internal/provider/cloudflare/mapping.go:73-115 | the second loop and the sorts make a listing, in whatever order the groups are met |
| `Listings.ListingIsUnique` | internal/provider/cloudflare/mapping.go:73-115 | the groups determine the listing: same sets, same members, same order |
| `Listings.ListedSetsDiffer` | internal/provider/cloudflare/mapping.go:75-79 | different sets of a listing have different keys and different IDs |
| `CloudflareRequests.UpdateAcceptedIff` | internal/provider/cloudflare/mutations.go:60-99 | an update is accepted with a plan exactly when the precondition holds, the desired key has the canonical name, type and TTL of the input and the options of the extension over those of the current set, the entries are the input's in canonical form with their IDs, the option rules allow it, and it merges with no other set |
| `CloudflareRequests.CreationAcceptedIff` | internal/provider/cloudflare/mutations.go:21-42 | the same for a creation, over the defaults and without IDs |
| `CloudflareRequests.ClashIsConflict` | internal/provider/cloudflare/mutations.go:77-99 | a well-formed update is a conflict exactly when another set has its key or an entry names a foreign record |
| `CloudflareRequests.UpdateRefusedWith` | internal/provider/cloudflare/mutations.go:60-75 | the precondition is looked at first, and an ill-formed update is invalid |
| `CloudflarePlan.PlanUpdate` | internal/provider/cloudflare/mutations.go:60-99 | an admitted plan replaces the current set and merges with no other |
| `CloudflarePlan.PlanUpdateIsSound` | internal/provider/cloudflare/mutations.go:60-99 | a plan that passed the checks has a key that can be written, distinct entries and IDs, keeps only members of the current set and merges with no other, whatever the name |
| `CloudflarePlan.ValidateCreateIsSound` | internal/provider/cloudflare/mutations.go:21-42 | the same for a creation |
| `CloudflarePlan.ValidatedOptions` | internal/provider/cloudflare/mapping.go:374-427 | accepted options: the extension over the fallback, a read-only proxiable flag, proxying only for types that have it and with automatic TTL, and the TTL ranges |
| `CloudflarePlan.ValidatedIsWritable` | internal/provider/cloudflare/mapping.go:374-427 | validated options always give a key whose options can be written and read back |
| `CloudflarePlan.WrittenReads` | internal/provider/cloudflare/mutations.go:260-310 | a written record lists under the desired key with its entry exactly when the name reads back and the codec preserves the entry |
| `CloudflarePlan.WritesSurviveIff` | internal/provider/cloudflare/mapping.go:118-165 | what a plan in normal form writes survives exactly when its name has no empty label and each written entry is durable |
| `CloudflarePlan.UnreadableNameBlocksListing` | internal/provider/cloudflare/mapping.go:50-71 | once a record is written under a name with an empty label, every listing of the zone is refused |
| `CloudflarePlan.EquivalentListedKeys` | internal/provider/cloudflare/mutations.go:311-315 | ignoring `proxiable` confuses no two sets when it is a function of name and type |
| `CloudflarePlan.ReconcileCommutes` | internal/provider/cloudflare/mutations.go:56-129 | on a provider that applied every call, grouping the finished zone gives the old grouping with the current set replaced by the desired one and nothing else |
| `CloudflarePlan.ConfirmedIff` | internal/provider/cloudflare/mutations.go:188-202 | the final check passes exactly when the name and every entry that was written survive being written and listed |
| `CloudflareExample.ChangeIsAdmitted` | internal/provider/cloudflare/mutations.go:60-99 | a concrete update that writes a quoted-looking TXT entry and passes every check |
| `CloudflareExample.ChangeCanFinish` | internal/provider/cloudflare/mutations.go:102-128 | the provider can carry it out |
| `CloudflareExample.AdmittedUpdateCanBeUnconfirmed` | internal/provider/cloudflare/mutations.go:188-202 | however it is carried out, no listing confirms it |
| `DividedNames.DividedTargetIsLost` | internal/provider/domain.go:245-262 | a target given with an ideographic full stop that is shown with a final dot and comes back without it |
| `DividedNames.TargetSetMissesItsFingerprint` | internal/provider/fingerprint.go:91-106 | a listed set with that target never meets the precondition taken from it |
| `DividedNames.CreationCanFinish` | internal/provider/cloudflare/mutations.go:44-54 | in an empty zone the provider can carry out every creation of one entry |
| `DividedNames.DividedTargetIsNeverConfirmed` | internal/provider/cloudflare/mutations.go:188-202 | a creation of that target passes every check, and however it is carried out no listing confirms it |
| `DividedNames.DividedOwnerBlocksListing` | internal/provider/cloudflare/mapping.go:50-71 | a creation under a name with an empty label passes every check, and once carried out no listing succeeds |
| `CloudflarePlan.ConfirmedSet` | internal/provider/cloudflare/mutations.go:188-202 | whichever listed set has exactly the expected entries is the desired set |
| `CloudflarePlan.SetsHaveTheirOwnIds` | internal/provider/cloudflare/mapping.go:472-488 | no two sets of a listing have the same record IDs |
| `CloudflarePlan.DeletionCommutes` | internal/provider/cloudflare/mutations.go:131-148 | deleting the records of a set deletes the set from the grouping and nothing else |
| `CloudflareZone.OutsideIsUntouched` | internal/provider/cloudflare/mutations.go:102-128 | in every state of an update, including where it fails, records outside the current set are as they were |
| `CloudflareZone.KeptIsPresent` | internal/provider/cloudflare/mutations.go:102-128 | in every such state each kept record is present |
| `CloudflareZone.NothingIsDeletedEarly` | internal/provider/cloudflare/mutations.go:102-128 | a record is missing only after every create and update of the plan has been applied |
| `CloudflareZone.ProviderZone.ListRecordSets` | internal/provider/cloudflare/mutations.go:176-186 | lists and groups the zone, or fails |
| `CloudflareZone.ProviderZone.WriteEntries` | internal/provider/cloudflare/mutations.go:102-119 | the create and update loop puts each entry in place in order through safe states, or stops in one |
| `CloudflareZone.ProviderZone.DeleteReplaced` | internal/provider/cloudflare/mutations.go:120-127 | the delete loop removes exactly the replaced members through safe states, or stops in one |
| `CloudflareZone.ProviderZone.FindFinalRecordSet` | internal/provider/cloudflare/mutations.go:188-202 | succeeds exactly when a listed set has exactly the expected entries and an equivalent key, and returns it |
| `CloudflareZone.ProviderZone.UpdateRecordSet` | internal/provider/cloudflare/mutations.go:56-129 | refused updates write nothing; admitted ones do what was asked, field by field, and pass through safe states only; with every call answered they finish, and succeed exactly when what they wrote survives, which its name and entries decide, with the old listing and that one set replaced; a success confirms a plan that is what was asked |
| `CloudflareZone.ProviderZone.CreateRecordSet` | internal/provider/cloudflare/mutations.go:17-54 | the same for a creation, which replaces nothing |
| `CloudflareZone.ProviderZone.DeleteRecordSet` | internal/provider/cloudflare/mutations.go:131-148 | deletes exactly the listed set with these record IDs that the precondition accepts: removes records of the set only; with every call answered exactly the set is gone, and the verification passes exactly when no other set has an equivalent key |
| `CloudflareZone.GoneIff` | internal/provider/cloudflare/mutations.go:204-217 | the deletion check is passed exactly when no other set has an equivalent key |
| `CloudflareZone.AdmitUpdateIff` | internal/provider/cloudflare/mutations.go:60-99 | an update of the listed set with these record IDs is admitted with a plan exactly when the plan is what was asked |
| `CloudflareZone.AdmitCreateIff` | internal/provider/cloudflare/mutations.go:21-42 | the same for a creation |
| `CloudflareZone.LeftAloneIff` | internal/provider/cloudflare/mutations.go:102-119 | a kept record is left alone exactly when it already shows the desired entry under the desired key |
| `TencentWrites.WireValueIsInjective` | internal/provider/tencent/mapping.go:270-286 | two normalized entries of a type with the same wire value are the same entry |
| `TencentWrites.StatusIff` | internal/provider/tencent/mapping.go:470-483 | the words an enabled or disabled status may be given in |
| `TencentWrites.SkipIff` | internal/provider/tencent/mutations.go:448-465 | when the remark is settled, a record is left alone exactly when it already is the expected entry |
| `TencentWrites.SkippedIsExpectedIff` | internal/provider/tencent/mutations.go:448-465 | a skipped record is the expected one exactly when the desired entry has an extension or the old remark is empty |
| `TencentWrites.OldRemarkIsOverlooked` | internal/provider/tencent/mutations.go:273-280 | an old remark with which a skipped record differs from the expected entry |
| `TencentUpdate.SkippedIff` | internal/provider/tencent/mutations.go:448-465 | in a planned update a skipped record is already under the desired key, and is what the final listing expects exactly when its remark is settled |
| `TencentUpdate.PlacedIff` | internal/provider/tencent/mutations.go:65-162 | an entry's record decodes as expected exactly when the entry was skipped with its remark settled or its written record reads back |
| `TencentUpdate.ConfirmedIff` | internal/provider/tencent/mutations.go:65-303 | with every call answered the final check passes exactly when no two entries are expected to look alike, each skipped record's remark is settled and each written record reads back as expected |
| `TencentUpdate.WrittenReadsBackIff` | internal/provider/tencent/mutations.go:305-378 | a written record is listed as expected exactly when its name comes back, its entry looks plain and its remark was sent or empty before |
| `TencentUpdate.UpdateConfirmedIff` | internal/provider/tencent/mutations.go:65-303 | with every call answered the update is confirmed exactly when no two entries are expected to look alike, no entry without an extension replaces a remark, and what is written has a name that comes back and looks plain: from the plan and the old zone alone |
| `TencentUpdate.DifferentEntriesCanBeExpectedAlike` | internal/provider/tencent/mutations.go:273-280 | a bare entry and one that spells out the defaults differ and are expected to look alike |
| `TencentListing.ListGroups` | internal/provider/tencent/mapping.go:119-166 | sorts a domain's groups into the list a listing returns |
| `TencentListing.ListingIgnoresOrder` | internal/provider/tencent/mapping.go:93-166 | permuting the listed records changes neither success nor the sorted list |
| `TencentListing.ListedInOrder` | internal/provider/tencent/mapping.go:145-166 | listed sets stand in the order of name, type, TTL, line ID, line and ID, each deciding where those before it tie |
| `TencentListing.DecodedIff` | internal/provider/tencent/mapping.go:168-212 | which records are shown, and under which key and entry, column by column |
| `TencentListing.RecomputedKey` | internal/provider/tencent/mapping.go:393-427 | the key recomputed from a listed set and its first entry is the key it was grouped under |
| `TencentListing.RecomputedKeysDiffer` | internal/provider/tencent/mapping.go:421-427 | different sets of a listing have different recomputed keys |
| `Paging.AbsorbPage` | internal/service/dns.go:619-629 | a page is absorbed exactly when all items normalize and none repeats an ID |
| `Paging.FetchAll` | internal/service/dns.go:606-640 | at most 10000 calls; succeeds exactly when the pages form a complete chain without repeated cursor or ID, and returns their items in order |
| `OffsetPages.FetchReturnsTheList` | internal/provider/tencent/provider.go:409-428 | over an offset provider on a fixed list the fetch succeeds exactly when there are at most two million items, all normalize and the normal forms have distinct IDs, and returns those normal forms in order |
| `ListPages.CursorRoundTrip` | internal/service/dns.go:720-753 | a returned cursor opens exactly at the item after the page |
| `ListPages.WindowIff` | internal/service/dns.go:720-745 | which page a request opens: 1 to 200 items, 50 if none is asked for, from the offset its cursor names in this scope |
| `ListPages.CursorsKeepToTheirScope` | internal/service/dns.go:735-739 | a cursor of one collection is refused by every other, whatever the lengths of their names |
| `ListPages.PaginateRecordSets` | internal/service/dns.go:642-661 | filters in order and cuts out the window |
| `ListPages.FilteredSplits` | internal/service/dns.go:642-661 | filtering goes item by item and keeps the order |
| `ListPages.PagesCoverTheList` | internal/service/dns.go:642-753 | following the cursors with any accepted page sizes shows the filtered list exactly once, in order |
| `ListPages.ListRecordSets` | internal/service/dns.go:263-298 | an uncached listing: cursor errors first, then success exactly when the provider list can be read, and the requested window of its filtered items |
| `ListPages.ListingShowsTheList` | internal/service/dns.go:263-298 | end to end over an offset provider: listings succeed exactly when the list can be read, and following their cursors shows the normal form of each kept item once, in order |
| `AuthTransactions.Tables.UpdateUser` | internal/db/auth_users.go:90-130 | changes the given columns and the stamp, only while the stamp is the expected one |
| `AuthTransactions.Tables.SetUserDisabled` | internal/db/auth_users.go:132-143 | likewise for the disabled flag |
| `AuthTransactions.Tables.DeleteChallenge` | internal/db/auth_challenges.go:51-60 | deletes the row and what descends from it; fails when it is not there |
| `AuthTransactions.Tables.DeleteChallengesForUser` | internal/db/auth_challenges.go:75-80 | deletes exactly the user's challenges of a kind, with what descends from them |
| `AuthTransactions.Tables.ConfirmTotpCredential` | internal/db/auth_totp.go:50-61 | confirms an unconfirmed credential and records the step |
| `AuthTransactions.Tables.AcceptTotpTimestep` | internal/db/auth_totp.go:63-72 | accepts exactly a step later than the last one, on a confirmed credential |
| `AuthTransactions.Tables.CommitUserChange` | internal/auth/users.go:176-206 | the last-administrator check, the guarded update and the deletion of pending logins |
| `AuthTransactions.Tables.CommitUserDisabled` | internal/auth/users.go:227-263 | the same for disabling, which also takes grants and ceremonies |
| `AuthTransactions.Tables.CommitPasskeyDeletion` | internal/auth/passkeys.go:121-162 | counts, deletes and restamps the user in one transaction, never the last usable method |
| `AuthTransactions.Tables.CommitEnrollment` | internal/auth/enrollment.go:104-120 | deletes the grant and inserts the passkey, or does neither |
| `AuthTransactions.Tables.CommitGrant` | internal/auth/users.go:279-292 | replaces the user's grants by one new grant |
| `AuthTransactions.Tables.CommitCreateUser` | internal/auth/users.go:94-110 | inserts the user with a first grant |
| `AuthTransactions.Tables.CommitBootstrap` | internal/auth/bootstrap.go:177-200 | inserts the first administrator only into an empty table |
| `AuthTransactions.Tables.CommitTotpConfirmation` | internal/auth/totp_settings.go:67-92 | confirms and sets the requirement under the stamp, or neither |
| `AuthTransactions.Tables.CommitTotpDeletion` | internal/auth/totp_settings.go:109-138 | deletes the credential and lifts the requirement under the stamp, or neither |
| `AuthTransactions.Tables.CommitTotpLogin` | internal/auth/login.go:125-145 | accepts the step and consumes the pending login, or neither |
| `AuthEffects.CommitsIff` | internal/auth/users.go:176-263 | for each of the fifteen transactions the exact condition on the tables under which it commits |
| `AuthEffects.CommitLeaves` | internal/auth/users.go:176-263 | and what it then leaves, table by table and column by column: given columns have the given values, a disabled user has the flag and no pending login, grant or ceremony left, and nothing else changes |
| `AuthEffects.RefusedWith` | internal/auth/users.go:176-263 | and the error it is otherwise refused with |
| `AuthHistory.RequestsKeepTheirTask` | internal/auth/users.go:117-175 | every open request was opened by a step that asked for just that on the rows it found, and keeps its task |
| `AuthHistory.CommitBringsAbout` | internal/auth/users.go:176-263 | a request that commits brings about what it was made for, and one that is refused changes nothing |
| `AuthHistory.DirectStepsBringAbout` | internal/auth/passkeys.go:121-162 | the same for passkey deletions, new users, guesses and expiries, with the condition under which each takes effect |
| `AuthHistory.ColumnsChangeOnRequest` | internal/db/auth_users.go:90-143 | role, password, disabled flag and requirement of a user each change only by a committed request for that user that asked for the new value |
| `AuthHistory.DisabledUntilEnabled` | internal/auth/users.go:213-268 | in every run a disabled user stays disabled until a request to enable that user commits |
| `AuthHistory.PasskeysAppearOnRequest` | internal/auth/enrollment.go:104-120 | a passkey appears only for the user a committed registration, enrollment or bootstrap was made for |
| `AuthHistory.RunKeepsChallenges` | internal/db/auth_challenges.go:43-80 | in every reachable state no challenge was guessed more than five times and each enrollment ceremony has its grant, of the same user |
| `AuthHistory.EnrollmentIsForTheGrantsUser` | internal/auth/enrollment.go:60-124 | in every run a committing enrollment uses up a grant of its user and gives that user, and no other, a passkey |
| `AuthSafety.PasskeysAfter` | internal/auth/passkeys.go:121-162 | a user loses the last passkey only through a deletion that moves the stamp and leaves a usable password |
| `AuthSafety.TxKeepsSignIn` | internal/auth/password_settings.go:55-78 | no admitted transaction takes away the last usable sign-in method |
| `AuthSafety.SignInSurvives` | internal/auth/users.go:117-211 | over all runs, a user who can sign in once can sign in ever after |
| `AuthSafety.TxKeepsAdmin` | internal/auth/users.go:177-190 | no transaction with a truthful snapshot retires the last active administrator |
| `AuthSafety.ActiveAdminExists` | internal/auth/users.go:213-268 | every reachable state with users has an active administrator |
| `AuthSafety.OneBootstrapCommits` | internal/auth/bootstrap.go:177-200 | at most one bootstrap ever commits, and users exist exactly when one did |
| `AuthTokens.GrantEnrollsOnce` | internal/auth/enrollment.go:60-124 | at most one enrollment from a grant ever commits |
| `AuthTokens.DeadGrantNeverEnrolls` | internal/db/auth_challenges.go:43-60 | a deleted grant never enrolls afterwards |
| `AuthTokens.SupersededGrantNeverEnrolls` | internal/auth/users.go:270-292 | after a newer grant or a disabling, no enrollment from an older grant commits |
| `AuthTokens.TimeStepsRise` | internal/db/auth_totp.go:50-72 | between two setups accepted time steps, the confirming one included, rise strictly |
| `AuthTokens.BackedUnlessLateSetup` | internal/auth/totp_settings.go:14-47 | a required second factor stays backed by a confirmed credential in every step except exactly a setup committing after a confirmation |
| `AuthTokens.BackedUntilLateSetup` | internal/auth/totp_settings.go:14-47 | over whole runs every required factor stays backed exactly for as long as no such setup has committed |
| `AuthTokens.RequirementCanLoseItsCredential` | internal/auth/totp_settings.go:14-47 | a schedule from the empty database on which that happens |
| `AuthConfirmation.ConfirmedIsVerifiedIff` | internal/auth/totp_settings.go:49-92 | in every run a committing confirmation confirms the credential its code was checked against exactly when no setup of the user committed since that was read |
| `AuthConfirmation.UnverifiedCanBeConfirmed` | internal/auth/totp_settings.go:49-92 | a schedule from the empty database that confirms another credential |
| `AuthLogin.RunKeepsLogins` | internal/auth/login.go:77-150 | in every reachable state, while a pending login's row is there a confirmed credential of its user is the one the login read |
| `AuthLogin.LoginUsesTheVerifiedCredential` | internal/auth/login.go:77-150 | in every run a committing login accepts its step on the very credential its code was checked against, and changes nothing else of the credentials |

## Left out

- Provider SDK calls, HTTP transport, retries, timeouts and error classification: a provider call is an operation that may fail.
- CloudflareListing.ListRows: times and Tencent's time texts are numbers in their order, zero standing for none; the fingerprint a listing attaches to each set is modelled on its own.
- TencentListing.ListGroups: the loop that fills Tencent's groups is the one of `CloudflareGrouping.CollectGroups` and is not repeated; the groups are given as what it computes. The aggregated status and the default name server flag of a set are not modelled.
- TencentListing.RecomputedKey: SRV and CAA values are read by a parameter. The zone's own name is taken to have no empty label, which holds of every zone listed under a canonical name (`Names.CanonicalZonesAreWhole`).
- CloudflareGrouping.GroupRecords: record IDs are opaque numbers here, and a set's entries a map by record ID, which `CloudflareListing.ListRows` sorts; the tags of a record are a set, which assumes no tag contains the separator the program joins them with.
- CloudflareCodec.PreservedIff: SRV and CAA records listed without structured data are read by a parameter; the Cloudflare adapter always writes structured data for them. A TXT value over 255 bytes is stored as it was sent; Cloudflare's splitting on its side is not modelled.
- CloudflareZone.ProviderZone.UpdateRecordSet: no other writer changes the zone during the update. The precondition is a parameter there; fingerprints are modelled on their own.
- TencentUpdate.ConfirmedIff: the checks before the first write are given as what they guarantee (`TencentUpdate.Planned`); the states between the calls, the polling for the final state, the sets Tencent keeps read-only and deletion are not modelled.
- TencentUpdate.UpdateConfirmedIff: reading a printed SRV or CAA value is taken to give back what was printed; the statuses an update gives its entries are given.
- RecordCacheSafety.AccountInvalidationIsSeen: every fetch of a zone is taken to be made for the account that owns the zone, as the zone table says.
- NameLaws.NamesAreLawful: the zone's own name is taken to have no empty label, as above.
- Aliyun's adapter repeats Tencent's, and its weighted-routing switch acts on records of other sets. Huawei has native record sets, so only its text form is modelled.
- The zone pages a sync reads: their loop is the one of `Paging.FetchAll` with other limits; a sync's listing is any list of distinct zones made by its client.
- Paging.FetchAll: normalization of a listed record set is a parameter.
- AuthSafety.SignInSurvives: sign-in is having a passkey or an enabled password; that a disabled user is refused at login is a separate check of each request.
- AuthTokens.TimeStepsRise: which codes are valid for a time step is not modelled; a request may present any step.
- Sessions, except that each accepted step, enrollment and bootstrap opens one; revocation, idle expiry and cookies.
- WebAuthn, Argon2id and AES-GCM verification: requests that fail them are abandoned.
- SQL text, audit events, rate limiting, HTTP handlers and the web interface.
