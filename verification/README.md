# BrambleGate: a verified model of its decision logic

BrambleGate is a DNS front door for a home or lab network. This project models the parts of it
whose behaviour is subtle and proves what they promise, for every input and every run:

- **The VLAN/ECS answer cache** (`CacheKeys`, `CacheEntry`, `CacheStore`, `CachePolicy`,
  `CacheProtocol`, `CacheSafety`, `FlushEpoch`, `CacheDelivery`, `AfterFlush`, `CacheContents`). The two-tier store is a class whose
  methods update its tiers in place. The concurrent behaviour (client lookups, background refreshes,
  coalesced upstream calls, the flush epoch, two kinds of flush) is a transition system whose steps
  are the program's locked sections; a run is any sequence of steps, so the theorems hold for every
  interleaving.
- **The mDNS bridge** (`Glob`, `DiscoveryTable`, `Strings`): the backtracking matcher against an
  inductive definition of matching, and the discovery table.
- **The mDNS browser** (`RefreshCache`, `Browser`): refresh thresholds and known answers of
  RFC 6762 (sections 5.2 and 7.1). `Retirement` says what one message retires and leaves alive,
  `MessageData` what it makes of an instance's data, and `Mirror` joins browser and table over whole
  runs.
- **The query log** (`StatsRollup`, `QueryRing`, `LogWriter`, `Activity`): each accumulator against
  a plain count over everything it was given.
- **Split-horizon answers and VLAN matching** (`LocalRecords`, `VlanTable`, `IpNets`): recursive
  alias resolution per VLAN, CIDR arithmetic, and validation that makes first-match lookup
  independent of order.
- **Certificate upkeep** (`Acme`, `AcmeRuns`, `AcmeGenuine`): the reconcile loop over a map of files,
  with every file operation able to fail, and what whole runs of it issue, settle and serve.

`Common` holds shared vocabulary.

## What the proofs found

The code is modelled as it stands. Where a promise does not hold in general, the exact condition is
proved:

- The glob matcher tries a literal match before the star case, so a `*` in the subject can consume the
  pattern's `*`. It is right for all patterns exactly when the subject has no star, and right for all
  subjects exactly when the pattern has none (`Glob.ExactForSubject`, `Glob.ExactForPattern`).
- An upstream answer that is not cacheable carries no scope out of the shared call, so it is handed
  to the whole bucket whatever scope it echoed (`CacheDelivery.UncacheableIsShared`).
- One request drives the next plugin at most twice (`CacheDelivery.NextAtMostTwice`), and a second
  time only when its first answer is cacheable, not a failure, and echoes a client subnet whose
  family does not fit the requester's own address; for every such answer some run does
  (`CacheDelivery.MisfitCallsTwice`). With the requester's own family echoed it is once
  (`CacheDelivery.NextAtMostOnce`). The comment at `plugins/vlancache/handler.go:127-132` only has
  other requesters in mind.
- Add callbacks run before remove callbacks, so one message that says goodbye to an instance and
  announces it again makes the table drop a live instance (`Mirror.RevivalLosesTheInstance`).
  `Mirror.HeardExactly` gives the condition for any message: the browse knew the instance before,
  the message retires it, and it ends under the table key it had.
- The store is clean after a finished flush (`FlushEpoch.FinishedFlushIsFinal`), but a request that
  arrives later can still join a call that was in flight when the flush finished, and is then handed
  its older answer (`AfterFlush.JoinsOldCall`); there is no other way (`AfterFlush.ServedAfterFlush`).
- The scoped tier compares mask lengths alone. For an IPv4 address with a scope echoed as family 2 a
  wider block can win over a narrower one (`CacheStore.WideBlockWins`); `CacheStore.BestIsNarrowest`
  is the exact condition.
- A table key is text joined with bars, and the code does not refuse a bar in an instance label or a
  host. Two different instances can then share a key (`Mirror.BarsShareAKey`), and a goodbye to one
  takes the other's entry (`Mirror.SharedKeyLosesTheOther`). Mirroring therefore needs that no two
  known instances share a key (`Mirror.KeysTell`), which labels that differ by more than case and
  bar-free hosts give (`Mirror.BarFreeHostsTell`). `Mirror.ListedExactly` is the exact condition for
  one message with no assumption on keys.
- `buildAnswers` has no cycle guard: for an address type it terminates exactly when the VLAN's
  effective aliases do not loop (`LocalRecords.TerminatesExactly`). An answer that designates a
  resolver also looks up that resolver's addresses, so a query for it hangs when the target's
  aliases loop, although its own name has none (`LocalRecords.DesignatedLoopHangs`; a table
  of valid records is `LocalRecords.DesignatedLoop`). A whole query terminates exactly when both
  end (`LocalRecords.ServeEndsExactly`). The comment at
  `plugins/localrecords/handler.go:74-77` says an owned zone never falls through; the code does for
  the zones listed as falling through, and the model follows the code.
- A point of the statistics ring is exact precisely when its slot has not changed laps since
  (`StatsRollup.PointExactly`): a straggler one ring late resets the newer bucket.
- Four refresh reports need ticks no further apart than a twentieth of the TTL; a bound one
  nanosecond wider admits a schedule with three (`RefreshCache.FourReportsExactly`).
- The check behind a reconcile looks at the certificate and the recorded authority, never at the key.
  After any run from a first start, whatever files failed, and with no certificate or key ever
  issued twice, a satisfied check means certificate and key were issued together by the configured
  authority exactly when the last write to the active files left them whole
  (`AcmeGenuine.SatisfiedMeansGenuine`; which writes do is `AcmeGenuine.ActiveEffect`). A mixed pair
  goes unnoticed:
  under one unchanged configuration, with readable files and a cached pair that is itself whole,
  exactly when promoting fails at the record and installing then fails at the certificate
  (`AcmeGenuine.HiddenExactly`, `Acme.MixedUnderOneConfig`);
  under one configuration with no active write failing, when files cannot be read for a while and a
  cache write is lost (`AcmeGenuine.MixedWhileUnreadable`);
  when caching lost only its certificate and the domain flips back, with every active write landing
  (`Acme.MixedSlotIsPromoted`, a whole run in `AcmeGenuine.MixedRun`; slots exactly in
  `AcmeGenuine.SlotGenuineExactly`);
  and when the authority is flipped back after a partial installation (`Acme.FlipBackHidesFailure`).
- The renewal window is held in 64 bits of nanoseconds and the settings bound it only from below: a
  number of days that does not fit turns negative, and the certificate is then not due until long
  after it has expired (`Acme.DueExactly`).
- A failed reload is not tried again (`Acme.FailedReloadIsForgotten`). Promotion from the cache accepts
  a self-signed certificate that the check then rejects (`Acme.SettledExactly`).
- The log writer's own flushes use the context whose cancellation stops it. With a healthy database
  everything accepted in time is committed exactly when nothing was flushed between the stop being
  asked for and the loop noticing (`LogWriter.CloseCommitsExactly`); `LogWriter.LateFlushLoses` is a
  run that loses an entry accepted before the stop.

## Modelling choices

- Hashes are modelled by the bytes fed to them: the 64-bit FNV sum is taken to be injective on its
  input. Flush epochs are unbounded naturals.
- The direct tier's own capacity eviction is a parameter of each store. Its walk is a snapshot of the
  keys followed by one locked step per key. `getScoped` reads the list at one instant; the program
  releases its lock before going through the list, and `clearName` compacts in the same array.
- Go's net semantics are modelled: 4-byte and 16-byte addresses, masks of a family that does not fit
  (`IpNets.NetOfBlock`), and a prefix's text is equal exactly when its block is.
- Response classification (`response.Typify`, smallest record TTL) is given as fields of the message.
  The outcome of parsing CIDR text, of `net.ParseIP` on record values, of certificate decoding, the
  directory digest, and the longest enclosing zone of a name are inputs.
- Threshold fractions are exact integer percentages and the prefetch fraction an exact tenth.
  Case folding is ASCII.
- There is one clock. A browse covers one service type; the discovery policy is fixed during a run.
- The SQL table is a sequence of rows with growing ids; grouped query results are given in any order.
  Library sorts are insertion of the same order.
- Recursion of `buildAnswers` is modelled with a depth bound that the program lacks; the program
  terminates exactly when some bound is enough.

## Model

| member | source | states |
|---|---|---|
| `Glob.Glob` | plugins/mdnsbridge/selector.go:102-128 | the backtracking loop terminates; true only for matches in the inductive sense, and equal to it when either side has no star |
| `Glob.GlobMatch` | plugins/mdnsbridge/selector.go:98-100 | the same for the case-insensitive wrapper |
| `Glob.GlobSound` | plugins/mdnsbridge/selector.go:102-128 | whatever the loop accepts matches inductively, for every pattern and subject |
| `Glob.GlobComplete` | plugins/mdnsbridge/selector.go:102-128 | returning only to the last star loses no match when subject or pattern is free of stars |
| `Glob.ExactForSubject` | plugins/mdnsbridge/selector.go:104-114 | a subject is decided rightly for all patterns if and only if it has no star |
| `Glob.ExactForPattern` | plugins/mdnsbridge/selector.go:104-114 | a pattern is decided rightly for all subjects if and only if it has no star |
| `IpNets.NetOfBlock` | plugins/vlancache/handler.go:484-493 | which block of addresses a mask applied to an address gives, in all family combinations |
| `IpNets.OwnNetContains` | plugins/vlancache/handler.go:471-496 | an address lies in the network cut from it if and only if the mask fits its family |
| `IpNets.Nested` | vlanmatch/table.go:67-79 | two prefixes sharing an address are nested |
| `IpNets.AgreesOnLeadingBits` | plugins/vlancache/handler.go:484-493 | a network cut from an address holds exactly the addresses of one family that share its leading bits, in all family combinations |
| `IpNets.OverlapIsSharing` | internal/configgen/validate.go:304-306 | testing the two network numbers holds if and only if some address lies in both canonical prefixes |
| `VlanTable.NewTable` | vlanmatch/table.go:48-60 | row i has VLAN i's name and exactly the networks of its well-formed CIDRs |
| `VlanTable.Lookup` | vlanmatch/table.go:67-79 | the first VLAN covering the address, or none if and only if none covers it |
| `VlanTable.FirstHolderFound` | vlanmatch/table.go:48-79 | an address belongs to the first declared VLAN with a CIDR that holds it, or to none |
| `VlanTable.FirstOverlap` | internal/configgen/validate.go:293-297 | a reported overlap shares an address; none reported means no collected CIDR does |
| `VlanTable.CheckCidrs` | internal/configgen/validate.go:288-299 | a VLAN's CIDRs are refused if and only if they break disjointness, and the fault names the culprits |
| `VlanTable.ValidateVLANs` | internal/configgen/validate.go:273-302 | accepts if and only if names are present and distinct, every VLAN has CIDRs, and no address lies in two of them |
| `VlanTable.NamedExactly` | internal/configgen/validate.go:276-278 | a name is missing if and only if it has no character but white space |
| `VlanTable.DisjointExactly` | internal/configgen/validate.go:287-299 | the flattened list is disjoint if and only if every CIDR parses and no address lies in two, VLAN by VLAN and position by position |
| `VlanTable.AtMostOneCidr` | internal/configgen/validate.go:273-302 | in accepted declarations an address is in at most one CIDR |
| `VlanTable.OrderFree` | vlanmatch/table.go:67-79 | with single owners lookup depends only on which pairs are declared |
| `VlanTable.OrderFreeExactly` | vlanmatch/table.go:67-79 | lookup is blind to row order if and only if no address has two owners |
| `VlanTable.ValidatedLookup` | internal/configgen/validate.go:273-302 | accepted declarations give every address one owner and answer alike for any declarations of the same pairs |
| `VlanTable.ReorderedDeclares` | vlanmatch/table.go:48-60 | permuting the VLANs and the CIDRs of each keeps the declared pairs |
| `VlanTable.ReorderedLookup` | vlanmatch/table.go:67-79 | accepted declarations answer alike for every permutation of VLANs and of their CIDRs |
| `CacheKeys.HashDirect` | plugins/vlancache/key.go:18-27 | the bytes written one after another are the direct encoding |
| `CacheKeys.HashScoped` | plugins/vlancache/key.go:32-39 | the bytes written one after another are the scoped encoding |
| `CacheKeys.DirectKeyInjective` | plugins/vlancache/key.go:18-27 | for bucket names without a zero byte, equal direct encodings if and only if equal bucket, name, type and flags |
| `CacheKeys.ScopedKeyInjective` | plugins/vlancache/key.go:32-39 | equal scoped encodings if and only if equal questions |
| `CacheKeys.BucketsCollideExactly` | plugins/vlancache/key.go:18-27 | two bucket names can share an encoding if and only if one followed by the separator begins the other |
| `CacheKeys.FormatBase36Injective` | plugins/vlancache/handler.go:108 | base-36 text determines the number |
| `CacheKeys.FlightKeysDistinct` | plugins/vlancache/handler.go:108-134 | bucket-wide and per-address coalescing keys never meet, and each determines its key and address |
| `CacheStore.Store.GetDirect` | plugins/vlancache/store.go:56-69 | a hit if and only if the entry is within its TTL or, with stale serving on, at most the grace period past it; fresh in the first case |
| `CacheStore.Store.SetDirectIfCurrent` | plugins/vlancache/store.go:92-98 | stores if and only if no flush has opened since |
| `CacheStore.Store.SetScopedIfCurrent` | plugins/vlancache/store.go:92-98 | stores if and only if no flush has opened since |
| `CacheStore.Store.GetScoped` | plugins/vlancache/store.go:104-133 | none if and only if no listed entry containing the address is within its TTL or the grace period; a stale one only if no entry containing it is fresh; no entry containing it that is as usable has a longer mask |
| `CacheStore.Store.SetScoped` | plugins/vlancache/store.go:139-153 | replaces the same prefix or appends, dropping the oldest of a full list; the invariant of every list is kept |
| `CacheStore.Store.Clear` | plugins/vlancache/store.go:158-173 | empties both tiers in a new epoch and counts exactly what was there |
| `CacheStore.SizesCountEntries` | plugins/vlancache/store.go:166-171 | counting list by list counts every listed entry once |
| `CacheStore.Store.ClearName` | plugins/vlancache/store.go:182-210 | removes from both tiers exactly what was asked under the name or mentions it, in any case, as an owner or an alias target; counts it |
| `CacheStore.Store.ClearNameScoped` | plugins/vlancache/store.go:192-208 | the locked sweep keeps exactly the rest and deletes emptied lists |
| `CacheStore.KeepOthers` | plugins/vlancache/store.go:194-201 | the compaction loop keeps the non-dependent entries in order and counts the others |
| `CacheStore.KeptInOrder` | plugins/vlancache/store.go:194-201 | what a flush keeps of a list stays in order |
| `CacheStore.PutKeeps` | plugins/vlancache/store.go:139-153 | at most 16 entries with distinct prefixes, the new one present; another is lost only if it has the same prefix, or is the oldest of a full list without that prefix |
| `CacheStore.Best` | plugins/vlancache/store.go:112-132 | the chosen entry is a best candidate; none if and only if no candidate |
| `CacheStore.BestIsUnique` | plugins/vlancache/store.go:104-133 | the choice beats every rival and does not depend on list order |
| `CacheStore.BestIsNarrowest` | plugins/vlancache/store.go:100-127 | the chosen prefix lies inside an equally fresh rival if and only if its mask leaves no more bits free |
| `CacheStore.WideBlockWins` | plugins/vlancache/store.go:124-127 | for 10.0.0.1 a family-2 scope of 100, a block of 28 free bits, beats a /24 |
| `CacheStore.SameMaskSamePrefix` | plugins/vlancache/store.go:124-127 | distinct prefixes holding one address differ in length, so the length comparison never ties |
| `CachePolicy.SharePrefixExactly` | plugins/vlancache/handler.go:341-356 | a shared result is limited to the echoed scope if and only if it is cacheable and not a failure |
| `CachePolicy.OwnResultApplies` | plugins/vlancache/handler.go:289-291 | a caller's own result applies to it if and only if it is unlimited or the echoed family fits its address |
| `CachePolicy.OwnFamilyApplies` | plugins/vlancache/handler.go:471-496 | it always does when the upstream echoes the caller's own family |
| `CacheSafety.FetchesStep` | plugins/vlancache/handler.go:313-363 | every step keeps each coalesced call consistent with its key, generation, answer and outcome |
| `CacheSafety.TasksStep` | plugins/vlancache/handler.go:91-162 | every step keeps each request entitled to what it is served |
| `CacheSafety.CacheStep` | plugins/vlancache/handler.go:341-356 | every step keeps each stored entry traceable to a call whose answer it holds, in the place its scope asks for |
| `FlushEpoch.FlushesStep` | plugins/vlancache/store.go:158-210 | every step keeps each flush's progress: what it has passed holds nothing it was to remove from an older generation |
| `FlushEpoch.OnlyTargetsGo` | plugins/vlancache/store.go:182-210 | apart from stores, a step takes out of the direct tier only what a flush is after, and out of the scoped tier exactly that |
| `FlushEpoch.RunInv` | plugins/vlancache/store.go:75-98 | the whole invariant holds after any sequence of steps |
| `FlushEpoch.FinishedFlushIsFinal` | plugins/vlancache/store.go:75-98 | after a finished flush, every stored entry it was after comes from a call that read its generation in that epoch or later |
| `AfterFlush.ServedAfterFlush` | plugins/vlancache/handler.go:111-137 | in every run, a request arriving after a finished flush is served, of what the flush was after, only answers of its epoch or later or from a call already in flight when it finished |
| `AfterFlush.JoinsOldCall` | plugins/vlancache/handler.go:123-137 | for every question and address, and every answer that applies to its own asker, some such request is handed the answer of a call from before the flush |
| `AfterFlush.RunSince` | plugins/vlancache/store.go:75-98 | the invariant behind it holds after any continuation of any run in which the flush finished |
| `FlushEpoch.DroppedExactlyWhenFlushed` | plugins/vlancache/store.go:90-98 | an answer is dropped if and only if a flush opened since its generation was read |
| `FlushEpoch.StoreIsCurrent` | plugins/vlancache/store.go:92-98 | no flush opens between the check and the store it allows |
| `FlushEpoch.ScopedListsBounded` | plugins/vlancache/store.go:139-153 | in every run each scoped list is bounded with distinct prefixes |
| `CacheDelivery.ServedIsValid` | plugins/vlancache/handler.go:111-137 | every answer delivered is for the same question, and its scope contains the requester, or it was fetched for that address, or for its bucket when no scope limits it |
| `CacheDelivery.ServedWithinScope` | plugins/vlancache/handler.go:111-137 | with upstreams echoing the asker's family, a scoped answer's scope contains the requester |
| `CacheDelivery.DirectHitsStayInBucket` | plugins/vlancache/handler.go:102-121 | a direct-tier hit in any interleaving was fetched for the requester's bucket and question |
| `CacheDelivery.CoalescedStaysInBucket` | plugins/vlancache/handler.go:123-138 | whoever waits for a shared call has its bucket and question |
| `CacheDelivery.NextAtMostTwice` | plugins/vlancache/handler.go:123-138 | one request leads at most two upstream calls, and two only when the first answer was cacheable, not a failure, and echoed a family that does not fit |
| `CacheDelivery.NextAtMostOnce` | plugins/vlancache/handler.go:284-291 | one request leads at most one upstream call when the echoed family is the asker's own |
| `CacheDelivery.MisfitCallsTwice` | plugins/vlancache/handler.go:127-138 | for every such answer some run leads two calls |
| `CacheDelivery.UncacheableIsShared` | plugins/vlancache/handler.go:341-357 | for every uncacheable answer and any two addresses of a bucket, some run serves one's answer to the other |
| `CacheContents.HeldForItsLifetime` | plugins/vlancache/handler.go:341-346 | in every run a stored entry is the answer of one cacheable call, stored at its time, for the records' TTL kept between five seconds and an hour, half an hour for a denial, or the fixed one for a failure |
| `CacheContents.HeldDirect` | plugins/vlancache/handler.go:350-355 | in every run a direct entry lies under its call's key, and the call had no address, or its answer no scope, or was a failure |
| `CacheContents.HeldScoped` | plugins/vlancache/handler.go:350-353 | in every run a scoped entry lies under its question, with the call's address cut to the echoed length, at most the echoed family's width, for its prefix |
| `CacheContents.WorthStoring` | plugins/vlancache/handler.go:318-357 | which answers go on to be stored, what a failing next plugin counts as, and what is shared unrestricted |
| `CacheContents.StoreLands` | plugins/vlancache/handler.go:350-355 | after an allowed store the right tier holds the call's answer and no other question or key has gained anything |
| `CacheContents.CallsAsAsked` | plugins/vlancache/handler.go:123-134 | a request starts a call, for its own address and at its own time, if and only if none is running for its bucket and question, or its own address the second time |
| `CacheContents.DirectLookup` | plugins/vlancache/handler.go:117-121 | the direct tier serves what lies under the asker's bucket and question within its TTL or the grace period, and nothing else |
| `CacheContents.ScopedMiss` | plugins/vlancache/handler.go:111-115 | the scoped tier passes a request on if and only if no entry containing its address is within its TTL or the grace period |
| `CacheContents.ScopedServes` | plugins/vlancache/handler.go:111-115 | what it serves contains the address; it is stale only if no containing entry is fresh; no containing entry as usable has a longer mask |
| `CacheContents.HitRefreshes` | plugins/vlancache/handler.go:213-232 | a hit starts a refresh for the same question and address if and only if it is stale, or prefetching is on and at most a tenth of a positive TTL is left |
| `RefreshCache.DueThreshold` | mdnssd/cache.go:33-45 | the loop advances past exactly the thresholds, of 80, 85, 90 and 95 percent, that are covered, and fires if and only if there was a new one |
| `RefreshCache.SentClosedForm` | mdnssd/cache.go:33-45 | in every schedule the count sent is the number of thresholds covered at the last tick |
| `RefreshCache.FourReports` | mdnssd/cache.go:98-110 | ticking at least every twentieth of the TTL reports a record due exactly four times before expiry |
| `RefreshCache.FourReportsExactly` | mdnssd/cache.go:33-45 | a gap bound guarantees four reports if and only if it is at most a twentieth of the TTL |
| `RefreshCache.SomeReports` | mdnssd/cache.go:33-45 | in every schedule a report comes if and only if some tick falls between first threshold and expiry, and reports never exceed thresholds covered |
| `RefreshCache.KnownAnswers` | mdnssd/knownanswer.go:25-40 | offered are exactly the records of the question with more than half of their TTL left, with the whole seconds left, modulo 2 to the 32 |
| `RefreshCache.DueIsNotKnown` | mdnssd/knownanswer.go:25-40 | a record past its first threshold is never offered; an offered TTL never exceeds the time left |
| `RefreshCache.Cache.Tick` | mdnssd/cache.go:98-110 | records past their TTL go and are reported once each, due ones are reported once each, all others stay |
| `RefreshCache.DueExactly` | mdnssd/cache.go:33-45 | a live record is due if and only if it has crossed the first threshold not yet reported |
| `RefreshCache.Cache.KnownAnswersFor` | mdnssd/cache.go:77-86 | lists each record of the question once with its remaining lifetime |
| `Browser.BrowserState.Ingest` | mdnssd/browser.go:181-244 | both maps move together; added events are the touched resolvable instances, removed events the goodbyes |
| `Browser.BrowserState.IngestPtrs` | mdnssd/browser.go:185-200 | PTR records take effect in order |
| `Browser.BrowserState.Collect` | mdnssd/browser.go:235-241 | an add event for each touched instance that has a host and an address, once |
| `Browser.BrowserState.Tick` | mdnssd/browser.go:249-266 | at most one query, sent if and only if something is due, listing no record that just came due; every expired instance is removed and reported once |
| `Browser.BrowserState.KnownNow` | mdnssd/browser.go:249-258 | the list holds exactly the records with more than half their TTL left |
| `Browser.IngestKeepsAgreement` | mdnssd/browser.go:181-244 | every message keeps equal key sets, equal TTLs and the one question |
| `Browser.TickKeepsAgreement` | mdnssd/browser.go:249-266 | every tick keeps them too |
| `Browser.KnownListed` | mdnssd/browser.go:249-258 | under agreement the cache's records of the question yield the known-answer list |
| `Browser.ListMeans` | mdnssd/browser.go:249-258 | what is listed has more than half of its TTL left and carries the whole seconds of it; everything with more than half left is listed |
| `Browser.DueIsUnlisted` | mdnssd/browser.go:249-258 | a record that just came due is never in the known-answer list |
| `Browser.RestDataOnly` | mdnssd/browser.go:202-233 | SRV, TXT and address records change entry data only, never which instances are known |
| `MessageData.IngestedData` | mdnssd/browser.go:202-233 | after a message an instance has the host its last SRV and the text its last TXT record gives, or what it had, and its addresses grow by exactly those announced for its host in their own family |
| `MessageData.TouchedBy` | mdnssd/browser.go:185-233 | an instance is touched exactly by an announcement, an SRV or TXT record of its own, or an address for its host |
| `MessageData.LastSrvNamesHost` | mdnssd/browser.go:202-207 | the last SRV record of an instance names its host, without the final dot, and changes nothing else |
| `MessageData.LastTxtStands` | mdnssd/browser.go:209-214 | the last TXT record of an instance gives its text and changes nothing else |
| `MessageData.AddressesReach` | mdnssd/browser.go:216-233 | address records add exactly the addresses for an instance's host to that family, and reach no instance without a host |
| `MessageData.LastPtrStands` | mdnssd/browser.go:185-200 | the last PTR record about an instance, when it announces it, sets its lifetime and is what the refresh cache holds |
| `MessageData.KeptOrFresh` | mdnssd/browser.go:156-200 | an instance that no record retires keeps everything but its lifetime; an unknown one comes up fresh |
| `MessageData.UnspokenStays` | mdnssd/browser.go:185-200 | an instance no PTR record speaks of keeps its entry and its record |
| `MessageData.FreshNames` | mdnssd/browser.go:136-168 | instance, service and domain of a fresh entry are what the names were put together from |
| `MessageData.FreshElsewhere` | mdnssd/browser.go:136-141 | outside the local domain the whole question is the service |
| `DiscoveryTable.Table.Upsert` | plugins/mdnsbridge/table.go:89-110 | only the announcement's key changes; a known entry ends with exactly the non-empty addresses of both lists, text and lifetime only where carried; a new one is kept as announced; name, promotion and publication follow host, selectors and approval |
| `DiscoveryTable.Table.Absorb` | plugins/mdnsbridge/table.go:95-103 | a known entry takes the union of addresses, and text and lifetime if the announcement has any |
| `DiscoveryTable.Table.RederiveEntry` | plugins/mdnsbridge/table.go:112-120 | named after its host under its suffix; promoted if and only if a promoted selector matches it under that name; published if and only if approved, auto-published or promoted |
| `DiscoveryTable.Table.PromotedMatch` | plugins/mdnsbridge/table.go:127-134 | true if and only if some promoted selector matches |
| `DiscoveryTable.Table.Remove` | plugins/mdnsbridge/table.go:210-220 | removes exactly the key of service, instance and host in lower case and says whether it was there |
| `DiscoveryTable.Table.Expire` | plugins/mdnsbridge/table.go:237-248 | keeps exactly what was seen within its own TTL, or the table's when it has none, and counts the rest |
| `DiscoveryTable.Table.Collect` | plugins/mdnsbridge/table.go:160-169 | the union of addresses of all live matching entries, ascending, without repeats |
| `DiscoveryTable.Table.Resolve` | plugins/mdnsbridge/table.go:140-157 | for the name in lower case, the addresses of all unexpired entries its selector matches when it is promoted, or published under it when not; owned if and only if promoted or some address |
| `DiscoveryTable.KeysTellInstances` | plugins/mdnsbridge/table.go:81-83 | keys of one service tell instances apart up to case |
| `Strings.MergeUnique` | plugins/mdnsbridge/table.go:269-280 | the accumulating loop and sort compute the merge |
| `Strings.MergedIsUnion` | plugins/mdnsbridge/table.go:269-280 | the merge holds exactly the non-empty strings of both lists, strictly ascending |
| `Strings.LexLessExactly` | plugins/mdnsbridge/table.go:278-278 | strings ascend by prefix, or by the first character that differs |
| `Mirror.HeardExactly` | mdnssd/browser.go:81-87 | after a message a live instance is missing from the table if and only if it was known before, the message retires it, and its key is the one it had; for hosts that are more than dots |
| `Mirror.ListedExactly` | mdnssd/browser.go:81-87 | with no assumption on keys: a live instance keeps an entry under its key if and only if no record of the message retires, at its position, an instance known under that key |
| `Mirror.TableKeepsWhatTheBrowseKeeps` | plugins/mdnsbridge/listener.go:172-195 | in every run without revivals and shared keys, a resolvable instance within its TTL is in the table under its current host, unexpired, with every address the browse has for it and its text |
| `Mirror.EntersAsHeard` | plugins/mdnsbridge/listener.go:172-189 | an instance enters the table as the browse reports it, its host in lower case without the final dot |
| `Mirror.WhatLeavesTheTable` | plugins/mdnsbridge/table.go:237-259 | a browse tick takes out exactly the keys of the instances that expire, a sweep exactly what outlived its own TTL or the table's |
| `Mirror.RunMirrored` | plugins/mdnsbridge/table.go:210-259 | the correspondence of browse and table holds at every point of every run without revivals and shared keys |
| `Mirror.BarFreeHostsTell` | plugins/mdnsbridge/table.go:81-83 | labels apart up to case and hosts without a bar never share a key |
| `Mirror.BarsShareAKey` | plugins/mdnsbridge/table.go:81-83 | with a bar in the host two different labels share a key |
| `Mirror.SharedKeyLosesTheOther` | plugins/mdnsbridge/listener.go:191-195 | for any two live instances sharing a key, a goodbye to one removes the other's entry |
| `Retirement.LastWordDecides` | mdnssd/browser.go:185-200 | instance by instance, the last PTR record of a message decides whether it is known |
| `Retirement.RetiredStayGone` | mdnssd/browser.go:185-200 | an instance retired at one position and not announced later is gone, whatever happens to others |
| `Retirement.RemovedWasThere` | mdnssd/browser.go:185-200 | the remove events are exactly the retirements of instances known at that position, with their data then |
| `Retirement.MessageHosts` | mdnssd/browser.go:185-200 | which host every removed and remaining instance carries |
| `Mirror.RevivalLosesTheInstance` | mdnssd/browser.go:81-87 | for every instance, host and address, goodbye and announcement in one message lose a live instance |
| `StatsRollup.Rollup.Observe` | plugins/querylog/stats.go:89-108 | counters, breakdowns and ring stay the fold of the whole history |
| `StatsRollup.Rollup.RecentSeries` | plugins/querylog/stats.go:131-151 | one point per slot, oldest first, each what the ring reports for its bucket |
| `StatsRollup.EpochAndIndex` | plugins/querylog/stats.go:153-166 | epochs are multiples of the width less than one width from the time, before it or, before 1970, after it; slots are bucket numbers modulo the ring |
| `Common.TruncDivExact` | plugins/querylog/stats.go:153-166 | the truncated quotient is the one that leaves a remainder smaller than the divisor, of the dividend's sign |
| `StatsRollup.ReportedClosedForm` | plugins/querylog/stats.go:89-108 | for every history a slot reports the count since it last changed laps |
| `StatsRollup.PointExactly` | plugins/querylog/stats.go:131-151 | a point equals the number of observations in its bucket if and only if its slot has not lapped since the first of them |
| `StatsRollup.SeriesExact` | plugins/querylog/stats.go:131-151 | with no observation a ring or more late, all points of the series are exact |
| `StatsRollup.TallyCounts` | plugins/querylog/stats.go:94-101 | a breakdown map holds each key's number of occurrences, summing to the observations |
| `StatsRollup.BreakdownsCount` | plugins/querylog/stats.go:89-101 | each breakdown holds, under each value of its own field, the number of observations that have it |
| `StatsRollup.BreakdownsSumToTotal` | plugins/querylog/stats.go:89-124 | the query total is the sum of each of the five breakdowns |
| `QueryRing.Ring.Push` | plugins/querylog/ring.go:66-75 | the circular buffer stays the newest part of everything pushed |
| `QueryRing.Ring.Snapshot` | plugins/querylog/ring.go:79-93 | the filter of the reversed last min(capacity, pushes) entries |
| `QueryRing.SnapshotAges` | plugins/querylog/ring.go:79-93 | of the newest entries, as many as fit, exactly those that pass, in order of age |
| `QueryRing.PassesExactly` | plugins/querylog/ring.go:23-41 | name and client occur anywhere in the entry's in any case, VLAN and type are equal; an empty field asks nothing |
| `LogWriter.StepKeeps` | plugins/querylog/store.go:191-286 | every step of recording, flushing and draining keeps the writer's invariant |
| `LogWriter.Conservation` | plugins/querylog/store.go:191-286 | handed batches, current batch and channel concatenate to the accepted entries; accepted plus dropped is recorded |
| `LogWriter.DropsWhenFull` | plugins/querylog/store.go:191-200 | in every run an entry is dropped if and only if 2048 accepted ones wait to be taken into a batch |
| `LogWriter.FlushesWhenFull` | plugins/querylog/store.go:242-246 | in every run taking an entry hands over a batch if and only if it is the two hundredth |
| `LogWriter.CloseHandsOver` | plugins/querylog/store.go:211-286 | after closing, everything accepted before the drain began, and so before the stop, has been given to insert once, in order |
| `LogWriter.CloseCommitsExactly` | plugins/querylog/store.go:240-266 | with a healthy database everything handed over is committed if and only if nothing was flushed between the stop and the loop noticing; the shortfall is exactly those entries |
| `LogWriter.LateFlushLoses` | plugins/querylog/store.go:240-249 | for every entry some run of a healthy database accepts it before the stop and loses it |
| `LogWriter.RunningCommits` | plugins/querylog/store.go:229-249 | before the stop a healthy database has committed everything handed over |
| `LogWriter.TableHoldsCommitted` | plugins/querylog/store.go:293-319 | the table holds exactly the committed entries in order, numbered from one |
| `LogWriter.CrashLossBounded` | plugins/querylog/store.go:217-268 | while running, accepted entries not committed are those the database refused and fewer than one batch plus one channel |
| `LogWriter.Store.InsertBatch` | plugins/querylog/store.go:293-319 | all rows, numbered on from the last, or none |
| `LogWriter.Store.Prune` | plugins/querylog/store.go:332-349 | what remains is young enough, at most maxRows, with larger ids than every young row that went; and none goes while there is room |
| `LogWriter.Store.DeleteExcess` | plugins/querylog/store.go:342-348 | deleting up to the id found maxRows back keeps exactly the newest maxRows |
| `LogWriter.BelowIsPrefix` | plugins/querylog/store.go:342-348 | with ascending ids the rows up to an id are a prefix |
| `Activity.ClientActivity` | plugins/querylog/log.go:181-268 | errors on bad ranges and widths; otherwise, from the bucket of the first millisecond to that of the last, a row for each of the topN clients with most rows in the window, ties by address and VLAN, and one for the others, each count the number of the log's rows of that bucket and those clients |
| `Activity.Series` | plugins/querylog/log.go:273-319 | errors on bad ranges and widths; otherwise one point per bucket from that of the first millisecond to that of the last, each the number of the log's rows in the window and bucket, summing to all rows of the window |
| `Activity.Gather` | plugins/querylog/log.go:205-219 | per-bucket counts and totals of each client, in whatever order groups arrive |
| `Activity.Rank` | plugins/querylog/log.go:224-236 | every client once, by total, then address, then VLAN |
| `Activity.FoldOthers` | plugins/querylog/log.go:258-266 | the folded row holds, bucket by bucket, the sum over all folded clients |
| `Activity.SeriesSumsToWindow` | plugins/querylog/log.go:307-317 | the series sums to the number of rows in the half-open window |
| `Activity.BucketIsSumOfCells` | plugins/querylog/log.go:194-219 | a bucket's cells over all clients are its rows |
| `Activity.TotalIsCount` | plugins/querylog/log.go:217-219 | a client's accumulated total is its number of rows in the window |
| `Activity.BreakdownMatchesSeries` | plugins/querylog/log.go:250-266 | stacked rows equal the series in every bucket, at most topN + 1 rows, no folded client above a kept one |
| `LocalRecords.BuildAnswers` | plugins/localrecords/handler.go:209-251 | the two scans and the recursion compute the bounded resolution that the next four rows spell out |
| `LocalRecords.AddressAnswers` | plugins/localrecords/handler.go:225-250 | with no answering alias, one address per record of the type that gives the VLAN one, in order: the override value if it has one, else the default, nothing when hidden; lifetime from override, record, zone in that order |
| `LocalRecords.AliasComesFirst` | plugins/localrecords/handler.go:209-223 | the first CNAME that answers the VLAN leads, with target and lifetime by the same rule; for an address type the target's answers follow, for others it stands alone |
| `LocalRecords.ServiceAnswers` | plugins/localrecords/handler.go:230-240 | every buildable designated-resolver record, in order, with its own lifetime or the zone's |
| `LocalRecords.OtherTypesHaveNone` | plugins/localrecords/handler.go:225-250 | without an alias no other type is answered |
| `LocalRecords.TerminatesExactly` | plugins/localrecords/handler.go:209-223 | buildAnswers for an address type terminates if and only if the VLAN's effective aliases do not loop; for other types it always does |
| `LocalRecords.DdrGlue` | plugins/localrecords/handler.go:138-151 | the loop with its set of seen targets computes both address lookups of each designated resolver once |
| `LocalRecords.GlueLooksUpOnce` | plugins/localrecords/handler.go:138-151 | each designated resolver is looked up once, IPv4 before IPv6 |
| `LocalRecords.GlueNeeds` | plugins/localrecords/handler.go:138-151 | the glue terminates within a depth if and only if both lookups of every designated resolver do |
| `LocalRecords.ServeEndsExactly` | plugins/localrecords/handler.go:78-119 | a whole query terminates if and only if its own aliases end, for an address type, and the aliases of every resolver its answers designate |
| `LocalRecords.DesignatedLoopHangs` | plugins/localrecords/handler.go:114-119 | for every table in which an alias-free name designates a looping resolver, the query for it never ends |
| `LocalRecords.DesignatedLoop` | internal/configgen/validate.go:308-366 | a table of valid records of that kind |
| `LocalRecords.AnswersLinked` | plugins/localrecords/handler.go:205-251 | aliases linked owner to target, then records of the queried type and family owned by the last target |
| `LocalRecords.AbsentHasNoAnswer` | plugins/localrecords/handler.go:192-203 | a name not present has no answer of any type |
| `LocalRecords.PresentExactly` | plugins/localrecords/handler.go:192-203 | on validated records a name is present if and only if some type has an answer |
| `LocalRecords.ServeDNS` | plugins/localrecords/handler.go:78-119 | for a query that terminates, which of the four replies it gets for the VLAN of its address, with its glue; no data rather than no such name if and only if some record there designates a resolver, or is not hidden and has a value |
| `LocalRecords.OwnedZoneReply` | plugins/localrecords/handler.go:74-119 | for a query that terminates: an owned zone never forwards; no such name if and only if no type has an answer, no data if and only if only another type has; an answer comes with exactly the addresses of the resolvers it designates |
| `LocalRecords.OwnViewOnly` | plugins/localrecords/handler.go:160-190 | answers, presence and termination depend only on defaults and the VLAN's own overrides |
| `LocalRecords.OwnViewReply` | plugins/localrecords/handler.go:78-119 | so does the reply |
| `Acme.Manager.WriteCertKey` | internal/acme/manager.go:303-315 | key, certificate and record land in that order up to the first failure |
| `Acme.Manager.CacheCurrent` | internal/acme/manager.go:246-255 | cached key, then cached certificate, up to the first failure |
| `Acme.Manager.PromoteFromCache` | internal/acme/manager.go:212-241 | installs the cached pair of the configured authority if it is usable, and nothing otherwise |
| `Acme.Manager.Reconcile` | internal/acme/manager.go:145-203 | an installation leaves on record the override URL, else the production or staging one as configured; it is the pair cached for that directory or the one obtained, which is cached under that directory's name and no other; waits of half a day or five minutes |
| `Acme.Manager.ObtainAndInstall` | internal/acme/manager.go:176-202 | obtaining, installing, caching and loading under every failure |
| `Acme.NothingNeededExactly` | internal/acme/manager.go:261-287 | nothing is needed if and only if the active certificate parses, is not self-signed, names the domain in any case, is on record for the configured directory, and is not due |
| `Acme.DueExactly` | internal/acme/manager.go:118-124 | due when fewer than the configured days, or thirty, are left; a number of days beyond 64 bits wraps negative |
| `Acme.SwitchIsNoticed` | internal/acme/manager.go:280-282 | without an override, changing production alone after a satisfied check makes a new certificate needed |
| `Acme.UsableExactly` | internal/acme/manager.go:222-235 | a cached certificate is promoted if it parses, names the domain and is not due, whoever signed it |
| `Acme.WorkingStep` | internal/acme/manager.go:145-203 | with working files, exactly which pair ends up active and cached, and when a reload follows |
| `AcmeRuns.SlotsStayFilled` | internal/acme/manager.go:243-255 | once an authority has issued, its cache holds a pair it issued for the rest of the run |
| `AcmeRuns.IssuedOncePerAuthority` | internal/acme/manager.go:205-241 | over any run with lasting certificates, no authority is asked again after it has issued |
| `AcmeRuns.DistinctAuthorities` | internal/acme/manager.go:205-241 | the issues of such a run are all from different authorities |
| `AcmeGenuine.EveryReconcileSettles` | internal/acme/manager.go:141-203 | over any run from a first start with working files and good certificates, after every enabled, supported reconcile nothing is needed |
| `Acme.SettledExactly` | internal/acme/manager.go:169-203 | nothing is needed after a working reconcile if and only if nothing was, or the one certificate installed passes the check |
| `Acme.LongWaitIsSettled` | internal/acme/manager.go:141-203 | under any failures, the long wait means a satisfied check and, if anything was needed, a successful reload |
| `Acme.FailedReloadIsForgotten` | internal/acme/manager.go:162-199 | after a failed reload of a good certificate that is not yet due, the next reconcile does not reload |
| `AcmeGenuine.SatisfiedMeansGenuine` | internal/acme/manager.go:79-86 | after any run from a first start, whatever files failed and with nothing issued twice, a satisfied check means certificate and key were issued together by the authority configured now if and only if the last write to the active files left them whole |
| `Acme.StepFiles` | internal/acme/manager.go:145-203 | under every failure a reconcile is three groups of writes, each cut short where its faults say |
| `AcmeGenuine.ActiveStep` | internal/acme/manager.go:301-315 | for every set of failures, when one reconcile leaves, keeps or breaks a genuine active pair |
| `AcmeGenuine.ActiveGenuineExactly` | internal/acme/manager.go:301-315 | after any run the active pair is genuine if and only if the last write to it left it whole |
| `AcmeGenuine.SlotGenuineExactly` | internal/acme/manager.go:243-255 | after any run a cached pair was issued as one by its authority if and only if the last write to it left it whole |
| `AcmeGenuine.PromotionHandsOn` | internal/acme/manager.go:205-241 | after a whole promotion the active pair is genuine if and only if the cached one was |
| `AcmeGenuine.HiddenExactly` | internal/acme/manager.go:169-190 | under one configuration, with readable files, a whole cached pair and nothing issued twice, a satisfied check after a reconcile that acted means a pair issued together by the configured authority if and only if it did not fail at the record while promoting and then at the certificate while installing |
| `Acme.MixedUnderOneConfig` | internal/acme/manager.go:169-190 | those two failures leave the cached certificate with the new key, unnoticed |
| `Acme.MixedSlotIsPromoted` | internal/acme/manager.go:246-255 | a cache write that lost only its certificate is promoted after a flip back, unnoticed, with every active write landing |
| `AcmeGenuine.MixedRun` | internal/acme/manager.go:205-255 | for any two domains and good pairs, a run from an empty directory with one failed cache write ends with a satisfied check and a pair that was never issued |
| `AcmeGenuine.MixedWhileUnreadable` | internal/acme/manager.go:205-287 | for every configuration and two good pairs, a run under it with no failing active write ends the same way when files cannot be read for a while |
| `Acme.FlipBackHidesFailure` | internal/acme/manager.go:280-282 | flipping the authority back after a partial installation hides it |

## Left out

- User interface, acceptance probes, command line, engine and process wiring, socket transports, reverse-name lookups and the advertiser: no decision logic of this kind.
- ACME account handling and the issuer itself, certificate text, and the temporary file behind an atomic write: an issuer result, a decoder and a whole-file write stand for them. The configuration directory is fixed during a run.
- Two custom directory URLs whose digests agree share a cache slot in the program; the certificate theorems are stated per slot.
- Rewriting of TTLs and of flags in replies, the contents of SOA records, and query-log attribution.
- `Selector.Match`, selector sets, table snapshots, changing the table's configuration or publication by hand, clearing the table: simple tests and updates.
- A host rename leaves the old table key in place until its TTL passes; nothing is claimed in that direction.
- The meta-query that discovers service types, and browses of other services sharing the table.
- The writer's goroutine is a state machine whose drain interleaves with Record; its tuning at run time, database errors while pruning by age (which skip the row limit), pools and pragmas are not modelled.
- Top-domain and top-client queries, copying of totals, pagination.
- Go data races on slices handed out, Unicode case folding, float rounding.
- VLAN names are compared as given; the whitespace test for blank names covers Latin-1 only.
