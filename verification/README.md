# Verified model of telegram-auto's shared state

This Dafny project models the parts of the repository in which several accounts, workers, collectors and
deliveries share state, and proves what their code promises about it.

| files | component |
|---|---|
| `Refs`, `Routes`, `Ownership`, `Exclusivity`, `PromoExclusivity`, `GroupSync`, `SyncPlaces`, `SharedGroup`, `Spellings` | exclusive ownership of promo groups, from the spelling of a reference up to the catalog sync |
| `Telemetry`, `TelemetryRuns`, `NewestDays` | the telemetry buffer and its flushes |
| `PromoQueue`, `MarkerRuns`, `PromoQueueRuns`, `SafetyGuard`, `PromoWorker`, `WorkerRuns`, `WorkerSafety`, `WorkerBudgets`, `FloodPauses` | the promo worker: queue, once-only markers, safety guard, rounds and runs |
| `DailyQuota`, `Delivery` | daily publish slots and the deliveries that reserve them |
| `PoolMerge` | folding pool snapshots into the cache |
| `TextSplice`, `OnePassSplice`, `Catchup`, `AccountStore`, `Failover`, `ReplyEffects`, `FailoverRuns`, `Reward` | text splicing, catch-up selection, account failover, query reward |
| `Common`, `Sorting`, `TextOrder` | options, finite sets and maps, stable sorting, string order |

The shape is the same everywhere. Objects the source updates in place are classes (`Account`, `Telemetry`,
`PromoQueue`, `SafetyGuard`, `PromoWorker`, `DailyQuotaStore`, `DeliveryEngine`, `Pool`, `CloudflareAIStore`,
`CloudflareAIProvider`, `QueryOutcome`); their methods keep the source's loops and branches, and each `ensures`
ties the new state to a specification function of the old one. The results are lemmas about those functions.
Where the source interleaves (one flush racing increments, one worker racing arrivals and admin commands, many
deliveries) the functions are the steps of a state machine, and the results are invariants of every run of it.

The clock, SHA-1, network replies, outcomes of a delivery, quiet hours and random pacing are inputs. SHA-1 is a
parameter `hash: string -> nat`, so the ownership results hold for every hash. Loading and saving JSON is the
identity. `None` stands for a raised exception where a result type says so.

## What the proofs found

- A reference such as `/name` has key `name`, but is stored as `@/name`, whose key is `/name`
  (`KeyKeptIffNotSlashRooted`). Ensuring or claiming a group through such a reference gives it to nobody who did not
  have it (`EnsureHoldsIff`, `ClaimHolders`), so sync loses a group that only an ineligible account holds exactly
  when the first candidate naming it is slash-rooted (`SyncLosesIff`, `SlashCase`).
- A link typed without its scheme, such as `t.me/name`, keeps its host in its key (`BareHostKey`), so it counts as
  another group than `@name`, whose spellings otherwise all agree (`SpellingKey`).
- Reconcile and the runtime guard hash the key of a key. A group whose key is empty, such as `@`, makes both
  raise. Reconcile ends exclusive exactly when no contested key is like that (`ReconcileExclusiveIff`); it stops with
  the groups before it settled, so then the order of the accounts matters (`OrderCase`). The guard of an account raises
  when such a group is not the account's alone (`GuardFailsIff`), and its worker then runs without a filter: two
  accounts with a running route for a group both send exactly when both scans raise, or one does and the other account
  is the rightful owner (`BothSendIff`, `UnkeyedCase`).
- A fallback source whose route exists but is disabled makes an account eligible for claims while reconcile
  sees nobody eligible; groups that nothing in the catalog claims then stay contested (`SyncExclusiveIff`,
  `DisabledCase`).
- The guard remembers 2000 sends, and rounds are at least four seconds apart. Every run keeps the hourly budget
  (`HourlyBudgetKept`): a budget above 2000 is never reached. Every run keeps the daily budget exactly when it is at
  most 2000, no less than 24 hourly budgets, or at least 21601 (`DailyBudgetIff`); otherwise
  some run, with pacing delays of zero, sends more.
- The cooldown is checked under the job's label and noted under the one its group resolves to; the two differ exactly
  when the group was looked up and came back under another label (`KeyMovesIff`). Unless the cooldown is no longer than
  what a budget of one send enforces, some run sends to a group again too soon, through a job queued under an older
  label (`CooldownKeptIff`).
- A refund booked after midnight does not give the slot back (`RefundRestoresIff`) and reopens a full later day, which
  then grants one delivery more than its limit (`LateRefundOverfills`).
- The docstring of the pool merge calls it commutative. The order of the snapshots does not matter exactly when no two
  different entries of one time lead under a key (`FoldAnyOrderIff`, `UnionCommutesIff`).
- Overlapping entity spans can leave text behind that both were meant to remove, and delete text that is in no span.
  Splicing from the back is one pass that owes deletions (`SplicingIsOnePass`); `RightIff` and `TwoSpansRightIff` say
  exactly when it is right.
- A call in which every account answers with status 200 and `success: false` marks all of them exhausted but
  reports that none responded (`SilentExhaustion`, `QuotaExhaustedIff`).
- The docstring of the reward says that an all-keep query with enough volume scores 1. It does exactly while the mean
  rank score is at least 49.95 (`AllKeepScoresOneIff`); with rank scores of zero it scores 0.95. That an all-junk query
  scores 0 holds for every catalog, because the rank scores of junk rows are not kept (`AllJunkScoresZero`).

## Model

| member | source | states |
|---|---|---|
| Refs.DisplayIdempotent | modules/channel_forward/refs.py:43-51 | a displayed reference is displayed as itself, for every text |
| Refs.ShownIdempotent | modules/promo_spread/targets.py:248-255 | the stored spelling of a group is stored as itself, links and invites included |
| Refs.KeyKeptIffNotSlashRooted | modules/channel_forward/refs.py:27-51 | storing a reference keeps its key exactly when it is not slash-rooted |
| Spellings.SpellingKey | modules/channel_forward/refs.py:27-40 | a name or a number, with or without an `@`, as a link, with slashes or a query behind it and blanks around it, has as key its name or the text of its number |
| Spellings.SameKeyIff | modules/channel_forward/refs.py:27-40 | two spellings share a key exactly when they spell the same name, or numbers of the same value |
| Spellings.BareHostKey | modules/channel_forward/refs.py:33-40 | a link without its scheme has itself as key, so it is another chat than the one it links to |
| Spellings.RaisingKeys | modules/channel_forward/refs.py:30-39 | blank text, and a number behind two minus signs, have no key: the source raises |
| Spellings.StoredWord | modules/channel_forward/refs.py:43-51 | a name, and a number without a minus sign, is displayed and stored behind an `@`; a negative number as it is |
| Spellings.StoredLink | modules/promo_spread/targets.py:246-255 | a text that mentions a Telegram host is stored as typed, blanks around it aside |
| Spellings.JoinchatHash | modules/channel_forward/refs.py:58-61 | the hash of an invite link of the old form, whatever slashes and query follow it |
| Spellings.PlusHash | modules/channel_forward/refs.py:62-63 | the hash of an invite link of the new form |
| Spellings.BareHash | modules/channel_forward/refs.py:64-65 | the hash of an invite given by its hash alone |
| Routes.NormalizeGroupList | modules/promo_spread/targets.py:243-258 | the loop computes the normalised list: stripped, displayed, blank and repeated items dropped |
| Routes.NormalizedIsNormal | modules/promo_spread/targets.py:246-258 | a normalised list has no blank, no duplicate and only stored spellings |
| Routes.NormalIsFixed | modules/promo_spread/targets.py:243-258 | normalising a normalised list returns it |
| Routes.MigrateRoutes | modules/promo_spread/routes.py:20-61 | the loop computes the migrated routes, routes list or legacy shape, with mode fallback |
| Routes.MigrateIsStored | modules/promo_spread/routes.py:20-61 | every migrated route has a displayed source, a normalised group list and a known mode |
| Routes.MigrateStored | modules/promo_spread/routes.py:20-46 | migrating a written list of stored routes gives that list back: migration is stable |
| Routes.MigrateWritten | modules/promo_spread/routes.py:20-46 | what reading back any list of displayed routes gives, route by route |
| Routes.ModeRead | modules/promo_spread/routes.py:34-36 | a route is copied exactly when its own mode, or the profile's when it has none, reads `copy` in any case; otherwise it forwards |
| Routes.LegacyReads | modules/promo_spread/routes.py:48-61 | the legacy shape reads as one enabled route with exactly the stored forms of its groups, paused as the profile is, its mode lower-cased but not checked |
| Routes.LegacyIgnored | modules/promo_spread/routes.py:22-46 | once a profile has a routes list its legacy fields are ignored, even when no route has a source |
| Routes.BlankItemsDropped | modules/promo_spread/routes.py:25-33 | routes without a source are dropped and change nothing else |
| Ownership.StripReadBack | app/promo_exclusivity.py:100-122 | reading back a stripped profile gives its routes without the group |
| Ownership.StripEffect | app/promo_exclusivity.py:100-122 | stripping removes exactly the spellings of one key from every route and keeps every other placement and every enabled source; it reports a change exactly when the profile held the key |
| Ownership.PutAllDistinct | app/promo_exclusivity.py:166-173 | rebuilding routes by source loses none when sources are distinct |
| Ownership.PutAllHolds | app/promo_exclusivity.py:166-173 | rebuilding by source keeps the last route of each source and none without one |
| Ownership.SortRoutesSorted | app/promo_exclusivity.py:174 | the written routes are in order of their sources |
| Ownership.TargetGoes | app/promo_exclusivity.py:139-152 | the target is the route of the preferred source when there is one, else the first enabled route, else the first route |
| Ownership.EnsurePlaces | app/promo_exclusivity.py:125-175 | by source: unless a spelling of the group is there already, its stored spelling is added under the preferred source when a route has it, else under that of the first enabled route, else of the first route; no other placement changes |
| Ownership.EnsureReadBack | app/promo_exclusivity.py:125-175 | reading back an ensured profile gives its routes, in order of source, with the stored spelling on the target route; which one that is: `TargetGoes` |
| Ownership.EnsureEffect | app/promo_exclusivity.py:125-175 | for every reference with a key: ensuring adds exactly its stored spelling when the key is missing at the target, nothing otherwise, and keeps every other placement and enabled source |
| Ownership.EnsureAddsKey | app/promo_exclusivity.py:125-175 | a reference whose spelling keeps its key adds exactly that key |
| Ownership.EnsureHoldsIff | app/promo_exclusivity.py:125-175 | afterwards the profile holds the group exactly when it did before or the reference is not slash-rooted |
| Exclusivity.PlacementsHold | app/promo_exclusivity.py:62-82 | a profile holds a key exactly when some placement says so |
| Exclusivity.RightfulOwnerIsMember | app/promo_exclusivity.py:43-48 | the owner is one of the given ids |
| Exclusivity.RightfulOwnerOfSet | app/promo_exclusivity.py:43-48 | the owner depends on the ids only as a set, whatever their order or repetition |
| Exclusivity.OwnerStands | app/promo_exclusivity.py:43-48 | of n different non-blank ids the owner is the one with exactly hash(key) % n ids before it in string order; the source raises exactly without an id or a key |
| Exclusivity.AnyoneOwns | app/promo_exclusivity.py:43-48 | each id owns the group under some hash |
| Exclusivity.OverlapsAreContested | app/promo_exclusivity.py:85-97 | the groups visited are exactly those held by two accounts, each once |
| Exclusivity.FirstPlacement | app/promo_exclusivity.py:240-246 | the first recorded placement of a held key has that key in its stored spelling, and the rows list exactly the holders |
| Exclusivity.SettleKeysEffect | app/promo_exclusivity.py:226-260 | after settling any list of held keys each is with its hash owner alone and nothing else moved, although keys were settled one after the other on rewritten profiles |
| Exclusivity.ReconcileOwnership | app/promo_exclusivity.py:178-268 | where every group is after reconcile: contested ones with their rightful owner among the eligible ids, all others at their source and account; who the owner is: `ReconcileStands` |
| Exclusivity.ReconcileStands | app/promo_exclusivity.py:178-268 | of the n requested accounts with an enabled source, a contested group is afterwards on the one with exactly hash(key) % n of them before it, and on nobody else |
| Exclusivity.FirstRow | app/promo_exclusivity.py:211-217 | the placement a group is moved by is the first one in order of accounts, routes and list items |
| Exclusivity.ReconcileMovesTo | app/promo_exclusivity.py:240-253 | an owner that lists the contested group keeps it where it is; another gets it once, in the spelling of the first placement, under that placement's source when it has a route for it, else under one of its enabled sources |
| Exclusivity.ReconcileExclusive | app/promo_exclusivity.py:178-268 | after reconcile no group is on two accounts, the set of groups is unchanged, and no uncontested group moved |
| Exclusivity.ReconcilePlaces | app/promo_exclusivity.py:178-268 | where every group is after reconcile even when it raises: the contested ones before the raise with their owner, the rest unmoved |
| Exclusivity.ReconcileExclusiveIff | app/promo_exclusivity.py:178-268 | reconcile ends exclusive exactly when every contested key has a key itself |
| Exclusivity.ReconcileConserves | app/promo_exclusivity.py:178-268 | raising or not, reconcile loses no group and invents none |
| Exclusivity.ReconcileIdempotent | app/promo_exclusivity.py:178-268 | after one reconcile that ran to its end there is no overlap, and a second one with any ids changes nothing |
| Exclusivity.ReconcileOrderIndependent | app/promo_exclusivity.py:197-260 | when reconcile runs to its end the final holder of each group does not depend on the order of profiles or account ids |
| Exclusivity.OwnableIff | app/promo_exclusivity.py:226-234 | reconcile can give every contested group an owner exactly when every contested key has a key itself |
| Exclusivity.OwnersOfCount | app/promo_exclusivity.py:85-97 | the owner list of a group is empty, single or longer exactly when the group is held by nobody, uncontested or contested |
| Exclusivity.LosersCount | app/promo_exclusivity.py:255-260 | exactly the holders other than the winner are stripped and counted |
| Exclusivity.GuardExact | app/promo_exclusivity.py:310-345 | the guard lets a sourced holder send exactly when it is the only holder or the rightful owner |
| Exclusivity.GuardStands | app/promo_exclusivity.py:310-345 | of the n sourced accounts the guard lets a holder of a contested group send exactly when hash(key) % n of them come before it |
| Exclusivity.ForeignIff | app/promo_exclusivity.py:310-345 | the foreign set is exactly the groups some other account holds, except those the account owns by its place among the sourced ones; without a source it is empty |
| Exclusivity.GuardMutualExclusion | app/promo_exclusivity.py:310-345 | for any profiles, contested or not, at most one account whose guard ran through sends to a group; `BothSendIff` covers guards that raise |
| Exclusivity.ExclusiveGuardSilent | app/promo_exclusivity.py:310-345 | once ownership is exclusive no account's foreign set meets its own groups |
| Exclusivity.GuardAgreesWithReconcile | app/promo_exclusivity.py:178-345 | whoever the guard lets send is exactly whom reconcile leaves the group with |
| Exclusivity.GuardFailsIff | app/promo_exclusivity.py:335-345 | the guard raises exactly when some group that is not the account's alone has a key without a key |
| Exclusivity.SendsIff | modules/promo_spread/module.py:106-190 | an account with a running route for a contested group sends exactly when it is the rightful owner or its scan raised |
| Exclusivity.BothSendIff | modules/promo_spread/module.py:106-190 | exactly when two accounts with running routes for one group both send |
| PromoExclusivity.Account.StripGroup | app/promo_exclusivity.py:100-122 | the profile becomes its stripped form; the result says whether a route mentioned the key |
| PromoExclusivity.Account.EnsureGroup | app/promo_exclusivity.py:125-175 | the profile becomes its ensured form, whose placements `EnsurePlaces` gives by source; the result says whether the key was missing at the target |
| PromoExclusivity.Account.IterRouteGroups | app/promo_exclusivity.py:62-82 | the placements of a profile, in route and group order |
| PromoExclusivity.CollectPlacements | app/promo_exclusivity.py:211-217 | the placements of all accounts grouped by key in first-seen order |
| PromoExclusivity.FindOverlaps | app/promo_exclusivity.py:85-97 | exactly the contested groups, with the accounts that list each |
| PromoExclusivity.SettleInPlace | app/promo_exclusivity.py:240-260 | one turn of the loop: every profile becomes its settled form, with the moved and removed counts |
| PromoExclusivity.Reconcile | app/promo_exclusivity.py:178-268 | the profiles become the reconciled ones, whose owners and placements `ReconcileStands` and `ReconcileMovesTo` give; each of the report's counts, its change flag and when it raises instead |
| PromoExclusivity.ClaimGroup | app/promo_exclusivity.py:284-307 | the group is given to the owner and stripped from everyone else; how many profiles were stripped and whether the owner's changed |
| PromoExclusivity.StripsAreLosers | app/promo_exclusivity.py:284-307 | the profiles a claim strips are the other accounts that hold the group |
| PromoExclusivity.ClaimHolders | app/promo_exclusivity.py:284-307 | after a claim the owner alone holds the group, exactly when it did before or has a route and the reference is not slash-rooted |
| PromoExclusivity.ClaimPlaces | app/promo_exclusivity.py:284-307 | the claimed group goes under the given source when the owner has a route for it, unless listed there already; every other account loses its spellings and nothing else moves |
| PromoExclusivity.ForeignGroupNorms | app/promo_exclusivity.py:310-345 | the loops compute the foreign set, or raise where it has no value |
| GroupSync.PrepareEffect | app/promo_group_sync.py:198-231 | preparing a profile moves no group and can only add an empty enabled fallback route |
| GroupSync.ClaimAllEffect | app/promo_group_sync.py:242-268 | after the claim loop exactly the claimed keys are with their hash owner at most, and the ownership index agrees, for every catalog |
| GroupSync.AfterClaimsOwnership | app/promo_group_sync.py:198-268 | who holds every group after the claims, for every catalog and fallback |
| GroupSync.SomeoneFinalIff | app/promo_group_sync.py:150-272 | reconcile has an account to choose exactly when some account has an enabled source or gets the fallback route |
| GroupSync.SettlesAre | app/promo_group_sync.py:270-272 | which groups reconcile settles at the end of sync: contested and unclaimed ones, all of them when it runs to its end |
| GroupSync.SyncOwnership | app/promo_group_sync.py:198-272 | who holds every group after claims and reconcile, for every catalog and fallback, whether reconcile runs to its end, raises or has nobody to choose |
| GroupSync.SyncExclusiveIff | app/promo_group_sync.py:198-272 | sync ends exclusive exactly when every group the claims leave contested has a key, or, with no enabled source anywhere, when they leave none |
| GroupSync.SyncConserves | app/promo_group_sync.py:198-272 | exactly which groups somebody holds after sync; a catalog that keeps its keys loses none and adds its own |
| GroupSync.SyncSticky | app/promo_group_sync.py:248-252 | a group held by one eligible account alone stays there, in the catalog or not |
| GroupSync.SyncNewGroup | app/promo_group_sync.py:253-272 | a catalog group nobody held ends on its rightful owner among the eligible accounts and only there, unless its first candidate is slash-rooted: then nobody gets it |
| GroupSync.SyncLosesIff | app/promo_group_sync.py:242-272 | a group of one account alone is lost exactly when that account is not eligible and the first candidate naming the group is slash-rooted |
| GroupSync.NoFallbackIds | app/promo_group_sync.py:150-161 | without a fallback the eligible accounts are exactly those reconcile may use |
| GroupSync.KeyOwnerIsRightful | app/promo_group_sync.py:253 | the owner the claim loop uses is the rightful owner over the sorted eligible accounts; which one that is: `KeyOwnerStands` |
| GroupSync.RefsKeptIff | app/promo_group_sync.py:242-265 | the catalog keeps its keys exactly when no candidate is slash-rooted |
| GroupSync.Sync | app/promo_group_sync.py:150-272 | the whole run in place: the final profiles, the counts, no channels at all, or the exception of reconcile |
| SyncPlaces.KeyOwnerStands | app/promo_group_sync.py:158-161 | of the n accounts with an enabled or a fallback source, a group is claimed for the one with exactly hash(key) % n of them before it |
| SyncPlaces.SyncStands | app/promo_group_sync.py:198-272 | who has each group after sync, by the places of the accounts among those that may take it |
| SyncPlaces.ClaimsIff | app/promo_group_sync.py:236-252 | a catalog group is claimed exactly when its first holder, if any, may not take groups |
| SyncPlaces.FirstRefIs | app/promo_group_sync.py:242-265 | the candidate a group is claimed by is the first one with its key |
| SyncPlaces.EnabledInOrder | app/promo_exclusivity.py:271-281 | enabled sources are listed in route order |
| SyncPlaces.SourceGiven | app/promo_group_sync.py:254-259 | the source a group is claimed under is, of the owner's n enabled ones, the one with exactly hash(key:owner) % n before it, else the fallback |
| SyncPlaces.ClaimedGroupPlace | app/promo_group_sync.py:198-272 | after sync the owner of a claimed group lists it where it did and, unless it is there already, under that source in the stored spelling of the first candidate; nobody else lists it |
| SyncPlaces.NewGroupPlace | app/promo_group_sync.py:253-272 | a catalog group nobody held is listed once, on the account and under the source the hashes pick |
| SyncPlaces.FallbackRoute | app/promo_group_sync.py:212-231 | a fallback source nobody registered gets an empty enabled route, paused as the profile is and in the profile's mode, and the routes are in order of source |
| SyncPlaces.SyncCounts | app/promo_group_sync.py:233-268 | a catalog that keeps its keys: the claims counted are the groups claimed, and claims and skips together are the candidates with a key |
| SharedGroup.ContestedCase | app/promo_exclusivity.py:178-268 | two accounts listing one group meet everything the ownership and sync results ask for, so those are not vacuous |
| SharedGroup.ContestedCaseSettles | app/promo_exclusivity.py:226-260 | reconcile leaves that group with exactly one of the two, whatever the hash |
| SharedGroup.UnkeyedCase | app/promo_exclusivity.py:226-345 | two accounts that also list a bare `@`: reconcile stays contested, and both workers send to the other group |
| SharedGroup.OrderCase | app/promo_exclusivity.py:211-234 | two such accounts in either order: the other group is settled before the raise, or stays contested |
| SharedGroup.DisabledCase | app/promo_group_sync.py:150-272 | a disabled fallback route and an empty catalog: sync leaves the group on both accounts |
| SharedGroup.SlashCase | app/promo_group_sync.py:242-272 | a catalog with `/g` takes the group from its only account and gives it to nobody |
| NewestDays.RetainedSize | app/telemetry.py:209-212 | pruning keeps 14 days, all when there are fewer, and never a day while dropping a newer one |
| NewestDays.StaleStays | app/telemetry.py:209-212 | a day old enough to be pruned stays that old after pruning |
| NewestDays.DropOldDays | app/telemetry.py:209-212 | popping the oldest day while more than 14 are left keeps exactly the newest ones |
| TelemetryBuffer.Telemetry.IncrMany | app/telemetry.py:61-76 | on every day that survives, each counter rises by its own valid raw amount on the reported day and by nothing otherwise; exactly the newest days survive, and a report without a valid non-zero amount changes nothing |
| TelemetryBuffer.IncrRecords | app/telemetry.py:61-76 | the same of the buffer as a value |
| TelemetryBuffer.Telemetry.BeginFlush | app/telemetry.py:88-110 | when a flush starts, what it carries, and when the throttle or an empty buffer stops it |
| TelemetryBuffer.Telemetry.FinishFlush | app/telemetry.py:111-116 | an accepted flush is settled and stamped, a refused one changes nothing |
| TelemetryBuffer.Telemetry.Settle | app/telemetry.py:118-138 | exactly what was sent is subtracted, emptied counters and days disappear, newer gauges stay |
| TelemetryBuffer.Cap | app/telemetry.py:195-207 | at most the limit of counters, a sub-map of the buffer, newest days first |
| TelemetryRuns.StepKeepsInv | app/telemetry.py:61-138 | every increment, gauge, snapshot, acceptance and refusal keeps the books of every counter and gauge |
| TelemetryRuns.Conservation | app/telemetry.py:61-138 | over every interleaving: the valid raw amounts reported = accepted + buffered + discarded once (+ held by a flush whose day was pruned), and the latest valid gauge is buffered or was the last accepted |
| TelemetryRuns.SettleRemoves | app/telemetry.py:118-138 | with nothing recorded meanwhile settling removes exactly the counters sent |
| TelemetryRuns.FlushDrains | app/telemetry.py:88-138 | one accepted flush removes min(400, n) of n counters |
| TelemetryRuns.FlushesDrain | app/telemetry.py:88-138 | m accepted flushes leave max(0, n - 400 m) counters, so ceil(n / 400) empty the buffer |
| PromoQueue.PromoQueue.Enqueue | modules/promo_spread/queue.py:24-66 | nothing for a waiting duplicate, else the job is appended and the queue capped to 400 pending and 150 settled |
| PromoQueue.PromoQueue.PopNext | modules/promo_spread/queue.py:76-82 | the oldest pending job, the first of them on a tie, without changing the queue |
| PromoQueue.PromoQueue.MarkDone | modules/promo_spread/queue.py:84-92 | the first job with this id is done, nothing else changes |
| PromoQueue.PromoQueue.MarkFailed | modules/promo_spread/queue.py:94-107 | an attempt is counted; the job stays pending exactly on a retry with an attempt left |
| PromoQueue.PromoQueue.Defer | modules/promo_spread/queue.py:109-118 | the job is stamped anew and stays pending |
| PromoQueue.PromoQueue.ClearPending | modules/promo_spread/queue.py:120-127 | exactly the pending jobs are dropped and counted |
| PromoQueue.PromoQueue.TryClaimPostSeen | modules/promo_spread/queue.py:129-185 | True exactly for a non-blank key without a marker |
| PromoQueue.PromoQueue.TryClaimPostAck | modules/promo_spread/queue.py:150-185 | True exactly when the post has jobs, none is pending, and it has no marker yet |
| MarkerRuns.ClaimAppends | modules/promo_spread/queue.py:173-185 | a new claim appends its marker and, at 301, leaves the newest 200 |
| MarkerRuns.EvictsOldest | modules/promo_spread/queue.py:173-185 | whatever the clock did, the claim that makes 301 markers leaves 200 that are no older than any dropped one |
| MarkerRuns.OnceOnly | modules/promo_spread/queue.py:173-185 | between two claims of one key that are both told True at least 200 other keys were claimed, and 300 markers are never exceeded |
| PromoQueueRuns.CappedKeepsIds | modules/promo_spread/queue.py:60-65 | trimming keeps ids unique although pending and settled jobs are moved apart |
| PromoQueueRuns.CappedPending | modules/promo_spread/queue.py:60-65 | trimming keeps the last 400 pending jobs in order |
| PromoQueueRuns.CappedIs | modules/promo_spread/queue.py:60-65 | trimming keeps the last 400 pending and the last 150 settled jobs in order |
| PromoQueueRuns.EnqueueIs | modules/promo_spread/queue.py:24-66 | a job is refused exactly when one of the same post for the same group is pending, and else becomes the last pending one |
| PromoQueueRuns.HeadIsOldest | modules/promo_spread/queue.py:76-82 | the head is pending and no pending job is older; there is none exactly when nothing is pending |
| PromoQueueRuns.RuledEffect | modules/promo_spread/queue.py:84-118 | an outcome rewrites exactly the head, or nothing when its job was trimmed or cleared away |
| PromoQueueRuns.StepKeepsInv | modules/promo_spread/queue.py:24-127 | every step keeps unique ids, one pending job a group and post, at most 400 pending, and an attempt left to each |
| PromoQueueRuns.RunKeepsInv | modules/promo_spread/queue.py:24-127 | the same over every run |
| PromoQueueRuns.BoundedWait | modules/promo_spread/queue.py:76-118 | with a ticking clock and no trimming, a job with r older pending ones is the head after at most 3r outcomes, whatever arrives meanwhile |
| PromoQueueRuns.Drain | modules/promo_spread/queue.py:84-107 | with nothing enqueued or deferred n pending jobs settle within 3n outcomes, and then exactly the posts with a job are ready to be acknowledged |
| PromoQueueRuns.OutcomePossible | modules/promo_spread/queue.py:76-118 | while a job is pending every verdict on the head is possible, so draining never gets stuck |
| SafetyGuard.SafetyGuard.CircuitStatus | modules/promo_spread/safety.py:169-188 | open exactly before its end; looking afterwards closes it and clears the strikes |
| SafetyGuard.SafetyGuard.NoteSuccess | modules/promo_spread/safety.py:230-253 | the send is recorded, three-day-old sends and all but the last 2000 are forgotten, the group is stamped, a strike cools |
| SafetyGuard.SafetyGuard.BudgetOk | modules/promo_spread/safety.py:255-278 | fewer remembered sends than both budgets in the last hour and day |
| SafetyGuard.FirstSince | modules/promo_spread/safety.py:255-268 | in sends ordered by time those counted since a moment are exactly a suffix |
| SafetyGuard.BudgetIff | modules/promo_spread/safety.py:255-278 | the budgets leave room exactly when fewer remembered sends than they allow are at most an hour, and a day, old |
| SafetyGuard.CooledFrom | modules/promo_spread/safety.py:280-297 | a group is ready exactly from its last noted moment plus the cooldown on |
| PromoWorker.PromoWorker.Start | modules/promo_spread/module.py:436-458 | when a round takes the head, puts it off behind the others, or stops before the queue |
| PromoWorker.PromoWorker.Finish | modules/promo_spread/module.py:529-667 | for each ending of a delivery: what happens to the job, the guard and the acknowledgement; by ending: `FinishFate`, `PeerFloodPauses`, `FloodWaitPauses`, `ClaimsWhenSettled` |
| WorkerRuns.StartIff | modules/promo_spread/module.py:436-458 | a round takes the head exactly when nobody paused the worker, its hours are open, the circuit is closed, the budgets have room and the group has cooled down; while it cools the head is stamped anew |
| WorkerRuns.ResumeIff | modules/promo_spread/module.py:467-482 | after the pacing wait the delivery goes ahead exactly when all but the cooldown still holds |
| WorkerRuns.FinishFate | modules/promo_spread/module.py:529-659 | a sent job is done, a hopeless one failed, an unlucky one stays pending until its third attempt, a slowed one is put off; no other job changes |
| WorkerRuns.HeadStays | modules/promo_spread/queue.py:60-82 | appending a newer job and trimming leaves the head the head unless it was trimmed away |
| WorkerRuns.StepRefines | modules/promo_spread/module.py:436-659 | each worker step is at most one queue step, and the job in flight stays the head or is gone |
| WorkerRuns.RunRefines | modules/promo_spread/module.py:436-659 | every run of the worker is a run of the queue with the same jobs, so the queue's run results hold of it |
| WorkerRuns.WorkerBoundedWait | modules/promo_spread/module.py:449-482 | the bounded wait over runs of the worker, with aborted rounds, arrivals and clears in between |
| WorkerSafety.CheckLeavesRoom | modules/promo_spread/safety.py:255-278 | a passed budget check on the remembered sends bounds the whole history, forgotten sends included |
| WorkerSafety.NoteRemembered | modules/promo_spread/safety.py:230-245 | what the guard forgets is three days old or 2000 successes back |
| WorkerSafety.Forgets | modules/promo_spread/safety.py:230-248 | noting a success forgets exactly what is three days old or more than 2000 successes back |
| WorkerSafety.StepKeepsSafe | modules/promo_spread/module.py:436-659 | every step keeps budgets, cooldowns and circuit periods respected |
| WorkerSafety.WindowBudgets | modules/promo_spread/safety.py:230-278 | over every run every closed hour holds at most the hourly budget of successes, and every closed day at most the daily one when the guard counts it or something stricter stands in |
| WorkerSafety.CooldownsApart | modules/promo_spread/safety.py:280-297 | two successes on one group are a cooldown apart when the later job was checked under that group |
| WorkerSafety.CircuitRespected | modules/promo_spread/safety.py:169-228 | over every run no success falls inside a period of an open circuit |
| FloodPauses.PeerFloodPauses | modules/promo_spread/module.py:624-629 | over every run, in event times: after a delivery that met a peer flood nothing succeeds before a quarter of an hour and the configured hours have passed |
| FloodPauses.FloodWaitPauses | modules/promo_spread/module.py:618-623 | over every run, in event times: after the flood wait at which flood waits less successes reach the limit nothing succeeds before a quarter of an hour and the configured pause have passed |
| FloodPauses.BelowStaysClosed | modules/promo_spread/safety.py:211-253 | over every run without a peer flood and below that limit the circuit never opens, and the guard counts what the events give |
| FloodPauses.LookCloses | modules/promo_spread/safety.py:169-188 | the first look after a pause closes the circuit and forgets the flood waits |
| WorkerSafety.RestsBound | modules/promo_spread/module.py:425-434 | the rests between rounds alone allow at most 901 successes in a closed hour and 21601 in a closed day |
| WorkerBudgets.HourlyBudgetKept | modules/promo_spread/safety.py:230-278 | every run keeps every hourly budget |
| WorkerBudgets.DailyBudgetIff | modules/promo_spread/safety.py:230-278 | every run keeps the daily budget exactly when it is at most 2000, no less than 24 hourly budgets, or at least 21601 |
| WorkerBudgets.Timetable | modules/promo_spread/module.py:425-482 | a run that sends at the earliest moments the rests and the hourly budget allow, as long as wanted |
| WorkerBudgets.CooldownKeptIff | modules/promo_spread/module.py:453-543 | every run keeps successes on one group a cooldown apart exactly when the cooldown is no longer than what a budget of one send enforces |
| WorkerBudgets.SoonAgain | modules/promo_spread/module.py:453-543 | a run with two successes on one group as close as the budgets and the rest allow, the second through a job queued under the group's older title |
| WorkerBudgets.Delivers | modules/promo_spread/module.py:436-659 | at rest, any job that arrives after the rest and passes budget and cooldown is delivered in one round |
| WorkerSafety.KeyMovesIff | modules/promo_spread/module.py:453-543 | a success is noted under another key than it was checked under exactly when its group was looked up and came back under another label |
| WorkerSafety.AckedOnce | modules/promo_spread/module.py:661-667 | over every run at least 200 other posts are acknowledged between two acknowledgements of one post |
| WorkerSafety.ClaimsWhenSettled | modules/promo_spread/queue.py:150-171 | a post is claimed for acknowledgement exactly when a delivery of it ended for good and its jobs in the queue are some and none pending |
| DailyQuota.DailyQuotaStore.TryConsume | modules/channel_forward/quota.py:100-124 | granted exactly below a positive limit or without one; a grant is booked and old days are pruned |
| DailyQuota.DailyQuotaStore.Prune | modules/channel_forward/quota.py:61-70 | each destination keeps its newest 14 days, and none without days stays |
| DailyQuota.DailyQuotaStore.Refund | modules/channel_forward/quota.py:126-149 | one slot of the day is taken back when there is one, empty days and destinations disappear |
| DailyQuota.PruneKeepsRecent | modules/channel_forward/quota.py:61-70 | pruning never changes the count of a day that fewer than 14 recorded days are newer than |
| DailyQuota.ConsumeEffect | modules/channel_forward/quota.py:100-124 | a granted slot counts once today and changes no other destination's count of today |
| DailyQuota.ConsumeBy | modules/channel_forward/quota.py:100-124 | a granted slot counts once on its destination's day and changes no count on the day of any other, whatever their calendars |
| DailyQuota.ConsumeTidies | modules/channel_forward/quota.py:61-124 | a granted slot leaves every destination with one to fourteen days |
| DailyQuota.RefundEffect | modules/channel_forward/quota.py:126-149 | a refund changes one count of one destination and day by one, never below zero |
| DailyQuota.RefundTidies | modules/channel_forward/quota.py:126-149 | a refund leaves no destination without days |
| DailyQuota.RefundRestoresIff | modules/channel_forward/quota.py:100-149 | a refund restores the count exactly when it is booked on the day of the reservation |
| DailyQuota.RefundReopensIff | modules/channel_forward/quota.py:126-149 | a refund reopens a full day exactly when it is booked on that day |
| DailyQuota.LateRefundOverfills | modules/channel_forward/quota.py:100-149 | the refund of an earlier day's slot lets a full later day grant one more than its limit |
| Delivery.DeliveryEngine.Admit | modules/channel_forward/delivery.py:81-145 | the order of the refusals, the cap seen twice, and the slot reserved exactly for an admitted delivery |
| Delivery.DeliveryEngine.SkipDailyCap | modules/channel_forward/delivery.py:180-191 | a capped post counts as seen up to its largest id, and the mark never moves back |
| Delivery.DeliveryEngine.Process | modules/channel_forward/delivery.py:81-159 | one whole delivery: the answer, the slots and the seen mark |
| Delivery.ProcessCounts | modules/channel_forward/delivery.py:114-159 | a delivery that ends on its day counts exactly when it was sent on a capped route, and for its destination alone |
| Delivery.AdmissionIs | modules/channel_forward/delivery.py:81-145 | for each answer the exact condition on screens, schedule, dry run and the counts of the two days the clock gave |
| Delivery.SeenIs | modules/channel_forward/delivery.py:180-191 | the mark rises to the largest non-zero id of the post, never falls, and no other mark changes |
| Delivery.StepKeepsInv | modules/channel_forward/delivery.py:114-159 | every start and end of a delivery keeps stored = succeeded + in flight, within the limit, for every capped destination |
| Delivery.SlotsBalance | modules/channel_forward/delivery.py:114-159 | over every interleaving of deliveries to capped and uncapped destinations, each on its own calendar, stored = succeeded + in flight and never above the limit, so failed and raising deliveries burn no slot |
| PoolMerge.Pool.UnionItems | scripts/merge_pool_cache.py:68-84 | the loop computes the union by newest entry and counts the keys it added or replaced |
| PoolMerge.Pool.MergeCatalog | scripts/merge_pool_cache.py:60-65 | catalog items are merged by the newest of their three times |
| PoolMerge.Pool.MergeGroupPool | scripts/merge_pool_cache.py:122-126 | group items are merged by update time, else creation time |
| PoolMerge.CatalogTimeIs | scripts/merge_pool_cache.py:48-64 | a catalog entry is as new as the latest of its three times; what is no date counts as the epoch |
| PoolMerge.GroupTimeIs | scripts/merge_pool_cache.py:66-68 | a group entry is as new as its update, or as its creation when no update is recorded, a malformed update counting as the epoch |
| PoolMerge.FoldIsNewest | scripts/merge_pool_cache.py:68-84 | after any sequence of snapshots each key holds a candidate no other candidate is newer than |
| PoolMerge.FoldKeys | scripts/merge_pool_cache.py:68-84 | the keys are those of the cache and of every snapshot entry that is an object |
| PoolMerge.FoldAnyOrder | scripts/merge_pool_cache.py:58-90 | the fold does not depend on the order of the snapshots when no two entries tie |
| PoolMerge.FoldAnyOrderIff | scripts/merge_pool_cache.py:58-90 | the fold is the same for every order of the snapshots exactly when no two different entries of one time lead under a key |
| PoolMerge.FoldAgain | scripts/merge_pool_cache.py:68-84 | merging any folded snapshot again changes and counts nothing |
| PoolMerge.UnionCommutesIff | scripts/merge_pool_cache.py:68-84 | two snapshots commute exactly when no key has different entries of one time that both win |
| TextSplice.StripEntities | modules/channel_forward/filters.py:168-182 | the result is the back-to-front splice of the dropped entities, and for disjoint spans the simultaneous replacement |
| TextSplice.WantedIgnored | modules/channel_forward/filters.py:157-171 | an entity the configuration does not ask to drop changes nothing, formatting never does |
| TextSplice.UnwantedAre | modules/channel_forward/filters.py:157-171 | entities of the kinds to drop are all targets, in the order given |
| TextSplice.SpliceLast | modules/channel_forward/filters.py:177-181 | splicing out the last span leaves what replacing the others does before it unchanged |
| TextSplice.SpliceIsReplace | modules/channel_forward/filters.py:177-182 | for disjoint spans in any order each becomes one space and every other code unit is kept in order |
| OnePassSplice.SplicingIsOnePass | modules/channel_forward/filters.py:177-181 | for any spans, overlapping or not, splicing from the back is one pass from the front that owes deletions |
| OnePassSplice.TextFollowsTrace | modules/channel_forward/filters.py:177-182 | every text is spliced as its places are |
| OnePassSplice.DebtIsExcess | modules/channel_forward/filters.py:177-181 | the deletions owed at a unit are the largest excess of what the spans of a stretch before it owe over its length |
| OnePassSplice.RightIff | modules/channel_forward/filters.py:177-182 | exactly when every unit in a span goes and every other stays |
| OnePassSplice.DisjointIsRight | modules/channel_forward/filters.py:177-182 | for disjoint spans it always does |
| OnePassSplice.TwoSpansRightIff | modules/channel_forward/filters.py:177-182 | for two spans exactly when they are apart, the one processed first is one unit long, the other ends with its first unit, or the other lies inside it from its start and is skipped |
| OnePassSplice.OverlapLeaks | modules/channel_forward/filters.py:177-182 | an outer span is skipped once an inner one shrank the text, and its first unit leaks |
| OnePassSplice.OverlapDeletes | modules/channel_forward/filters.py:177-182 | with more text behind them the same spans delete two units outside both |
| Catchup.SelectCatchupPosts | modules/promo_spread/catchup.py:10-46 | the loops compute the selection, with everything it promises |
| Catchup.OthersIgnored | modules/promo_spread/catchup.py:24-33 | service messages, undated and older ones, and those without an id change nothing |
| Catchup.RecentAre | modules/promo_spread/catchup.py:24-33 | all others count, in the order given |
| Catchup.SamePostIff | modules/promo_spread/catchup.py:34-40 | two messages belong to one post exactly when they are of one album, or are one message outside any album |
| Catchup.PostsGrouped | modules/promo_spread/catchup.py:24-40 | filing gives one post a key, holding all its eligible messages in order |
| Catchup.GroupsAreWhole | modules/promo_spread/catchup.py:42-46 | each picked post is whole, in order of id, different from the others and sorted by smallest id |
| Catchup.LeftOut | modules/promo_spread/catchup.py:42-43 | a message left out belongs to a post no younger than any returned one |
| Catchup.SelectionHolds | modules/promo_spread/catchup.py:10-46 | min(limit, posts) whole posts, ordered, the newest ones |
| AccountStore.ListedInOrder | app/cloudflare_ai/store.py:111-122 | the listing is a permutation of the accounts in order of priority and name |
| AccountStore.UsableMembers | app/cloudflare_ai/store.py:244-253 | usable are exactly the active accounts not exhausted since midnight UTC |
| AccountStore.UsableIff | app/cloudflare_ai/store.py:244-253 | usable at a moment of a UTC day is exactly an active account not marked exhausted since that day began |
| AccountStore.UsableInOrder | app/cloudflare_ai/store.py:111-122 | usable accounts come by priority, and by name within one priority |
| AccountStore.CloudflareAIStore.UsableAccounts | app/cloudflare_ai/store.py:252-253 | the loop computes the usable accounts in listing order |
| AccountStore.CloudflareAIStore.MarkUsedAt | app/cloudflare_ai/store.py:255-285 | the first account of the name is stamped used or exhausted, nothing else changes |
| AccountStore.CloudflareAIStore.Enable | app/cloudflare_ai/store.py:209-226 | switching on clears the exhaustion, switching off keeps it |
| AccountStore.CloudflareAIStore.AddAccount | app/cloudflare_ai/store.py:131-173 | refused exactly for a taken name, else appended with the given or next priority |
| AccountStore.AdminChanges | app/cloudflare_ai/store.py:209-242 | switching an account on forgets its exhaustion; switching it off or giving it a priority changes that alone, and no other account |
| AccountStore.AddIs | app/cloudflare_ai/store.py:131-173 | a new account comes last, unused; a taken name changes nothing |
| AccountStore.RemoveIs | app/cloudflare_ai/store.py:194-207 | removing an account takes it out and leaves the others in their order |
| AccountStore.ExhaustedStaysOut | app/cloudflare_ai/store.py:244-285 | whatever happens to the store, an exhausted account is not usable before the next UTC midnight unless re-enabled or added again |
| AccountStore.MarkedIsExhausted | app/cloudflare_ai/store.py:255-285 | marking an account exhausted makes every row of its name exhausted from that moment |
| Failover.CloudflareAIProvider.Chat | app/cloudflare_ai/provider.py:212-303 | who is asked in which order, what is recorded, how the call ends and where the next one starts; by the fields of the replies: `AskedIff`, `CallRecords`, `OutcomeIs`, `NextStart` |
| Failover.CloudflareAIProvider.Rotate | app/cloudflare_ai/provider.py:218-290 | the loop stops at the first reply that ends the call, within one round |
| Failover.TurnsDiffer | app/cloudflare_ai/provider.py:222-284 | no position gets two turns in one call |
| Failover.ContactsDiffer | app/cloudflare_ai/provider.py:212-290 | one call contacts no account twice |
| Failover.TriedExhausted | app/cloudflare_ai/provider.py:224-290 | an account turned away or without success in one attempt is exhausted after all that follow |
| ReplyEffects.VerdictIs | app/cloudflare_ai/provider.py:224-289 | which fields of a reply make it an answer, a refusal of JSON mode, an account out of reach, at its limit or without success, or a failure |
| ReplyEffects.AskedIff | app/cloudflare_ai/provider.py:218-290 | the call asks its k-th account exactly when there is one and no reply before it ended the call |
| ReplyEffects.OutcomeIs | app/cloudflare_ai/provider.py:224-303 | how a call ends: by its first answer, refusal of JSON mode or other failure, else as quota exhaustion when one reply spoke of a limit, else as no response |
| ReplyEffects.QuotaExhaustedIff | app/cloudflare_ai/provider.py:224-303 | quota exhaustion is reported exactly when all usable accounts were tried, every reply made the call go on, and one was 429, 400 with a limit message, or not 200 with `success` False |
| ReplyEffects.SilentExhaustion | app/cloudflare_ai/provider.py:233-297 | when every account answers 200 without success the call reports no response, although all usable accounts are exhausted from then on and none is usable again before midnight |
| ReplyEffects.CallRecords | app/cloudflare_ai/provider.py:224-289 | what a call leaves on every account: exhausted at its moment when at its limit or without success, used once when it answered, was out of reach or failed, untouched otherwise |
| ReplyEffects.ContactedUsable | app/cloudflare_ai/provider.py:224-289 | a contacted account is afterwards usable as before, unless its reply spoke of a limit or was without success: then only after the next midnight |
| ReplyEffects.FirstAsked | app/cloudflare_ai/provider.py:210-222 | a call starts at the provider's position, or with the first usable account when that is past the end |
| ReplyEffects.NextAsked | app/cloudflare_ai/provider.py:218-290 | each account asked next is the next usable one in the listing, the first after the last |
| ReplyEffects.NextStart | app/cloudflare_ai/provider.py:249-253 | the next call starts at the account that answered, and otherwise where this one started |
| FailoverRuns.CallExhausts | app/cloudflare_ai/provider.py:212-303 | an account whose reply spoke of a limit or was 200 without success is exhausted from that moment when the call is over |
| FailoverRuns.ExhaustedNotContacted | app/cloudflare_ai/provider.py:205-303 | over every sequence of calls and admin changes no later call of the day contacts an account whose reply spoke of a limit or was 200 without success, unless it is re-enabled or added again |
| Reward.RewardInRange | experiments/linkdir_finders/reward.py:84-113 | the reward lies between 0 and 1 for all counts and rank scores |
| Reward.QualityMoves | experiments/linkdir_finders/reward.py:98-99 | quality never falls with a keep or a review turned keep and never rises with a junk |
| Reward.RewardMoves | experiments/linkdir_finders/reward.py:84-113 | for fixed rank scores and a positive total the reward moves the same way |
| Reward.RewardFormula | experiments/linkdir_finders/reward.py:82-113 | the score in one formula: 0.65 of the share of useful rows (a review worth 0.35, less a quarter of the junk), 0.35 of the volume (full from twelve useful rows on), and a tenth of the mean rank score's distance from fifty |
| Reward.NegativeIsNone | experiments/linkdir_finders/reward.py:84-97 | negative counts are no counts, and no rows score 0 |
| Reward.AllKeepScoresOneIff | experiments/linkdir_finders/reward.py:32-33 | rounded to four places, a saturated all-keep query scores 1 exactly while its mean rank score is at least 49.95 |
| Reward.AllKeepBelowNeutral | experiments/linkdir_finders/reward.py:84-113 | twelve keeps with a rank score of zero score 0.95; a mean just below neutral still scores 1 |
| Reward.AllJunkScoresZero | experiments/linkdir_finders/reward.py:32-33 | a query of a grouped catalog all of whose rows are junk scores 0, whatever rank scores those rows carry |
| Reward.TotalsAreAttributions | experiments/linkdir_finders/reward.py:160-183 | the result totals over all queries add up to the attributions of rows to queries |
| Reward.RowNames | experiments/linkdir_finders/reward.py:65-79 | a row is attributed to a query once for every time it names it, blanks around it aside |
| Reward.TallyCounts | experiments/linkdir_finders/reward.py:130-183 | each query is credited, verdict by verdict, with exactly the rows that name it, and with the rank scores of those that are not junk |
| Reward.GroupCatalogRows | experiments/linkdir_finders/reward.py:160-183 | the loops over shared outcome objects compute the credited board |

## Left out

- References that are JSON integers, and non-ASCII digits and white space in references: the model is textual and ASCII.
- Profiles with blank or repeated sources inside one account, and repeated or blank account ids: rebuilding routes by source assumes distinct ones, and the results state it.
- The `default_mode` and `auto_join` fields, disabled modules and which profiles count as promo workers.
- Candidate filtering and ranking in sync (references are given in order), the `SystemExit` for a missing catalog, and writing eligible profiles back to disk.
- GroupSync.SyncOwnership: groups whose key is the stored key of a slash-rooted candidate (`/name` next to `@/name` in one catalog) are set apart, here and in the sync results built on it.
- Exclusivity.ReconcileIdempotent: runs in which reconcile raises are excluded; the profiles it rewrote before may list their groups in another order the next time.
- Exclusivity.ReconcileOrderIndependent: runs in which reconcile raises are excluded, see `OrderCase`.
- GroupSync.SyncExclusiveIff: catalogs with a slash-rooted candidate are excluded when no account has an enabled source, or when the stored key of the candidate has no key itself.
- TelemetryBuffer.Cap: which counters of the last day are cut off follows the insertion order of the source; the contract allows any choice.
- Two flushes in flight and negative amounts in the conservation result; metric key syntax is a predicate.
- Job timestamps other than the creation stamp, error texts, delivery reports, reactions, alerts, and delays beyond the four seconds between rounds; an exception raised by the acknowledgement itself.
- Calendar days and windows of the active hours (whether the moment is open is an input), and admin commands that open or reset the circuit.
- WorkerSafety.WindowBudgets: daily budgets that nothing enforces are excluded, see `DailyBudgetIff`.
- WorkerSafety.CooldownsApart: jobs whose group first had to be looked up may be noted under another key, see `CooldownKeptIff`.
- Delivery.SlotsBalance: a failing delivery that ends on a later day than it started is excluded, see `RefundRestoresIff` and `LateRefundOverfills`; routes of a destination share one limit and time zone.
- What a delivery sends, the publish queue, deduplication, statistics and message mappings.
- The metadata, pipeline history and other files of the pool merge.
- UTF-16 encoding around the splice, and the regular expressions, replacements and white-space rules that follow it.
- Message dates as instants with time zones; they are ordered numbers.
- Account errors, neuron counts and token texts; label, id and token checks when an account is added.
- Extraction of answers, tool calls and error texts from a provider's reply; a reply is its status and the facts the loop branches on.
- `log1p` is any monotone function with the needed fixed points, and so is rounding where it is not spelled out as `Round4`; floating-point error is not modelled.
- Verdict texts and JSON inside the `queries` field: a row carries its verdict and its list of queries.
