# LibrePing: a verified model of the mesh's decisions

LibrePing is a mesh of monitoring hubs and probes without a coordinator. Every hub decides alone,
from gossiped records, which results it stores, which alerts it fires, which peers it lists and how
checks are spread over probes. This project models those algorithms in Dafny 4.11 and proves what
the mesh relies on: properties of every input, of every run and of every interleaving.
`dafny verify dfyconfig.toml` checks everything.

## The parts

| file | what it models |
|---|---|
| `Shard.dfy`, `Interest.dfy`, `Placement.dfy` | rendezvous placement of shards, the trust clamp, what a hub stores, where it reads and pushes |
| `Lww.dfy`, `Subscriptions.dfy`, `AlertStore.dfy` | owner-signed records with tombstones and lazy expiry, delivery state per hub |
| `Responsibility.dfy`, `AlertEngine.dfy`, `AlertMesh.dfy` | who fires a rule, corroboration and evaluation, the delivery protocol of the mesh |
| `Assign.dfy`, `RateLimit.dfy`, `Reporter.dfy` | greedy assignment of checks to probes, the two token buckets, the probe's scheduler |
| `Decimal.dfy`, `ResultStore.dfy`, `Backfill.dfy` | the in-memory result store and its string keys, shard repair by backward paging |
| `Tiering.dfy`, `History.dfy` | hourly and daily rollups in SQL, and the rollup a hub without a database serves |
| `Directory.dfy`, `Failover.dfy`, `Outbox.dfy` | peer verification under concurrency, the probe's pool of hubs, the re-send buffer |
| `DeriveId.dfy` | content-derived check IDs |
| `Ids.dfy`, `Ranking.dfy`, `Protocol.dfy` | string order, "the first k of a ranking" and sorting, the wire records |

Code that changes state is modelled as classes and methods over fields and loops, each tied to a
function or a relation of the old and the new state; the lemmas are about those. The two protocols
in which several parties interleave (`AlertMesh`, `Directory`) are state machines whose steps are
the critical sections of that code.

## Where the code differs from its comments, or a property needs a condition

* `AlertEngine.CommentHoldsExactly`: the package comment of `hub/alert/alert.go` wants nothing to have
  reported up within the window; the code looks at each probe's newest result only. The two agree
  exactly when the code says up, or no probe that was up within the window has reported anything else
  since. `RecentUpDoesNotHoldBack` is the failing input, for any window.
* `AlertMesh.HastyFailoverDuplicates`: rendezvous alone does not prevent duplicate alerts. They are
  prevented if a hub that takes over has heard of the last notification (`NotificationsAlternate`), and
  in any run at all exactly when every sender began on what was to be the last status sent before its
  own (`AlternatesExactly`).
* `RateLimit.CapHoldsExactly`: the probe's "hard ceiling" of m checks a minute holds for windows of
  length T exactly while T brings in less than one token, so for no minute: 2m can start within one
  (`MinuteCanDoubleTheCap`). The most that a window can hold is m + rate × elapsed, rounded down, for
  every length (`WindowBoundExactly`).
* `Directory.PromotesByURL`, `Directory.SameURLNeverAdopted`: verification is by URL and not by exact
  announcement (`PromotesCheckedExactly` says when the two are the same), and a hub that re-announces
  a new capacity under an unchanged URL is never updated.
  `Directory.DemotionUnreachable`: the branch that demotes an entry is dead code, so a hub whose
  verified URL goes dark is served until its TTL.
* `Lww.Resurrection`: pruning can bring an older version back, exactly when it outlives the newer one.
  The browser signs every record with an expiry of now + 7 days, which keeps its records safe.
* `ResultStore.BarsCollideExactly`: two probes can lose measurements to a shared key exactly when one's
  ID starts with the other's and a bar. Probe IDs are hexadecimal, so they do not.
* `Decimal.Itoa`: the least int64 is written as a bare "-"; keys stay distinct all the same.
* `History.WindowsAgreeExactly`: the in-memory history and the SQL history filter differently unless
  the range starts and ends on bucket bounds.

## Assumptions

* Hashes are parameters: `Draw` (a positive factor for each hub and shard), `Digest`, `Hash`, and the
  SHA-256 of a check's text. Nothing is assumed of them but what a lemma states.
* Scores, loads, tokens and latencies are real numbers. Strings are sequences of bytes.
* Clocks do not run back within one object where a contract says so (`now >= last`, `ClockOrdered`,
  `Clocked`); cooldown and TTL arithmetic is on unbounded integers.
* `Placement` reads directories that carry the hubs' current announcements (`Current`); durability is
  proved for any trust sets and any partial views, routing for hubs that trust alike.
* `AlertMesh` has honest hubs: claims on the wire are claims of the hub they name.
* `Assign` and `Placement` get lists with distinct IDs, as their callers build them from maps.

## Model

| member | source | states |
|---|---|---|
| Shard.Partition | hub/shard/shard.go:123-140 | archives are listed apart; hubs without ID or without capacity do not compete |
| Shard.Holders | hub/shard/shard.go:123-157 | the result is exactly the archives and the k best-scored competing hubs, each once |
| Shard.HoldersAreHolderSet | hub/shard/shard.go:123-157 | sorting and taking k selects the hubs with fewer than k others ahead, a definition without lists |
| Shard.AssignedShards | hub/shard/shard.go:161-181 | it is the inverse of Holders: a shard is assigned if and only if the hub is one of its holders |
| Shard.HoldersOrderFree | hub/shard/shard.go:123-157 | permuting the hub list does not change a shard's holders |
| Shard.RemovingOneHub | hub/shard/shard.go:111-157 | when a hub leaves, no other holder loses the shard, at most one joins, and none if the leaver was not among the k |
| Shard.ScoreMonotone | hub/shard/shard.go:111-119 | more capacity never lowers a score |
| Shard.ScoreRatio | hub/shard/shard.go:111-119 | scores of one hub on one shard are in the ratio of its capacities |
| Shard.HoldersOutscore | hub/shard/shard.go:114-157 | of two competing hubs of which one holds a shard and one does not, the holder draws more, weighted by capacity, or as much and has the larger ID |
| Shard.OnlyTheAbleHold | hub/shard/shard.go:123-157 | holders have an ID and are archives or have capacity; archives always hold, and so does every competing hub where at most k compete |
| Shard.TrustClamp | hub/shard/shard.go:66-77 | a trusted announcement is taken as it is; an untrusted one is no archive and has at most 100, exactly 100 for archives and claims from 100 on, and its own claim below |
| Shard.ShardOfHex | hub/shard/shard.go:82-94 | the shard of a hexadecimal ID is its first 16 bits modulo 64, which its third and fourth digits determine |
| Shard.EveryShardIsUsed | hub/shard/shard.go:82-94 | each of the 64 shards has hexadecimal check IDs of full length |
| Interest.Set.constructor | hub/interest/interest.go:32 | before the first update a hub stores everything |
| Interest.Set.Update | hub/interest/interest.go:37-44 | one update replaces all four fields |
| Interest.Set.Holds | hub/interest/interest.go:49-62 | a check is stored if and only if the hub is not ready, is an archive, is assigned its shard, or pins it |
| Placement.StorageHubs | hub/api/server.go:626-634 | the view lists the hub itself as it is and then every live peer: as announced if trusted, otherwise no archive and clamped to 100 |
| Placement.Recompute | hub/main.go:572-624 | the interest set matches the placement; every check stored is on a joined topic; only newly assigned shards are backfilled |
| Placement.HolderURLs | hub/api/server.go:654-673 | the URLs are exactly the non-empty ones of the other hubs this hub takes for holders |
| Placement.DirectoryGivesView | hub/main.go:572-576 | the list built from the directory is the hub's view of the mesh |
| Placement.PeerEntries | hub/api/server.go:626-634 | in any view a trusted peer stands as it declares itself, an untrusted one is no archive and has at most 100, and less only if it claims less |
| Placement.NoEclipse | hub/shard/shard.go:59-77 | if two meshes differ only in how much an untrusted peer claims, the archive role or at least 100 in both, every other hub has the same view and the same holders of every shard |
| Placement.StrongestHolderHolds | hub/shard/shard.go:66-181 | a hub in the top k of the strongest common view stores the shard by its own view, whoever it sees and trusts |
| Placement.ShardIsDurable | hub/shard/shard.go:66-181 | whatever each hub sees and trusts, at least min(k, hubs able to store) hubs store each shard |
| Placement.CheckIsDurable | hub/interest/interest.go:49-62 | any check's results are stored by at least min(3, hubs able to store) interest sets |
| Placement.NamedHolderHolds | hub/api/server.go:626-673 | a remote holder named by a non-archive hub is a holder by its own view, if that view has nobody the namer missed |
| Placement.NonHolderSeesCommonView | hub/api/server.go:626-673 | under the open policy a non-archive non-holder computes exactly the holders of the fully clamped view |
| Placement.PushReachesEveryHolder | hub/api/server.go:506-537 | a hub that does not store a result names exactly min(3, able) hubs, and each stores it by its own interest set |
| Placement.RoutedHolderStores | hub/api/server.go:497-513 | under partial views, every remote hub named by a hub that does not store a check stores it by its own interest set, if it trusts alike and sees nobody the namer missed |
| Placement.PushURLsReachEveryHolder | hub/api/server.go:525-537 | the URLs pushed to are non-empty and those of exactly min(3, able) hubs, each of which stores the check |
| Lww.ListingIsNewest | hub/store/subscription.go:42-93 | after any order, duplication, replay and pruning, listing shows the newest-version view of the records received, if they are safe |
| Lww.ExactlyTheSafeSets | hub/store/subscription.go:42-93 | listings are right in every run over a set of records if and only if newer versions outlive older live ones and live stamps are unique |
| Lww.Resurrection | hub/store/subscription.go:56-72 | an older live version can be listed after a newer one arrived if and only if it outlives it |
| Lww.HubsAgree | hub/store/subscription.go:42-93 | hubs that received the same safe records list the same |
| Lww.DeletedStaysDeleted | hub/store/alert.go:58-113 | once a delete has arrived nothing older under its key is listed again |
| Subscriptions.MemSubscriptions.Upsert | hub/store/subscription.go:42-54 | a record replaces what is stored only if it is strictly newer |
| Subscriptions.MemSubscriptions.ListActive | hub/store/subscription.go:56-72 | lists the live entries whose expiry is 0 or not before now, once each, forgets exactly the expired, and for safe records shows the newest-version view |
| Subscriptions.MemSubscriptions.ListForGossip | hub/store/subscription.go:74-87 | lists everything unexpired, tombstones included |
| Subscriptions.OwnEntry | hub/store/subscription.go:27 | two subscriptions share an entry if and only if owner and check agree, for owners without a bar |
| Subscriptions.NeverDisplaced | hub/store/subscription.go:42-54 | a subscription of another owner or to another check never displaces a stored one |
| AlertStore.MemAlerts.Upsert | hub/store/alert.go:58-72 | last writer wins; a newer tombstone, and only that, drops the rule's delivery state |
| AlertStore.MemAlerts.ListActive | hub/store/alert.go:74-91 | lists live unexpired rules once each; exactly the expired rules go, together with their delivery state |
| AlertStore.MemAlerts.ListForGossip | hub/store/alert.go:93-107 | lists all unexpired rules, tombstones included |
| AlertStore.MemAlerts.GetRule | hub/store/alert.go:115-120 | the result is a version received under that ID; of safe records it is, at any later time, the newest received version if that is live, and otherwise none, deleted or expired |
| AlertStore.MemAlerts.GetDelivery | hub/store/alert.go:122-133 | a newest claim of any hub, none if and only if there is no claim |
| AlertStore.MemAlerts.GetDeliveryBy | hub/store/alert.go:135-140 | the claim filed under that hub |
| AlertStore.MemAlerts.MergeDelivery | hub/store/alert.go:142-155 | a hub's claim is replaced only by a strictly later one of that hub; nothing else changes |
| AlertStore.MergeOrderFree | hub/store/alert.go:142-155 | merging the same claims in any order and multiplicity gives the same state |
| AlertStore.OrderFreeExactly | hub/store/alert.go:142-155 | that holds if and only if no hub has two last claims with one stamp |
| AlertStore.IngestDelivery | hub/main.go:175-196 | a gossiped claim counts only for a known rule, from one of its recipients, and not from more than two minutes ahead |
| Responsibility.ExactlyOneWinner | hub/alert/responsibility.go:16-55 | exactly one candidate is responsible in any non-empty set |
| Responsibility.Responsible | hub/alert/responsibility.go:16-30 | true if and only if self scores higher than every peer, or as high with the larger ID |
| Responsibility.ResponsibleAmong | hub/alert/responsibility.go:41-55 | true if and only if self is a candidate and scores higher than the others, or as high with the larger ID; with self + peers it is Responsible |
| Responsibility.TopKHubs | web/src/identity.ts:103-109 | the first k of the hubs by score and then ID, both descending |
| Responsibility.ChooseRecipients | web/src/identity.ts:176-185 | the recipients are the top 3 hubs with an encryption key, best first, and every other hub with a key is outranked by three; none for a deletion |
| Responsibility.FirstLiveRecipientWins | web/src/identity.ts:94-109 | among any live hubs the responsible recipient is the first live one of the browser's ranked list |
| AlertEngine.LatestPerProbeByCheck | hub/alert/alert.go:207-221 | for each check and probe the newest result, the first seen among equal stamps |
| AlertEngine.CorroboratedStatus | hub/alert/alert.go:224-248 | no status without results; otherwise down if and only if enough probes last said down and no up is recent |
| AlertEngine.DownNeedsWitnesses | hub/alert/alert.go:207-248 | from results to status: down if and only if failLocations distinct probes last said down and none last said up within the window |
| AlertEngine.CommentHoldsExactly | hub/alert/alert.go:9-12 | the code's status is the package comment's if and only if it is up, or no probe that was up within the window has reported something else since |
| AlertEngine.RecentUpDoesNotHoldBack | hub/alert/alert.go:9-12 | for any window, a probe that was up within it and is down now does not hold the alert back, against the package comment |
| AlertEngine.Engine.DeliveredStatus | hub/alert/alert.go:128-141 | the status of the newest claim among the rule's recipients, up when there is none |
| AlertEngine.Engine.EvaluateRule | hub/alert/alert.go:70-183 | a status is sent only by the responsible recipient, only if it differs from the delivered one; a failed send changes no state |
| AlertEngine.EvaluatedIsFired | hub/alert/alert.go:70-183 | from the results and the rule's own fields: a check without results changes nothing; otherwise Down, with enough distinct probes last down and no recent up, or else Up is claimed if this hub wins among the live recipients, can reach the destination and takes another status for delivered |
| AlertEngine.Engine.Evaluate | hub/alert/alert.go:70-117 | one pass does to every active rule exactly what the results, the rule's own fields and the live hubs say, and touches no other rule's state |
| AlertMesh.EveryClaimWasSent | hub/main.go:175-196 | in every run each delivery state anywhere matches an earlier successful send by the recipient it names |
| AlertMesh.SuppressedOnlyIfSent | hub/alert/alert.go:100-141 | a change is suppressed only if some recipient already sent that status, or it is the initial up |
| AlertMesh.FailureIsRetried | hub/alert/alert.go:146-183 | when a send has failed, whatever the rest of the mesh did meanwhile, the same evaluation may start again |
| AlertMesh.PassIsRun | hub/alert/alert.go:70-183 | a pass of the engine over the rule is a skip or a start with its outcome, so passes are steps of the mesh |
| AlertMesh.NotificationsAlternate | hub/alert/alert.go:70-183 | in every careful run the mesh-wide log of notifications alternates down, up, down, and at most one send is under way |
| AlertMesh.AlternatesExactly | hub/alert/alert.go:128-183 | in any run the log of notifications alternates if and only if every sender took for delivered, as it began, the status that was the last sent before its own |
| AlertMesh.HastyFailoverDuplicates | hub/alert/alert.go:4-7 | without a clean handoff two hubs can both send down |
| Assign.Assign | hub/assign/assign.go:43-89 | for distinct probe IDs the plan is the placement of the checks in ID order; each distinct check runs on at most max(1, redundancy) probes that can run it, on fewer only if every other such probe would overflow, and no capped probe exceeds its capacity; every probe listed has an entry |
| Assign.PlaceCheck | hub/assign/assign.go:61-87 | one check goes to the first r by load and then ID of the probes that support it and have room |
| Assign.LightestAreChosen | hub/assign/assign.go:61-87 | a check goes only to probes that support it and have room, and such a probe is passed over only if r others carry less, or as much and have smaller IDs |
| Assign.WithinCapacity | hub/assign/assign.go:75-87 | loads are the summed costs of what was handed out, and no capped probe exceeds its capacity |
| Assign.OnlySupported | hub/assign/assign.go:61-87 | a probe runs only offered checks, each once, of the types it lists, or of any type if it lists none |
| Assign.RedundantAndMaximal | hub/assign/assign.go:40-89 | a check runs on at most r probes, and on fewer only if every other supporting probe would overflow even at its final load |
| Assign.AssignedIsFull | hub/assign/assign.go:43-89 | the plan of a list of distinct checks keeps every capacity and places every check fully |
| Assign.Balanced | hub/assign/assign.go:40-89 | two unrestricted probes end within the largest single cost of each other, whatever the rest |
| Assign.OrderFree | hub/assign/assign.go:55-72 | with distinct IDs the plan does not depend on the order of checks or probes |
| Assign.CostFillsAMinute | hub/assign/assign.go:32-38 | a check's cost times its interval is a minute, an interval of 0 or less counting as a minute |
| RateLimit.LevelIsTightestWindow | probe/reporter/ratelimit.go:39-54 | the tokens in the bucket are the tightest of all window bounds |
| RateLimit.GrantedExactlyWithRoom | probe/reporter/ratelimit.go:39-54 | a call is granted if and only if no window ending with it exceeds max + rate × elapsed |
| RateLimit.WindowBound | probe/reporter/ratelimit.go:39-54 | between any two calls at most max + rate × elapsed are granted |
| RateLimit.MostPermissive | probe/reporter/ratelimit.go:39-54 | no limiter that respects every window has granted more at any point |
| RateLimit.WindowBoundExactly | probe/reporter/ratelimit.go:39-54 | n calls can be granted within T if and only if n is at most m + rate × T |
| RateLimit.CapHoldsExactly | probe/reporter/ratelimit.go:9-11 | no window of length T has more than m grants if and only if less than one token comes in within T |
| RateLimit.MinuteCanDoubleTheCap | probe/reporter/ratelimit.go:9-11 | within one minute up to 2m calls, and no more, can be granted |
| RateLimit.TokenBucket.constructor | probe/reporter/ratelimit.go:23-35 | a new bucket is full and refills its size in a minute |
| RateLimit.TokenBucket.Allow | probe/reporter/ratelimit.go:39-54 | the fields always stand for the history of calls, the decision is whether every window has room, and that is when the refilled tokens reach one |
| RateLimit.IpRateLimiter.Allow | hub/api/ratelimit.go:47-70 | the decision for an address is that of a full bucket fed its own calls only |
| Reporter.Reporter.constructor | probe/reporter/reporter.go:69-91 | a fresh bucket of the configured size, or none without a cap |
| Reporter.Reporter.Refresh | probe/reporter/reporter.go:118-149 | known checks keep their due time, new ones are due at once, the rest are dropped; without an answer nothing changes |
| Reporter.Reporter.RunDue | probe/reporter/reporter.go:154-175 | starts only due checks, each once and due again after its interval; the bucket is called once for each due check and each start is one of its grants at a reading of this pass; a due check is missing only if a call of this pass was refused, and none is when the bucket has a token for each, or there is no cap |
| Reporter.GrantTimesBound | probe/reporter/ratelimit.go:39-54 | what a bucket granted between any two times is at most max + rate × the time between them |
| Reporter.Reporter.ValidKeepsRate | probe/reporter/reporter.go:154-175 | whatever passes there were, the checks started between any two times obey that bound |
| Reporter.Reporter.Run | probe/reporter/reporter.go:96-114 | over any sequence of polls and ticks the starts stay the bucket's grants and obey that bound |
| Decimal.Itoa | hub/store/store.go:303-323 | the text of any int64, within a buffer of 20 bytes and with wrap-around of the least one |
| Decimal.TextRoundTrip | hub/store/store.go:303-323 | an int64 reads back if and only if it is not the least |
| Decimal.TextInjective | hub/store/store.go:303-323 | no two int64 values share a text, the least included |
| ResultStore.KeyCollidesExactly | hub/store/store.go:115-117 | two rows share a key if and only if their times agree and probe and check read alike when joined by a bar |
| ResultStore.KeyIsTriple | hub/store/store.go:115-117 | without bars in probe IDs the key is the triple of probe, check and time |
| ResultStore.BarsCollideExactly | hub/store/store.go:115-117 | two different probes can share a key if and only if one's ID starts with the other's and a bar |
| ResultStore.StoredOnce | hub/store/store.go:119-129 | however often results are delivered, exactly the first delivery of each measurement is stored |
| ResultStore.DeliveryOrderFree | hub/store/store.go:119-129 | stores that were delivered the same measurements hold the same measurements |
| ResultStore.MemStore.Insert | hub/store/store.go:119-129 | a row is appended unless its key is known |
| ResultStore.MemStore.FilterSince | hub/store/store.go:174-196 | at most `limit` of the matching rows of the window, the newest, newest first, filtered before the cap |
| Backfill.PageIsNewest | hub/store/store.go:174-196 | a page holds matching rows only, and every matching row left out is no newer than its oldest |
| Backfill.PageProgress | hub/main.go:292-314 | one page moves the cursor down, repeats no row, and passes over only ties with its oldest |
| Backfill.Ingest | hub/main.go:298-309 | admitted rows are inserted and counted, others skipped |
| Backfill.FromHolder | hub/main.go:290-318 | paging one holder ends, returns no row twice, keeps what was stored, adds only rows that were returned and admitted and leaves none of those unrepresented, stays below the cap plus a page, and unless capped misses only rows that tie with a returned one |
| Backfill.DistinctTimesMissNothing | hub/main.go:292-314 | when timestamps are distinct nothing is missed |
| Tiering.PartsAddUp | hub/store/tiering.go:160-176 | groups that split the rows of another group add up to it, for any weight |
| Tiering.DailyFromHourlyIsDirect | hub/store/tiering.go:133-188 | a table is the daily SELECT of the hourly summaries if and only if it groups the raw rows by day: same counts, measured-weighted average, least, greatest and last columns, negative times included |
| Tiering.FoldIsSummary | hub/store/tiering.go:160-188 | the same for one daily row: nulls are skipped, an average is weighted by its measured samples, the last hour gives the last columns |
| Tiering.RollupIsUnique | hub/store/tiering.go:133-188 | with rows unique per probe, check and time, a rollup is determined by its rows |
| Tiering.FieldsAreCounts | hub/store/tiering.go:133-158 | the counts of a summary are the numbers of its group's rows, of those up, down and degraded, and of those with a measured latency |
| History.Add | hub/store/store.go:251-285 | an accumulator tells the counts, range, sum and last columns of its group after each row |
| History.NameInjective | hub/store/store.go:243-244 | the bucket's map key determines probe and bucket |
| History.HistoryRange | hub/store/store.go:219-299 | one summary for each probe and bucket with rows in the range, by bucket and then probe, hourly up to 14 days and daily beyond; nothing for an empty range; each field counts or measures the rows of its bucket |
| History.ServedFieldsTell | hub/store/store.go:251-285 | the fields of a served summary are its bucket's number of rows, of rows up, down and degraded, the least, greatest and average measured latency or 0 without one, and the status, type and target of a last row |
| History.WindowsAgreeExactly | hub/store/postgres.go:192-198 | filtering rows by time and buckets by bound is the same if and only if the range is aligned |
| History.StoresAgree | hub/store/postgres.go:179-226 | on an aligned range the in-memory history is exactly the exposed rows of the SQL tier |
| Directory.Directory.Add | hub/directory/directory.go:81-114 | an announcement of another hub with a URL becomes the pending one and what was verified stays; a verifier starts if its URL is not the verified one and none runs |
| Directory.Directory.Pick | hub/directory/directory.go:124-137 | the verifier takes the pending URL if that is not the verified one; else it stops and clears its flag |
| Directory.Directory.Finish | hub/directory/directory.go:141-160 | a pass promotes the announcement pending now; a URL that changed meanwhile is checked again |
| Directory.Directory.List | hub/directory/directory.go:177-193 | every verified hub heard from within the TTL, once, newest first; exactly the entries heard from within the TTL are left, as they were |
| Directory.Directory.ActiveWithin | hub/directory/directory.go:198-209 | every verified hub heard from within the window, once; nothing is forgotten |
| Directory.ServedURLPassed | hub/directory/directory.go:81-193 | in every interleaving what is served answered a check at that URL under that hub's ID |
| Directory.NoURLForgotten | hub/directory/directory.go:81-166 | at most one verifier runs for a hub, the flag matches it, and a pending URL neither verified nor being checked is one whose check ended in failure after the hub's last announcement was recorded |
| Directory.ServedUntilExpiry | hub/directory/directory.go:116-166 | a served announcement stays until its TTL runs out or another URL of that hub passes |
| Directory.AnnouncedStaysServed | hub/directory/directory.go:92-99 | a served hub heard from at some time is served by every listing until its TTL after that has passed |
| Directory.SilentIsForgotten | hub/directory/directory.go:177-193 | in every interleaving a listing leaves no entry older than its cutoff, and a hub silent since before that is not served |
| Directory.DemotionUnreachable | hub/directory/directory.go:156-158 | the URL a verifier checked is never the verified one, so nothing is ever demoted |
| Directory.SameURLNeverAdopted | hub/directory/directory.go:94-99 | once settled, announcements under the same URL are never adopted, whatever capacity they carry |
| Directory.PromotesCheckedExactly | hub/directory/directory.go:33-38 | a check that passes promotes the announcement pending when it began if and only if the last one of that hub recorded meanwhile, if any, is the same |
| Directory.PromotesByURL | hub/directory/directory.go:33-38 | a run in which an announcement that arrives under the URL being checked is served without a check of its own |
| Failover.PoolGrows | probe/reporter/failover.go:85-91 | the pool keeps its prefix, has no duplicate or empty URL, at most 32 hubs, and takes every hub it has room for |
| Failover.OrderIs | probe/reporter/failover.go:140-156 | every hub is in the order once, those out of cooldown first, each part in rotation from the start |
| Failover.FailoverClient.constructor | probe/reporter/failover.go:60-75 | the pool starts as the distinct seeds, in order |
| Failover.FailoverClient.AddLocked | probe/reporter/failover.go:85-91 | a hub is appended unless its URL is empty or known or the pool is full |
| Failover.FailoverClient.Discover | probe/reporter/failover.go:190-210 | the current hub's directory is appended; known hubs and the current index stay |
| Failover.FailoverClient.Do | probe/reporter/failover.go:133-186 | the attempts are a prefix of the order, hubs whose cooldown has ended before those still cooling; failures go into a 30 second cooldown, the answering hub leaves it and becomes current; known URLs stay |
| Failover.FailoverClient.Register | probe/reporter/failover.go:96-101 | the pool grows by the current hub's directory, then the call runs in the order from the first hub; a first hub without a cooldown, or past its end, that answers is the only one tried and is current again |
| Failover.FailsOnlyAfterAll | probe/reporter/failover.go:159-185 | no hub is tried twice; a call fails if and only if none would answer, and then every hub is in cooldown from its attempt |
| Failover.BestAnswers | probe/reporter/failover.go:127-132 | the hub that answers is the first, in order of preference, of those that would |
| Failover.StartIsFirst | probe/reporter/failover.go:140-156 | a current hub out of cooldown is tried first |
| Failover.FailuresCool | probe/reporter/failover.go:166-179 | when a call ends, a hub that was tried is in cooldown if and only if it failed |
| Failover.RecoversAfterCooldown | probe/reporter/failover.go:140-156 | a hub that failed at t is, in any call from t + 30 seconds on, tried before every hub still cooling, and if it answers none of those is tried |
| DeriveId.FieldsRoundTrip | pkg/protocol/protocol.go:77-99 | length-prefixed fields are read back whatever bytes they hold |
| DeriveId.PreImageDecodes | pkg/protocol/protocol.go:82-99 | type, target and every parameter are recovered from the hashed text |
| DeriveId.SameTextExactly | pkg/protocol/protocol.go:71-99 | two checks hash the same text if and only if type, target and parameters agree |
| DeriveId.SameIDExactly | pkg/protocol/protocol.go:71-102 | where the digest does not collide, IDs agree if and only if content does |
| DeriveId.DeriveID | pkg/protocol/protocol.go:82-102 | the ID is the digest of that text, in whatever order the parameter map is visited |
| Outbox.Outbox.constructor | hub/outbox/outbox.go:32-37 | an empty buffer, bounded by 2048 when no bound is given |
| Outbox.Outbox.Add | hub/outbox/outbox.go:40-50 | the result is appended and only the last maxN are kept |
| Outbox.Outbox.Recent | hub/outbox/outbox.go:53-71 | what is not older than maxAge stays and is returned in order, compacted in place |
| Outbox.RecentReturnsExactly | hub/outbox/outbox.go:40-71 | after any mix of calls Recent returns exactly the results among the last maxN ever added that are not older than maxAge |

## Left out

- Assign.Assign: says which plan results for distinct probe IDs, as `liveProbes` (hub/api/server.go:993-1006) builds them from a map; for two entries under one ID it promises only that every probe has an entry.
- Assign.PlaceCheck: likewise for distinct probe IDs only.
- Backfill.FromHolder: completeness is of the rows the holder returns, before the admission gate, because that gate rejects rows older than 24 hours (hub/admit/admit.go:28) whatever the repair horizon.
- Failover.FailoverClient.Do: one call at a time; the lock is released between attempts in the source, and concurrent calls may then interleave their cooldown updates.
- DeriveId.DeriveID: the digest is a function of the text, and taking 8 bytes of SHA-256 as 16 hexadecimal digits is part of it.
- History.HistoryRange: time spans are unbounded integers, so an overflow of toMS − fromMS is not modelled; the location columns are left out with `Location`.
- Tiering.DailyFromHourlyIsDirect: the two SELECT statements only; refresh windows, compression and retention policies are not modelled, nor are the country, city and coordinate columns.
- Placement.Recompute: the pinned set is a parameter; which checks are pinned (local probes, alert rules) is computed from stores and left out.
- Responsibility.ChooseRecipients: the sealed text of a recipient is left out; only the choice of hubs is modelled.
- AlertMesh.NotificationsAlternate: live views agree at each start; runs in which hubs disagree on who is live are covered by `AlternatesExactly`.
- `AddVerified` of the directory, which its comment reserves for tests and static peer sets.
- Nil receivers (`*Outbox`, `*ipRateLimiter`, `*interest.Set`, a nil token bucket on its own) and single-branch defaults.
- Ed25519 signatures, SHA-256, X25519 sealing and JSON encoding.
- The libp2p host, discovery, topics and streams; gossip is any record delivered any number of times, in any order.
- HTTP handlers, timeouts, network guards, geolocation and the probe's checkers.
- The Postgres stores other than the two aggregates and the history query; their `Upsert` and expiry differ in details from the in-memory stores.
- The 1000-row caps on alert and gossip reads, and body size limits.
- Rounding, NaN and infinities of floating-point scores, loads and averages.
- `monitoredSpecs`, coverage counts and catalog listing, which would add easy members only.
- The dashboard, the SVG banner and the text of notifications.
