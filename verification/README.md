# Aeterna: verified models of its stateful core

Dafny models of the parts of Aeterna whose correctness depends on more than one function, with proofs
about all inputs, all runs or all interleavings. `dafny verify dfyconfig.toml` checks the project.

| Component | Modules | What is proved |
|---|---|---|
| Circuit breaker and retries around the Cedar Agent | `CircuitBreaker`, `BreakerProtocol`, `RetryLoop`, `GuardedCalls` | the breaker as a function of the event history in every interleaving, the retry loop's attempts, sleeps and recorded outcome, and from both a bound on the requests a dead agent sees |
| Entity cache and layer discovery | `CedarEntities`, `EntityCache`, `AccessibleLayers` | freshness of cached hits, invisibility of the cache while the store is unchanged, soundness and completeness of the nested reachability loops |
| GitHub hierarchy | `Paging`, `Hierarchy`, `HierarchyStore`, `CreateHierarchy`, `GroupMappings`, `GitHubSync` | paging loses nothing, root resolution on cyclic and dangling parents, grouping as a partition, idempotent upserts that leave other tenants alone, and who owns a mapping after any sequence of syncs |
| Device-flow login and query strings | `DevicePoll`, `Utf8`, `PercentEncoding`, `Split`, `QueryPath` | wait times and poll bounds of the polling loop, percent-encoding and query round trips |
| Backup archives | `Lines`, `Checksums`, `Ndjson`, `Archive` | exact round-trip conditions of both text formats, sealing and validation as one pipeline, tamper detection |
| Configuration and context | `ConfigMerge`, `Resolver` | precedence as "last non-silent source" and "highest layer", and where the code departs from it |

Time is a natural number of nanoseconds that never decreases; `Instant::elapsed` is `Common.Elapsed`.
HTTP replies, clocks, digests, JSON, SQL ids and the file system are parameters: functions, maps or
fresh numbers. Mutable objects are classes whose contracts tie the new state to a function of the old
one, and the laws are lemmas about those functions.

## Findings

Properties that the code meets only under a condition are stated with that condition, in both directions
where a single call decides it.

- The breaker's 32-bit failure counter wraps. "Closed exactly when the counter is below the threshold"
  is exact except after a wrap (`BreakerProtocol.ClosedIffCounterBelowThreshold`), a failed probe reopens
  the breaker exactly when the wrapped counter is not below the threshold
  (`BreakerProtocol.FailedProbeReopens`), and after 2^32 failures every configuration admits more failures
  than its budget (`BreakerProtocol.WrappedCounterBreaksBudget`).
- A half-open breaker admits any number of calls at once (`BreakerProtocol.HalfOpenAdmitsAnyNumber`), so
  the failure budget has the number of concurrent calls as a factor.
- The back-off delay is the intended one exactly up to attempt 58, so exactly for `max_retries` up to 59
  (`RetryLoop.NoDelayOverflows`).
- A top-level team whose own description reads "parent:x" is taken for a child of x
  (`Paging.ParentSurvivesListing`; at one input, `Paging.DescriptionTakenForParent`).
- A nested team lands in another organization than its parent exactly when that parent lies on a cycle of
  two or more teams (`Hierarchy.ParentSharesRootIff`, `GitHubSync.NestedTeamJoinsParentIff`).
- `idp_group_mappings` has no tenant in its key: a tenant's mapping of a group survives another tenant's sync
  exactly when that tenant has no group of the same slug (`GitHubSync.MappingSurvivesOtherTenantIff`), and over
  any sequence of syncs the last tenant to name the slug owns the mapping (`GitHubSync.TenantKeepsMappingIff`).
- A data file called SHA256SUMS or manifest.json is overwritten after its digest was taken; the archive then
  passes validation exactly if the digest stays the same (`Archive.SealedArchivePassesIff`; at one input,
  `Archive.SumsNameInvalidates`).
- A source that asks for the built-in value cannot undo a lower source (`ConfigMerge.CommandLineWinsIff`; at one
  input, `ConfigMerge.CommandLineCannotRestoreBuiltIn`).
- Enrichment replaces an explicit team id (`Resolver.ExplicitTeamSurvivesIff`).
- The documentation of `resolve` announces an error for a context file that cannot be parsed. There is none:
  the result is that of a missing file, except that the file's directory becomes the context root
  (`Resolver.UnreadableFileIsIgnored`).

## Model

| member | source | states |
|---|---|---|
| `CircuitBreaker.BreakerCell.constructor` | context/src/cedar.rs:419-427 | a new breaker is closed, with no failures and no failure time |
| `CircuitBreaker.BreakerCell.CanExecute` | context/src/cedar.rs:429-445 | the admission decision and the whole new state, including the open state without a timestamp |
| `CircuitBreaker.BreakerCell.RecordSuccess` | context/src/cedar.rs:447-450 | the whole new state after a success |
| `CircuitBreaker.BreakerCell.RecordFailure` | context/src/cedar.rs:452-463 | the whole new state after a failure, with the `u32` counter wrapping |
| `BreakerProtocol.BreakerTracksHistory` | context/src/cedar.rs:429-463 | in every interleaving the counter, the closed state and the failure time are functions of the history: closed exactly while fewer than max(threshold, 1) failures follow the last success |
| `BreakerProtocol.ClosedIffCounterBelowThreshold` | context/src/cedar.rs:452-463 | for threshold at least 1, closed exactly when the counter is below the threshold, with the exact exception made by wrap-around; a non-closed breaker always has a failure time, so the arm without one is dead |
| `BreakerProtocol.FailedProbeReopens` | context/src/cedar.rs:452-463 | a failed half-open call reopens the breaker if and only if the wrapped counter is at least the threshold |
| `BreakerProtocol.OpenIsLeftOnlyAfterTimeout` | context/src/cedar.rs:429-450 | an open breaker becomes closed exactly by an in-flight success and half-open exactly by an admission at least one reset timeout after the last recorded failure; no other call is admitted |
| `BreakerProtocol.RejectedIffRecentlyOpened` | context/src/cedar.rs:429-445 | over every run, a call is turned away if and only if it finds the breaker open less than one reset timeout after the last recorded failure; with fewer failures than max(threshold, 1) since the last success it is always admitted |
| `BreakerProtocol.BudgetAfterTry` | context/src/cedar.rs:429-445 | an admission attempt keeps the failure potential |
| `BreakerProtocol.BudgetAfterFailure` | context/src/cedar.rs:452-463 | a failure costs at most one further open period of the failure potential |
| `BreakerProtocol.BudgetHolds` | context/src/cedar.rs:429-463 | the failure potential holds after every run without a success in the window |
| `BreakerProtocol.FailureBudget` | context/src/cedar.rs:892-939 | with at most `cap` calls in flight, any window of length W without a recorded success sees at most threshold - 1 + cap * (1 + W / R) failures |
| `BreakerProtocol.SequentialFailureBudget` | context/src/cedar.rs:892-939 | for sequential calls the bound is threshold + W / R |
| `BreakerProtocol.HalfOpenAdmitsAnyNumber` | context/src/cedar.rs:443-443 | for every n there is a run that has n calls in flight in the half-open state one reset timeout after the last failure |
| `BreakerProtocol.WrappedCounterBreaksBudget` | context/src/cedar.rs:452-463 | for every configuration there is a run, past 2^32 failures, in which threshold + 1 sequential calls fail at one instant |
| `RetryLoop.ExecuteGuarded` | context/src/cedar.rs:892-939 | rejected calls do nothing; admitted ones stop at the first success, permanent error or last attempt and at no earlier one, return that attempt's result, sleep the sum of the delays and record exactly the returned outcome; the fall-through is reached only for zero retries |
| `RetryLoop.AttemptsAreFirstStop` | context/src/cedar.rs:909-931 | an admitted call with a budget makes between one attempt and `max_retries`, exactly up to the first one that ends the loop |
| `RetryLoop.TransientMeans` | context/src/cedar.rs:941-950 | the errors worth a further attempt are exactly transport errors and statuses 502, 503 and 504 |
| `RetryLoop.AttemptsFollowReplies` | context/src/cedar.rs:909-931 | after transient failures only, the attempt that succeeds, fails for good or is the last one allowed ends the loop and is returned |
| `RetryLoop.ConstantErrorAttempts` | context/src/cedar.rs:909-950 | an agent that keeps answering with one error is asked `max_retries` times for a transport error or status 502, 503 or 504, and once for any other |
| `RetryLoop.BackoffIsExact` | context/src/cedar.rs:922-922 | the 64-bit delay equals 100 * 2^(a-1) if and only if a is at most 58 |
| `RetryLoop.TotalSleep` | context/src/cedar.rs:909-925 | the total sleep before attempt k is 100 * (2^(k-1) - 1) milliseconds |
| `RetryLoop.NoDelayOverflows` | context/src/cedar.rs:909-925 | all reachable delays are exact if and only if `max_retries` is at most 59 |
| `GuardedCalls.GuardedCallExtendsRun` | context/src/cedar.rs:892-939 | a guarded call extends any run by its admission and, if admitted, by exactly one outcome carrying the attempts of its retry loop |
| `GuardedCalls.LoadBudget` | context/src/cedar.rs:892-939 | in every interleaving of at most `cap` guarded calls, whatever the agent replies, the requests of the calls that fail in a window of length W without a success are at most `max_retries` * (threshold - 1 + cap * (1 + W / R)) |
| `GuardedCalls.SequentialCallsRun` | context/src/cedar.rs:892-939 | any sequence of guarded calls is a run of the breaker protocol that ends in the breaker the calls leave, with nothing in flight |
| `GuardedCalls.SequentialLoad` | context/src/cedar.rs:892-939 | a client calling one after the other while nothing is answered: over a time W at most threshold + W / R calls fail, and they make at most `max_retries` times as many requests |
| `CedarEntities.FirstMatch` | context/src/cedar.rs:706-714 | the first stored entity that answers a query, and none only if none answers |
| `CedarEntities.FirstMatchIsEarliest` | context/src/cedar.rs:706-714 | the answer is the earliest matching element of the store |
| `CedarEntities.MatchesMeans` | context/src/cedar.rs:626-714 | which entity type and attribute each kind of lookup compares |
| `EntityCache.CacheCell.Get` | context/src/cedar.rs:483-491 | a hit exactly if the entry is younger than the time to live |
| `EntityCache.CacheCell.Insert` | context/src/cedar.rs:493-496 | one entry stored under its own uid, stamped with the time, nothing else changed |
| `EntityCache.CacheCell.InsertAll` | context/src/cedar.rs:498-502 | the new cache is the old one updated entity by entity |
| `EntityCache.WithAllContents` | context/src/cedar.rs:493-502 | after a fetch each uid in the response maps to an entity of the response stamped now, and every other entry is untouched |
| `EntityCache.EntriesWereHeld` | context/src/cedar.rs:595-622 | in every history of store changes, overlapping fetches and late insertions, each entry is what the store held for that uid when its response was produced |
| `EntityCache.HitWasHeldWithinTtl` | context/src/cedar.rs:693-704 | a hit of `resolve_entity` is what the store held less than one time to live, plus the response latency, earlier |
| `EntityCache.CedarClient.Scan` | context/src/cedar.rs:630-642 | the cache scan by email or remote finds a match exactly if one is cached, whatever its age and the iteration order |
| `EntityCache.CedarClient.Resolve` | context/src/cedar.rs:626-715 | one lookup is a step of the lookup relation: a cached hit, or a fetch that fills the cache, or a failure; with the cache disabled always the latter two without a cache |
| `EntityCache.FetchServesUid` | context/src/cedar.rs:613-704 | after a miss with the agent up, each entity of the response is found by its uid for one time to live, whether or not the agent is still up and whatever it would answer |
| `EntityCache.FetchServesAttribute` | context/src/cedar.rs:613-690 | after a miss by email or git remote with the agent up, the same lookup is answered from the cache at any later time |
| `EntityCache.FetchOutlivesAgent` | context/src/cedar.rs:595-715 | over any run against an unchanging store, from a fetch until the cache is emptied every unambiguous lookup with an answer gets it even if the agent is down, by uid for one time to live |
| `EntityCache.CacheStaysDrawnFrom` | context/src/cedar.rs:595-715 | over any run against an unchanging store the cache, enabled or not, holds only entities of that store, each under its own uid |
| `EntityCache.CachedEqualsUncached` | context/src/cedar.rs:626-715 | over any run against an unchanging store every unambiguous cached lookup answers as the uncached one, unless it misses while the agent is down |
| `AccessibleLayers.AddMissing` | context/src/cedar.rs:843-850 | adds exactly the missing ids of the wanted type and keeps the list free of duplicates |
| `AccessibleLayers.AddTeam` | context/src/cedar.rs:834-852 | adds exactly the organizations of one team and the tenants of those organizations, without duplicates |
| `AccessibleLayers.GetAccessibleLayers` | context/src/cedar.rs:820-869 | team ids one per team parent in order; organizations and tenants exactly those reachable through stored parents, each once; projects one per reachable stored project in store order |
| `AccessibleLayers.ProjectIdsExact` | context/src/cedar.rs:856-866 | an id is listed as a project if and only if a stored project of that id has a parent team among the user's |
| `Paging.TokenRoundTrip` | idp-sync/src/github.rs:294-294 | a printed page number parses back to itself for every `u32` |
| `Paging.ListGroups` | idp-sync/src/github.rs:290-345 | one page's wanted groups, and a next token exactly if the unfiltered page was full; for every token, the page number wrapping as a `u32` |
| `Paging.PageContinues` | idp-sync/src/github.rs:294-338 | consecutive pages join without gap or overlap and a short page is the end of the list |
| `Paging.FetchAllGroups` | idp-sync/src/github.rs:915-924 | the loop terminates after n / 100 + 1 requests with one group per team that passes the filter, in the order of the teams, and nothing else |
| `Paging.WantedMembers` | idp-sync/src/github.rs:309-334 | a group is listed if and only if it is the group of a team whose name passes the filter |
| `Paging.WantedSelects` | idp-sync/src/github.rs:309-334 | the listed groups are the images of exactly the positions that pass the filter, in ascending order |
| `Paging.OddTokenAsksForFirstPage` | idp-sync/src/github.rs:294-294 | no token and every token that is not a number ask for page one |
| `Paging.ParentSurvivesListing` | idp-sync/src/github.rs:316-322 | the parent read back from a group is the reported one if and only if no top-level description starts with "parent:" and more |
| `Paging.DescriptionTakenForParent` | idp-sync/src/github.rs:316-322 | a concrete top-level team whose description makes it a child |
| `Hierarchy.RootSlug` | idp-sync/src/github.rs:798-811 | the loop terminates on every parent relation and returns the root |
| `Hierarchy.RootEndsChain` | idp-sync/src/github.rs:798-811 | the root ends a chain of distinct ancestors, having no present parent or one already on the chain |
| `Hierarchy.RootIsTopOrOnCycle` | idp-sync/src/github.rs:798-811 | the root is an ancestor or the group itself, and has no present parent or lies on a cycle |
| `Hierarchy.RootIsTopmostAncestor` | idp-sync/src/github.rs:798-811 | if the chain of parents ends, the root is its end |
| `Hierarchy.CycleMemberIsItsOwnRoot` | idp-sync/src/github.rs:801-804 | every group on a cycle is its own root |
| `Hierarchy.RootIsIdempotent` | idp-sync/src/github.rs:798-811 | the root of a root is itself, also on cyclic input |
| `Hierarchy.SameRootIffSameTop` | idp-sync/src/github.rs:798-811 | on acyclic input two groups have the same root if and only if they share their topmost present ancestor |
| `Hierarchy.ParentSharesRootIff` | idp-sync/src/github.rs:798-811 | a group has the root of its parent if and only if the parent is not on a cycle of two or more groups; otherwise its root is the group whose parent that parent is |
| `CreateHierarchy.GroupByRoot` | idp-sync/src/github.rs:820-835 | the grouping loop always succeeds: the missing-root error is unreachable |
| `CreateHierarchy.GroupedContents` | idp-sync/src/github.rs:825-835 | the organizations are exactly the roots and each lists exactly the groups with that root |
| `CreateHierarchy.GroupingIsPartition` | idp-sync/src/github.rs:825-835 | for distinct ids each group is listed once, under its root only, and every organization lists the team of its own slug |
| `HierarchyStore.OrgStep` | idp-sync/src/github.rs:841-853 | upserting one more organization extends the materialised plan by it and changes nothing else |
| `HierarchyStore.TeamStep` | idp-sync/src/github.rs:857-870 | upserting one more team extends the materialised plan by it and changes nothing else |
| `HierarchyStore.MaterialisingTwiceChangesNothing` | idp-sync/src/github.rs:840-873 | materialising the same plan a second time leaves both tables as they are |
| `HierarchyStore.OtherTenantsUntouched` | idp-sync/src/github.rs:840-873 | no organization or team row of another tenant is added, renamed or removed |
| `CreateHierarchy.Database.EnsureOrg` | idp-sync/src/github.rs:841-853 | the upsert keeps an existing id, sets the name and returns the id stored |
| `CreateHierarchy.Database.EnsureTeam` | idp-sync/src/github.rs:857-869 | the upsert keeps an existing id, sets the name and returns the id stored |
| `CreateHierarchy.Database.CreateHierarchy` | idp-sync/src/github.rs:813-876 | for any groups the whole plan is in place afterwards, nothing else changed, and the result holds ids of planned teams |
| `CreateHierarchy.ResultIsExact` | idp-sync/src/github.rs:813-876 | for distinct ids the result has exactly the group ids as keys and each group's team is stored, with its name, in the organization of its root |
| `CreateHierarchy.OrgCarriesRootName` | idp-sync/src/github.rs:827-853 | a root's organization row carries the name of the group stored under the root's slug, for distinct ids the root group's own name |
| `CreateHierarchy.CreateHierarchyIsIdempotent` | idp-sync/src/github.rs:813-876 | a second run returns the same ids and leaves both tables unchanged |
| `GroupMappings.StoreMappings` | idp-sync/src/github.rs:878-901 | each mapping is stored, the creation time of an existing row is kept, other rows and other providers are untouched |
| `GroupMappings.StoringTwiceChangesNothing` | idp-sync/src/github.rs:878-901 | storing the same mappings again changes no row, including its creation time |
| `GitHubSync.RunGithubSync` | idp-sync/src/github.rs:904-931 | fetching, materialising and storing together are one sync step of the wanted groups |
| `GitHubSync.EveryTeamIsMapped` | idp-sync/src/github.rs:904-931 | after a sync of distinct slugs every team that passes the filter is mapped to a stored team of its name in the organization of its root |
| `GitHubSync.OnlyWantedTeamsAreMapped` | idp-sync/src/github.rs:904-931 | a sync maps a slug if and only if it is that of a team passing the filter, and leaves the row of any other slug as it was |
| `GitHubSync.CreationTimeIsKept` | idp-sync/src/github.rs:878-901 | over any sequence of syncs a mapping keeps the time of the first sync that named its slug |
| `GitHubSync.NestedTeamJoinsParentIff` | idp-sync/src/github.rs:813-876 | after a sync a nested team is stored in the organization of its parent if and only if the parent is not on a cycle of two or more groups |
| `GitHubSync.MappingFollowsLastSync` | idp-sync/src/github.rs:878-901 | over any sequence of syncs each mapping is the one the last sync naming the slug came to, and its team is still stored and owned by that sync's tenant; unnamed slugs keep their rows |
| `GitHubSync.TenantKeepsMappingIff` | idp-sync/src/github.rs:554-564 | after any sequence of syncs a group that a tenant has synced is mapped to one of that tenant's teams if and only if the last sync naming the slug was by that tenant |
| `GitHubSync.MappingSurvivesOtherTenantIff` | idp-sync/src/github.rs:554-564 | for two different tenants, the first one's mapping of a group survives the second one's sync if and only if the second has no group of that slug |
| `GitHubSync.SyncIsIdempotent` | idp-sync/src/github.rs:904-931 | a second sync of the same groups by the same tenant changes no organization, team or mapping |
| `DevicePoll.HandleResponse` | cli/src/client.rs:1712-1735 | reply by reply: the token, patience with the same interval, patience with five seconds more (saturating), or the failure of that error code |
| `DevicePoll.PollDeviceAuthorization` | cli/src/client.rs:1664-1710 | the waits, and polling that goes on exactly while the replies ask for patience and the expiry is not reached, with the result of the reply that ended it |
| `DevicePoll.FirstFinalReplyDecides` | cli/src/client.rs:1672-1735 | if replies 0..n-1 are authorization_pending or slow_down without a token and reply n is not, all before the expiry, there are n + 1 polls and the result is the token or the failure of reply n |
| `DevicePoll.PatienceTimesOut` | cli/src/client.rs:1672-1676 | if all replies until the expiry ask for patience, the polls stop there and the result is the timeout |
| `DevicePoll.WaitsFollowReplies` | cli/src/client.rs:1670-1725 | the first wait is max(interval, 1), each further one is the same, or five seconds more up to the largest `u64` after a slow_down |
| `DevicePoll.BeforeExpiryMeans` | cli/src/client.rs:1672-1680 | a poll is due if and only if the waits and lags so far sum to less than expires_in |
| `DevicePoll.WaitsAreIntervals` | cli/src/client.rs:1674-1680 | there is one wait per poll and wait k is max(interval, 1) + 5 * (slow_down replies before it), saturating |
| `DevicePoll.PollBound` | cli/src/client.rs:1672-1680 | at most ceil(expires_in / max(interval, 1)) polls |
| `DevicePoll.SlowDownTotal` | cli/src/client.rs:1721-1725 | under slow_down alone the waits sum to an arithmetic series |
| `DevicePoll.SlowDownBound` | cli/src/client.rs:1672-1725 | an all-slow_down run obeys the quadratic bound on its polls |
| `Utf8.RoundTrip` | cli/src/client.rs:1847-1849 | the bytes of a string decode to that string |
| `PercentEncoding.UrlEncode` | cli/src/client.rs:1840-1854 | the two nested loops compute the encoding |
| `PercentEncoding.EncodeRoundTrip` | cli/src/client.rs:1840-1854 | percent-decoding the encoding of any string gives the string back |
| `PercentEncoding.EncodeIsInjective` | cli/src/client.rs:1840-1854 | different strings have different encodings |
| `PercentEncoding.EncodedIsSafe` | cli/src/client.rs:1845-1850 | the output consists of unreserved characters and upper-case percent triplets |
| `PercentEncoding.EncodedAlphabet` | cli/src/client.rs:1845-1850 | only letters, digits, - _ . ~ and the percent sign come out |
| `PercentEncoding.UnreservedIsUnchanged` | cli/src/client.rs:1846-1846 | a string of letters, digits and - _ . ~ is its own encoding |
| `QueryPath.BuildPathRoundTrip` | cli/src/client.rs:1829-1838 | splitting and decoding a built path recovers base and parameters if and only if the base has no `?` and no key has `&` or `=` |
| `Checksums.WriteChecksums` | backup/src/checksum.rs:44-55 | the text depends on the map alone, whatever the iteration order |
| `Checksums.FileIsSortedLines` | backup/src/checksum.rs:44-55 | without newlines in names and hashes, the file has one "hash  name" line per entry, in the order of the names |
| `Checksums.ReadChecksums` | backup/src/checksum.rs:58-76 | the reading loop computes the parse, stopping at the first malformed line |
| `Checksums.LineMeans` | backup/src/checksum.rs:62-73 | a line is blank, malformed, or a pair cut at the first double space, in terms of its trimmed text |
| `Checksums.ReadFailsIff` | backup/src/checksum.rs:62-74 | a text is refused if and only if some trimmed line is not empty and has no double space |
| `Checksums.FirstBadLineIsTheError` | backup/src/checksum.rs:69-73 | the error names the first such line |
| `Checksums.LastPairWins` | backup/src/checksum.rs:69-70 | of several lines for one name the last one counts |
| `Checksums.ParsedPairIsClean` | backup/src/checksum.rs:63-73 | whatever is read from a line is a hash and a name the format can carry |
| `Checksums.ChecksumsRoundTrip` | backup/src/checksum.rs:44-76 | reading a written file yields the map if and only if every name is non-empty, newline-free and without trailing white space, and every hash non-empty, newline-free, not starting with white space, not ending in a space and without a double space |
| `Ndjson.NdjsonWriter.WriteRecord` | backup/src/ndjson.rs:27-32 | one line appended and the count increased by one |
| `Ndjson.NdjsonWriter.WriteAll` | backup/src/ndjson.rs:27-37 | after a batch the count has grown by the number of records written |
| `Ndjson.NdjsonReader.Next` | backup/src/ndjson.rs:69-86 | the self-recursive step terminates because it consumes input, and yields the next item of the text or nothing exactly at its end |
| `Ndjson.NdjsonRoundTrip` | backup/src/ndjson.rs:27-86 | written records are read back, all of them and in order |
| `Ndjson.OneLineAmongOthers` | backup/src/ndjson.rs:69-86 | inserting a blank line anywhere changes nothing; any other line, malformed or not, yields exactly one item and disturbs no other, whether or not the file ends in a newline |
| `Ndjson.WorthOfLine` | backup/src/ndjson.rs:69-86 | a blank line yields nothing, any other line one item: its record, or an error exactly if it does not parse |
| `Ndjson.LastLine` | backup/src/ndjson.rs:69-86 | an unterminated last line counts like any other |
| `Archive.CompatibleMeansMajorOne` | backup/src/manifest.rs:111-116 | the compatible schema versions are exactly "1" and those that start with "1." |
| `Archive.ArchiveWriter.CreateNdjson` | backup/src/archive.rs:51-56 | an empty file is staged and listed as data |
| `Archive.ArchiveWriter.WriteThrough` | backup/src/ndjson.rs:27-32 | what is written through an open handle is appended to its file alone |
| `Archive.ArchiveWriter.AddManifest` | backup/src/archive.rs:41-46 | the manifest is staged, replacing an earlier one |
| `Archive.ArchiveWriter.Finalize` | backup/src/archive.rs:60-100 | the sealed files: staged data, the checksum file and the manifest with the digests patched in |
| `Archive.VerifyChecksums` | backup/src/checksum.rs:80-105 | exactly the listed files that are missing or differ, each once, with the listed digest as expected and the digest found or "<missing>" as actual; none exactly if the files are intact; an error exactly if a listed file exists but cannot be read |
| `Archive.Validate` | backup/src/validate.rs:29-85 | valid if and only if the error list is empty, if and only if the manifest opens, is compatible and the listed files can be read and are intact; the full error list in every case |
| `Archive.SealedContents` | backup/src/archive.rs:60-100 | what a sealed archive with a manifest contains |
| `Archive.SealedArchivePassesIff` | backup/src/archive.rs:60-100 | for every sequence of writer calls, sealing fails exactly on a staged manifest that does not parse, and the sealed archive passes validation if and only if it has a manifest of the current major version and no data file under a reserved name had its digest changed by sealing |
| `Archive.SumsNameInvalidates` | backup/src/archive.rs:71-84 | a concrete archive with a data file called SHA256SUMS that does not pass |
| `Archive.SealedArchivePasses` | backup/src/validate.rs:29-85 | with both reserved names avoided, validation passes if and only if a manifest with the current major version was added |
| `Archive.TamperingIsDetected` | backup/src/checksum.rs:80-105 | with the manifest left alone and no digest collision, the archive still passes if and only if every data file is unchanged |
| `Archive.SumsFileAgreesWithManifest` | backup/src/archive.rs:71-84 | SHA256SUMS reads back to the manifest's checksums if and only if every data name can be carried by the format |
| `Archive.FileHoldsItsChunks` | backup/src/archive.rs:51-56 | however the writer calls interleave, a data file holds what was written to it since its creation |
| `Archive.RecordsSurvive` | backup/src/archive.rs:51-100 | records written under an unreserved name come back from the sealed archive, in order, whatever other files were written in between |
| `ConfigMerge.MergeSection` | config/src/precedence.rs:162-222 | each field of the section becomes the override unless that is the built-in value, no other field changes, and the log names exactly the changed fields, each once |
| `ConfigMerge.SectionsPartitionTheFields` | config/src/precedence.rs:162-420 | the six sections merge every modelled field exactly once |
| `ConfigMerge.MergeWithLogging` | config/src/precedence.rs:69-160 | all fields merged although unlogged sections are not written back; the log names each change once and is empty exactly if nothing changed |
| `ConfigMerge.MergeConfigs` | config/src/precedence.rs:48-67 | for every field the command line's value unless absent or built-in, else the environment's unless built-in, else the file's unless built-in, else the default's; the same for the administrator by its email; unmerged sections stay as in the defaults |
| `ConfigMerge.HighestSourceWinsIff` | config/src/precedence.rs:1-9 | over any list of sources the topmost one's value wins if and only if it differs from the built-in value or the default and all lower sources have the built-in value too |
| `ConfigMerge.CommandLineWinsIff` | config/src/precedence.rs:48-67 | for every field the merged value is the command line's if and only if that differs from the built-in value or defaults, file and environment all have the built-in value |
| `ConfigMerge.CommandLineCannotRestoreBuiltIn` | config/src/precedence.rs:162-222 | a concrete merge in which the command line's port loses to the file's |
| `ConfigMerge.MergeIsAssociative` | config/src/precedence.rs:69-160 | merging two sources into a configuration one after the other gives the same configuration as merging the second into the first and then the result |
| `ConfigMerge.MergeIsIdempotent` | config/src/precedence.rs:69-160 | merging a source into its own result changes nothing and logs nothing |
| `ConfigMerge.ReloadIsStable` | config/src/precedence.rs:48-67 | merging the same sources on top of their own result changes nothing |
| `Resolver.ApplyContextConfig` | context/src/resolver.rs:308-345 | exactly the fields the file sets take its value and source |
| `Resolver.ApplyEnvVars` | context/src/resolver.rs:348-393 | exactly the fields with a variable take its value and source, even an empty one |
| `Resolver.ApplyExplicitOverrides` | context/src/resolver.rs:408-434 | exactly the overridden fields take the override as explicit |
| `Resolver.Resolve` | context/src/resolver.rs:159-226 | never fails, and every id field has the value and source of the highest layer that supplied it |
| `Resolver.InputsByName` | context/src/resolver.rs:348-434 | which override key and which variable set which field, overrides first |
| `Resolver.FileFieldsByName` | context/src/resolver.rs:308-345 | which entry of the context file sets which field, above the git values |
| `Resolver.GitAndDefaultsByName` | context/src/resolver.rs:175-195 | without any choice the user is the git address, the project that of the git remote, the rest default or absent |
| `Resolver.ResolutionIsDetermined` | context/src/resolver.rs:159-226 | the inputs decide the whole context |
| `Resolver.UnreadableFileIsIgnored` | context/src/resolver.rs:154-206 | a context file that cannot be loaded changes nothing but the context root, for all other inputs |
| `Resolver.Enrich` | context/src/resolver.rs:504-554 | the step-by-step updates amount to a field-by-field function of the original context |
| `Resolver.EnrichmentTakesEffect` | context/src/resolver.rs:510-551 | a git address known to the agent becomes that entity's id and brings the tenant slug if the tenant was the default; a project from the git remote becomes that entity's id and brings its first team |
| `Resolver.UnhealthyAgentIsIgnored` | context/src/resolver.rs:505-508 | with the agent down the context is returned unchanged |
| `Resolver.EnrichIsIdempotent` | context/src/resolver.rs:504-554 | for fixed agent answers a second enrichment changes nothing |
| `Resolver.EnrichKeepsChosen` | context/src/resolver.rs:504-554 | only agent answers replace fields, and never a chosen one other than the team |
| `Resolver.ChosenValueSurvivesPipeline` | context/src/resolver.rs:159-226 | an id other than the team that was given by override, variable or context file comes out of resolution and enrichment unchanged |
| `Resolver.ExplicitTeamSurvivesIff` | context/src/resolver.rs:510-536 | an explicit team id survives enrichment if and only if the project was not taken from the git remote, or is unknown to the agent, or has no team parent |
| `Resolver.FindContextToml` | context/src/resolver.rs:229-265 | the nearest directory within the depth limit that has a context file, preferring the nested name, and none only if there is none; the start directory is always searched |

## Left out

- BreakerProtocol.FailureBudget: stated for streaks below 2^32; beyond that it is false for every configuration, as BreakerProtocol.WrappedCounterBreaksBudget shows.
- GuardedCalls.LoadBudget: restricted to streaks below 2^32 for the same reason; GuardedCalls.SequentialLoad to fewer than 2^32 calls.
- Paging.FetchAllGroups: stated for lists of fewer than 2^32 pages; beyond that the page number wraps and the loop starts over. The list does not change between pages.
- Archive.ArchiveWriter.WriteThrough: writes through a stale handle of a file that was created again, and data still buffered in an unfinished writer, are not modelled.
- ConfigMerge.MergeSection: the six per-section functions are one method over the section's field list; the text of the log lines is not modelled.
- Authorization requests, health checks and the HTTP client: foreign calls.
- Directory names inside archives, tar and gzip: foreign calls.
- `hints`, presets and `git_root` of the resolved context, and `parse_git_remote_url`: they would only add easy members or depend on types that are not part of this model.
- `get_group_members` and `list_users`: the same page loop without a filter.
- SQL schema, triggers, timestamps, soft deletion, the membership sync that ends `run_github_sync`, and the governance bridge.
- cli/src/offline.rs, credentials, profiles, exit codes and error messages: finite tables and plumbing.
- UTF-8 decoding errors while reading files: texts are sequences of Unicode scalar values.
