# A verified model of a Git-like versioned key-value store

This project models the versioned map backend of the repository and three layers around it: the flat
key space that many maps share, the map with keys of several parts, and the ordered key encoding. It
proves what their operations do to data that other branches, other maps and other keys still need.

A versioned map keeps one layer per key: the values written to it, by version id. A branch is a list
of versions. A read at a branch and a version takes the newest entry at or below that version that
lies on the branch; an empty value reads as absent. All branches share the layers, so every operation
raises the question which reads on other branches it changes. `VersionState` states each operation as
a function from states to states. The class `MapxRawVs` in `VersionedMap` performs them on tables in
place, loop by loop, and each of its methods is proved to give the state and the reply of that
function. The theorems are about the functions, and so hold of the class. For each operation there is a
law in `Effects` or `Retention` that does not mention how the function is defined.

| file | contents |
|---|---|
| `Basics`, `OrderedSets`, `Bytes` | optional values and handles, ascending listings, byte strings, their order and ranges |
| `VersionState` | the state, the invariant, every operation as a function, runs |
| `VersionInvariants` | what each operation keeps: agreement of the tables and prefix coherence |
| `Runs` | steps and runs: agreement, coherence and the default branch in all reachable states |
| `Compaction` | clean-up, keeping some branches, pruning |
| `Rebasing` | rebase and revert |
| `History` | replay, the frame of a write, rollback, truncation, forks, merges, swaps |
| `Reloading`, `CommonPrefix` | rebuilding the derived tables; the k-way common prefix |
| `Replies`, `Effects` | when each operation is refused, and what it does to every branch, name, entry and read |
| `Retention` | which versions a prune keeps, by the number asked for |
| `Handles`, `Steps`, `VersionedMap` | nested maps held by handle, one step of each loop, the class |
| `Scanning`, `Iteration` | iterators and nearest-key lookups |
| `KeySpace`, `FlatStore` | many maps in one key space, with lengths, scans, copies and comparison |
| `KeyVectors`, `NestedMaps`, `MultiKeyMap` | keys of several parts over nested maps |
| `OrderedEncoding` | integers, lists and arrays as byte strings |
| `Witnesses` | reachable states in which an operation does not do what one would hope |

Nested maps are held by handle, as in the source: `Represents` says that no two slots lead to the same
nested map, and every operation keeps that. The source's `missing entry` errors are kept as branches
of the code; that a method's reply equals the function's proves that they are never taken.

## What the source does differently from its comments

Each of these has an exact condition, and where a run of a new map reaches it, a witness.

- The contract stated for rebasing speaks of the versions to be merged. It does not suffice: when the
  base is also on another branch, that branch's reads can change. `RebaseSafeExactly` says exactly when,
  in any state. The other half of the contract, that the branch created the base itself, does not
  prevent this, since a later fork shares it (`RebaseDisturbsFork`).
- A forced merge is said to endanger the data of other branches. It moves no data, and changes reads on
  the target only (`ForcedMergeReads`). What it can break is prefix coherence, on which the reads after a
  safe merge rest: exactly when the lists interleave (`StepCoherentExactly`, `ForcedMergeBreaksCoherence`).
- Truncating to the largest version id computes its successor in 64 bits and removes everything
  (`TruncateToIsTimeTravel`). A build with overflow checks stops there instead. The front end passes the
  ids of named versions, and these lie below the largest, so from there it always goes back to the
  version (`TruncateToNamed`).
- A reserve count of 2^64 - 1 wraps around to zero, which is reported as an error after the clean-up
  has been done (`PruneFailsExactly`).
- A forced creation that fails has already removed the branch it was to replace (`ForcedCreationFailsLate`,
  `ForcedCreationLosesDefault`).
- The default branch can be removed, and then has no name (`DefaultStaysExactly`, `DefaultBranchCanGo`).
- Reloading forgets dead versions that changed nothing, so no later clean-up frees their names
  (`ReloadLosesNamesExactly`, `ReloadLosesName`).
- Pruning does not free the names of the versions that it merges (`PruneKeepsNames`), which is why the
  invariant asks for a name of every change set and not the converse.
- Iterating with the sentinel id as branch or version yields nothing, even where point reads find data
  (`NullIdAgreesExactly`). Version ids start at zero and grow, so the sentinel is given out in the end
  (`SentinelHidesData`).
- The cursors of a RocksDB scan do not meet, so driving an iterator from both ends can deliver a key twice
  (`Drive`, `CursorsOverlapExactly`, `DeliveredTwice`).
- Removing the empty key from a map with keys of several parts removes nothing, although every key
  begins with it (`RemovesExtensionsExactly`).
- Signed integers are offered as ordered keys, but their bytes are not in their order
  (`SignedOrderExactly`, `SignedOrderFails`).

## Model

| member | source | states |
|---|---|---|
| Runs.RunInv | core/src/versioned/mapx_raw/backend.rs:313-345 | in every state of every legal run, reloads and keep-only included, the change sets index the layers exactly (both directions), every version on a branch has a change set and a name, the two name tables are mutually inverse, and all ids are below the allocators |
| Runs.StepInv | core/src/versioned/mapx_raw/backend.rs:178-1483 | every operation keeps that agreement |
| Runs.ReachableInv | core/src/versioned/mapx_raw/backend.rs:194-224 | so it holds in every state that a run of a new map reaches |
| VersionInvariants.RebaseKeepsInvExactly | core/src/versioned/mapx_raw/backend.rs:662-708 | a successful rebase keeps the agreement if and only if the merged versions are on no other branch |
| Runs.DefaultStaysExactly | core/src/versioned/mapx_raw/backend.rs:1044-1078 | a step leaves the default branch without a name if and only if it removes that branch: directly, by keeping only others, or by a forced creation under its name |
| Runs.RunCoherentExactly | core/src/versioned/mapx_raw/backend.rs:1177-1243 | all states of a run keep branches that share a version identical up to it, if and only if every forced merge on the way was of lists that do not interleave for a third branch or the source |
| Runs.StepCoherentExactly | core/src/versioned/mapx_raw/backend.rs:563-1482 | a step keeps that if and only if it is not a forced merge of interleaved lists, read off the lists before the call |
| VersionInvariants.UnionCoherentExactly | core/src/versioned/mapx_raw/backend.rs:1158-1242 | when taking the union of two lists keeps all lists coherent |
| VersionInvariants.SafeMergeAdoptsSource | core/src/versioned/mapx_raw/backend.rs:1189-1242 | on coherent histories a successful safe merge finds the target's list to be a beginning of the source's and makes it the source's, and changes no other list |
| VersionInvariants.CommonIsPrefix | core/src/versioned/mapx_raw/backend.rs:1408-1422 | what all non-empty branches have in common comes first on each of them |
| VersionInvariants.OutdatedFacts | core/src/versioned/mapx_raw/backend.rs:1424-1438 | the rewrite version is the oldest of every non-empty branch, and every merged version is on all of them and newer |
| Replies.AcceptsExactly | core/src/versioned/mapx_raw/backend.rs:178-1483 | every operation fails if and only if it is given something it cannot accept: a missing branch or version, a taken name, an unsafe merge, the largest reserve count |
| Replies.FailuresAreTrue | core/src/versioned/mapx_raw/backend.rs:178-1483 | what a failure says holds of the arguments, and none is of a missing internal entry |
| Replies.FailureChangesNothing | core/src/versioned/mapx_raw/backend.rs:178-1483 | a failure leaves the state exactly as it was; after the largest reserve count it is cleaned up, and a forced creation past its first checks has removed the branch of the name |
| Effects.SuccessIsDone | core/src/versioned/mapx_raw/backend.rs:178-1483 | what is accepted is done, and a write answers with the old head read |
| Effects.FreshMap | core/src/versioned/mapx_raw/backend.rs:194-224 | a new map has the one branch master, the default, and no versions, names or data |
| Effects.WriteSetsOneEntry | core/src/versioned/mapx_raw/backend.rs:313-345 | a write sets the one entry of its key at the newest version of its branch, or if it removes what is absent changes nothing |
| Effects.CreationAddsVersion | core/src/versioned/mapx_raw/backend.rs:563-591 | a new version goes on top of its branch only, under its name only |
| Effects.PopRemovesNewest | core/src/versioned/mapx_raw/backend.rs:635-645 | popping takes the newest version off the branch, whichever it is, and nothing else |
| Effects.PopGoesBack | core/src/versioned/mapx_raw/backend.rs:635-645 | the head then reads what was read before the popped version, or nothing without one; other branches keep their reads |
| Effects.RebaseDropsVersions | core/src/versioned/mapx_raw/backend.rs:668-708 | a rebase takes exactly the versions above the base off the branch and frees exactly their names |
| Effects.RebaseMovesEntries | core/src/versioned/mapx_raw/backend.rs:692-699 | the newest entry of a merged version becomes the base's, the merged versions' entries go, and entries at all other versions stay |
| Effects.RevertForgetsVersion | core/src/versioned/mapx_raw/backend.rs:771-798 | a revert takes the version off every branch, with its entries and its name, and nothing else |
| Effects.CleanUpForgetsDead | core/src/versioned/mapx_raw/backend.rs:1356-1384 | a clean-up keeps entries and names of exactly the versions on some branch, and no key whose last entry went |
| Effects.KeepOnlyForgetsOthers | core/src/versioned/mapx_raw/backend.rs:1063-1078 | the kept branches keep lists and names; entries and version names stay for exactly what is on them |
| Effects.TruncateEmpties | core/src/versioned/mapx_raw/backend.rs:1088-1098 | truncating empties the branch, which then reads nothing, and touches no other |
| Effects.TruncateToKeepsUpTo | core/src/versioned/mapx_raw/backend.rs:1107-1136 | truncating to a version below the largest id keeps exactly what is at or below it |
| Effects.RemoveTakesBranch | core/src/versioned/mapx_raw/backend.rs:1044-1060 | removing a branch takes it and its name, and nothing else |
| Effects.CreationForks | core/src/versioned/mapx_raw/backend.rs:964-1017 | the new branch has the base's versions up to the fork point and, if one is named, one fresh version; every branch not replaced keeps its list |
| Effects.CreationNames | core/src/versioned/mapx_raw/backend.rs:1003-1014 | the new branch and its first version, if named, get their names; all other names, data and the default stay |
| Effects.OwnVersionIsPrivate | core/src/versioned/mapx_raw/backend.rs:1011-1014 | what is written on the new branch's own version changes no read of another branch |
| Effects.MergeJoins | core/src/versioned/mapx_raw/backend.rs:1177-1243 | a merge gives the target what the other branch has and changes nothing else |
| Effects.SafeMergeExactly | core/src/versioned/mapx_raw/backend.rs:1189-1197 | on coherent histories a safe merge goes ahead if and only if the target's list is a beginning of the other's |
| Effects.DefaultIsSet | core/src/versioned/mapx_raw/backend.rs:1246-1252 | setting the default branch does only that |
| Effects.SwapExchangesNames | core/src/versioned/mapx_raw/backend.rs:1294-1317 | a swap exchanges what the two names stand for; the default keeps its name, and lists and data stay |
| Retention.PruneSurvivors | core/src/versioned/mapx_raw/backend.rs:1390-1438 | after pruning a branch has exactly those of its versions that are not in common, the oldest common one, and as many of the newest common ones as asked for, ten if no number is given |
| Retention.PruneKeepsCount | core/src/versioned/mapx_raw/backend.rs:1390-1438 | that number and one more versions are left in common, or all if there were no more |
| Retention.PruneFreesDead | core/src/versioned/mapx_raw/backend.rs:1363-1384 | pruning frees the names of dead versions only, and changes no branch name and not the default |
| Retention.PruneEntries | core/src/versioned/mapx_raw/backend.rs:1440-1479 | nothing is left at versions that go, data at versions that stay is untouched, what gathers at the oldest is no tombstone, and no key is left emptied |
| Compaction.PrunePreservesMeaning | core/src/versioned/mapx_raw/backend.rs:1390-1481 | for every reserve count: no head read changes, no read at a surviving version other than the oldest changes, and the oldest reads as the last merged version did |
| Compaction.PruneReserves | core/src/versioned/mapx_raw/backend.rs:1424-1438 | after merging, exactly the reserved number of versions is left in common, and the merged ones are gone from it |
| Compaction.PruneFailsExactly | core/src/versioned/mapx_raw/backend.rs:1390-1395 | for a count that 64 bits hold, pruning fails if and only if it is the largest, and the state is then the cleaned-up one |
| Compaction.PruneKeepsNames | core/src/versioned/mapx_raw/backend.rs:1443-1453 | pruning leaves exactly the merged versions, besides those that were so before, with a name and no change set |
| Compaction.PruneReads | core/src/versioned/mapx_raw/backend.rs:1390-1481 | after pruning, the read at every branch, version and key, surviving or not, in terms of the reads before |
| Compaction.CompactLookup | core/src/versioned/mapx_raw/backend.rs:1443-1479 | moving the entries of merged versions onto the oldest one, and dropping a tombstone there, changes no later lookup |
| Compaction.CleanUpKeepsReads | core/src/versioned/mapx_raw/backend.rs:1356-1384 | cleaning up changes no read on any branch |
| Compaction.CleanUpIsComplete | core/src/versioned/mapx_raw/backend.rs:1356-1384 | afterwards change sets exist for exactly the versions on branches, no key has an entry at a dead version, and exactly the dead versions' names are free |
| Compaction.CleanUpIdempotent | core/src/versioned/mapx_raw/backend.rs:764-766 | cleaning up again does nothing |
| Compaction.KeepOnlyKeepsReads | core/src/versioned/mapx_raw/backend.rs:1063-1078 | the kept branches keep their versions and reads, and only what they refer to stays |
| Rebasing.RebasePreservesMeaning | core/src/versioned/mapx_raw/backend.rs:668-708 | on the rebased branch, reads before the base are unchanged and reads from the base on are the old head read |
| Rebasing.RebaseKeepsHead | core/src/versioned/mapx_raw/backend.rs:668-708 | the branch reads at its new head what it read at the old one |
| Rebasing.RebaseKeepsOthers | core/src/versioned/mapx_raw/backend.rs:647-708 | a branch without the base keeps all its reads |
| Rebasing.ReadAtSharedBase | core/src/versioned/mapx_raw/backend.rs:692-699 | on a branch that shares the base, the read there becomes the old head read of the rebased branch for the keys that merged versions changed, and stays for the others |
| Rebasing.RebaseSharedBase | core/src/versioned/mapx_raw/backend.rs:662-708 | a branch that shares the base keeps all its reads if and only if, for every such key, it already read there what the rebased branch reads at its head; in any state, coherent or not |
| Rebasing.RebaseSafeExactly | core/src/versioned/mapx_raw/backend.rs:662-708 | with unshared merged versions, all other branches keep their reads if and only if that holds of each that shares the base |
| Rebasing.RebaseSafeOnCoherent | core/src/versioned/mapx_raw/backend.rs:662-708 | on coherent histories this means that the base is on no other branch or the merged versions have no net effect |
| Rebasing.RevertErases | core/src/versioned/mapx_raw/backend.rs:768-798 | after reverting a version every branch reads as if it had never been there |
| History.ReadIsReplay | core/src/versioned/mapx_raw/backend.rs:363-376 | a read equals a lookup in the plain map built by replaying the branch's changes up to the version, empty values deleting |
| History.WriteFrame | core/src/versioned/mapx_raw/backend.rs:279-345 | exactly which reads (branch, version, key) see a write; every other read is unchanged |
| History.WriteAtHead | core/src/versioned/mapx_raw/backend.rs:237-254 | a write answers with the old head read and the new head reads the value or nothing; the error cases change nothing |
| History.RollbackRestores | core/src/versioned/mapx_raw/backend.rs:635-645 | creating a version, any writes on that branch, and popping it restore every read of the whole store |
| History.TruncateToIsTimeTravel | core/src/versioned/mapx_raw/backend.rs:1107-1136 | afterwards the head reads what the branch read at the given version, if and only if that is not the largest id or all heads read nothing; other branches are untouched |
| History.TruncateToNamed | core/src/versioned/mapx_raw/mod.rs:835-851 | truncating to a named version, as the front end does, always goes back to it |
| History.FreshVersionShowsNothing | core/src/versioned/mapx_raw/backend.rs:563-591 | a fresh version changes no read |
| History.ForkIsTimeTravel | core/src/versioned/mapx_raw/backend.rs:881-1017 | a new branch's head reads what its base read at the fork point, and every surviving branch keeps its reads |
| History.ForcedCreationFailsLate | core/src/versioned/mapx_raw/backend.rs:972-1001 | a forced creation removes the old branch even when it fails, and fails if and only if the removed branch is the base or the version is not on the base |
| History.SafeMergeReads | core/src/versioned/mapx_raw/backend.rs:1149-1242 | a safe merge makes the target read as the source and keeps every read at a version the target had |
| History.ForcedMergeReads | core/src/versioned/mapx_raw/backend.rs:1158-1242 | a forced merge changes no read of a branch other than the target, and the target reads, at every version, as whichever of the two branches has the newer visible entry |
| History.SwapExchanges | core/src/versioned/mapx_raw/backend.rs:1294-1317 | swapping exchanges what two names read, touches no other name, and the default branch keeps its name |
| History.SwapIsInvolution | core/src/versioned/mapx_raw/backend.rs:1294-1317 | swapping twice restores the state |
| Reloading.ReloadRoundTrip | core/src/versioned/mapx_raw/backend.rs:116-173 | rebuilding the derived tables recovers everything except the change sets of dead versions without changes, and the agreement of the tables |
| Reloading.ReloadAfterCleanUpIsExact | core/src/versioned/mapx_raw/backend.rs:116-173 | after a clean-up, reloading gives the very same state |
| Reloading.ReloadLosesNamesExactly | core/src/versioned/mapx_raw/backend.rs:116-173 | cleaning up after a reload gives the same as cleaning up before it if and only if no dead version without changes was forgotten |
| Reloading.RebuildChangeSets | core/src/versioned/mapx_raw/backend.rs:129-148 | the rebuilding loops compute the change sets of all recorded versions |
| Reloading.LiveVersions | core/src/versioned/mapx_raw/backend.rs:129-137 | the first fold collects the versions on all branches |
| Reloading.Invert | core/src/versioned/mapx_raw/backend.rs:118-127 | inverting a name table gives its inverse |
| CommonPrefix.LongestCommonPrefix | core/src/versioned/mapx_raw/backend.rs:1404-1422 | the k-way loop terminates with the longest common prefix of all lists, and its assertion that the guard is not the largest id holds |
| CommonPrefix.CollectsCommonHistory | core/src/versioned/mapx_raw/backend.rs:1397-1422 | run on the lists of the non-empty branches it collects exactly their common history, ascending |
| Scanning.YieldsAgreesWithReads | core/src/versioned/mapx_raw/backend.rs:1503-1524 | an iteration is ascending and consists of exactly the keys with a present read, with that value |
| Scanning.NullIdAgreesExactly | core/src/common/mod.rs:64-66 | where there is something to read, iterating agrees with point reads if and only if neither id is the sentinel |
| Scanning.CursorsOverlapExactly | core/src/common/engines/rocks_db.rs:329-351 | the items of a scan delivered from its two ends contain no key twice if and only if they are no more than the scan has |
| Scanning.RangeYields | core/src/versioned/mapx_raw/backend.rs:494-518 | a bounded iteration consists of exactly the present reads within the bounds |
| Scanning.FirstIsLeast | core/src/versioned/mapx_raw/backend.rs:393-401 | the first item from a key on is the least key at or above it with a value |
| Scanning.LastIsGreatest | core/src/versioned/mapx_raw/backend.rs:419-427 | the last item up to a key is the greatest key at or below it with a value |
| Iteration.MapxRawVsIter.constructor | core/src/versioned/mapx_raw/backend.rs:494-518 | both cursors start out with the layers' keys within the bounds |
| Iteration.MapxRawVsIter.Next | core/src/versioned/mapx_raw/backend.rs:1506-1523 | answers the first item still to come forward and advances only that cursor |
| Iteration.MapxRawVsIter.NextBack | core/src/versioned/mapx_raw/backend.rs:1527-1544 | answers the last item still to come backward and advances only that cursor |
| Iteration.RangeByBranch | core/src/versioned/mapx_raw/backend.rs:473-491 | iterates at the newest version of the branch, and over nothing without one |
| Iteration.GetGeByBranchVersion | core/src/versioned/mapx_raw/backend.rs:393-401 | the least key at or above the given one with a value |
| Iteration.GetLeByBranchVersion | core/src/versioned/mapx_raw/backend.rs:419-427 | the greatest key at or below the given one with a value |
| Iteration.Collect | core/src/versioned/mapx_raw/backend.rs:1503-1524 | driving next to exhaustion delivers exactly what was to come |
| Iteration.Drive | core/src/common/engines/rocks_db.rs:329-351 | any order of next and next_back delivers from either end as if the other did not exist, and so some key twice if and only if more items are delivered than there are |
| Iteration.CollectBack | core/src/versioned/mapx_raw/backend.rs:1526-1545 | driving next_back to exhaustion delivers the same in reverse |
| VersionedMap.MapxRawVs.constructor | core/src/versioned/mapx_raw/backend.rs:194-224 | a new map has the one initial branch, no versions and no data |
| VersionedMap.MapxRawVs.PutEntry | core/src/versioned/mapx_raw/backend.rs:330-336 | writes into the key's nested map, creating and linking it if missing, and changes no other |
| VersionedMap.MapxRawVs.WriteByBranchVersion | core/src/versioned/mapx_raw/backend.rs:313-345 | answers the old read; writes the entry and its index, and nothing for a removal of an absent key |
| VersionedMap.MapxRawVs.WriteByBranch | core/src/versioned/mapx_raw/backend.rs:237-293 | inserting or removing at the newest version of a branch, with both error cases |
| VersionedMap.MapxRawVs.GetByBranchVersion | core/src/versioned/mapx_raw/backend.rs:363-376 | the scan from the version downwards finds the newest entry on the branch |
| VersionedMap.MapxRawVs.GetByBranch | core/src/versioned/mapx_raw/backend.rs:353-360 | the read at the newest version of the branch |
| VersionedMap.MapxRawVs.VersionCreateByBranch | core/src/versioned/mapx_raw/backend.rs:563-591 | a fresh id goes to the branch, both name tables and an empty change set, or an error changes nothing |
| VersionedMap.MapxRawVs.VersionPopByBranch | core/src/versioned/mapx_raw/backend.rs:635-645 | the newest version leaves the branch's list and nothing else changes |
| VersionedMap.MapxRawVs.MergeChanges | core/src/versioned/mapx_raw/backend.rs:694-699 | moves the entries of one version onto another for every key it changed, without missing any |
| VersionedMap.MapxRawVs.RebaseAll | core/src/versioned/mapx_raw/backend.rs:692-705 | the loop over the merged versions, with no missing entry on the way |
| VersionedMap.MapxRawVs.VersionRebaseByBranch | core/src/versioned/mapx_raw/backend.rs:668-708 | the whole new state of a rebase within its contract, and both error cases |
| VersionedMap.MapxRawVs.EraseChanges | core/src/versioned/mapx_raw/backend.rs:777-787 | removes the version's entry for every key it changed, without missing any |
| VersionedMap.MapxRawVs.RemoveEverywhere | core/src/versioned/mapx_raw/backend.rs:789-791 | removes a version from every branch that has it |
| VersionedMap.MapxRawVs.VersionRevertGlobally | core/src/versioned/mapx_raw/backend.rs:771-798 | the whole new state of a revert |
| VersionedMap.MapxRawVs.CollectLive | core/src/versioned/mapx_raw/backend.rs:1356-1361 | collects the versions on all branches |
| VersionedMap.MapxRawVs.PurgeEntry | core/src/versioned/mapx_raw/backend.rs:1369-1373 | removes an entry, and the key with it when that was its last |
| VersionedMap.MapxRawVs.FreeAll | core/src/versioned/mapx_raw/backend.rs:1378-1384 | frees the change sets and both name entries of the orphans, without missing any |
| VersionedMap.MapxRawVs.VersionCleanUpGlobally | core/src/versioned/mapx_raw/backend.rs:1356-1388 | the whole new state of a clean-up, with no missing entry on the way |
| VersionedMap.MapxRawVs.NonEmptyLists | core/src/versioned/mapx_raw/backend.rs:1397-1406 | collects the version lists of the non-empty branches |
| VersionedMap.MapxRawVs.RemoveFromAll | core/src/versioned/mapx_raw/backend.rs:1434-1438 | takes the merged versions off every non-empty branch, without missing any |
| VersionedMap.MapxRawVs.MergeAll | core/src/versioned/mapx_raw/backend.rs:1440-1453 | moves all changes of the merged versions, and collects the keys concerned |
| VersionedMap.MapxRawVs.DropTombstones | core/src/versioned/mapx_raw/backend.rs:1461-1475 | drops exactly the tombstones at the rewrite version, from layer and index, and finds the emptied keys |
| VersionedMap.MapxRawVs.CompactInto | core/src/versioned/mapx_raw/backend.rs:1434-1479 | the merging part of pruning as a whole |
| VersionedMap.MapxRawVs.MergeCommon | core/src/versioned/mapx_raw/backend.rs:1397-1481 | merges the outdated common history if there is more of it than is reserved |
| VersionedMap.MapxRawVs.Prune | core/src/versioned/mapx_raw/backend.rs:1337-1482 | the whole new state of a prune, including the wrap-around of the reserve count to zero |
| VersionedMap.MapxRawVs.BranchTruncate | core/src/versioned/mapx_raw/backend.rs:1088-1098 | the branch's list becomes empty |
| VersionedMap.MapxRawVs.BranchTruncateTo | core/src/versioned/mapx_raw/backend.rs:1107-1136 | the versions from the successor of the given one on are removed, that successor computed in 64 bits |
| VersionedMap.MapxRawVs.BranchRemove | core/src/versioned/mapx_raw/backend.rs:1044-1060 | the branch leaves all three tables, and its nested map is detached before it is cleaned |
| VersionedMap.MapxRawVs.BranchKeepOnly | core/src/versioned/mapx_raw/backend.rs:1063-1078 | all other branches are removed and everything dead is cleaned up |
| VersionedMap.MapxRawVs.CopyUpTo | core/src/versioned/mapx_raw/backend.rs:988-998 | copies the versions up to the fork point into a nested map of its own |
| VersionedMap.MapxRawVs.ForkFrom | core/src/versioned/mapx_raw/backend.rs:982-1016 | the new branch, with a first version of its own if named, or the version error |
| VersionedMap.MapxRawVs.BranchCreate | core/src/versioned/mapx_raw/backend.rs:849-1017 | the whole new state of a creation with or without force, version and fork point, and all error cases in order |
| VersionedMap.MapxRawVs.CopyMissing | core/src/versioned/mapx_raw/backend.rs:1199-1240 | fork-point search and the three copying cases always give the union |
| VersionedMap.MapxRawVs.DoBranchMergeTo | core/src/versioned/mapx_raw/backend.rs:1177-1243 | on success the target's list is the union and nothing else changes; the three error cases |
| VersionedMap.MapxRawVs.BranchSetDefault | core/src/versioned/mapx_raw/backend.rs:1246-1252 | an existing branch becomes the default |
| VersionedMap.MapxRawVs.BranchSwap | core/src/versioned/mapx_raw/backend.rs:1294-1317 | the whole new state of a swap |
| VersionedMap.MapxRawVs.Reload | core/src/versioned/mapx_raw/backend.rs:116-173 | the map after dropping and rebuilding the derived tables |
| Witnesses.RebaseDisturbsFork | core/src/versioned/mapx_raw/backend.rs:647-708 | a reachable state where the contract for the merged versions holds, the branch created the base itself and a later fork shares it: rebasing makes the fork's head read a value it did not |
| Witnesses.ForcedMergeBreaksCoherence | core/src/versioned/mapx_raw/backend.rs:1158-1242 | a reachable coherent state and a forced merge after which two branches share a version but not what precedes it |
| Witnesses.ForcedCreationLosesDefault | core/src/versioned/mapx_raw/backend.rs:972-986 | on a new map, a forced creation under the name of its own base fails and leaves no branch and no default name |
| Witnesses.DefaultBranchCanGo | core/src/versioned/mapx_raw/backend.rs:1044-1060 | on a new map, removing the default branch succeeds |
| Witnesses.ReloadLosesName | core/src/versioned/mapx_raw/backend.rs:116-173 | after creating and popping a version, a clean-up frees its name, but not after a reload, and creating a version under it fails |
| Witnesses.SentinelHidesData | core/src/common/mod.rs:64-66 | a map whose first version gets the sentinel as its id: what is written there is read but not iterated |
| Witnesses.DeliveredTwice | core/src/common/engines/rocks_db.rs:329-351 | a scan of one item delivers it from both ends |
| Handles.UpdateHistory | core/src/versioned/mapx_raw/backend.rs:1550-1558 | changing the nested map behind one slot changes that list only: no two slots share a handle |
| Handles.UpdateLayer | core/src/versioned/mapx_raw/backend.rs:1550-1558 | the same for the layer of a key |
| Handles.FreshHandle | core/src/common/engines/mod.rs:139-151 | a new nested map has a handle that no slot holds |
| Handles.UpdateDetached | core/src/versioned/mapx_raw/backend.rs:1053-1057 | cleaning a nested map that no slot holds goes unnoticed |
| KeySpace.InsertSound | core/src/common/engines/mod.rs:218-224 | an insertion changes one map of the family only and keeps every stored length right |
| KeySpace.RemoveSound | core/src/common/engines/mod.rs:227-233 | a removal changes one map of the family only, keeps every stored length right, and never takes a length below zero |
| KeySpace.AllocateSound | core/src/common/engines/rocks_db.rs:122-139 | a new prefix adds an empty map and keeps all others |
| KeySpace.FreshIsEmpty | core/src/common/engines/mod.rs:144 | no stored key begins with a new prefix |
| KeySpace.ClearSound | core/src/common/engines/mod.rs:236-241 | clearing empties one map and keeps all others |
| KeySpace.EntriesDecide | core/src/common/engines/mod.rs:267-275 | equal pairs in order mean equal maps, and conversely |
| KeySpace.EntriesAscend | core/src/common/engines/mod.rs:376-387 | the pairs of a map come with their keys ascending |
| KeySpace.ScanIsExact | core/src/common/engines/rocks_db.rs:60-73 | a stored key lies between the bounds of a scan if and only if the key lies within the requested bounds, also without an upper bound, where the scan starts from the prefix followed by bytes 255 |
| KeySpace.ScanDelivers | core/src/common/engines/rocks_db.rs:216-278 | a bounded scan delivers the map's pairs within the bounds, in order |
| KeySpace.PrefixScanDelivers | core/src/common/engines/rocks_db.rs:194-214 | an unbounded scan delivers the whole map in either direction |
| KeySpace.AfterIsNext | core/src/common/engines/rocks_db.rs:231-253 | appending a zero byte gives the very next key |
| FlatStore.Engine.constructor | core/src/common/engines/rocks_db.rs:77-116 | an empty key space whose first prefix lies above the reserved ids |
| FlatStore.Engine.AllocPrefix | core/src/common/engines/rocks_db.rs:122-139 | answers the stored prefix and stores the next |
| FlatStore.Engine.Insert | core/src/common/engines/rocks_db.rs:288-306 | stores the pair under the prefixed key, answers the old value and keeps track of the longest key |
| FlatStore.Engine.Remove | core/src/common/engines/rocks_db.rs:308-316 | removes the prefixed key and answers the old value |
| FlatStore.Engine.IncreaseInstanceLen | core/src/common/engines/mod.rs:102-107 | the stored length grows by one |
| FlatStore.Engine.DecreaseInstanceLen | core/src/common/engines/mod.rs:110-115 | the stored length, which must not be zero, shrinks by one |
| FlatStore.Engine.Iter | core/src/common/engines/rocks_db.rs:194-214 | both cursors deliver the pairs behind a prefix, in order and in reverse |
| FlatStore.Engine.Range | core/src/common/engines/rocks_db.rs:216-278 | both cursors deliver the pairs within the bounds |
| FlatStore.Mapx.constructor | core/src/common/engines/mod.rs:139-151 | a new map is empty under a prefix of its own, the emptiness assertion holds, and no other map changes |
| FlatStore.Mapx.Get | core/src/common/engines/mod.rs:154-156 | the value in this map |
| FlatStore.Mapx.Len | core/src/common/engines/mod.rs:170-172 | the stored length is the number of keys |
| FlatStore.Mapx.IsEmpty | core/src/common/engines/mod.rs:175-177 | true exactly for the empty map |
| FlatStore.Mapx.Insert | core/src/common/engines/mod.rs:218-224 | this map gains the pair, the old value is answered, no other map of the family changes |
| FlatStore.Mapx.Remove | core/src/common/engines/mod.rs:227-233 | this map loses the key, the old value is answered, no other map of the family changes |
| FlatStore.Mapx.Clear | core/src/common/engines/mod.rs:236-241 | this map becomes empty, no other changes |
| FlatStore.Mapx.Range | core/src/common/engines/mod.rs:196-204 | the pairs within the bounds |
| FlatStore.Mapx.Clone | core/src/common/engines/mod.rs:257-265 | the copy is a new map with equal contents, no other map changes |
| FlatStore.Mapx.Equals | core/src/common/engines/mod.rs:267-275 | comparing lengths and then zipped pairs decides equality of the maps |
| MultiKeyMap.MapxRawMk.constructor | wrappers/src/basic_multi_key/mapx_raw/mod.rs:45-51 | a new map is empty |
| MultiKeyMap.MapxRawMk.Get | wrappers/src/basic_multi_key/mapx_raw/mod.rs:54-73 | the value in the flat map; nothing for a key of the wrong size |
| MultiKeyMap.MapxRawMk.Descend | wrappers/src/basic_multi_key/mapx_raw/mod.rs:109-123 | finds or creates the next level, without changing the flat map |
| MultiKeyMap.MapxRawMk.Insert | wrappers/src/basic_multi_key/mapx_raw/mod.rs:96-127 | the flat map gains the entry and the old value is answered; an error for a key of the wrong size changes nothing |
| MultiKeyMap.MapxRawMk.Remove | wrappers/src/basic_multi_key/mapx_raw/mod.rs:130-157 | the flat map loses what the key covers; the old value is answered for a full key only; an error for a key too long |
| MultiKeyMap.MapxRawMk.Clear | wrappers/src/basic_multi_key/mapx_raw/mod.rs:160-162 | the flat map becomes empty |
| MultiKeyMap.MapxRawMk.IterOpWithKeyPrefix | wrappers/src/basic_multi_key/mapx_raw/mod.rs:178-216 | applies the operation to exactly the entries under the prefix, in lexicographic order, until it fails |
| MultiKeyMap.MapxRawMk.RecursiveWalk | wrappers/src/basic_multi_key/mapx_raw/mod.rs:218-247 | the same below one nested map, while the buffer keeps the parts above |
| NestedMaps.RemovesExtensionsExactly | wrappers/src/basic_multi_key/mapx_raw/mod.rs:130-157 | a key removes exactly the entries that begin with it, if and only if it is not empty or nothing is stored |
| NestedMaps.Grow | wrappers/src/basic_multi_key/mapx_raw/mod.rs:109-123 | linking a new empty map keeps the tree and the flat map |
| NestedMaps.PutValue | wrappers/src/basic_multi_key/mapx_raw/mod.rs:105-108 | a value put at the last level changes one entry of the flat map |
| NestedMaps.Cut | wrappers/src/basic_multi_key/mapx_raw/mod.rs:139-147 | taking out a part removes the entries behind it from the flat map and no others |
| NestedMaps.DeadEnd | wrappers/src/basic_multi_key/mapx_raw/mod.rs:58-70 | where a part is missing, no key begins so |
| NestedMaps.VisitNext | wrappers/src/basic_multi_key/mapx_raw/mod.rs:230-245 | visiting the next part's subtree continues the visit of all before it |
| NestedMaps.VisitStops | wrappers/src/basic_multi_key/mapx_raw/mod.rs:230-245 | after a failure nothing more is visited |
| NestedMaps.VisitTakesAll | wrappers/src/basic_multi_key/mapx_raw/mod.rs:170-175 | an operation that takes down entries ends up with every key and value, once and in order |
| OrderedEncoding.IntOrder | wrappers/src/common/ende.rs:357-370 | for unsigned integers of any width, a < b if and only if the bytes of a come before those of b |
| OrderedEncoding.IntRoundTrip | wrappers/src/common/ende.rs:357-370 | decoding an encoded integer gives it back |
| OrderedEncoding.FromSliceExactly | wrappers/src/common/ende.rs:364-368 | exactly the encodings are accepted, and an accepted string is the encoding of what it decodes to |
| OrderedEncoding.ListOrder | wrappers/src/common/ende.rs:371-380 | lists of unsigned integers of any lengths keep their order |
| OrderedEncoding.ListRoundTrip | wrappers/src/common/ende.rs:371-403 | decoding an encoded list gives it back |
| OrderedEncoding.ListFromSliceExactly | wrappers/src/common/ende.rs:392-403 | exactly the encodings of lists are accepted, and an accepted string re-encodes to itself |
| OrderedEncoding.ArrayFromSlice | wrappers/src/common/ende.rs:451-467 | fills the array in place with what the list decoding gives, and fails unless the lengths fit |
| OrderedEncoding.ArrayFromSliceExactly | wrappers/src/common/ende.rs:441-467 | exactly the encodings of arrays of that length are accepted |
| OrderedEncoding.SignedRoundTrip | wrappers/src/common/ende.rs:357-370 | decoding an encoded signed integer gives it back |
| OrderedEncoding.SignedOrderExactly | wrappers/src/common/ende.rs:270-271 | the order promised for keys holds between signed integers if and only if they have the same sign, and is reversed otherwise |
| OrderedEncoding.SignedOrderFails | wrappers/src/common/ende.rs:270-271 | it fails for -1 and 0 at every width |
| OrderedEncoding.SignedListOrderExactly | wrappers/src/common/ende.rs:371-380 | for lists of signed integers it holds if and only if they have the same sign where they first differ |

## Left out

- Storage engines, directories, flushing, caches: the database is an ordered byte map. The column family of a key is a function of its prefix, and the families are modelled as one map.
- That the database's own prefix iterators stop at the end of a prefix is taken as given; which stored keys the bounds admit is proved.
- Locks, threads, `shadow` handles shared across threads, and the random choice between waiting and reporting a busy lock: one thread that always gets the lock. The cleaning of a removed branch's nested map in the background is done at once.
- The database's id allocators answer increasing ids and are assumed not to be used up: version ids stay below 2^64 - 1, prefixes below 2^64, and a map holds fewer than 2^64 keys. Branch ids are unbounded.
- Arithmetic wraps around, as in a build without overflow checks.
- Within one operation, updates of different tables that the source interleaves are grouped; the state is compared when the operation has ended.
- Deserialising is modelled as taking over the nested maps of the map that was stored; the two do not share a database afterwards.
- `Clone` of the versioned map, which copies handles and not nested maps.
- `version_chgset_trie_root`, whose hash comes from an external library.
- Names resolved by the front end, listings of names, existence checks, `len`, `clear`: short readings of the tables above.
- `ValueMut`, `entry` and the mutable iterators of the raw maps, which write back through `insert`.
- `into_bytes` and `from_bytes` of integer lists, which reinterpret a vector's memory; big integers, hashes, strings, serde.
- `MapxRawMk::is_empty`, which looks at the first level only; the walks with typed values, which repeat the raw ones.
- The versioned map with keys of several parts, which repeats this machine.
- Typed map wrappers, vectors, the derive macro, and the trie database over an external library.
- MultiKeyMap.MapxRawMk.Get: the stored bytes of a nested map's handle are a constructor of `Slot`, so a value at the last level is never taken for a handle, nor decoded as one.
- MultiKeyMap.MapxRawMk.IterOpWithKeyPrefix: the operation is a function on a state that it passes on; an operation that changes the map it walks is not captured.
- VersionedMap.MapxRawVs.VersionRebaseByBranch: requires the documented contract for the merged versions; outside it the tables disagree afterwards (`RebaseKeepsInvExactly`).
