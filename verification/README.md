# A verified model of PD's core

PD keeps an in-memory index of a partitioned key space, agrees with other PD servers through etcd, and decides which
peers and leaders to move. This project models the parts of it that carry hard properties and proves those
properties, for all inputs and all runs.

- **B-tree with positions** (`Indices`, `BTree*`). The tree is a value; every operation is proved against a plain
  sorted sequence, with the `indices` of every node satisfying their formula. `CowStore`, `CowRemove`, `CowForest` and
  `CowRun` do the same operations in place, in a store of nodes that trees share after `Clone`, and prove that no tree
  notices what is done to another.
- **Region index** (`Regions`, `RegionTree`, `RegionIndex`, `RegionFamily`, `RegionsInfo`). Everything in the index is
  a function of one row of disjoint regions in key order: the tree, the map by id with its totals, and for each store
  the trees of the regions it has a leader, follower, learner or pending peer of. `Heartbeat` drives it, `RegionStorage`
  rebuilds it.
- **Leader election** (`LeaderLease`) and **id allocation** (`IdAllocator`): state machines of servers and etcd in which
  requests, their effect and their replies are separate steps.
- **Region syncer** (`HistoryBuffer`, `RegionSyncer`): a ring buffer that refines a bounded sequence, and a protocol in
  which any message ever sent may arrive at any time, any number of times.
- **Codec** (`Codec`): exact inverses and order.
- **Scheduling** (`StoreWeight`, `LeaderBalance`, `StoreScore`, `WaitingOperator`, `OperatorController`, `RegionScatterer`) and
  **caches** (`Lru`, `TwoQueue`).

Random numbers, failing calls, clocks and choices of unseen code are parameters or steps of the model. Floating point
numbers are reals. Counters are unbounded where the code's 64 bits are not the point.

## What the proofs found

Some properties one would expect hold only under a condition. The model keeps the code as it is and states the
condition exactly.

- *Leader key deletion.* `CheckLeader` deletes a leader key that names its own server. If that transaction takes effect
  only after the server was elected again, it removes the new key, and two servers can lead at once (`TwoLeaders`). In
  every reachable state it leaves at most one leader for ever exactly if the server has not put the key again under a
  live lease (`DeleteSafeIff`).
- *Heartbeats side by side.* A heartbeat gives up the lock between its look at the cache and its update. However
  heartbeats interleave, ranges stay disjoint and ids unique (`SideKeeps`), but of two heartbeats of one region the older
  may be put last (`EpochGoesBack`). An update keeps the epochs exactly if its heartbeat is not older than what is cached
  by then (`PutEpochsIff`); handled one after the other all do (`RunEpochs`).
- *Adding and removing regions directly.* `AddRegion` keeps tree, map and stores' trees in step exactly if what is cached
  under the id overlaps the region and starts before it (`AddIff`); so adding a cached region again takes it out of the
  tree (`AddAgain`). `RemoveRegion` does exactly if what is cached under the id contains the start key and has no peer on
  other stores (`RemoveIff`). `SetRegion` always does.
- *Tolerance of leader balancing.* A configured ratio between zero and one is truncated to a tolerance of zero leaders.
  Then a leader can be moved to and fro without end (`PingPong`). Balancing ends, from every cluster, exactly if the
  ratio is zero or at least one (`EndsIff`), and exactly then no move is at once reversed (`RatioIff`).
- *Failed saves in the syncer.* A follower that cannot save a region does not record it, but goes on with the rest of
  the message under indices that are too low. The buffered records stay the leader's exactly if in no message a region
  is saved behind one that was not (`SavesIff`).
- *Region score.* Without regions, but with used space, the amplification is set to one and the three stages do not
  meet (`ContinuousIff`). The score never falls exactly if the low space stage starts no lower than the high space stage
  ends and, without regions, also no higher than the line would have to (`NondecreasingIff`, `EmptyStoreFalls`).
- *Ghosts of the 2Q cache.* At size one the ghost queue gets the limit zero, which the list takes for no limit
  (`GhostsWithoutEnd`). Over all runs it is bounded exactly from size two on (`GhostsBoundedIff`).

The comment of `RegionsInfo.ScanRange` speaks of regions intersecting a range; for a range whose start is not before
its end the code returns the regions that end behind the start and start before the end, and so does the model.

## Model

| member | source | states |
|---|---|---|
| `Indices.AddAt` | pkg/btree/btree.go:253-257 | the loop adds `delta` to every index from `index` on |
| `Indices.AddedAtMeans` | pkg/btree/btree.go:253-257 | if the indices encode the children's sizes, the result encodes them with child `index` grown by `delta` |
| `Indices.InsertAt` | pkg/btree/btree.go:259-267 | the loop inserts a child of size `sz` and shifts what follows |
| `Indices.InsertedAtMeans` | pkg/btree/btree.go:259-267 | the result encodes the sizes with `sz` inserted at `index` |
| `Indices.Push` | pkg/btree/btree.go:269-275 | appends one index |
| `Indices.PushedMeans` | pkg/btree/btree.go:269-275 | the result encodes the sizes with one more at the end |
| `Indices.Split` | pkg/btree/btree.go:278-281 | replaces one index by two |
| `Indices.SplitAtMeans` | pkg/btree/btree.go:278-281 | the result encodes the sizes with child `index` split in two and one item moved up between them |
| `Indices.Merge` | pkg/btree/btree.go:284-289 | drops one index |
| `Indices.MergedAtMeans` | pkg/btree/btree.go:284-289 | the result encodes the sizes with children `index` and `index+1` joined around the item between them |
| `Indices.RemoveAt` | pkg/btree/btree.go:291-301 | removes one index and returns the size it stood for |
| `Indices.RemovedAtMeans` | pkg/btree/btree.go:291-301 | the result encodes the sizes without child `index` |
| `Indices.Pop` | pkg/btree/btree.go:303-311 | removes the last index and returns the size it stood for |
| `Indices.MovedMeans` | pkg/btree/btree.go:623-639 | after `moved` items go to the right neighbour the indices still encode the sizes |
| `Indices.FormulaUnique` | pkg/btree/btree.go:245-251 | the formula determines the indices from the sizes |
| `SortedSeq.FindIsFind` | pkg/btree/btree.go:193-201 | the search result splits a sorted sequence into exactly the smaller, the equal and the greater elements |
| `SortedSeq.FindUnique` | pkg/btree/btree.go:193-201 | it is the only such result |
| `BTreeNode.ItemAt` | pkg/btree/btree.go:245-251 | `indices[i]` is the position of `items[i]` in the in-order contents |
| `BTreeNode.LengthIsSize` | pkg/btree/btree.go:335-340 | `length()` is the number of items in the subtree |
| `BTreeOps.InitSizeFormula` | pkg/btree/btree.go:342-356 | the loop of `initSize` gives indices that satisfy the formula |
| `BTreeOps.SplitContents` | pkg/btree/btree.go:395-407 | left half, middle item and right half of a split have the contents of the node |
| `BTreeOps.SplitWf` | pkg/btree/btree.go:395-407 | both halves satisfy the node invariant: depth, occupancy, indices |
| `BTreeOps.SplitChildContents` | pkg/btree/btree.go:411-421 | splitting a child leaves the contents of the parent as they are |
| `BTreeOps.SplitChildWf` | pkg/btree/btree.go:411-421 | and keeps the parent's invariant, indices included |
| `BTreeInsert.InsertOk` | pkg/btree/btree.go:426-455 | insertion keeps the invariant and changes the contents by exactly the one insertion or replacement; the replaced item is returned |
| `BTreeGrow.LendLast` | pkg/btree/btree.go:615-627 | stealing from the left neighbour keeps the order of the contents and both nodes' invariants |
| `BTreeGrow.LendFirst` | pkg/btree/btree.go:629-641 | stealing from the right neighbour does too |
| `BTreeGrow.JoinOk` | pkg/btree/btree.go:646-657 | the joined node has the contents of both and the item between, and satisfies the invariant |
| `BTreeGrow.MergeContents` | pkg/btree/btree.go:646-657 | merging leaves the contents of the parent as they are |
| `BTreeGrow.MergeWf` | pkg/btree/btree.go:646-657 | and keeps the parent's invariant |
| `BTreeRemove.GrowOk` | pkg/btree/btree.go:613-660 | growing a child keeps contents and invariant and leaves it more than the minimum |
| `BTreeRemove.RemoveAfterGrow` | pkg/btree/btree.go:613-660 | searching the same node again after growing removes what was to be removed |
| `BTreeRemove.RemoveOk` | pkg/btree/btree.go:542-592 | removal of an item, the minimum or the maximum keeps the invariant, changes the contents by exactly that removal and returns what was removed |
| `BTree.SplitRootOk` | pkg/btree/btree.go:867-874 | splitting a full root keeps contents and invariant |
| `BTree.ReplaceOrInsertOk` | pkg/btree/btree.go:856-880 | the tree stays valid; contents and result are those of the insertion into the sorted sequence; `length` counts them |
| `BTree.DeleteItemOk` | pkg/btree/btree.go:900-915 | the same for Delete, DeleteMin and DeleteMax, the root shrinking included |
| `BTree.Run` | pkg/btree/btree.go:856-915 | for every degree from 2 on and every sequence of insertions and deletions the tree is valid, and contents and all returned items are those of the same operations on a sorted sequence |
| `BTreeQuery.GetAtOk` | pkg/btree/btree.go:1008-1013 | GetAt(k) is the k-th item of the contents, nil outside |
| `BTreeQuery.NodeGetAtOk` | pkg/btree/btree.go:457-472 | the descent by indices finds the k-th item of the subtree |
| `BTreeQuery.GetWithIndexOk` | pkg/btree/btree.go:1000-1005 | GetWithIndex gives the stored item and its position, for absent keys the position it would have |
| `BTreeQuery.NodeGetWithIndexOk` | pkg/btree/btree.go:475-491 | the descent adds up the position of the key in the subtree |
| `BTreeQuery.RankSelect` | pkg/btree/btree.go:457-491 | GetAt and GetWithIndex undo each other on present keys, and the rank counts exactly the smaller items |
| `BTreeIterate.Ascend` | pkg/btree/btree.go:676-742 | an ascending iteration delivers exactly the items from the start on, in order, up to the bound or the first false; one equivalent to the start is left out iff it is to be excluded and nothing was visited before; the result says whether anything was |
| `BTreeIterate.Descend` | pkg/btree/btree.go:676-742 | a descending one delivers the items up to the start in reverse order; one equivalent to the start iff it is to be included and nothing was delivered before |
| `BTreeIterate.AscendGreaterOrEqual` | pkg/btree/btree.go:937-942 | delivers the ordered suffix from the pivot on, up to the first false |
| `BTreeIterate.DescendLessOrEqual` | pkg/btree/btree.go:964-969 | delivers the reversed prefix up to the pivot, up to the first false |
| `BTreeIterate.AscendRange` | pkg/btree/btree.go:919-924 | delivers the items of the half-open range, up to the first false |
| `BTreeAssign.AssignOk` | server/core/region.go:470-476 | overwriting a stored item in place keeps shape and indices and changes the contents in that one position |
| `CowStore.Store.NewNode` | pkg/btree/btree.go:98-110 | a node from the free list or a new one, owned by the context, no other node touched |
| `CowStore.Store.MutableFor` | pkg/btree/btree.go:358-384 | an owned node is used as it is, any other is copied; the copy holds the same subtree and nothing of another context is written |
| `CowStore.Store.MutableChild` | pkg/btree/btree.go:386-390 | the same for a child, with the parent's pointer updated |
| `CowStore.Store.Split` | pkg/btree/btree.go:395-407 | in place: the two addresses hold the two halves of the split |
| `CowStore.Store.MaybeSplitChild` | pkg/btree/btree.go:411-421 | in place: the node holds the split parent |
| `CowStore.Store.InsertAt` | pkg/btree/btree.go:426-455 | in place: the address holds the result of the insertion, only nodes of the context change |
| `CowStore.Store.FreeNode` | pkg/btree/btree.go:836-849 | only an owned node is emptied and, if there is room, put on the free list |
| `CowRemove.StealLeftAt` | pkg/btree/btree.go:615-627 | in place: items, child and counts move from the left neighbour |
| `CowRemove.StealRightAt` | pkg/btree/btree.go:629-641 | in place: from the right neighbour |
| `CowRemove.MergeAt` | pkg/btree/btree.go:646-657 | in place: the neighbour is merged in and freed |
| `CowRemove.GrowAt` | pkg/btree/btree.go:614-658 | in place: the address holds the grown node |
| `CowRemove.RemoveAt` | pkg/btree/btree.go:542-592 | in place: the address holds the result of the removal, only nodes of the context change |
| `CowForest.Reset` | pkg/btree/btree.go:1073-1080 | clearing frees only nodes of the context and stops when the free list is full |
| `CowForest.Forest.Insert` | pkg/btree/btree.go:856-880 | over shared nodes: this tree changes as the tree value does, all others keep their values |
| `CowForest.Forest.Delete` | pkg/btree/btree.go:884-915 | the same for the deletions |
| `CowForest.Forest.Clear` | pkg/btree/btree.go:1063-1068 | this tree is empty, all others keep their values |
| `CowForest.Forest.Clone` | pkg/btree/btree.go:795-806 | a second tree with the same value; both get new contexts, and the shared nodes belong to neither |
| `CowForest.CloneOk` | pkg/btree/btree.go:795-806 | the ownership invariant holds again after the contexts are exchanged |
| `CowForest.KeepForest` | pkg/btree/btree.go:358-390 | a step that writes only nodes of one context leaves every other tree's value as it is |
| `CowRun.RunAll` | pkg/btree/btree.go:795-915 | over every interleaving of creations, insertions, deletions, clones and clearings, each tree behaves as a sequence of its own |
| `Regions.ByStartOrder` | server/core/region_tree.go:33-37 | the order by start key is a strict weak order |
| `Regions.IntersectsIff` | server/core/region_tree.go:39-42 | two well-formed regions have a key in common iff each starts before the other ends |
| `Regions.DisjointMeans` | server/core/region_tree.go:39-42 | for sorted well-formed regions the end/start condition is exactly that no two have a key in common |
| `Regions.FindInOk` | server/core/region_tree.go:151-165 | on disjoint regions, what `find` computes is the one region containing the key, iff there is one |
| `Regions.WindowIs` | server/core/region_tree.go:202-231 | the regions that meet a range are the contiguous positions between the two searches |
| `Regions.OverlapsAre` | server/core/region_tree.go:63-87 | the overlaps are exactly the regions that meet the range, in key order |
| `Regions.MeetsIsIntersects` | server/core/region_tree.go:63-87 | for a range with a key, that is to have a key in common with it |
| `Regions.UpdatedOk` | server/core/region_tree.go:92-105 | putting a region in place of what it overlaps keeps the ranges sorted and disjoint |
| `RegionTree.FindRegion` | server/core/region_tree.go:151-165 | a region is returned iff it contains the key; it is the only one |
| `RegionTree.GetOverlaps` | server/core/region_tree.go:63-87 | returns exactly the regions that meet the range, in order |
| `RegionTree.Update` | server/core/region_tree.go:92-105 | the overlaps are deleted, the region inserted, the tree stays valid and its ranges disjoint |
| `RegionTree.RemoveFrom` | server/core/region_tree.go:110-120 | removes the region found at the start key, only if it has the id |
| `RegionTree.Search` | server/core/region_tree.go:123-130 | the unique region containing the key, or none |
| `RegionTree.SearchPrev` | server/core/region_tree.go:133-147 | the region that ends where the containing one starts, or none |
| `RegionTree.ScanFrom` | server/core/region_tree.go:169-179 | the callback gets the regions from the first that contains or follows the key, up to its first false |
| `RegionTree.GetAdjacent` | server/core/region_tree.go:181-199 | the last region starting before and the first starting after the key |
| `RegionTree.RandomRegion` | server/core/region_tree.go:202-231 | nil iff no region meets the range; otherwise every one of them, and nothing else, can be picked |
| `RegionFamily.UpdateSub` | server/core/region.go:470-480 | overwrites the region found at the start key or updates the tree; the totals follow the found region |
| `RegionFamily.RemoveSub` | server/core/region.go:482-487 | removes from the tree and leaves the totals as they were |
| `RegionFamily.StoreIn` | server/core/region.go:570-585 | after adding, the store's tree holds exactly the regions with that kind of peer there |
| `RegionFamily.DropFrom` | server/core/region.go:619-625 | removing from a store's tree, once or again, leaves it without what it found at the start key with the id, and no other store's tree changed |
| `RegionFamily.DroppedIff` | server/core/region.go:619-625 | with the stores visited, the trees of a kind hold the row without the region with the id iff all stores that have it were visited |
| `RegionIndex.StoreInRow` | server/core/region.go:470-480 | storing a region that overlaps nothing, once or again, commutes with filtering the row by peer kind and store |
| `RegionIndex.RemoveFromRow` | server/core/region.go:482-487 | removing by a region with the id and a start key inside takes the cached one out of every filtered row |
| `RegionIndex.KindHasPeer` | server/core/region.go:619-625 | a region is in a store's tree only if it has a peer there, so removal visits all trees it is in |
| `RegionIndex.KindMeans` | server/core/region.go:567-608 | a region is in a store's leader tree iff it has a voter there with the leader's id, in its follower tree iff one with another id, in its learner tree iff a learner, in its pending tree iff a pending peer |
| `RegionsInfo.PutNew` | server/core/region.go:409-417 | map and totals follow a new region |
| `RegionsInfo.DeleteOld` | server/core/region.go:419-428 | map and totals follow a deletion |
| `RegionsInfo.RegionsInfo.constructor` | server/core/region.go:514-523 | an empty index in which everything agrees |
| `RegionsInfo.RegionsInfo.RemoveRegion` | server/core/region.go:614-626 | for any region: what the tree and the trees of its stores find at its start key with its id is gone, the map has lost the id; everything stays in step iff `Removable`, and then exactly the regions with other ids are left |
| `RegionsInfo.RemoveIff` | server/core/region.go:614-626 | index and tree agree after the removal iff what is cached under the id contains the start key and has peers on no other stores |
| `RegionsInfo.RegionsInfo.AddRegion` | server/core/region.go:558-611 | also if the id is cached: the overlaps go, each found in the map; the map holds the region in their place, and each store's trees are exactly the regions with their leader, a follower, a learner or a pending peer there; everything stays in step iff `Addable`, and then the region has taken the place of its overlaps everywhere |
| `RegionsInfo.AddIff` | server/core/region.go:558-611 | index and tree agree after the addition iff what is cached under the id overlaps the region and starts before it |
| `RegionsInfo.KeptStep` | server/core/region.go:560-563 | removing an overlap after the update takes the new region out again iff it has its id and starts inside it |
| `RegionsInfo.AddAgain` | server/core/region.go:558-611 | adding a cached region as it is never leaves everything in step |
| `RegionsInfo.RegionsInfo.SetRegion` | server/core/region.go:535-540 | the same after the region's own former version is gone; all parts of the index agree again, and each store's trees are exactly the regions with their leader, a follower, a learner or a pending peer there |
| `RegionsInfo.RegionsInfo.DropRegion` | server/cluster.go:697-703 | exactly the regions with other ids are left, everywhere |
| `RegionsInfo.RegionsInfo.OkShows` | server/core/region.go:567-608 | whenever the index is in step, the trees of a store are exactly the regions with such peers there, in key order |
| `RegionsInfo.SetMeans` | server/core/region.go:535-540 | a region stays iff it has another id and no key in common with the new one; the returned overlaps are exactly those evicted |
| `RegionsInfo.RegionsInfo.SearchRegion` | server/core/region.go:629-635 | the cached region containing the key, iff there is one |
| `RegionsInfo.RegionsInfo.SearchPrevRegion` | server/core/region.go:638-644 | the cached region ending where that one starts |
| `RegionsInfo.RegionsInfo.ScanRange` | server/core/region.go:762-775 | the first `limit` regions that meet the range, in key order; all of them if the limit is not positive |
| `RegionsInfo.RegionsInfo.GetAdjacentRegions` | server/core/region.go:784-795 | for any region: the one that ends where it starts, and the first to start behind its start iff that starts where it ends; for a cached region exactly those that touch it |
| `RegionsInfo.RegionsInfo.GetStoreRegionCount` | server/core/region.go:706-728 | the leader, follower and learner regions of the store; with one peer per store, the number of cached regions with a peer there |
| `RegionsInfo.KindsPartition` | server/core/region.go:706-728 | leader, follower and learner trees of a store partition the regions with a peer there |
| `RegionsInfo.RegionsInfo.Totals` | server/core/region.go:430-435 | count, size and keys are those of the regions in the tree |
| `Heartbeat.RaftCluster.ProcessRegionHeartbeat` | server/cluster.go:333-472 | accepted iff not stale; after an accepted one the cache has the leader, size, keys, flow, epochs and number of peers it reported; cache and storage are exactly what `Handle` and `SavedBy` say, whichever storage calls fail; without failures the stored ids stay the cached ones |
| `Heartbeat.RaftCluster.ProcessAll` | server/cluster.go:333-472 | a sequence of heartbeats, with any storage failures, takes the cache through the states of `Trace` and leaves the storage of `StoredAt` |
| `Heartbeat.AnyNewer` | server/cluster.go:337-342 | the loop finds whether some overlap has a higher version |
| `Heartbeat.StaleIff` | server/cluster.go:336-364 | a heartbeat of a cached region is refused iff a cached epoch is higher; one of an unknown region iff it shares a key with a region of a higher version |
| `Heartbeat.Latest` | server/cluster.go:365-416 | what is cached after an accepted heartbeat reports the same; it is the heartbeat itself unless what was cached reported the same and neither has down or pending peers, and then nothing changes |
| `Heartbeat.HandleOk` | server/cluster.go:333-472 | one heartbeat keeps ranges disjoint and ids unique |
| `Heartbeat.RunKeeps` | server/cluster.go:333-472 | every state of every run has disjoint ranges and unique ids |
| `Heartbeat.EpochsKept` | server/cluster.go:361-364 | a region cached before and after a heartbeat has neither version nor conf version lowered |
| `Heartbeat.RunEpochs` | server/cluster.go:361-364 | over every run, while a region stays cached, neither epoch goes back |
| `Heartbeat.RunLatest` | server/cluster.go:365-444 | over every run, while a region stays cached the cache has what its last accepted heartbeat reported |
| `Heartbeat.RunStored` | server/cluster.go:418-454 | over every run: while no save has failed each cached region is stored with its epochs and number of peers; while no deletion has failed each stored region is cached with epochs no lower |
| `Heartbeat.SavedOnlyIf` | server/cluster.go:401-418 | what is stored of a region stays while its heartbeats report the cached epochs and number of peers |
| `Heartbeat.SameIds` | server/cluster.go:418-454 | with both, stored and cached ids are the same |
| `Heartbeat.SideKeeps` | server/cluster.go:334-346 | however looks and updates of heartbeats interleave, ranges stay disjoint and ids unique |
| `Heartbeat.PutEpochsIff` | server/cluster.go:437-444 | an update lowers no epoch iff its heartbeat is not older than what is cached by then |
| `Heartbeat.EpochGoesBack` | server/cluster.go:334-346 | an interleaving of two heartbeats of one region after which its version has gone back |
| `Heartbeat.NewcomerNotOlder` | server/cluster.go:336-343 | a region with an unknown id evicts nothing with a higher version |
| `RegionPath.PathOrder` | server/core/storage.go:86-88 | twenty-digit paths of 64-bit ids compare as the ids |
| `RegionPath.PathFormat` | server/core/storage.go:86-88 | a path ends with the id in twenty decimal digits |
| `RegionStorage.LoadRegions` | server/core/region_storage.go:122-159 | terminates; the regions given to the cache are, in id order and each once, a prefix of the stored ones, on success all of them, whatever the halvings; the cache is what setting them in turn gives; on success the ids left in the storage are the cached ones; if every value decodes and no deletion fails, it succeeds iff at most six range calls fail |
| `RegionStorage.LoadOne` | server/core/region_storage.go:147-152 | sets one region and deletes exactly its overlaps from the storage |
| `RegionStorage.LoadedStep` | server/core/region_storage.go:139-153 | one entry further, visited entries, rest of the storage and cached ids still agree |
| `RegionStorage.VisitedAscending` | server/core/region_storage.go:122-159 | the visited ids strictly increase |
| `LeaderLease.StepInv` | server/member/lease.go:46-129 | every step of servers and etcd keeps the invariant between local expire times, etcd's leases, calls under way and the leader key |
| `LeaderLease.OneLeader` | server/member/lease.go:78-80 | under the invariant two servers that have won and see their leases unexpired are the same |
| `LeaderLease.RunSafe` | server/server.go:820-935 | after every run in which no deletion of the leader key finds its server elected again, at most one server leads, and no local expire time is later than etcd's expiry |
| `LeaderLease.RunExpire` | server/member/lease.go:46-102 | after every run a server takes its lease, until it closes it, to last to the latest of the expire times of the grant and of the answers it got, in whatever order they came |
| `LeaderLease.RunExpireRises` | server/member/lease.go:92-95 | in every reachable state no step but its own close ends a lease for its server or brings its expire time forward |
| `LeaderLease.DeleteSafeIff` | server/member/leader.go:333-345 | in every reachable state, after a deletion of the leader key at most one server leads in every continuation iff its server has not put the key again under a live lease |
| `LeaderLease.TwoLeaders` | server/member/leader.go:130-156 | a run in which a deletion takes effect late and two servers lead at once |
| `LeaderLease.Elect` | server/member/leader.go:236-255 | without a leader key an undisturbed campaign is won |
| `LeaderLease.Available` | server/server.go:820-935 | from every reachable state some server can come to lead |
| `IdAllocator.StepInv` | server/id/id.go:53-113 | every step keeps blocks apart, allocators within their blocks and issued ids distinct |
| `IdAllocator.RunUnique` | server/id/id.go:53-113 | over every run no two Alloc calls return the same id, and each allocator's ids increase |
| `IdAllocator.RunInTurn` | server/id/id.go:53-70 | over every run the k-th id issued from a block is its k-th; each block was got by its allocator's own transaction, and is left only when used up |
| `IdAllocator.RunDecides` | server/id/id.go:72-113 | over every run a transaction succeeds iff, when etcd decides, the counter is as its allocator read it and the leader key names its member; then the counter goes up by one block |
| `IdAllocator.AllocGenerates` | server/id/id.go:53-113 | an undisturbed call of the leader's allocator without ids left returns the id behind the counter and moves that up by 1000 |
| `IdAllocator.AllocNext` | server/id/id.go:57-70 | with ids left it returns the next one |
| `IdAllocator.AllocFails` | server/id/id.go:106-111 | without leadership it returns no id and leaves allocator and counter as they were |
| `IdAllocator.GivesUp` | server/id/id.go:58-60 | an error leaves the allocator as it was, ready to be called again |
| `IdAllocator.RunFresh` | server/id/id.go:72-113 | every id lies above the counter's first value and not above its last |
| `Codec.EncodeBytes` | table/codec.go:89-110 | the loop computes the grouped and padded encoding |
| `Codec.Format` | table/codec.go:76-110 | byte for byte: full groups are followed by 255, the last is padded with zeros and followed by 247 plus its length |
| `Codec.DecodeBytes` | table/codec.go:144-178 | the loop decodes, with the same error for the same malformed input |
| `Codec.DecodeEncoded` | table/codec.go:144-178 | decoding an encoding followed by anything gives back the string and the rest |
| `Codec.EncodeDecoded` | table/codec.go:144-178 | whatever decodes is the encoding of the result followed by the rest |
| `Codec.EncodedOrder` | table/codec.go:89-110 | encodings compare bytewise exactly as the strings |
| `Codec.DecodeEncodedInt` | table/codec.go:123-132 | integers come back |
| `Codec.EncodeDecodedInt` | table/codec.go:123-132 | whatever decodes is the encoding of a 64-bit integer |
| `Codec.EncodeIntOrder` | table/codec.go:114-119 | encoded integers compare as the integers |
| `Codec.IntFormat` | table/codec.go:114-119 | an encoded integer is eight bytes, as a number it plus 2^63 |
| `Codec.RowKeyOrder` | table/codec.go:189-196 | row keys sort by table, then by row |
| `Codec.RowKeyFormat` | table/codec.go:180-197 | a row key is 't', the table, 'r', the row |
| `Codec.TableRange` | table/codec.go:181-196 | a table's key is below all its rows and above those of smaller tables, also when encoded |
| `Codec.TableIDRecovers` | table/codec.go:41-54 | the table id comes back from encoded table and row keys |
| `Codec.TableIDIs` | table/codec.go:41-54 | the table id is that of a string starting with 't' and an integer, and 0 for every other |
| `Codec.TableIDNone` | table/codec.go:41-46 | and 0 for what is not an encoded string |
| `Codec.MetaOrTableIs` | table/codec.go:60-74 | says whether the encoded string starts with 'm', and gives the table id |
| `HistoryBuffer.HistoryBuffer.constructor` | server/region_syncer/history_buffer.go:42-57 | an empty buffer at the stored index, with at least one place |
| `HistoryBuffer.HistoryBuffer.Record` | server/region_syncer/history_buffer.go:79-94 | appends to the records, dropping the oldest beyond the capacity; the index is saved every hundred records |
| `HistoryBuffer.HistoryBuffer.RecordsFrom` | server/region_syncer/history_buffer.go:96-110 | exactly the suffix from the index on, nothing for an index outside |
| `HistoryBuffer.HistoryBuffer.ResetWithIndex` | server/region_syncer/history_buffer.go:112-119 | no records, the given index |
| `HistoryBuffer.HistoryBuffer.Get` | server/region_syncer/history_buffer.go:127-133 | the record with the index, iff it is in the buffer |
| `HistoryBuffer.RingRecord` | server/region_syncer/history_buffer.go:83-87 | the ring with its spare place refines a bounded sequence |
| `RegionSyncer.RecordBatch` | server/region_syncer/server.go:106-121 | a batch is recorded and sent with the index it starts at |
| `RegionSyncer.Reply` | server/region_syncer/server.go:160-215 | for an index the leader holds, the reply is all its records from there to its index; otherwise there is none |
| `RegionSyncer.Receive` | server/region_syncer/client.go:117-131 | resets on a gap, then records what could be saved |
| `RegionSyncer.StepInv` | server/region_syncer/server.go:98-222 | every step, of recording, broadcasting, replying from the history, binding, unbinding and delivering, keeps leader, messages and followers pieces of one log |
| `RegionSyncer.RunAgrees` | server/region_syncer/client.go:107-132 | over every run of a term that begins with buffers that agree, with any interleaving of recording, broadcasts and replies, each record a follower has buffered is the leader's of that index |
| `RegionSyncer.ResetHeals` | server/region_syncer/client.go:117-131 | after a message that does not start at its index a follower's buffer agrees with the leader's log, whatever was in it |
| `RegionSyncer.InStepAfter` | server/region_syncer/client.go:117-131 | a follower that gets the leader's latest message is at its index |
| `RegionSyncer.HistoryCatchesUp` | server/region_syncer/server.go:160-215 | a follower that gets and saves the reply to a request, whatever happens in between, is at the leader's index unless the leader has recorded more |
| `RegionSyncer.Resumes` | server/region_syncer/client.go:51-131 | a follower whose index the leader holds asks, is answered and is at the leader's index |
| `RegionSyncer.BroadcastReaches` | server/region_syncer/server.go:106-121 | a broadcast goes to each bound stream whose send succeeds, holds all recorded since the last, and reaches to the leader's index |
| `RegionSyncer.Streams` | server/region_syncer/server.go:217-244 | and to no other stream |
| `RegionSyncer.SavesIff` | server/region_syncer/client.go:126-131 | what a follower buffers stays a piece of the log iff in no message a region is saved behind one that was not |
| `LeaderBalance.MoveLowers` | server/schedulers/utils.go:65-84 | each allowed move lowers the sum of count²/weight by more than (2T-1)(1/ws+1/wt) |
| `LeaderBalance.RunsEnd` | server/schedulers/utils.go:65-84 | with T at least 1 a run of moves is no longer than the potential allows |
| `LeaderBalance.MovesBackIff` | server/schedulers/balance_leader.go:208-232 | no allowed move can be reversed at once iff T is at least 1 |
| `LeaderBalance.RatioIff` | server/schedulers/utils.go:93-101 | for a configured ratio that is: zero, or at least one |
| `LeaderBalance.EndsIff` | server/schedulers/utils.go:93-101 | from every cluster the runs of moves are bounded iff the ratio is zero or at least one |
| `LeaderBalance.AtRest` | server/schedulers/utils.go:65-84 | no move is allowed iff no store, less the tolerance, has more leaders for its weight than another plus the tolerance |
| `LeaderBalance.EvenAtRest` | server/schedulers/utils.go:65-84 | stores of equal weight then differ by at most twice the tolerance |
| `LeaderBalance.TolerantIs` | server/schedulers/utils.go:93-101 | the tolerance is five without a ratio, else the ratio without its fraction |
| `LeaderBalance.ScoreTimesWeight` | server/core/store.go:253-266 | a score times the weight is the number of leaders |
| `LeaderBalance.PingPong` | server/schedulers/utils.go:93-101 | with T zero there are runs of any length between two stores with one leader |
| `LeaderBalance.MoveKeeps` | server/schedulers/balance_leader.go:208-232 | a move keeps the number of leaders, and no count below zero |
| `StoreScore.Continuous` | server/core/store.go:269-312 | for a store with regions, or nothing used, the line meets both other stages |
| `StoreScore.ContinuousIff` | server/core/store.go:269-312 | and for no other store |
| `StoreScore.NondecreasingIff` | server/core/store.go:269-312 | the score never falls with the size iff the low space stage starts no lower than the high space stage ends and, for a store without regions but with used space, no higher than its size there |
| `StoreScore.EmptyStoreFalls` | server/core/store.go:276-277 | a store without regions whose score falls from 10 to below zero between a growth of 10 and of 11 |
| `StoreScore.ScoreIsStaged` | server/core/store.go:269-312 | the score as a function of the size in three stages |
| `StoreScore.Stages` | server/core/store.go:269-312 | the outer stages in the store's own figures, times the weight: the size, and 2^30 minus what is left |
| `Lru.LRU.Put` | pkg/cache/lru.go:47-60 | list and map stay in agreement and within the limit |
| `Lru.LRU.Get` | pkg/cache/lru.go:63-70 | the value held, and the key comes to the front |
| `Lru.LRU.Remove` | pkg/cache/lru.go:92-98 | the key leaves list and map |
| `Lru.LRU.GetAndRemoveOldest` | pkg/cache/lru.go:107-114 | the least recently used key, removed from both |
| `Lru.PutAgrees` | pkg/cache/lru.go:47-60 | a put loses nothing while there is room and keeps list and map in agreement |
| `Lru.RunByUse` | pkg/cache/lru.go:47-98 | after every run the list has the keys in the order of their last use |
| `Lru.EvictsOldest` | pkg/cache/lru.go:47-60 | after every run a put loses a key only from a full cache that does not hold the new one, and then exactly the one whose last use is the longest ago |
| `TwoQueue.TwoQueue.constructor` | pkg/cache/two_queue.go:46-61 | three empty queues with the limits given by the size |
| `TwoQueue.TwoQueue.EnsureSpace` | pkg/cache/two_queue.go:95-111 | makes the room that `MadeRoom` describes |
| `TwoQueue.TwoQueue.Put` | pkg/cache/two_queue.go:64-92 | takes the queues to the state of `PutIn`, about which `PutOk` speaks |
| `TwoQueue.TwoQueue.Get` | pkg/cache/two_queue.go:114-128 | returns what is held; the state is that of `Touched` |
| `TwoQueue.TwoQueue.Peek` | pkg/cache/two_queue.go:131-136 | returns what is held |
| `TwoQueue.TwoQueue.Remove` | pkg/cache/two_queue.go:139-149 | the state is that of `Dropped` |
| `TwoQueue.TwoQueue.Len` | pkg/cache/two_queue.go:161-163 | the number of entries, never above the size |
| `TwoQueue.MadeRoomOk` | pkg/cache/two_queue.go:95-111 | afterwards there is room; at most one entry is gone; recent, frequent and ghost keys stay apart |
| `TwoQueue.PutOk` | pkg/cache/two_queue.go:64-92 | the value is in; nothing else is lost unless the cache was full and without the key, then at most one entry; the key is in one queue |
| `TwoQueue.PutPlaces` | pkg/cache/two_queue.go:64-92 | a key that is held or was evicted lately becomes the first of the frequent ones, any other the first of the recent ones |
| `TwoQueue.Evicts` | pkg/cache/two_queue.go:95-111 | a full cache gives exactly one key for a new one: the oldest recent one, remembered as the latest ghost, while they are more than a quarter, or as many and the new key is no ghost; else the oldest frequent one |
| `TwoQueue.TouchedOk` | pkg/cache/two_queue.go:114-128 | a get changes neither keys nor values |
| `TwoQueue.GetPlaces` | pkg/cache/two_queue.go:114-128 | a hit becomes the first of the frequent ones, a miss changes nothing |
| `TwoQueue.DroppedOk` | pkg/cache/two_queue.go:139-149 | afterwards the key is in none of the queues, nothing else has changed |
| `TwoQueue.RunHits` | pkg/cache/two_queue.go:64-149 | after every run a hit gives the value last put for the key, and the queues are in order |
| `TwoQueue.GhostsBoundedIff` | pkg/cache/two_queue.go:50-61 | the ghosts of all runs are bounded iff the size is at least two, and then by half the size |
| `TwoQueue.GhostsWithoutEnd` | pkg/cache/two_queue.go:50-61 | at size one the ghosts are not limited |
| `WaitingOperator.GroupsAppend` | server/schedule/waiting_operator.go:57-64 | a group put behind whole groups is read back as one more group |
| `WaitingOperator.RandBuckets.PutGroup` | server/schedule/operator_controller.go:236-241 | one more group waits; the total weight is that of the nonempty buckets |
| `WaitingOperator.RandBuckets.PutOperator` | server/schedule/waiting_operator.go:57-64 | the operator is last in its bucket; the total weight follows |
| `WaitingOperator.RandBuckets.GetOperator` | server/schedule/waiting_operator.go:79-109 | a whole group is taken from the front of the bucket into whose share of the weight the random number falls; none only if nothing waits |
| `WaitingOperator.SharesOfAll` | server/schedule/waiting_operator.go:79-109 | with all priorities waiting the shares are 1, 4 and 9 of 14 |
| `WaitingOperator.ShareIs` | server/schedule/waiting_operator.go:24 | the share of a bucket is its weight, whatever else waits |
| `OperatorController.OperatorController.AddWaitingOperator` | server/schedule/operator_controller.go:217-246 | taken in iff `checkAddOperator` admits it and the counter is below the limit of this call; counters and ledger stay right, no counter is above the largest limit there was, and a promotion follows |
| `OperatorController.OperatorController.PromoteWaitingOperator` | server/schedule/operator_controller.go:267-293 | terminates; one admitted group is promoted or none is left; every group on the way was refused and is cancelled; what runs changes only for the group's regions, at their current epochs and only in place of lower priorities |
| `OperatorController.CheckAddIff` | server/schedule/operator_controller.go:300-317 | a group is admitted iff no operator of it is for an unknown region or another epoch, or meets a running one of the same or a higher priority |
| `OperatorController.RunReplaces` | server/schedule/operator_controller.go:323-338 | an admitted group replaces only operators of lower priority, at the current epochs |
| `OperatorController.OneFewer` | server/schedule/operator_controller.go:278-287 | a group that leaves was counted, so the counter does not fall below zero |
| `RegionScatterer.RegionScatterer.PlacePeer` | server/schedule/region_scatterer.go:119-138 | a peer stays unless its store was selected lately and a candidate is chosen; then it goes there |
| `RegionScatterer.RegionScatterer.ScatterRegion` | server/schedule/region_scatterer.go:106-142 | one target per peer, on pairwise distinct stores, even if the selected stores are reset on the way; what each peer sees and is offered is determined, and so is what is selected at the end |
| `RegionScatterer.StepsMean` | server/schedule/region_scatterer.go:113-138 | a peer on a store not selected stays; any other goes to a free store that was not selected, if one can take it |
| `RegionScatterer.SelectedNext` | server/schedule/region_scatterer.go:113-138 | old and new store of a peer are selected for the next; a reset comes only when no store is free |

## Left out

- RegionFamily.RemoveSub: the totals of a store's trees are not tied to their regions, because the code never subtracts a removed region from them.
- RegionsInfo.RegionsInfo.SetRegion: regions have a nonempty range and pending peers only on stores of their peers, as regions reported by stores do; so for `AddRegion`.
- The region trees are values inside the index, so aliasing between them is not modelled; the B-tree in place is `CowForest`.
- Heartbeat.RaftCluster.ProcessRegionHeartbeat: one heartbeat at a time; for those side by side `SideKeeps` and `PutEpochsIff` speak of the cache, nothing of the storage. Hot region statistics, store status and the notification channel are not modelled.
- RegionStorage.LoadRegions: the keys between the first and the last region path are region paths; a region with the largest 64-bit id is outside the range the code reads.
- LeaderLease.RunSafe: clocks run at the same rate and etcd drops a lease only after its expiry has passed; nothing is said of a lease object after Close.
- IdAllocator.RunUnique: the counter does not wrap around.
- Codec.EncodeIntOrder: the exclusive or with the sign mask is modelled as flipping the top bit.
- RegionSyncer.RunAgrees: one leader term without full synchronisation, which numbers its messages independently of the history.
- StoreScore.NondecreasingIff: the high space ratio is below the low space ratio; a store with regions has some used space, without which the code divides by zero; growth is a real number.
- LeaderBalance.RunsEnd: no unfinished operators influence the scores.
- WaitingOperator.RandBuckets.PutGroup: pairs are submitted exactly for merges, with equal priority; a lone merge operator would make the code read past its bucket.
- OperatorController.OperatorController.PromoteWaitingOperator: the store limits are a parameter; sending commands, records and metrics are not modelled.
- RegionScatterer.RegionScatterer.ScatterRegion: calls are handled one at a time, so no other call selects stores between a reset and the next peer; filters and the choice of a candidate are parameters.
- Lru.LRU.Put: the linked list is a sequence of keys, so element pointers are not modelled.
- The timestamp oracle, of which only the metrics file is present.
- The operator, checker, filter and selector packages, the namespace classifier and the adjacent region scheduler.
- HTTP and gRPC handlers, the client, configuration, logging, metrics and the wrappers around etcd and leveldb.
- Balancing by size, hot region scheduling and store limits, which are heuristics without a promise of this kind.
- `Elems`, `GetRegions`, averages and other read-only listings.
