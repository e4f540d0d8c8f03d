/** server/core/region.go: `RegionsInfo`, the main tree of regions, the map by id with its totals, and for every
    store the trees of the regions it has a leader, follower, learner or pending peer of. All of them are kept in
    step: each is a function of the one row of regions in key order. */
module RegionsInfo {
  import opened SortedSeq
  import opened Bytes
  import opened Regions
  import opened BTree
  import opened RegionIndex
  import opened RegionTree
  import opened RegionFamily

  // ---------- regionMap ----------

  /** The map by id holds exactly the regions of the row. */
  ghost predicate MapIs(m: map<nat, Region>, b: seq<Region>) {
    && (forall i :: 0 <= i < |b| ==> b[i].id in m && m[b[i].id] == b[i])
    && (forall id :: id in m ==> m[id] in b && m[id].id == id)
  }

  datatype RegionMap = RegionMap(m: map<nat, Region>, totalSize: int, totalKeys: int)

  ghost predicate MapOk(rm: RegionMap, b: seq<Region>) {
    MapIs(rm.m, b) && rm.totalSize == SizeOf(b) && rm.totalKeys == KeysOf(b)
  }

  /** `regionMap.Put` (region.go:409-417). */
  function MapPut(rm: RegionMap, region: Region): RegionMap {
    var was := if region.id in rm.m then (rm.m[region.id].size, rm.m[region.id].keys) else (0, 0);
    RegionMap(rm.m[region.id := region], rm.totalSize - was.0 + region.size, rm.totalKeys - was.1 + region.keys)
  }

  /** `regionMap.Delete` (region.go:419-428). */
  function MapDelete(rm: RegionMap, id: nat): RegionMap {
    if id in rm.m then RegionMap(rm.m - {id}, rm.totalSize - rm.m[id].size, rm.totalKeys - rm.m[id].keys) else rm
  }

  lemma PutNew(rm: RegionMap, a: seq<Region>, r: Region, b: seq<Region>)
    requires MapOk(rm, a + b) && r.id !in rm.m
    ensures MapOk(MapPut(rm, r), a + [r] + b)
  {
    hide SizeOf, KeysOf;
    SumsMiddle(a, r, b);
    var c, d := a + b, a + [r] + b;
    var m := rm.m[r.id := r];
    forall i | 0 <= i < |d| ensures d[i].id in m && m[d[i].id] == d[i] {
      if i != |a| { assert d[i] == c[if i < |a| then i else i - 1]; }
    }
    forall id | id in m ensures m[id] in d && m[id].id == id {
      if id != r.id { InMiddle(a, r, b, m[id]); } else { InMiddle(a, r, b, r); }
    }
  }

  lemma InMiddle(a: seq<Region>, r: Region, b: seq<Region>, x: Region)
    ensures x in a + [r] + b <==> x in a + b || x == r
  {
    assert x in a + [r] + b <==> x in a + [r] || x in b;
    assert x in a + b <==> x in a || x in b;
  }

  lemma DeleteOld(rm: RegionMap, a: seq<Region>, r: Region, b: seq<Region>)
    requires MapOk(rm, a + [r] + b) && Fits(a, r, b)
    ensures MapOk(MapDelete(rm, r.id), a + b)
  {
    hide SizeOf, KeysOf, Lt;
    SumsMiddle(a, r, b);
    var c, d := a + b, a + [r] + b;
    assert d[|a|] == r;
    var m := rm.m - {r.id};
    forall i | 0 <= i < |c| ensures c[i].id in m && m[c[i].id] == c[i] {
      assert c[i] == d[if i < |a| then i else i + 1];
      FitsApart(a, r, b, i);
    }
    forall id | id in m ensures m[id] in c && m[id].id == id {
      InMiddle(a, r, b, m[id]);
    }
  }

  lemma FitsApart(a: seq<Region>, r: Region, b: seq<Region>, i: nat)
    requires Fits(a, r, b) && i < |a + b|
    ensures (a + b)[i] != r
  {
    hide Lt;
    LtOrder();
    assert (a + b)[i] == if i < |a| then a[i] else b[i - |a|];
  }

  // ---------- RegionsInfo ----------

  /** Removing the peers' stores one after another. */
  lemma StoresStep(ps: seq<Peer>, i: nat)
    requires i < |ps|
    ensures StoresOf(ps[..i+1]) == StoresOf(ps[..i]) + {ps[i].store}
    ensures StoresOf(ps[..0]) == {} && ps[..|ps|] == ps
  {
    assert ps[..i+1] == ps[..i] + [ps[i]];
  }

  lemma StoresAll(ps: seq<Peer>)
    ensures StoresOf(ps[..0]) == {} && ps[..|ps|] == ps
  {
  }

  lemma MatchingStep(p: Peer -> bool, ps: seq<Peer>, i: nat)
    requires i < |ps|
    ensures StoresOf(Filter(p, ps[..i+1])) == if p(ps[i]) then StoresOf(Filter(p, ps[..i])) + {ps[i].store} else StoresOf(Filter(p, ps[..i]))
    ensures p(ps[i]) ==> ps[i].store in StoresOf(Filter(p, ps))
  {
    hide Filter;
    assert ps[..i+1] == ps[..i] + [ps[i]];
    FilterConcat(p, ps[..i], [ps[i]]);
    FilterOne(p, ps[i]);
    FilterIn(p, ps, ps[i]);
    var f, g := Filter(p, ps[..i]), Filter(p, ps[..i+1]);
    assert forall q :: q in g <==> q in f || (p(ps[i]) && q == ps[i]);
  }

  lemma MatchingStart(p: Peer -> bool, ps: seq<Peer>)
    ensures StoresOf(Filter(p, ps[..0])) == {} && ps[..|ps|] == ps
  {
  }

  // ---------- all but the main tree ----------

  datatype Index = Index(regions: RegionMap, leaders: Family, followers: Family, learners: Family, pending: Family)

  /** The map and the trees of the stores hold the row `b`. */
  ghost predicate IndexIs(x: Index, b: seq<Region>) {
    MapOk(x.regions, b) && FamiliesHold(x, b)
  }

  ghost predicate FamiliesHold(x: Index, b: seq<Region>) {
    && FamilyIs(x.leaders, Leader, b)
    && FamilyIs(x.followers, Follower, b)
    && FamilyIs(x.learners, Learner, b)
    && FamilyIs(x.pending, Pending, b)
  }

  /** For every store: the regions of the row that have their leader there, a follower, a learner, a pending peer. */
  ghost predicate Shows(x: Index, b: seq<Region>) {
    forall store ::
      && Row(x.leaders, store) == Filter((r: Region) => LeaderOn(r, store), b)
      && Row(x.followers, store) == Filter((r: Region) => FollowerOn(r, store), b)
      && Row(x.learners, store) == Filter((r: Region) => LearnerOn(r, store), b)
      && Row(x.pending, store) == Filter((r: Region) => PendingOn(r, store), b)
  }

  lemma FamiliesShow(x: Index, b: seq<Region>)
    requires FamiliesHold(x, b)
    ensures Shows(x, b)
  {
    hide Filter, HasKind, LeaderOn, FollowerOn, LearnerOn, PendingOn, Row, Valid;
    forall store
      ensures Row(x.leaders, store) == Filter((r: Region) => LeaderOn(r, store), b)
      ensures Row(x.followers, store) == Filter((r: Region) => FollowerOn(r, store), b)
      ensures Row(x.learners, store) == Filter((r: Region) => LearnerOn(r, store), b)
      ensures Row(x.pending, store) == Filter((r: Region) => PendingOn(r, store), b)
    {
      forall r
        ensures HasKind(Leader, store)(r) == LeaderOn(r, store) && HasKind(Follower, store)(r) == FollowerOn(r, store)
        ensures HasKind(Learner, store)(r) == LearnerOn(r, store) && HasKind(Pending, store)(r) == PendingOn(r, store)
      {
        KindMeans(r, store);
      }
      FilterSame(HasKind(Leader, store), (r: Region) => LeaderOn(r, store), b);
      FilterSame(HasKind(Follower, store), (r: Region) => FollowerOn(r, store), b);
      FilterSame(HasKind(Learner, store), (r: Region) => LearnerOn(r, store), b);
      FilterSame(HasKind(Pending, store), (r: Region) => PendingOn(r, store), b);
    }
  }

  ghost predicate SubTreesOk(x: Index) {
    TreesOk(x.leaders) && TreesOk(x.followers) && TreesOk(x.learners) && TreesOk(x.pending)
  }

  lemma IndexTrees(x: Index, b: seq<Region>)
    requires IndexIs(x, b) && RangesOk(b)
    ensures SubTreesOk(x)
  {
    hide FamilyAt, TreesOk, RangesOk, MapOk;
    FamilyTrees(x.leaders, Leader, b);
    FamilyTrees(x.followers, Follower, b);
    FamilyTrees(x.learners, Learner, b);
    FamilyTrees(x.pending, Pending, b);
  }

  ghost predicate RegionsOk(b: seq<Region>) {
    forall i :: 0 <= i < |b| ==> RegionOk(b[i])
  }

  /** The id is gone from the map, and from the trees of the region's stores what they find at its start key with
      its id. */
  ghost predicate Removed(x: Index, x': Index, r: Region) {
    var stores := StoresOf(r.peers);
    && x'.regions == MapDelete(x.regions, r.id)
    && Dropped(x.leaders, x'.leaders, r, stores)
    && Dropped(x.followers, x'.followers, r, stores)
    && Dropped(x.learners, x'.learners, r, stores)
    && Dropped(x.pending, x'.pending, r, stores)
  }

  lemma PeerHasKind(r: Region, store: nat)
    requires store in StoresOf(r.peers)
    ensures HasKind(Leader, store)(r) || HasKind(Follower, store)(r) || HasKind(Learner, store)(r)
  {
    hide HasKind;
    KindMeans(r, store);
    InStores(r.peers, store);
  }

  ghost predicate KindWithin(kind: Kind, y: Region, stores: set<nat>) {
    forall st :: HasKind(kind, st)(y) ==> st in stores
  }

  lemma KindsWithin(y: Region, stores: set<nat>)
    requires RegionOk(y)
    ensures StoresOf(y.peers) <= stores <==>
      KindWithin(Leader, y, stores) && KindWithin(Follower, y, stores) && KindWithin(Learner, y, stores) && KindWithin(Pending, y, stores)
  {
    hide HasKind, RegionOk;
    forall kind, st | HasKind(kind, st)(y) ensures st in StoresOf(y.peers) { KindHasPeer(kind, y, st); }
    forall st | st in StoresOf(y.peers)
      ensures HasKind(Leader, st)(y) || HasKind(Follower, st)(y) || HasKind(Learner, st)(y)
    {
      PeerHasKind(y, st);
    }
  }

  /** Removing by a region with the id that starts in the cached one takes that out everywhere exactly if it names
      all its stores. */
  lemma RemovedIff(x: Index, x': Index, a: seq<Region>, y: Region, b: seq<Region>, r: Region)
    requires IndexIs(x, a + [y] + b) && Fits(a, y, b) && RegionOk(y) && y.id == r.id && Contains(y, r.start)
    requires Removed(x, x', r)
    ensures IndexIs(x', a + b) <==> StoresOf(y.peers) <= StoresOf(r.peers)
  {
    hide FamilyAt, Fits, MapOk, RegionOk, Dropped, Contains, MapDelete, HasKind;
    var stores := StoresOf(r.peers);
    DeleteOld(x.regions, a, y, b);
    DroppedIff(x.leaders, x'.leaders, Leader, a, y, b, r, stores);
    DroppedIff(x.followers, x'.followers, Follower, a, y, b, r, stores);
    DroppedIff(x.learners, x'.learners, Learner, a, y, b, r, stores);
    DroppedIff(x.pending, x'.pending, Pending, a, y, b, r, stores);
    KindsWithin(y, stores);
  }

  lemma RemovedNone(x: Index, x': Index, s: seq<Region>, r: Region)
    requires IndexIs(x, s) && r.id !in x.regions.m && Removed(x, x', r)
    ensures IndexIs(x', s) && Without(s, r) == s && OtherIds(s, r.id) == s
    ensures forall i :: 0 <= i < |s| ==> s[i].id != r.id
  {
    hide FamilyAt, Dropped, SizeOf, KeysOf, OtherIds, Without;
    var stores := StoresOf(r.peers);
    Unmapped(x.regions.m, s, r.id);
    DroppedNone(x.leaders, x'.leaders, Leader, s, r, stores);
    DroppedNone(x.followers, x'.followers, Follower, s, r, stores);
    DroppedNone(x.learners, x'.learners, Learner, s, r, stores);
    DroppedNone(x.pending, x'.pending, Pending, s, r, stores);
    WithoutAbsent(s, r);
    OthersAll(s, r.id);
  }

  /** The region can be given to `RemoveRegion`: what is cached under its id starts no later, ends behind its start
      key, and has no peer on other stores. */
  ghost predicate Removable(s: seq<Region>, r: Region) {
    forall y :: y in s && y.id == r.id ==> Contains(y, r.start) && StoresOf(y.peers) <= StoresOf(r.peers)
  }

  /** Removing a region leaves everything in step exactly then. */
  lemma RemoveIff(s: seq<Region>, x: Index, x': Index, r: Region)
    requires RangesOk(s) && RegionsOk(s) && IndexIs(x, s) && Removed(x, x', r)
    ensures RangesOk(Without(s, r)) && RegionsOk(Without(s, r))
    ensures IndexIs(x', Without(s, r)) <==> Removable(s, r)
    ensures Removable(s, r) ==> Without(s, r) == OtherIds(s, r.id)
  {
    hide RangesOk, RegionOk, FamilyAt, SizeOf, KeysOf, OtherIds, Without, Contains, Dropped, DelAt, StoresOf;
    WithoutTwice(s, r);
    if r.id !in x.regions.m {
      RemovedNone(x, x', s, r);
    } else {
      var k := MappedAt(x.regions.m, s, r.id);
      var y := s[k];
      MemberFits(s, k);
      forall z | z in s && z.id == r.id ensures z == y {
      }
      if Contains(y, r.start) {
        WithoutAs(s, k, r);
        RemovedIff(x, x', s[..k], y, s[k+1..], r);
        OthersWithout(s, k);
      } else {
        WithoutAbsent(s, r);
        assert !MapIs(x'.regions.m, s) by { assert s[k].id !in x'.regions.m; }
      }
    }
  }

  lemma WithoutAs(s: seq<Region>, k: nat, r: Region)
    requires RangesOk(s) && k < |s| && s[k].id == r.id && Contains(s[k], r.start)
    ensures Without(s, r) == s[..k] + s[k+1..]
  {
    hide Lt, RangesOk, FindIn, StartsUpTo, Fits, Contains;
    MemberFits(s, k);
    FitsFound(s[..k], s[k], s[k+1..], r.start);
  }

  // ---------- what adding a region does to the main tree ----------

  /** What does not overlap the region. */
  ghost function Rest(s: seq<Region>, r: Region): seq<Region> {
    if Lo(s, r.start) <= Hi(s, r.end) <= |s| then s[..Lo(s, r.start)] + s[Hi(s, r.end)..] else s
  }

  /** Removing the overlapped region with its own id takes the new region out again. */
  predicate Unseats(y: Region, r: Region) {
    y.id == r.id && Contains(r, y.start)
  }

  /** The main tree once the overlaps below `k` are removed. */
  ghost function Kept(s: seq<Region>, r: Region, k: nat): seq<Region> {
    if exists i :: Lo(s, r.start) <= i < k && i < |s| && Unseats(s[i], r) then Rest(s, r) else Updated(s, r)
  }

  lemma KeptStep(s: seq<Region>, r: Region, k: nat)
    requires RangesOk(s) && WellFormed(r) && k < |s| && Lo(s, r.start) <= k < Hi(s, r.end)
    ensures Without(Kept(s, r, k), s[k]) == Kept(s, r, k + 1)
  {
    hide Lo, Hi, RangesOk, WellFormed, Without, Updated, Unseats, Rest;
    RestApart(s, r, k);
    UpdatedApart(s, r, k);
  }

  /** The region can be given to `AddRegion`: what is cached under its id overlaps it and starts before it. */
  ghost predicate Addable(s: seq<Region>, r: Region) {
    forall y :: y in s && y.id == r.id ==> Meets(y, r.start, r.end) && !Contains(r, y.start)
  }

  /** Adding what is cached again takes it out of the main tree. */
  lemma AddAgain(s: seq<Region>, r: Region)
    requires RangesOk(s) && r in s
    ensures !Addable(s, r)
  {
    hide RangesOk, Meets, Contains;
    MemberWellFormed(s, r);
    ContainsStart(r);
  }

  /** Adding a region leaves everything in step exactly then. `rm` is the map once the overlaps are gone. */
  lemma AddIff(s: seq<Region>, r: Region, rm: RegionMap, x: Index)
    requires RangesOk(s) && RegionsOk(s) && RegionOk(r)
    requires MapOk(rm, Rest(s, r)) && x.regions == MapPut(rm, r) && FamiliesHold(x, Updated(s, r))
    ensures var t := Kept(s, r, Hi(s, r.end));
      && RangesOk(t) && RegionsOk(t)
      && (IndexIs(x, t) <==> Addable(s, r))
      && (Addable(s, r) ==> t == Updated(s, r))
  {
    hide RangesOk, RegionsOk, RegionOk, Lo, Hi, MapOk, FamilyAt, Unseats, Updated, Rest, MapPut, WellFormed, Fits, Meets, Contains;
    OkRange(r);
    Parts(s, r);
    var lo, hi := Lo(s, r.start), Hi(s, r.end);
    if k :| lo <= k < hi && k < |s| && Unseats(s[k], r) {
      Taken(s, r, k, rm);
    } else {
      if r.id in rm.m { Doubled(s, r, rm); } else { Fresh(s, r, rm); }
    }
  }

  lemma Parts(s: seq<Region>, r: Region)
    requires RangesOk(s) && RegionsOk(s) && RegionOk(r)
    ensures Lo(s, r.start) <= Hi(s, r.end) <= |s|
    ensures var a, b := s[..Lo(s, r.start)], s[Hi(s, r.end)..];
      Fits(a, r, b) && Rest(s, r) == a + b && Updated(s, r) == a + [r] + b
    ensures RangesOk(Rest(s, r)) && RangesOk(Updated(s, r)) && RegionsOk(Rest(s, r)) && RegionsOk(Updated(s, r))
  {
    hide RangesOk, RegionOk, Lo, Hi, WellFormed, Fits;
    OkRange(r);
    UpdatedFits(s, r);
    var a, b := s[..Lo(s, r.start)], s[Hi(s, r.end)..];
    FitsRanges(a, r, b);
    AddedOk(a, r, b);
  }

  /** The new region is not in the main tree. */
  lemma Taken(s: seq<Region>, r: Region, k: nat, rm: RegionMap)
    requires RangesOk(s) && RegionsOk(s) && RegionOk(r) && Lo(s, r.start) <= k < Hi(s, r.end) && k < |s| && Unseats(s[k], r)
    ensures !MapOk(MapPut(rm, r), Rest(s, r)) && !Addable(s, r)
  {
    hide RangesOk, RegionsOk, RegionOk, Lo, Hi, Updated, Rest, Fits, SizeOf, KeysOf, Meets, Contains;
    Parts(s, r);
    var a, b := s[..Lo(s, r.start)], s[Hi(s, r.end)..];
    forall i | 0 <= i < |a + b| ensures (a + b)[i] != r { FitsApart(a, r, b, i); }
    assert s[k] in s;
    assert r.id in MapPut(rm, r).m && MapPut(rm, r).m[r.id] == r;
  }

  /** Two regions with the id are in the main tree. */
  lemma Doubled(s: seq<Region>, r: Region, rm: RegionMap)
    requires RangesOk(s) && RegionsOk(s) && RegionOk(r) && MapOk(rm, Rest(s, r)) && r.id in rm.m
    ensures !MapOk(MapPut(rm, r), Updated(s, r)) && !Addable(s, r)
  {
    hide RangesOk, RegionsOk, RegionOk, Lo, Hi, Updated, Rest, Fits, SizeOf, KeysOf, Meets, Contains;
    Parts(s, r);
    var lo, hi := Lo(s, r.start), Hi(s, r.end);
    var a, b := s[..lo], s[hi..];
    var y := rm.m[r.id];
    var i :| 0 <= i < |a + b| && (a + b)[i] == y;
    FitsApart(a, r, b, i);
    var d, j := a + [r] + b, if i < lo then i else i + 1;
    assert d[j] == y;
    assert s[if i < lo then i else i - lo + hi] == y;
    WindowIs(s, r.start, r.end);
  }

  lemma RestHas(s: seq<Region>, lo: nat, hi: nat, i: nat)
    requires lo <= hi <= |s| && i < |s|
    ensures !(lo <= i < hi) ==> s[i] in s[..lo] + s[hi..]
  {
    SliceIn(s, lo, hi, s[i]);
  }

  lemma Fresh(s: seq<Region>, r: Region, rm: RegionMap)
    requires RangesOk(s) && RegionsOk(s) && RegionOk(r) && MapOk(rm, Rest(s, r)) && r.id !in rm.m
    requires forall k :: Lo(s, r.start) <= k < Hi(s, r.end) && k < |s| ==> !Unseats(s[k], r)
    ensures MapOk(MapPut(rm, r), Updated(s, r)) && Addable(s, r)
  {
    hide RangesOk, RegionsOk, RegionOk, Lo, Hi, Updated, Rest, Fits, SizeOf, KeysOf, Meets, MapPut, Contains;
    Parts(s, r);
    var lo, hi := Lo(s, r.start), Hi(s, r.end);
    var a, b := s[..lo], s[hi..];
    PutNew(rm, a, r, b);
    WindowIs(s, r.start, r.end);
    forall y | y in s && y.id == r.id ensures Meets(y, r.start, r.end) && !Contains(r, y.start) {
      var i :| 0 <= i < |s| && s[i] == y;
      RestHas(s, lo, hi, i);
    }
  }

  class RegionsInfo {
    var tree: Tree<Region>
    var regions: RegionMap
    var leaders: Family
    var followers: Family
    var learners: Family
    var pendingPeers: Family

    ghost function Others(): Index
      reads this
    {
      Index(regions, leaders, followers, learners, pendingPeers)
    }

    /** The map and the trees of the stores hold the row `b`. */
    ghost predicate Holds(b: seq<Region>)
      reads this
    {
      RangesOk(b) && RegionsOk(b) && IndexIs(Others(), b)
    }

    /** So does the main tree. */
    ghost predicate Ok()
      reads this
    {
      TreeOk(tree) && Holds(Items(tree))
    }

    ghost function Contents(): seq<Region>
      reads this
    {
      Items(tree)
    }

    constructor ()
      ensures Ok() && Contents() == []
    {
      tree := NewTree();
      regions := RegionMap(map[], 0, 0);
      leaders, followers, learners, pendingPeers := map[], map[], map[], map[];
    }

    /** `RemoveRegion` (region.go:614-626), whatever the region: it need not be what is cached under its id. */
    method RemoveRegion(region: Region)
      requires TreeOk(tree) && SubTreesOk(Others())
      modifies this
      ensures TreeOk(tree) && Contents() == Without(old(Contents()), region) && Removed(old(Others()), Others(), region)
      ensures old(Ok()) ==> (Ok() <==> Removable(old(Contents()), region))
      ensures old(Ok()) && Ok() ==> Contents() == OtherIds(old(Contents()), region.id)
    {
      hide TreeOk, RangesOk, RegionsOk, IndexIs, Items, Without, MapDelete, Dropped, TreesOk, Removable, OtherIds, StoresOf;
      ghost var s, x := Contents(), Others();
      tree := RemoveFrom(tree, region);
      regions := MapDelete(regions, region.id);
      StoresAll(region.peers);
      NoneDropped(x, region);
      for i := 0 to |region.peers|
        invariant TreeOk(tree) && Items(tree) == Without(s, region)
        invariant regions == MapDelete(x.regions, region.id)
        invariant Dropped(x.leaders, leaders, region, StoresOf(region.peers[..i]))
        invariant Dropped(x.followers, followers, region, StoresOf(region.peers[..i]))
        invariant Dropped(x.learners, learners, region, StoresOf(region.peers[..i]))
        invariant Dropped(x.pending, pendingPeers, region, StoresOf(region.peers[..i]))
      {
        var store := region.peers[i].store;
        ghost var done := StoresOf(region.peers[..i]);
        StoresStep(region.peers, i);
        leaders := DropFrom(leaders, store, region, x.leaders, done);
        followers := DropFrom(followers, store, region, x.followers, done);
        learners := DropFrom(learners, store, region, x.learners, done);
        pendingPeers := DropFrom(pendingPeers, store, region, x.pending, done);
      }
      if old(Ok()) { RemoveIff(s, x, Others(), region); }
    }

    /** `AddRegion` (region.go:558-611). The region takes the place of the regions it overlaps; where its id is
        cached already the main tree, the map and the stores' trees need not agree on what that means. Returns also
        the map once the overlaps are gone. */
    method AddRegion(region: Region) returns (overlaps: seq<Region>, ghost rm: RegionMap)
      requires Ok() && RegionOk(region)
      modifies this
      ensures overlaps == Overlaps(old(Contents()), region.start, region.end)
      ensures TreeOk(tree) && Contents() == Kept(old(Contents()), region, Hi(old(Contents()), region.end))
      ensures FamiliesHold(Others(), Updated(old(Contents()), region)) && Shows(Others(), Updated(old(Contents()), region))
      ensures MapOk(rm, Rest(old(Contents()), region)) && regions == MapPut(rm, region)
      ensures Ok() <==> Addable(old(Contents()), region)
      ensures Ok() ==> Contents() == Updated(old(Contents()), region)
    {
      hide TreeOk, RangesOk, RegionsOk, RegionOk, FamilyAt, Fits, Items, Without, Lo, Hi, MapOk, MapPut, Kept, Updated, Rest;
      hide Addable, Removed, SubTreesOk, Removable, OtherIds, WellFormed;
      ghost var s := Contents();
      ghost var lo, hi := Lo(s, region.start), Hi(s, region.end);
      Parts(s, region);
      KeptFirst(s, region);
      OkRange(region);
      IndexTrees(Others(), s);
      tree, overlaps := Update(tree, region);
      assert s[..lo] + s[lo..] == s && |overlaps| == hi - lo;
      for i := 0 to |overlaps|
        invariant TreeOk(tree) && Items(tree) == Kept(s, region, lo + i)
        invariant SubTreesOk(Others()) && IndexIs(Others(), s[..lo] + s[lo + i..])
      {
        ghost var x, k := Others(), lo + i;
        Overlapped(s, lo, k, x);
        KeptStep(s, region, k);
        assert overlaps[i] == s[k];
        RemoveRegion(regions.m[overlaps[i].id]);
        RemovedIff(x, Others(), s[..lo], s[k], s[k+1..], s[k]);
        RemovedTrees(x, Others(), s[k]);
      }
      rm := regions;
      AddKinds(region, s[..lo], s[hi..]);
      AddIff(s, region, rm, Others());
      FamiliesShow(Others(), Updated(s, region));
    }

    /** The rest of `AddRegion`: the map and the stores' trees, once nothing overlaps the region any more. */
    method AddKinds(region: Region, ghost a: seq<Region>, ghost b: seq<Region>)
      requires FamiliesHold(Others(), a + b) && Fits(a, region, b)
      modifies this
      ensures tree == old(tree) && regions == MapPut(old(regions), region) && FamiliesHold(Others(), a + [region] + b)
    {
      hide FamilyAt, Fits, HasKind, MapPut, Filter;
      ghost var c, d := a + b, a + [region] + b;
      FamilyStart(leaders, Leader, c, d);
      FamilyStart(followers, Follower, c, d);
      FamilyStart(learners, Learner, c, d);
      FamilyStart(pendingPeers, Pending, c, d);
      regions := MapPut(regions, region);
      AddVoters(region, a, b);
      learners := AddTo(learners, Learner, region, Learners(region), a, b);
      pendingPeers := AddTo(pendingPeers, Pending, region, region.pending, a, b);
    }

    method AddVoters(region: Region, ghost a: seq<Region>, ghost b: seq<Region>)
      requires Fits(a, region, b)
      requires FamilyAt(leaders, Leader, a + b, a + [region] + b, {}) && FamilyAt(followers, Follower, a + b, a + [region] + b, {})
      modifies this`leaders, this`followers
      ensures FamilyIs(leaders, Leader, a + [region] + b) && FamilyIs(followers, Follower, a + [region] + b)
    {
      hide FamilyAt, Fits, Filter;
      ghost var c, d := a + b, a + [region] + b;
      var voters := Voters(region);
      ghost var isLeader, isFollower := (p: Peer) => p.id == region.leader, (p: Peer) => p.id != region.leader;
      MatchingStart(isLeader, voters);
      MatchingStart(isFollower, voters);
      for i := 0 to |voters|
        invariant FamilyAt(leaders, Leader, c, d, StoresOf(Filter(isLeader, voters[..i])))
        invariant FamilyAt(followers, Follower, c, d, StoresOf(Filter(isFollower, voters[..i])))
      {
        MatchingStep(isLeader, voters, i);
        MatchingStep(isFollower, voters, i);
        var store := voters[i].store;
        if voters[i].id == region.leader {
          leaders := StoreIn(leaders, Leader, store, region, a, b, StoresOf(Filter(isLeader, voters[..i])));
        } else {
          followers := StoreIn(followers, Follower, store, region, a, b, StoresOf(Filter(isFollower, voters[..i])));
        }
      }
      FamilyEnd(leaders, Leader, a, region, b, true, StoresOf(PeersOf(Leader, region)));
      FamilyEnd(followers, Follower, a, region, b, true, StoresOf(PeersOf(Follower, region)));
    }

    /** `SetRegion` (region.go:535-540): what had the id or overlaps goes, the region is in. */
    method SetRegion(region: Region) returns (overlaps: seq<Region>)
      requires Ok() && RegionOk(region)
      modifies this
      ensures Ok() && Contents() == Updated(OtherIds(old(Contents()), region.id), region) && Shows(Others(), Contents())
      ensures overlaps == Overlaps(OtherIds(old(Contents()), region.id), region.start, region.end)
    {
      hide Ok, Contents, OtherIds, Overlaps, Updated, RegionOk, Removed, Kept, FamiliesHold, MapOk, Rest;
      DropRegion(region.id);
      NoneLeft(old(Contents()), region);
      ghost var rm;
      overlaps, rm := AddRegion(region);
    }

    /** Dropping a cached region by id (server/cluster.go:697-703). */
    method DropRegion(id: nat)
      requires Ok()
      modifies this
      ensures Ok() && Contents() == OtherIds(old(Contents()), id) && Shows(Others(), Contents())
    {
      hide TreeOk, RangesOk, RegionsOk, IndexIs, Items, OtherIds, Removed, Without, SubTreesOk, Removable;
      IndexTrees(Others(), Contents());
      HeldIds(Others(), Contents(), id);
      if id in regions.m { RemoveRegion(regions.m[id]); }
      OkShows();
    }

    /** What the stores' trees hold whenever the index is in step. */
    lemma OkShows()
      requires Ok()
      ensures Shows(Others(), Contents())
    {
      hide TreeOk, RangesOk, RegionsOk, MapOk, FamiliesHold, Shows;
      FamiliesShow(Others(), Contents());
    }

    // ---------- queries ----------

    /** What `GetRegion` finds by the id of a region taken from the tree. */
    lemma Known(x: Region)
      requires Ok() && x in Contents()
      ensures x.id in regions.m && regions.m[x.id] == x
    {
      hide TreeOk, FamilyAt, RangesOk, RegionOk, SizeOf, KeysOf;
    }

    /** `SearchRegion` (region.go:629-635): the region containing the key. */
    method SearchRegion(key: Bytes) returns (r: Option<Region>)
      requires Ok()
      ensures r.Some? ==> r.value in Contents()
      ensures forall x :: x in Contents() ==> (Contains(x, key) <==> r == Some(x))
    {
      hide Holds, Contains;
      r := Search(tree, key);
      if r.None? { return; }
      Known(r.value);
      r := Some(regions.m[r.value.id]);
    }

    /** `SearchPrevRegion` (region.go:638-644): the region that ends where the one containing the key starts. */
    method SearchPrevRegion(key: Bytes) returns (r: Option<Region>)
      requires Ok()
      ensures r.Some? ==> r.value in Contents()
      ensures forall x :: x in Contents() ==>
        (r == Some(x) <==> exists c :: c in Contents() && Contains(c, key) && x.end == c.start && c.start != [])
    {
      hide Holds, Contains;
      r := SearchPrev(tree, key);
      if r.None? { return; }
      Known(r.value);
      r := Some(regions.m[r.value.id]);
    }

    /** `ScanRange` (region.go:762-775): the regions that meet [start, end) in key order, the first `limit` of
        them if it is positive. */
    method ScanRange(start: Bytes, end: Bytes, limit: int) returns (res: seq<Region>)
      requires Ok()
      ensures res == First(Filter(x => Meets(x, start, end), Contents()), limit)
    {
      hide Holds, Meets, Filter, First, RangesOk, Valid, Lo, Overlaps, WithinScan;
      OkRanges(tree);
      var acc, ok := ScanFrom(tree, start, WithinScan(end, limit));
      ScanStop(Items(tree), start, end, limit);
      OverlapsAre(Items(tree), start, end);
      var found := if ok then acc else acc[..|acc| - 1];
      ghost var rest := Items(tree)[Lo(Items(tree), start)..];
      assert found == rest[..StopAt(WithinScan(end, limit), rest, 0)];
      res := [];
      for i := 0 to |found|
        invariant res == found[..i]
      {
        assert found[i] in rest;
        assert found[i] in Contents();
        Known(found[i]);
        res := res + [regions.m[found[i].id]];
      }
    }

    /** `GetAdjacentRegions` (region.go:784-795): the region that ends where the given one starts, and the next one
        to start behind its start if it starts where the given one ends. For a cached region that is what touches it. */
    method GetAdjacentRegions(region: Region) returns (prev: Option<Region>, next: Option<Region>)
      requires Ok()
      ensures forall x :: prev == Some(x) <==> x in Contents() && x.end == region.start && region.start != []
      ensures forall x :: next == Some(x) <==> IsNext(Contents(), region.start, x) && x.start == region.end
      ensures region in Contents() ==> forall x :: next == Some(x) <==> x in Contents() && x.start == region.end && region.end != []
    {
      hide Holds, RangesOk, Valid, Neighbours, IsNext;
      OkRanges(tree);
      var p, n := GetAdjacent(tree, region.start);
      forall x
        ensures Neighbours(Items(tree), region.start).0 == Some(x) && x.end == region.start <==> x in Contents() && x.end == region.start && region.start != []
        ensures Neighbours(Items(tree), region.start).1 == Some(x) <==> IsNext(Contents(), region.start, x)
        ensures region in Contents() ==> (IsNext(Contents(), region.start, x) && x.start == region.end <==>
          x in Contents() && x.start == region.end && region.end != [])
      {
        TouchingPrev(Items(tree), region.start, x);
        NextStarts(Items(tree), region.start, x);
        if region in Contents() { TouchingNext(Items(tree), region, x); }
      }
      prev, next := None, None;
      if p.Some? && p.value.end == region.start {
        Known(p.value);
        prev := Some(regions.m[p.value.id]);
      }
      if n.Some? && region.end == n.value.start {
        NextStarts(Items(tree), region.start, n.value);
        NextIn(Contents(), region.start, n.value);
        Known(n.value);
        next := Some(regions.m[n.value.id]);
      }
    }

    /** `GetStoreRegionCount` (region.go:706-728). With one peer per store it is the number of regions with a peer
        on the store. */
    method GetStoreRegionCount(store: nat) returns (count: nat)
      requires Ok()
      ensures count == |Filter(HasKind(Leader, store), Contents())| + |Filter(HasKind(Follower, store), Contents())|
                     + |Filter(HasKind(Learner, store), Contents())|
      ensures (forall x :: x in Contents() ==> OnePeerPerStore(x)) ==> count == |Filter(HasPeerOn(store), Contents())|
    {
      hide RangesOk, Valid, Items, Filter, HasPeerOn, HasKind, OnePeerPerStore, RegionOk, MapIs, SizeOf, KeysOf;
      var l, f, e := SubLength(leaders, store), SubLength(followers, store), SubLength(learners, store);
      RowsAre(leaders, Leader, Contents(), store);
      RowsAre(followers, Follower, Contents(), store);
      RowsAre(learners, Learner, Contents(), store);
      count := l + f + e;
      if forall x :: x in Contents() ==> OnePeerPerStore(x) {
        KindsPartition(Contents(), store);
      }
    }

    /** `GetRegionCount`, `TotalSize` and the key total (region.go:430-435, 701-703). */
    method Totals() returns (count: nat, size: int, keys: int)
      requires Ok()
      ensures count == |Contents()| && size == SizeOf(Contents()) && keys == KeysOf(Contents())
    {
      hide RangesOk, FamilyAt, Items;
      OkRanges(tree);
      MapCount(regions.m, Contents());
      count, size, keys := |regions.m|, regions.totalSize, regions.totalKeys;
    }
  }

  /** What is cached under an id can be removed. */
  lemma HeldIds(x: Index, s: seq<Region>, id: nat)
    requires IndexIs(x, s) && RangesOk(s) && RegionsOk(s)
    ensures id in x.regions.m ==> x.regions.m[id].id == id && Removable(s, x.regions.m[id])
    ensures id !in x.regions.m ==> OtherIds(s, id) == s
  {
    hide RangesOk, RegionOk, FamilyAt, SizeOf, KeysOf, OtherIds, Contains;
    if id in x.regions.m {
      var k := MappedAt(x.regions.m, s, id);
      OkRange(s[k]);
      ContainsStart(s[k]);
      forall z | z in s && z.id == id ensures z == s[k] {
      }
    } else {
      Unmapped(x.regions.m, s, id);
      OthersAll(s, id);
    }
  }

  /** With no other region of the id left there is nothing to object to. */
  lemma NoneLeft(s: seq<Region>, r: Region)
    ensures Addable(OtherIds(s, r.id), r)
  {
    hide Filter, Meets, Contains;
    forall y | y in OtherIds(s, r.id) ensures y.id != r.id { FilterIn((x: Region) => x.id != r.id, s, y); }
  }

  lemma NoneDropped(x: Index, r: Region)
    requires SubTreesOk(x)
    ensures Dropped(x.leaders, x.leaders, r, {}) && Dropped(x.followers, x.followers, r, {})
    ensures Dropped(x.learners, x.learners, r, {}) && Dropped(x.pending, x.pending, r, {})
  {
    hide TreeOk, Without, Row;
  }

  lemma RemovedTrees(x: Index, x': Index, r: Region)
    requires Removed(x, x', r)
    ensures SubTreesOk(x')
  {
    hide TreeOk, Without, Row, MapDelete;
  }

  /** The next overlapped region is where the map says. */
  lemma Overlapped(s: seq<Region>, lo: nat, k: nat, x: Index)
    requires RangesOk(s) && RegionsOk(s) && lo <= k < |s| && IndexIs(x, s[..lo] + s[k..])
    ensures var a, b := s[..lo], s[k+1..];
      && s[..lo] + s[k..] == a + [s[k]] + b && a + b == s[..lo] + s[k+1..]
      && Fits(a, s[k], b) && RegionOk(s[k]) && Contains(s[k], s[k].start)
      && s[k].id in x.regions.m && x.regions.m[s[k].id] == s[k]
  {
    hide RangesOk, RegionOk, FamilyAt, SizeOf, KeysOf, Fits, Contains;
    var a, b := s[..lo], s[k+1..];
    Regroup(s, lo, k);
    Mapped(x.regions.m, a, s[k], b);
    WithoutMiddle(s, lo, k);
    var c := a + [s[k]] + b;
    MemberFits(c, lo);
    assert c[..lo] == a && c[lo+1..] == b && c[lo] == s[k];
    OkRange(s[k]);
    ContainsStart(s[k]);
  }

  /** Adding a region to the trees of the stores its peers are on (region.go:589-608). */
  method AddTo(m: Family, ghost kind: Kind, region: Region, peers: seq<Peer>, ghost a: seq<Region>, ghost b: seq<Region>) returns (m': Family)
    requires Fits(a, region, b) && peers == PeersOf(kind, region) && FamilyAt(m, kind, a + b, a + [region] + b, {})
    ensures FamilyIs(m', kind, a + [region] + b)
  {
    hide FamilyAt, Fits, PeersOf;
    m' := m;
    StoresAll(peers);
    for i := 0 to |peers|
      invariant FamilyAt(m', kind, a + b, a + [region] + b, StoresOf(peers[..i]))
    {
      StoresStep(peers, i);
      m' := StoreIn(m', kind, peers[i].store, region, a, b, StoresOf(peers[..i]));
    }
    FamilyEnd(m', kind, a, region, b, true, StoresOf(peers));
  }

  lemma OkRange(r: Region)
    requires RegionOk(r)
    ensures WellFormed(r)
  {
  }

  lemma OkRanges(t: Tree<Region>)
    requires TreeOk(t)
    ensures RangesOk(Items(t))
  {
  }

  lemma Regroup(s: seq<Region>, lo: nat, k: nat)
    requires lo <= k < |s|
    ensures s[..lo] + s[k..] == s[..lo] + [s[k]] + s[k+1..]
    ensures s[..lo] + s[k+1..] == s[..lo] + s[k+1..][..|s| - k - 1]
  {
  }

  lemma Mapped(m: map<nat, Region>, a: seq<Region>, r: Region, b: seq<Region>)
    requires MapIs(m, a + [r] + b)
    ensures r.id in m && m[r.id] == r
  {
    assert (a + [r] + b)[|a|] == r;
  }

  lemma MappedAt(m: map<nat, Region>, s: seq<Region>, id: nat) returns (k: nat)
    requires MapIs(m, s) && RangesOk(s) && id in m
    ensures k < |s| && s[k] == m[id] && s[k].id == id && forall i :: 0 <= i < |s| && i != k ==> s[i].id != s[k].id
  {
    hide Lt;
    LtOrder();
    k :| 0 <= k < |s| && s[k] == m[id];
    forall i | 0 <= i < |s| && i != k ensures s[i].id != s[k].id {
      assert ByStart(s[if i < k then i else k], s[if i < k then k else i]);
    }
  }

  lemma Unmapped(m: map<nat, Region>, s: seq<Region>, id: nat)
    requires MapIs(m, s) && id !in m
    ensures forall i :: 0 <= i < |s| ==> s[i].id != id
  {
  }

  /** Taking an overlapped region out of the updated tree finds it gone, but may find the new one for it. */
  lemma UpdatedApart(s: seq<Region>, r: Region, k: nat)
    requires RangesOk(s) && WellFormed(r) && k < |s| && Lo(s, r.start) <= k < Hi(s, r.end)
    ensures Without(Updated(s, r), s[k]) == if Unseats(s[k], r) then Rest(s, r) else Updated(s, r)
  {
    hide Lt, Lo, Hi, RangesOk, Without, Fits, WellFormed, Contains;
    UpdatedFits(s, r);
    var lo, hi := Lo(s, r.start), Hi(s, r.end);
    var a, b, t := s[..lo], s[hi..], Updated(s, r);
    if Unseats(s[k], r) {
      RowOf(a, r, b, s[k]);
    } else {
      forall i | 0 <= i < |t| && Contains(t[i], s[k].start) ensures t[i].id != s[k].id {
        if i != lo { OthersClear(s, k, if i < lo then i else i - lo - 1 + hi); }
      }
      WithoutAbsent(t, s[k]);
    }
  }

  lemma RowOf(a: seq<Region>, r: Region, b: seq<Region>, y: Region)
    requires Fits(a, r, b) && Unseats(y, r)
    ensures Without(a + [r] + b, y) == a + b
  {
    hide FindIn, StartsUpTo, Fits, Contains;
    FitsFound(a, r, b, y.start);
  }

  lemma RestApart(s: seq<Region>, r: Region, k: nat)
    requires RangesOk(s) && k < |s| && Lo(s, r.start) <= k < Hi(s, r.end)
    ensures Without(Rest(s, r), s[k]) == Rest(s, r)
  {
    hide Lt, Lo, Hi, RangesOk, Without, Contains;
    var lo, hi, t := Lo(s, r.start), Hi(s, r.end), Rest(s, r);
    WindowIs(s, r.start, r.end);
    forall i | 0 <= i < |t| ensures !Contains(t[i], s[k].start) {
      OthersClear(s, k, if i < lo then i else i - lo + hi);
    }
    WithoutAbsent(t, s[k]);
  }

  /** No other region of the row contains the start key of one. */
  lemma OthersClear(s: seq<Region>, k: nat, j: nat)
    requires RangesOk(s) && k < |s| && j < |s| && j != k
    ensures !Contains(s[j], s[k].start)
  {
    hide Lt;
    LtOrder();
    assert j < k ==> Clear(s[j], s[k]);
    assert j > k ==> ByStart(s[k], s[j]);
  }

  lemma KeptFirst(s: seq<Region>, r: Region)
    ensures Kept(s, r, Lo(s, r.start)) == Updated(s, r)
  {
  }

  lemma UpdatedFits(s: seq<Region>, r: Region)
    requires RangesOk(s) && WellFormed(r)
    ensures Lo(s, r.start) <= Hi(s, r.end) <= |s|
    ensures Fits(s[..Lo(s, r.start)], r, s[Hi(s, r.end)..])
  {
    hide Lt, Lo, Hi, RangesOk;
    LoHi(s, r);
    WithoutMiddle(s, Lo(s, r.start), Hi(s, r.end));
    Sides(s, r);
  }

  lemma AddedOk(a: seq<Region>, r: Region, b: seq<Region>)
    requires RegionOk(r) && forall i :: 0 <= i < |a + b| ==> RegionOk((a + b)[i])
    ensures forall i :: 0 <= i < |a + [r] + b| ==> RegionOk((a + [r] + b)[i])
  {
    hide RegionOk;
    forall i | 0 <= i < |a + [r] + b| ensures RegionOk((a + [r] + b)[i]) {
      if i != |a| { assert (a + [r] + b)[i] == (a + b)[if i < |a| then i else i - 1]; }
    }
  }

  // ---------- the row without an id ----------

  function OtherIds(s: seq<Region>, id: nat): seq<Region> {
    Filter((x: Region) => x.id != id, s)
  }

  lemma OthersAll(s: seq<Region>, id: nat)
    requires forall i :: 0 <= i < |s| ==> s[i].id != id
    ensures OtherIds(s, id) == s
  {
    FilterAll((x: Region) => x.id != id, s);
  }

  lemma OthersWithout(s: seq<Region>, k: nat)
    requires k < |s| && forall i :: 0 <= i < |s| && i != k ==> s[i].id != s[k].id
    ensures OtherIds(s, s[k].id) == s[..k] + s[k+1..]
  {
    hide Filter;
    var p := (x: Region) => x.id != s[k].id;
    assert s == s[..k] + ([s[k]] + s[k+1..]);
    FilterConcat(p, s[..k], [s[k]] + s[k+1..]);
    FilterConcat(p, [s[k]], s[k+1..]);
    FilterOne(p, s[k]);
    FilterAll(p, s[..k]);
    FilterAll(p, s[k+1..]);
  }

  // ---------- scans ----------

  function First(s: seq<Region>, limit: int): seq<Region> {
    if 0 < limit <= |s| then s[..limit] else s
  }

  /** The callback of `ScanRange`. */
  function WithinScan(end: Bytes, limit: int): (seq<Region>, Region) -> bool {
    (acc: seq<Region>, x: Region) => !(end != [] && Le(end, x.start)) && !(limit > 0 && |acc| >= limit)
  }

  lemma ScanStop(s: seq<Region>, start: Bytes, end: Bytes, limit: int)
    requires RangesOk(s)
    ensures Lo(s, start) <= |s|
    ensures var rest := s[Lo(s, start)..];
      rest[..StopAt(WithinScan(end, limit), rest, 0)] == First(Overlaps(s, start, end), limit)
  {
    hide Lt, Lo, Hi, RangesOk, Overlaps;
    OverlapStop(s, start, end);
    var rest := s[Lo(s, start)..];
    var o := StopAt(Overlapping(end), rest, 0);
    var k := if 0 < limit <= o then limit else o;
    forall j | 0 <= j < k ensures WithinScan(end, limit)(rest[..j], rest[j]) {
      assert Overlapping(end)(rest[..j], rest[j]);
    }
    StopUnique(WithinScan(end, limit), rest, 0, k);
  }

  // ---------- counts ----------

  ghost predicate OnePeerPerStore(r: Region) {
    forall i, j :: 0 <= i < j < |r.peers| ==> r.peers[i].store != r.peers[j].store
  }

  ghost function HasPeerOn(store: nat): Region -> bool {
    (r: Region) => store in StoresOf(r.peers)
  }

  /** `regionSubTree.length` of a store's tree, 0 without one. */
  function SubLength(m: Family, store: nat): int {
    if store in m then m[store].tree.length else 0
  }

  lemma RowsAre(m: Family, kind: Kind, b: seq<Region>, store: nat)
    requires FamilyIs(m, kind, b)
    ensures SubLength(m, store) == |Filter(HasKind(kind, store), b)|
  {
    hide Filter, HasKind;
    assert Row(m, store) == Filter(HasKind(kind, store), b);
  }

  /** A peer is the leader's, a follower's or a learner's. */
  lemma OneKind(r: Region, store: nat)
    requires OnePeerPerStore(r)
    ensures HasPeerOn(store)(r) <==> HasKind(Leader, store)(r) || HasKind(Follower, store)(r) || HasKind(Learner, store)(r)
    ensures !(HasKind(Leader, store)(r) && HasKind(Follower, store)(r))
    ensures !(HasKind(Leader, store)(r) && HasKind(Learner, store)(r))
    ensures !(HasKind(Follower, store)(r) && HasKind(Learner, store)(r))
  {
    hide HasKind;
    KindMeans(r, store);
    InStores(r.peers, store);
    forall p: Peer, q: Peer | p in r.peers && q in r.peers && p.store == q.store ensures p == q {
    }
  }

  lemma {:induction false} KindsPartition(s: seq<Region>, store: nat)
    requires forall x :: x in s ==> OnePeerPerStore(x)
    ensures |Filter(HasPeerOn(store), s)|
         == |Filter(HasKind(Leader, store), s)| + |Filter(HasKind(Follower, store), s)| + |Filter(HasKind(Learner, store), s)|
  {
    hide HasKind, HasPeerOn, OnePeerPerStore;
    if s != [] {
      assert s[0] in s;
      OneKind(s[0], store);
      assert forall x :: x in s[1..] ==> x in s;
      KindsPartition(s[1..], store);
    }
  }

  /** As many ids as regions. */
  lemma {:induction false} MapCount(m: map<nat, Region>, s: seq<Region>)
    requires MapIs(m, s) && RangesOk(s)
    ensures |m| == |s|
    decreases |s|
  {
    hide RangesOk, MapIs;
    if s == [] {
      NoneMapped(m);
    } else {
      RangesTail(s);
      MapTail(m, s);
      OneLess(m, s[0].id);
      MapCount(m - {s[0].id}, s[1..]);
    }
  }

  lemma NoneMapped(m: map<nat, Region>)
    requires MapIs(m, [])
    ensures |m| == 0
  {
    assert m.Keys == {};
  }

  lemma OneLess(m: map<nat, Region>, id: nat)
    requires id in m
    ensures |m| == |m - {id}| + 1
  {
    assert m.Keys == (m - {id}).Keys + {id};
  }

  lemma MapTail(m: map<nat, Region>, s: seq<Region>)
    requires MapIs(m, s) && RangesOk(s) && s != []
    ensures s[0].id in m && MapIs(m - {s[0].id}, s[1..])
  {
    hide RangesOk, SizeOf, KeysOf, Fits;
    var r, rest := s[0], s[1..];
    assert s == [] + [r] + rest && rest == [] + rest && s[..0] == [];
    MemberFits(s, 0);
    DeleteOld(RegionMap(m, SizeOf(s), KeysOf(s)), [], r, rest);
  }

  // ---------- what a set changes ----------

  /** The regions that stay are those with another id and nothing in common with the new one. */
  lemma SetMeans(s: seq<Region>, r: Region, x: Region)
    requires RangesOk(s) && WellFormed(r)
    ensures RangesOk(OtherIds(s, r.id)) && RangesOk(Updated(OtherIds(s, r.id), r))
    ensures x in Updated(OtherIds(s, r.id), r) <==> x == r || (x in s && x.id != r.id && !Intersects(x, r))
    ensures x in Overlaps(OtherIds(s, r.id), r.start, r.end) <==> x in s && x.id != r.id && Intersects(x, r)
  {
    hide Lt, Filter, RangesOk, Intersects, Meets, Lo, Hi, WellFormed;
    var p := (x: Region) => x.id != r.id;
    FilterRanges(p, s);
    FilterIn(p, s, x);
    var t := OtherIds(s, r.id);
    UpdatedOk(t, r);
    WindowIs(t, r.start, r.end);
    if x in t {
      MemberWellFormed(t, x);
      MeetsIsIntersects(x, r);
    }
    SliceIn(t, Lo(t, r.start), Hi(t, r.end), x);
    InMiddle(t[..Lo(t, r.start)], r, t[Hi(t, r.end)..], x);
  }

  lemma MemberWellFormed(s: seq<Region>, x: Region)
    requires RangesOk(s) && x in s
    ensures WellFormed(x)
  {
  }

  lemma SliceIn(s: seq<Region>, lo: nat, hi: nat, x: Region)
    requires lo <= hi <= |s|
    ensures x in s[lo..hi] <==> exists i :: lo <= i < hi && s[i] == x
    ensures x in s[..lo] + s[hi..] <==> exists i :: 0 <= i < |s| && !(lo <= i < hi) && s[i] == x
  {
    var a := s[..lo] + s[hi..];
    if i :| 0 <= i < |s| && !(lo <= i < hi) && s[i] == x {
      assert a[if i < lo then i else i - hi + lo] == x;
    }
    if i :| lo <= i < hi && s[i] == x {
      assert s[lo..hi][i - lo] == x;
    }
    if x in a {
      var j :| 0 <= j < |a| && a[j] == x;
      assert s[if j < lo then j else j - lo + hi] == x;
    }
  }
}
