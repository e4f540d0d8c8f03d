/** The rows that `RegionsInfo` keeps beside its main tree: one per store and kind of peer. Each is the main row
    filtered, and the edits of the trees commute with the filter. */
module RegionIndex {
  import opened SortedSeq
  import opened Bytes
  import opened Regions

  // ---------- which regions a store's row has ----------

  datatype Kind = Leader | Follower | Learner | Pending

  /** `GetVoters` (region.go:61-73, 144-146). */
  function Voters(r: Region): seq<Peer> {
    Filter((p: Peer) => !p.learner, r.peers)
  }

  function Learners(r: Region): seq<Peer> {
    Filter((p: Peer) => p.learner, r.peers)
  }

  /** The peers that put a region into the rows of a kind (region.go:567-608). */
  function PeersOf(kind: Kind, r: Region): seq<Peer> {
    match kind
    case Leader => Filter((p: Peer) => p.id == r.leader, Voters(r))
    case Follower => Filter((p: Peer) => p.id != r.leader, Voters(r))
    case Learner => Learners(r)
    case Pending => r.pending
  }

  ghost function StoresOf(ps: seq<Peer>): set<nat> {
    set p | p in ps :: p.store
  }

  ghost function HasKind(kind: Kind, store: nat): Region -> bool {
    (r: Region) => store in StoresOf(PeersOf(kind, r))
  }

  /** The region's leader is on the store: a voter with the leader's id. */
  ghost predicate LeaderOn(r: Region, store: nat) {
    exists p :: p in r.peers && p.store == store && !p.learner && p.id == r.leader
  }

  ghost predicate FollowerOn(r: Region, store: nat) {
    exists p :: p in r.peers && p.store == store && !p.learner && p.id != r.leader
  }

  ghost predicate LearnerOn(r: Region, store: nat) {
    exists p :: p in r.peers && p.store == store && p.learner
  }

  ghost predicate PendingOn(r: Region, store: nat) {
    exists p :: p in r.pending && p.store == store
  }

  /** Which peers put a region into which rows. */
  lemma KindMeans(r: Region, store: nat)
    ensures HasKind(Leader, store)(r) <==> LeaderOn(r, store)
    ensures HasKind(Follower, store)(r) <==> FollowerOn(r, store)
    ensures HasKind(Learner, store)(r) <==> LearnerOn(r, store)
    ensures HasKind(Pending, store)(r) <==> PendingOn(r, store)
  {
    hide Filter;
    forall p: Peer
      ensures p in PeersOf(Leader, r) <==> p in r.peers && !p.learner && p.id == r.leader
      ensures p in PeersOf(Follower, r) <==> p in r.peers && !p.learner && p.id != r.leader
      ensures p in PeersOf(Learner, r) <==> p in r.peers && p.learner
    {
      FilterIn((p: Peer) => !p.learner, r.peers, p);
      FilterIn((p: Peer) => p.learner, r.peers, p);
      FilterIn((p: Peer) => p.id == r.leader, Voters(r), p);
      FilterIn((p: Peer) => p.id != r.leader, Voters(r), p);
    }
    InStores(PeersOf(Leader, r), store);
    InStores(PeersOf(Follower, r), store);
    InStores(PeersOf(Learner, r), store);
    InStores(PeersOf(Pending, r), store);
  }

  lemma InStores(ps: seq<Peer>, store: nat)
    ensures store in StoresOf(ps) <==> exists p :: p in ps && p.store == store
  {
  }

  lemma {:induction false} FilterSame(p: Region -> bool, q: Region -> bool, s: seq<Region>)
    requires forall r :: p(r) == q(r)
    ensures Filter(p, s) == Filter(q, s)
  {
    if s != [] { FilterSame(p, q, s[1..]); }
  }

  /** What a region must satisfy to be removable again: its pending peers sit on stores of its peers. */
  ghost predicate RegionOk(r: Region) {
    WellFormed(r) && StoresOf(r.pending) <= StoresOf(r.peers)
  }

  /** Only a region with a peer on the store is in any of its rows. */
  lemma KindHasPeer(kind: Kind, r: Region, store: nat)
    requires RegionOk(r) && HasKind(kind, store)(r)
    ensures store in StoresOf(r.peers)
  {
    hide HasKind, WellFormed;
    KindMeans(r, store);
    InStores(r.peers, store);
    InStores(r.pending, store);
  }

  // ---------- edits commute with the filter ----------

  lemma FilterRanges(p: Region -> bool, s: seq<Region>)
    requires RangesOk(s)
    ensures RangesOk(Filter(p, s))
    decreases |s|
  {
    hide Lt, Clear, WellFormed;
    if s != [] {
      var a, rest := s[0], s[1..];
      RangesTail(s);
      FilterRanges(p, rest);
      var f := Filter(p, rest);
      forall i | 0 <= i < |f| ensures Clear(a, f[i]) {
        FilterIn(p, rest, f[i]);
        var j :| 0 <= j < |rest| && rest[j] == f[i];
        assert s[j + 1] == rest[j];
      }
      if p(a) { RangesFront(a, f); }
    }
  }

  lemma RangesTail(s: seq<Region>)
    requires RangesOk(s) && s != []
    ensures RangesOk(s[1..])
  {
    WithoutMiddle(s, 0, 1);
    assert s[..0] + s[1..] == s[1..];
  }

  lemma RangesFront(a: Region, s: seq<Region>)
    requires RangesOk(s) && WellFormed(a) && forall i :: 0 <= i < |s| ==> Clear(a, s[i])
    ensures RangesOk([a] + s)
  {
    assert [] + s == s && [] + [a] + s == [a] + s;
    PlaceOk([], a, s);
  }

  /** `a` before, `b` behind, `r` clear of both. */
  ghost predicate Fits(a: seq<Region>, r: Region, b: seq<Region>) {
    && RangesOk(a + b)
    && WellFormed(r)
    && (forall i :: 0 <= i < |a| ==> Clear(a[i], r))
    && (forall i :: 0 <= i < |b| ==> Clear(r, b[i]))
  }

  lemma FilterFits(p: Region -> bool, a: seq<Region>, r: Region, b: seq<Region>)
    requires Fits(a, r, b)
    ensures Fits(Filter(p, a), r, Filter(p, b))
    ensures Filter(p, a + b) == Filter(p, a) + Filter(p, b)
    ensures Filter(p, a + [r] + b) == if p(r) then Filter(p, a) + [r] + Filter(p, b) else Filter(p, a) + Filter(p, b)
  {
    hide Lt, Clear, WellFormed, Filter, RangesOk;
    FilterConcat(p, a, b);
    FilterRanges(p, a + b);
    FilterConcat(p, a + [r], b);
    FilterConcat(p, a, [r]);
    FilterOne(p, r);
    forall i | 0 <= i < |Filter(p, a)| ensures Clear(Filter(p, a)[i], r) {
      FilterIn(p, a, Filter(p, a)[i]);
    }
    forall i | 0 <= i < |Filter(p, b)| ensures Clear(r, Filter(p, b)[i]) {
      FilterIn(p, b, Filter(p, b)[i]);
    }
    assert Filter(p, a) + [] == Filter(p, a);
  }

  predicate Below(i: int, k: int) {
    i < k
  }

  lemma Pin(n: nat, k: nat, m: nat)
    requires k <= n && m <= n && forall i :: 0 <= i < n ==> (Below(i, k) <==> Below(i, m))
    ensures k == m
  {
    assert k < n ==> (Below(k, k) <==> Below(k, m));
    assert m < n ==> (Below(m, k) <==> Below(m, m));
  }

  /** Between the two sides nothing contains a key of the region, and the place is theirs. */
  lemma FitsFind(a: seq<Region>, r: Region, b: seq<Region>, key: Bytes)
    requires Fits(a, r, b) && Contains(r, key)
    ensures FindIn(a + b, key) == None
    ensures Updated(a + b, r) == a + [r] + b
  {
    hide Lt, Lo, Hi, FindIn, StartsUpTo;
    LtOrder();
    var c := a + b;
    FindInOk(c, key);
    LoIs(c, r.start);
    HiIs(c, r.end);
    forall i {:trigger Below(i, |a|)} | 0 <= i < |c|
      ensures (Below(i, Lo(c, r.start)) <==> Below(i, |a|)) && (Below(i, Hi(c, r.end)) <==> Below(i, |a|)) && !Contains(c[i], key)
    {
      assert WellFormed(c[i]);
      if i < |a| { assert c[i] == a[i]; } else { assert c[i] == b[i - |a|]; }
    }
    Pin(|c|, Lo(c, r.start), |a|);
    Pin(|c|, Hi(c, r.end), |a|);
    FoundMember(c, key);
  }

  lemma FoundMember(s: seq<Region>, key: Bytes)
    requires RangesOk(s)
    ensures FindIn(s, key).Some? ==> exists i :: 0 <= i < |s| && s[i] == FindIn(s, key).value && Contains(s[i], key)
  {
    hide Lt, StartsUpTo;
    StartsUpToBound(s, key);
  }

  lemma FitsFound(a: seq<Region>, r: Region, b: seq<Region>, key: Bytes)
    requires Fits(a, r, b) && Contains(r, key)
    ensures RangesOk(a + [r] + b)
    ensures FindIn(a + [r] + b, key) == Some(r) && StartsUpTo(a + [r] + b, key) == |a| + 1
  {
    hide Lt, FindIn, StartsUpTo, RangesOk, Contains;
    PlaceOk(a, r, b);
    var c := a + [r] + b;
    assert c[|a|] == r;
    FindInOk(c, key);
  }

  lemma ContainsStart(r: Region)
    requires WellFormed(r)
    ensures Contains(r, r.start)
  {
    hide Lt;
    LtOrder();
  }

  /** What `regionSubTree.update` does to a row (region.go:470-480): the region found at the start key is
      overwritten, otherwise the region is put in. */
  function Stored(s: seq<Region>, r: Region): seq<Region> {
    if FindIn(s, r.start).Some? && 0 < StartsUpTo(s, r.start) <= |s| then s[StartsUpTo(s, r.start) - 1 := r] else Updated(s, r)
  }

  /** Storing a region that fits, once or again, stores it in the filtered row. */
  lemma StoreInRow(p: Region -> bool, a: seq<Region>, r: Region, b: seq<Region>, again: bool)
    requires Fits(a, r, b) && p(r)
    ensures Stored(Filter(p, if again then a + [r] + b else a + b), r) == Filter(p, a + [r] + b)
  {
    hide Lt, Filter, FindIn, StartsUpTo, Updated, RangesOk, Contains;
    FilterFits(p, a, r, b);
    ContainsStart(r);
    var fa, fb := Filter(p, a), Filter(p, b);
    if again {
      FitsFound(fa, r, fb, r.start);
      assert (fa + [r] + fb)[|fa| := r] == fa + [r] + fb;
    } else {
      FitsFind(fa, r, fb, r.start);
    }
  }

  /** Removing a region takes the one with its id out of any row, if that contains its start key. */
  lemma RemoveFromRow(p: Region -> bool, a: seq<Region>, y: Region, b: seq<Region>, r: Region)
    requires Fits(a, y, b) && y.id == r.id && Contains(y, r.start)
    ensures Without(Filter(p, a + [y] + b), r) == Filter(p, a + b)
  {
    hide Lt, Filter, FindIn, StartsUpTo, Updated, RangesOk, Contains;
    FilterFits(p, a, y, b);
    var fa, fb := Filter(p, a), Filter(p, b);
    if p(y) {
      FitsFound(fa, y, fb, r.start);
      assert DelAt(fa + [y] + fb, |fa|) == fa + fb;
    } else {
      FitsFind(fa, y, fb, r.start);
    }
  }

  lemma WithoutAbsent(s: seq<Region>, r: Region)
    requires forall i :: 0 <= i < |s| && Contains(s[i], r.start) ==> s[i].id != r.id
    ensures Without(s, r) == s
  {
    hide StartsUpTo, Contains;
  }

  lemma WithoutTwice(s: seq<Region>, r: Region)
    requires RangesOk(s)
    ensures RangesOk(Without(s, r)) && Without(Without(s, r), r) == Without(s, r)
  {
    hide Lt, FindIn, StartsUpTo, RangesOk, Contains;
    var t := Without(s, r);
    FindInOk(s, r.start);
    StartsUpToBound(s, r.start);
    if t != s {
      var k := StartsUpTo(s, r.start) - 1;
      MemberFits(s, k);
      FitsFind(s[..k], s[k], s[k+1..], r.start);
      FitsRange(s[..k], s[k], s[k+1..]);
    }
  }

  lemma FitsRange(a: seq<Region>, r: Region, b: seq<Region>)
    requires Fits(a, r, b)
    ensures RangesOk(a + b)
  {
  }

  /** A region of a disjoint row fits in its place. */
  lemma MemberFits(s: seq<Region>, i: nat)
    requires RangesOk(s) && i < |s|
    ensures s[..i] + [s[i]] + s[i+1..] == s && DelAt(s, i) == s[..i] + s[i+1..]
    ensures Fits(s[..i], s[i], s[i+1..])
  {
    hide Lt, WellFormed, Clear, ByStart;
    WithoutMiddle(s, i, i + 1);
  }

  // ---------- sums ----------

  function SizeOf(s: seq<Region>): int {
    if s == [] then 0 else s[0].size + SizeOf(s[1..])
  }

  function KeysOf(s: seq<Region>): int {
    if s == [] then 0 else s[0].keys + KeysOf(s[1..])
  }

  lemma {:induction false} SumsConcat(a: seq<Region>, b: seq<Region>)
    ensures SizeOf(a + b) == SizeOf(a) + SizeOf(b)
    ensures KeysOf(a + b) == KeysOf(a) + KeysOf(b)
  {
    if a == [] {
      assert a + b == b;
    } else {
      assert (a + b)[1..] == a[1..] + b;
      SumsConcat(a[1..], b);
    }
  }

  lemma SumsMiddle(a: seq<Region>, r: Region, b: seq<Region>)
    ensures SizeOf(a + [r] + b) == SizeOf(a + b) + r.size
    ensures KeysOf(a + [r] + b) == KeysOf(a + b) + r.keys
  {
    SumsConcat(a + [r], b);
    SumsConcat(a, [r]);
    SumsConcat(a, b);
  }
}
