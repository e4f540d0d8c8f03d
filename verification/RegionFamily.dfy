/** server/core/region.go: the trees that `RegionsInfo` keeps for every store, of the regions it has a leader,
    follower, learner or pending peer of. */
module RegionFamily {
  import opened SortedSeq
  import opened Bytes
  import opened Regions
  import opened BTree
  import opened BTreeAssign
  import opened BTreeNode
  import opened RegionIndex
  import opened RegionTree
  import BTreeQuery

  // ---------- regionSubTree ----------

  datatype SubTree = SubTree(tree: Tree<Region>, totalSize: int, totalKeys: int)

  /** Overwriting the region found at the start key keeps the row sorted. */
  lemma OverwriteSorted(s: seq<Region>, r: Region)
    requires RangesOk(s) && FindIn(s, r.start).Some?
    ensures 0 < StartsUpTo(s, r.start) <= |s|
    ensures FindIn(s, r.start).value == s[StartsUpTo(s, r.start) - 1]
    ensures Sorted(ByStart, s[StartsUpTo(s, r.start) - 1 := r])
  {
    hide Lt, StartsUpTo;
    LtOrder();
    StartsUpToBound(s, r.start);
    var k := StartsUpTo(s, r.start) - 1;
    var t := s[k := r];
    forall i, j | 0 <= i < j < |t| ensures ByStart(t[i], t[j]) {
      assert ByStart(s[i], s[j]) && Clear(s[i], s[j]) && WellFormed(s[i]) && WellFormed(s[j]);
    }
  }

  /** `regionSubTree.update`. */
  method UpdateSub(t: SubTree, region: Region) returns (t': SubTree)
    requires TreeOk(t.tree) && WellFormed(region)
    ensures Valid(ByStart, t'.tree) && Items(t'.tree) == Stored(Items(t.tree), region)
    ensures var x := FindIn(Items(t.tree), region.start);
      && t'.totalSize == t.totalSize + region.size - (if x.Some? then x.value.size else 0)
      && t'.totalKeys == t.totalKeys + region.keys - (if x.Some? then x.value.keys else 0)
  {
    hide Lt, FindIn, Updated, RangesOk, Valid, Items, Height, Shape, Assign, StrictWeakOrder;
    ghost var s := Items(t.tree);
    var x := FindRegion(t.tree, region.start);
    if x.Some? {
      OverwriteSorted(s, region);
      ghost var k := StartsUpTo(s, region.start) - 1;
      var (found, index) := BTreeQuery.GetWithIndex(ByStart, t.tree, x.value);
      PlaceOf(t.tree, k);
      AssignOk(ByStart, t.tree, k, region);
      return SubTree(Assign(t.tree, index, region), t.totalSize + region.size - x.value.size, t.totalKeys + region.keys - x.value.keys);
    }
    var tree, overlaps := Update(t.tree, region);
    t' := SubTree(tree, t.totalSize + region.size, t.totalKeys + region.keys);
  }

  lemma PlaceOf(t: Tree<Region>, k: nat)
    requires TreeOk(t) && k < |Items(t)|
    ensures BTreeQuery.GetWithIndex(ByStart, t, Items(t)[k]).1 == k
  {
    hide Lt, RangesOk, Valid, Items, StrictWeakOrder, Find, Get, BTreeQuery.GetWithIndex;
    ByStartOrder();
    BTreeQuery.GetWithIndexOk(ByStart, t, Items(t)[k]);
    SortedOf(Items(t));
    SelfFind(Items(t), k);
  }

  /** `regionSubTree.remove`: the totals stay what they were. */
  method RemoveSub(t: SubTree, region: Region) returns (t': SubTree)
    requires TreeOk(t.tree)
    ensures TreeOk(t'.tree) && Items(t'.tree) == Without(Items(t.tree), region)
    ensures t'.totalSize == t.totalSize && t'.totalKeys == t.totalKeys
  {
    hide Lt, RangesOk, Valid, Items, FindIn;
    LengthIs(t.tree);
    NothingFound(region.start);
    if t.tree.length == 0 { return t; }
    var tree := RemoveFrom(t.tree, region);
    t' := t.(tree := tree);
  }

  // ---------- the trees of one kind ----------

  type Family = map<nat, SubTree>

  function Row(m: Family, store: nat): seq<Region> {
    if store in m then Items(m[store].tree) else []
  }

  /** The rows of the stores in `done` are those of `b2`, the others those of `b`. */
  ghost predicate FamilyAt(m: Family, kind: Kind, b: seq<Region>, b2: seq<Region>, done: set<nat>) {
    && (forall st :: st in m ==> Valid(ByStart, m[st].tree))
    && (forall st :: Row(m, st) == Filter(HasKind(kind, st), if st in done then b2 else b))
  }

  ghost predicate FamilyIs(m: Family, kind: Kind, b: seq<Region>) {
    FamilyAt(m, kind, b, b, {})
  }

  lemma FamilyStart(m: Family, kind: Kind, b: seq<Region>, b2: seq<Region>)
    requires FamilyIs(m, kind, b)
    ensures FamilyAt(m, kind, b, b2, {})
  {
    hide Filter, HasKind, Valid, Row;
  }

  lemma FamilySet(m: Family, kind: Kind, b: seq<Region>, b2: seq<Region>, done: set<nat>, store: nat, t: SubTree)
    requires FamilyAt(m, kind, b, b2, done)
    requires Valid(ByStart, t.tree) && Items(t.tree) == Filter(HasKind(kind, store), b2)
    ensures FamilyAt(m[store := t], kind, b, b2, done + {store})
  {
    hide Filter, HasKind, Valid, Items;
    forall st ensures Row(m[store := t], st) == Filter(HasKind(kind, st), if st in done + {store} then b2 else b) {
      assert st != store ==> Row(m[store := t], st) == Row(m, st);
    }
  }

  /** A store that was not visited has no such peer of the region. */
  lemma FamilyEnd(m: Family, kind: Kind, a: seq<Region>, r: Region, b: seq<Region>, add: bool, done: set<nat>)
    requires Fits(a, r, b)
    requires if add then FamilyAt(m, kind, a + b, a + [r] + b, done) else FamilyAt(m, kind, a + [r] + b, a + b, done)
    requires forall st :: st !in done ==> !HasKind(kind, st)(r)
    ensures FamilyIs(m, kind, if add then a + [r] + b else a + b)
  {
    hide Filter, HasKind, Valid, Row, Fits;
    forall st | st !in done ensures Filter(HasKind(kind, st), a + [r] + b) == Filter(HasKind(kind, st), a + b) {
      FilterFits(HasKind(kind, st), a, r, b);
    }
  }

  lemma RowRanges(m: Family, kind: Kind, b: seq<Region>, b2: seq<Region>, done: set<nat>, store: nat)
    requires FamilyAt(m, kind, b, b2, done) && RangesOk(b) && RangesOk(b2)
    ensures RangesOk(Row(m, store)) && Row(m, store) == Filter(HasKind(kind, store), if store in done then b2 else b)
    ensures store in m ==> TreeOk(m[store].tree)
  {
    hide Filter, HasKind, Valid, RangesOk;
    FilterRanges(HasKind(kind, store), if store in done then b2 else b);
  }

  lemma FitsRanges(a: seq<Region>, r: Region, b: seq<Region>)
    requires Fits(a, r, b)
    ensures RangesOk(a + b) && RangesOk(a + [r] + b)
  {
    hide RangesOk, Clear, WellFormed;
    PlaceOk(a, r, b);
  }

  /** Adds the region to the tree of one store (region.go:570-585). */
  method StoreIn(m: Family, ghost kind: Kind, store: nat, region: Region, ghost a: seq<Region>, ghost b: seq<Region>, ghost done: set<nat>)
    returns (m': Family)
    requires Fits(a, region, b) && HasKind(kind, store)(region) && FamilyAt(m, kind, a + b, a + [region] + b, done)
    ensures FamilyAt(m', kind, a + b, a + [region] + b, done + {store})
  {
    hide Filter, HasKind, FamilyAt, RangesOk, Stored, Valid, Items, Fits;
    FitsRanges(a, region, b);
    RowRanges(m, kind, a + b, a + [region] + b, done, store);
    var t := if store in m then m[store] else SubTree(NewTree(), 0, 0);
    FitsWf(a, region, b);
    var t' := UpdateSub(t, region);
    StoreInRow(HasKind(kind, store), a, region, b, store in done);
    FamilySet(m, kind, a + b, a + [region] + b, done, store, t');
    m' := m[store := t'];
  }

  lemma FitsWf(a: seq<Region>, r: Region, b: seq<Region>)
    requires Fits(a, r, b)
    ensures WellFormed(r)
  {
  }

  ghost predicate TreesOk(m: Family) {
    forall st :: st in m ==> TreeOk(m[st].tree)
  }

  /** The rows of `stores` are without the region, the others as they were. */
  ghost predicate Dropped(m: Family, m': Family, r: Region, stores: set<nat>) {
    TreesOk(m') && forall st :: Row(m', st) == if st in stores then Without(Row(m, st), r) else Row(m, st)
  }

  /** Removes the region from the tree of one store, if there is one (region.go:619-625). */
  method DropFrom(m: Family, store: nat, region: Region, ghost was: Family, ghost done: set<nat>) returns (m': Family)
    requires TreesOk(was) && Dropped(was, m, region, done)
    ensures Dropped(was, m', region, done + {store})
  {
    hide TreeOk, Without, Items;
    WithoutNothing(region);
    RowOk(was, store);
    WithoutTwice(Row(was, store), region);
    m' := m;
    if store in m {
      var t := RemoveSub(m[store], region);
      m' := m[store := t];
      forall st | st != store ensures Row(m', st) == Row(m, st) {
      }
    }
  }

  lemma RowOk(m: Family, store: nat)
    requires TreesOk(m)
    ensures RangesOk(Row(m, store))
  {
    hide Items, Valid;
  }

  /** Dropping the region with an id takes it out of the rows of a kind exactly if all stores that have it are visited. */
  lemma DroppedIff(m: Family, m': Family, kind: Kind, a: seq<Region>, y: Region, b: seq<Region>, r: Region, stores: set<nat>)
    requires FamilyIs(m, kind, a + [y] + b) && Fits(a, y, b) && y.id == r.id && Contains(y, r.start)
    requires Dropped(m, m', r, stores)
    ensures FamilyIs(m', kind, a + b) <==> forall st :: HasKind(kind, st)(y) ==> st in stores
  {
    hide Filter, HasKind, Valid, Fits, Without, Items, Contains, RangesOk, Row;
    forall st ensures Row(m', st) == Filter(HasKind(kind, st), a + b) <==> (HasKind(kind, st)(y) ==> st in stores) {
      FilterFits(HasKind(kind, st), a, y, b);
      RemoveFromRow(HasKind(kind, st), a, y, b, r);
    }
  }

  /** Dropping a region whose id is not there changes nothing. */
  lemma DroppedNone(m: Family, m': Family, kind: Kind, s: seq<Region>, r: Region, stores: set<nat>)
    requires FamilyIs(m, kind, s) && (forall i :: 0 <= i < |s| ==> s[i].id != r.id) && Dropped(m, m', r, stores)
    ensures FamilyIs(m', kind, s)
  {
    hide Filter, HasKind, Valid, Without, Items, RangesOk, Row;
    forall st ensures Row(m', st) == Filter(HasKind(kind, st), s) {
      var f := Filter(HasKind(kind, st), s);
      forall i | 0 <= i < |f| ensures f[i].id != r.id { FilterIn(HasKind(kind, st), s, f[i]); }
      WithoutAbsent(f, r);
    }
  }

  lemma FamilyTrees(m: Family, kind: Kind, b: seq<Region>)
    requires FamilyIs(m, kind, b) && RangesOk(b)
    ensures TreesOk(m)
  {
    hide Filter, HasKind, Valid, RangesOk, FamilyAt, TreeOk;
    forall st | st in m ensures TreeOk(m[st].tree) { RowRanges(m, kind, b, b, {}, st); }
  }

  lemma WithoutNothing(r: Region)
    ensures Without([], r) == []
  {
    NothingFound(r.start);
  }
}
