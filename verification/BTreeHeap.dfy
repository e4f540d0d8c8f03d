/** B-tree nodes as records in a memory, with owners: what it means for a piece of memory to hold a
    tree, and which changes leave a tree alone. */
module BTreeHeap {
  import opened SortedSeq
  import opened BTreeNode

  type Id = nat

  /** A node as stored: children by address, and the copy-on-write context that owns it (0 once freed). */
  datatype Rec<T> = Rec(items: seq<T>, children: seq<Id>, indices: seq<int>, cow: nat)

  type Mem<T> = map<Id, Rec<T>>

  /** The addresses of a stored tree. */
  datatype Plan = Plan(id: Id, kids: seq<Plan>)

  ghost function Ids(p: Plan): set<Id>
    decreases p
  {
    {p.id} + AllIds(p.kids)
  }

  ghost function AllIds(ps: seq<Plan>): set<Id>
    decreases ps
  {
    if ps == [] then {} else Ids(ps[0]) + AllIds(ps[1..])
  }

  ghost predicate Apart(ps: seq<Plan>) {
    forall i, j :: 0 <= i < j < |ps| ==> Ids(ps[i]) !! Ids(ps[j])
  }

  /** No address occurs twice. */
  ghost predicate Proper(p: Plan)
    decreases p
  {
    && p.id !in AllIds(p.kids)
    && Apart(p.kids)
    && forall i :: 0 <= i < |p.kids| ==> Proper(p.kids[i])
  }

  ghost function Roots(ps: seq<Plan>): (r: seq<Id>)
    ensures |r| == |ps|
    ensures forall i :: 0 <= i < |ps| ==> r[i] == ps[i].id
  {
    seq(|ps|, i requires 0 <= i < |ps| => ps[i].id)
  }

  /** The memory holds the tree `n` at the addresses of `p`, all of them in use. */
  ghost predicate Repr<T>(h: Mem<T>, p: Plan, n: Node<T>)
    decreases p
  {
    && p.id in h
    && h[p.id].cow != 0
    && h[p.id].items == n.items
    && h[p.id].indices == n.indices
    && h[p.id].children == Roots(p.kids)
    && |n.children| == |p.kids|
    && forall i :: 0 <= i < |p.kids| ==> Repr(h, p.kids[i], n.children[i])
  }

  ghost predicate Holds<T>(h: Mem<T>, p: Plan, n: Node<T>) {
    Proper(p) && Repr(h, p, n)
  }

  // ---------- address sets ----------

  lemma {:induction false} AllIdsMember(ps: seq<Plan>, i: nat)
    requires i < |ps|
    ensures Ids(ps[i]) <= AllIds(ps)
  {
    hide Ids;
    if i > 0 {
      assert ps[1..][i-1] == ps[i];
      AllIdsMember(ps[1..], i - 1);
    }
  }

  lemma {:induction false} AllIdsConcat(a: seq<Plan>, b: seq<Plan>)
    ensures AllIds(a + b) == AllIds(a) + AllIds(b)
  {
    hide Ids;
    if a == [] {
      assert a + b == b;
    } else {
      assert (a + b)[1..] == a[1..] + b;
      AllIdsConcat(a[1..], b);
    }
  }

  lemma AllIdsOne(p: Plan)
    ensures AllIds([p]) == Ids(p)
  {
    hide Ids;
    assert [p][1..] == [];
  }

  lemma AllIdsTwo(p: Plan, q: Plan)
    ensures AllIds([p, q]) == Ids(p) + Ids(q)
  {
    hide Ids;
    assert [p, q] == [p] + [q];
    AllIdsConcat([p], [q]);
    AllIdsOne(p);
    AllIdsOne(q);
  }

  lemma AllIdsCut(ps: seq<Plan>, i: nat, j: nat)
    requires i <= j <= |ps|
    ensures AllIds(ps) == AllIds(ps[..i]) + AllIds(ps[i..j]) + AllIds(ps[j..])
  {
    hide AllIds;
    assert ps == ps[..i] + ps[i..j] + ps[j..];
    AllIdsConcat(ps[..i] + ps[i..j], ps[j..]);
    AllIdsConcat(ps[..i], ps[i..j]);
  }

  lemma {:induction false} AllIdsWitness(ps: seq<Plan>, x: Id) returns (i: nat)
    requires x in AllIds(ps)
    ensures i < |ps| && x in Ids(ps[i])
  {
    hide Ids;
    if x in Ids(ps[0]) {
      i := 0;
    } else {
      var k := AllIdsWitness(ps[1..], x);
      i := k + 1;
    }
  }

  /** Disjoint rows stay disjoint when put side by side. */
  lemma ApartConcat(a: seq<Plan>, b: seq<Plan>)
    requires Apart(a) && Apart(b) && AllIds(a) !! AllIds(b)
    ensures Apart(a + b)
  {
    hide Ids, AllIds;
    var s := a + b;
    forall i, j | 0 <= i < j < |s| ensures Ids(s[i]) !! Ids(s[j]) {
      if i < |a| <= j {
        AllIdsMember(a, i);
        AllIdsMember(b, j - |a|);
      }
    }
  }

  lemma ApartSlice(ps: seq<Plan>, i: nat, j: nat)
    requires Apart(ps) && i <= j <= |ps|
    ensures Apart(ps[i..j])
  {
  }

  lemma {:induction false} ApartOne(s: set<Id>, ps: seq<Plan>)
    requires forall i :: 0 <= i < |ps| ==> s !! Ids(ps[i])
    ensures s !! AllIds(ps)
  {
    hide Ids;
    if ps != [] { ApartOne(s, ps[1..]); }
  }

  lemma {:induction false} ApartFrom(ps: seq<Plan>, k: nat)
    requires Apart(ps) && k <= |ps|
    ensures AllIds(ps[..k]) !! AllIds(ps[k..])
  {
    hide Ids, AllIds;
    forall j | 0 <= j < |ps[k..]| ensures AllIds(ps[..k]) !! Ids(ps[k..][j]) {
      ApartOne(Ids(ps[k..][j]), ps[..k]);
    }
    ApartOne(AllIds(ps[..k]), ps[k..]);
  }

  /** Replacing the segment [i, j) of a disjoint row by another whose addresses are those of the
      segment or new ones. */
  lemma ApartReplace(ps: seq<Plan>, i: nat, j: nat, mid: seq<Plan>, added: set<Id>)
    requires Apart(ps) && i <= j <= |ps| && Apart(mid)
    requires AllIds(mid) <= AllIds(ps[i..j]) + added && added !! AllIds(ps)
    ensures Apart(ps[..i] + mid + ps[j..])
    ensures AllIds(ps[..i] + mid + ps[j..]) == AllIds(ps[..i]) + AllIds(mid) + AllIds(ps[j..])
  {
    hide Ids, AllIds, Apart;
    AllIdsCut(ps, i, j);
    ApartSlice(ps, 0, i);
    ApartSlice(ps, j, |ps|);
    assert ps[0..i] == ps[..i] && ps[j..|ps|] == ps[j..];
    ApartFrom(ps, i);
    ApartFrom(ps, j);
    assert ps[i..] == ps[i..j] + ps[j..];
    AllIdsConcat(ps[i..j], ps[j..]);
    assert ps[..j] == ps[..i] + ps[i..j];
    AllIdsConcat(ps[..i], ps[i..j]);
    ApartConcat(ps[..i], mid);
    AllIdsConcat(ps[..i], mid);
    ApartConcat(ps[..i] + mid, ps[j..]);
    AllIdsConcat(ps[..i] + mid, ps[j..]);
  }

  // ---------- memory that a tree does not notice ----------

  ghost predicate SameOn<T>(h: Mem<T>, h': Mem<T>, s: set<Id>) {
    forall x :: x in s && x in h ==> x in h' && h'[x] == h[x]
  }

  lemma {:induction false} ReprFrame<T>(h: Mem<T>, h': Mem<T>, p: Plan, n: Node<T>)
    requires Repr(h, p, n) && SameOn(h, h', Ids(p))
    ensures Repr(h', p, n)
    decreases p
  {
    forall i | 0 <= i < |p.kids| ensures Repr(h', p.kids[i], n.children[i]) {
      AllIdsMember(p.kids, i);
      ReprFrame(h, h', p.kids[i], n.children[i]);
    }
  }

  lemma {:induction false} ReprLive<T>(h: Mem<T>, p: Plan, n: Node<T>, x: Id)
    requires Repr(h, p, n) && x in Ids(p)
    ensures x in h && h[x].cow != 0
    decreases p
  {
    if x != p.id {
      var i := AllIdsWitness(p.kids, x);
      ReprLive(h, p.kids[i], n.children[i], x);
    }
  }

  /** What an operation of owner `c` on the tree at addresses `foot` may change: freed nodes, and its
      own nodes of that tree.  Everything else in use stays as it is. */
  ghost predicate Frame<T>(h: Mem<T>, h': Mem<T>, c: nat, foot: set<Id>) {
    forall x :: x in h && h[x].cow != 0 && (x !in foot || h[x].cow != c) ==> x in h' && h'[x] == h[x]
  }

  ghost predicate Unused<T>(h: Mem<T>, s: set<Id>) {
    forall x :: x in s && x in h ==> h[x].cow == 0
  }

  lemma FrameTrans<T>(h: Mem<T>, h1: Mem<T>, h2: Mem<T>, c: nat, foot: set<Id>, foot1: set<Id>, foot2: set<Id>)
    requires Frame(h, h1, c, foot1) && Frame(h1, h2, c, foot2)
    requires foot1 <= foot && Unused(h, foot2 - foot)
    ensures Frame(h, h2, c, foot)
  {
  }

  lemma FrameSameOn<T>(h: Mem<T>, h': Mem<T>, c: nat, foot: set<Id>, p: Plan, n: Node<T>)
    requires Frame(h, h', c, foot) && Repr(h, p, n)
    requires foot !! Ids(p)
    ensures SameOn(h, h', Ids(p))
  {
    hide Repr, Ids;
    forall x | x in Ids(p) && x in h ensures x in h' && h'[x] == h[x] {
      ReprLive(h, p, n, x);
    }
  }

  /** Nodes on the free list are distinct, empty and owned by nobody. */
  ghost predicate FreeOk<T>(h: Mem<T>, free: seq<Id>, next: Id) {
    && (forall x :: x in h ==> x < next)
    && (forall i :: 0 <= i < |free| ==> free[i] in h && h[free[i]] == Rec([], [], [], 0))
    && (forall i, j :: 0 <= i < j < |free| ==> free[i] != free[j])
  }

  lemma WriteOk<T>(h: Mem<T>, free: seq<Id>, next: Id, x: Id, r: Rec<T>)
    requires FreeOk(h, free, next) && x in h && h[x].cow != 0
    ensures FreeOk(h[x := r], free, next)
  {
  }

  // ---------- rebuilding a node around changed children ----------

  ghost predicate AllHold<T>(h: Mem<T>, ps: seq<Plan>, ns: seq<Node<T>>) {
    && |ps| == |ns|
    && Apart(ps)
    && forall i :: 0 <= i < |ps| ==> Holds(h, ps[i], ns[i])
  }

  lemma HoldsKids<T>(h: Mem<T>, p: Plan, n: Node<T>)
    requires Holds(h, p, n)
    ensures AllHold(h, p.kids, n.children)
  {
  }

  lemma HoldsNode<T>(h: Mem<T>, id: Id, kids: seq<Plan>, n: Node<T>)
    requires id in h && h[id].cow != 0 && h[id].items == n.items && h[id].indices == n.indices && h[id].children == Roots(kids)
    requires id !in AllIds(kids) && AllHold(h, kids, n.children)
    ensures Holds(h, Plan(id, kids), n)
  {
  }

  lemma AllHoldFrame<T>(h: Mem<T>, h': Mem<T>, ps: seq<Plan>, ns: seq<Node<T>>)
    requires AllHold(h, ps, ns) && SameOn(h, h', AllIds(ps))
    ensures AllHold(h', ps, ns)
  {
    hide Repr, Ids, AllIds;
    forall i | 0 <= i < |ps| ensures Holds(h', ps[i], ns[i]) {
      AllIdsMember(ps, i);
      ReprFrame(h, h', ps[i], ns[i]);
    }
  }

  lemma AllHoldLive<T>(h: Mem<T>, ps: seq<Plan>, ns: seq<Node<T>>, x: Id)
    requires AllHold(h, ps, ns) && x in AllIds(ps)
    ensures x in h && h[x].cow != 0
  {
    hide Repr, Ids, AllIds;
    var i := AllIdsWitness(ps, x);
    ReprLive(h, ps[i], ns[i], x);
  }

  lemma AllHoldSlice<T>(h: Mem<T>, ps: seq<Plan>, ns: seq<Node<T>>, i: nat, j: nat)
    requires AllHold(h, ps, ns) && i <= j <= |ps|
    ensures AllHold(h, ps[i..j], ns[i..j])
  {
    hide Holds, Ids;
  }

  /** Children [i, j) replaced by a row that holds in the new memory, the others untouched. */
  lemma AllHoldReplace<T>(h: Mem<T>, h': Mem<T>, ps: seq<Plan>, ns: seq<Node<T>>, i: nat, j: nat, mid: seq<Plan>, mids: seq<Node<T>>)
    requires AllHold(h, ps, ns) && i <= j <= |ps|
    requires SameOn(h, h', AllIds(ps[..i])) && SameOn(h, h', AllIds(ps[j..]))
    requires AllHold(h', mid, mids)
    requires Unused(h, AllIds(mid) - AllIds(ps[i..j]))
    ensures AllHold(h', ps[..i] + mid + ps[j..], ns[..i] + mids + ns[j..])
    ensures AllIds(ps[..i] + mid + ps[j..]) == AllIds(ps[..i]) + AllIds(mid) + AllIds(ps[j..])
  {
    hide Holds, Ids, AllIds, SameOn, Unused;
    AllHoldSlice(h, ps, ns, 0, i);
    AllHoldSlice(h, ps, ns, j, |ps|);
    assert ps[0..i] == ps[..i] && ps[j..|ps|] == ps[j..] && ns[0..i] == ns[..i] && ns[j..|ns|] == ns[j..];
    AllHoldFrame(h, h', ps[..i], ns[..i]);
    AllHoldFrame(h, h', ps[j..], ns[j..]);
    UnusedApart(h, ps, ns, AllIds(mid) - AllIds(ps[i..j]));
    ApartReplace(ps, i, j, mid, AllIds(mid) - AllIds(ps[i..j]));
    var s, t := ps[..i] + mid + ps[j..], ns[..i] + mids + ns[j..];
    forall k | 0 <= k < |s| ensures Holds(h', s[k], t[k]) {
      if k < i {
        assert Holds(h', ps[..i][k], ns[..i][k]);
      } else if k < i + |mid| {
        assert Holds(h', mid[k - i], mids[k - i]);
      } else {
        assert Holds(h', ps[j..][k - i - |mid|], ns[j..][k - i - |mid|]);
      }
    }
  }

  lemma UnusedApart<T>(h: Mem<T>, ps: seq<Plan>, ns: seq<Node<T>>, s: set<Id>)
    requires AllHold(h, ps, ns) && Unused(h, s)
    ensures s !! AllIds(ps)
  {
    hide Holds, Ids, AllIds;
    forall x | x in AllIds(ps) ensures x !in s {
      AllHoldLive(h, ps, ns, x);
    }
  }

  /** Every node of `after` is owned by `c`, or was in `before` with the owner it has now. */
  ghost predicate Owners<T>(h: Mem<T>, h': Mem<T>, c: nat, after: set<Id>, before: set<Id>) {
    forall x :: x in after ==> x in h' && (h'[x].cow == c || (x in before && x in h && h'[x].cow == h[x].cow))
  }

  /** An operation of owner `c` at the node `p.id`: afterwards it holds `n`, it is still owned by `c`,
      and only what the operation may change has changed. */
  ghost predicate Step<T>(h: Mem<T>, h': Mem<T>, c: nat, p: Plan, p': Plan, n: Node<T>) {
    && p'.id == p.id
    && Holds(h', p', n)
    && h'[p.id].cow == c
    && Frame(h, h', c, Ids(p))
    && Unused(h, Ids(p') - Ids(p))
    && Owners(h, h', c, Ids(p'), Ids(p))
  }

  lemma StepTrans<T>(h: Mem<T>, h1: Mem<T>, h2: Mem<T>, c: nat, p: Plan, p1: Plan, p2: Plan, n1: Node<T>, n2: Node<T>)
    requires Step(h, h1, c, p, p1, n1) && Step(h1, h2, c, p1, p2, n2)
    ensures Step(h, h2, c, p, p2, n2)
  {
    hide Holds, Ids;
    FrameTrans(h, h1, h2, c, Ids(p), Ids(p), Ids(p1));
  }

  lemma StepRefl<T>(h: Mem<T>, c: nat, p: Plan, n: Node<T>)
    requires Holds(h, p, n) && h[p.id].cow == c
    ensures Step(h, h, c, p, p, n)
  {
    hide Repr, Ids;
    HoldsLive(h, p, n, {});
  }

  /** The segments of a row of children have no address in common, and none is the node's own. */
  lemma KidsApart(p: Plan, i: nat, j: nat)
    requires Proper(p) && i <= j <= |p.kids|
    ensures AllIds(p.kids) == AllIds(p.kids[..i]) + AllIds(p.kids[i..j]) + AllIds(p.kids[j..])
    ensures AllIds(p.kids[..i]) !! AllIds(p.kids[i..j])
    ensures AllIds(p.kids[i..j]) !! AllIds(p.kids[j..])
    ensures AllIds(p.kids[..i]) !! AllIds(p.kids[j..])
    ensures p.id !in AllIds(p.kids)
  {
    hide AllIds, Ids, Apart;
    AllIdsCut(p.kids, i, j);
    ApartFrom(p.kids, i);
    ApartFrom(p.kids, j);
    assert p.kids[i..] == p.kids[i..j] + p.kids[j..] && p.kids[..j] == p.kids[..i] + p.kids[i..j];
    AllIdsConcat(p.kids[i..j], p.kids[j..]);
    AllIdsConcat(p.kids[..i], p.kids[i..j]);
  }

  lemma HoldsRoot<T>(h: Mem<T>, p: Plan, n: Node<T>)
    requires Holds(h, p, n)
    ensures p.id in h && h[p.id].cow != 0 && h[p.id].items == n.items && h[p.id].indices == n.indices
    ensures h[p.id].children == Roots(p.kids) && |n.children| == |p.kids|
    ensures Proper(p)
  {
  }

  lemma HoldsLive<T>(h: Mem<T>, p: Plan, n: Node<T>, s: set<Id>)
    requires Holds(h, p, n)
    ensures forall x :: x in Ids(p) ==> x in h && h[x].cow != 0
    ensures Unused(h, s) ==> s !! Ids(p)
  {
    hide Repr, Ids;
    forall x | x in Ids(p) ensures x in h && h[x].cow != 0 { ReprLive(h, p, n, x); }
  }

  /** The children [i, j) of a node replaced, together with its items and indices. */
  lemma Rebuild<T>(h: Mem<T>, h': Mem<T>, c: nat, p: Plan, n: Node<T>, i: nat, j: nat, mid: seq<Plan>, mids: seq<Node<T>>, items: seq<T>, indices: seq<int>)
    requires Holds(h, p, n) && h[p.id].cow == c && i <= j <= |p.kids| == |n.children|
    requires Frame(h, h', c, {p.id} + AllIds(p.kids[i..j]))
    requires AllHold(h', mid, mids) && Unused(h, AllIds(mid) - AllIds(p.kids[i..j]))
    requires Owners(h, h', c, AllIds(mid), AllIds(p.kids[i..j]))
    requires p.id in h' && h'[p.id] == Rec(items, Roots(p.kids[..i] + mid + p.kids[j..]), indices, c)
    ensures Step(h, h', c, p, Plan(p.id, p.kids[..i] + mid + p.kids[j..]), Node(items, n.children[..i] + mids + n.children[j..], indices))
  {
    hide Repr, AllIds, Roots, Apart;
    HoldsRoot(h, p, n);
    HoldsKids(h, p, n);
    HoldsLive(h, p, n, AllIds(mid) - AllIds(p.kids[i..j]));
    KidsApart(p, i, j);
    AllHoldReplace(h, h', p.kids, n.children, i, j, mid, mids);
    HoldsNode(h', p.id, p.kids[..i] + mid + p.kids[j..], Node(items, n.children[..i] + mids + n.children[j..], indices));
  }
}
