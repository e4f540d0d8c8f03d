/** pkg/cache/two_queue.go: a cache of fixed size in three queues: keys used once, keys used more often, and keys
    that were evicted lately. */
module TwoQueue {
  import opened SortedSeq
  import opened Lru

  // ---------- the three queues as values ----------

  datatype Queues<V> = Queues(size: nat, recent: View<V>, frequent: View<V>, ghosts: View<()>)

  ghost predicate Apart<V>(r: View<V>, f: View<V>, g: View<()>) {
    r.items.Keys !! f.items.Keys && r.items.Keys !! g.items.Keys && f.items.Keys !! g.items.Keys
  }

  /** List and map agree in each queue, their keys are apart, and the first two have no more than `size` keys
      together. */
  ghost predicate QueuesOk<V>(q: Queues<V>) {
    && q.size >= 1
    && Agree(q.recent) && Agree(q.frequent) && Agree(q.ghosts) && Apart(q.recent, q.frequent, q.ghosts)
    && q.recent.maxCount == q.size && q.frequent.maxCount == q.size && q.ghosts.maxCount == q.size / 2
    && |q.recent.order| + |q.frequent.order| <= q.size
  }

  predicate HasRoom<V>(q: Queues<V>) {
    |q.recent.order| + |q.frequent.order| < q.size
  }

  /** What the cache holds. */
  ghost function Held<V>(r: View<V>, f: View<V>): map<Key, V> {
    r.items + f.items
  }

  /** A quarter is for the recent keys. */
  function RecentSize(size: nat): nat {
    size / 4
  }

  /** `ensureSpace` (two_queue.go:95-111). */
  function MadeRoom<V>(q: Queues<V>, ghostHit: bool): Queues<V> {
    var n := |q.recent.order|;
    if HasRoom(q) then q
    else if n > 0 && (n > RecentSize(q.size) || (n == RecentSize(q.size) && !ghostHit)) then
      q.(recent := WithoutOldest(q.recent), ghosts := Stored(q.ghosts, q.recent.order[n-1], ()))
    else q.(frequent := WithoutOldest(q.frequent))
  }

  /** `Put` (two_queue.go:64-92). */
  function PutIn<V>(q: Queues<V>, key: Key, value: V): Queues<V> {
    if key in q.frequent.items then q.(frequent := Stored(q.frequent, key, value))
    else if key in q.recent.items then q.(recent := Removed(q.recent, key), frequent := Stored(q.frequent, key, value))
    else if key in q.ghosts.items then
      var p := MadeRoom(q, true);
      p.(ghosts := Removed(p.ghosts, key), frequent := Stored(p.frequent, key, value))
    else
      var p := MadeRoom(q, false);
      p.(recent := Stored(p.recent, key, value))
  }

  /** `Get` (two_queue.go:114-128). */
  function Touched<V>(q: Queues<V>, key: Key): Queues<V> {
    if key in q.frequent.items then q.(frequent := Used(q.frequent, key))
    else if key in q.recent.items then q.(recent := Removed(q.recent, key), frequent := Stored(q.frequent, key, q.recent.items[key]))
    else q
  }

  /** `Remove` (two_queue.go:139-149). */
  function Dropped<V>(q: Queues<V>, key: Key): Queues<V> {
    if key in q.frequent.items then q.(frequent := Removed(q.frequent, key))
    else if key in q.recent.items then q.(recent := Removed(q.recent, key))
    else q.(ghosts := Removed(q.ghosts, key))
  }

  /** `Peek` (two_queue.go:131-136). */
  function Found<V>(q: Queues<V>, key: Key): Option<V> {
    if key in q.frequent.items then Some(q.frequent.items[key])
    else if key in q.recent.items then Some(q.recent.items[key])
    else None
  }

  /** At most one entry is gone. */
  ghost predicate OneLess<V>(was: map<Key, V>, now: map<Key, V>) {
    now == was || exists k :: k in was && now == was - {k}
  }

  // ---------- what the operations keep ----------

  /** Making room drops at most one entry, and only from a full cache; what a frequent key loses is not the limit of
      its own list. */
  lemma MadeRoomOk<V>(q: Queues<V>, ghostHit: bool)
    requires QueuesOk(q)
    ensures var p := MadeRoom(q, ghostHit);
      && QueuesOk(p) && HasRoom(p) && p.size == q.size
      && OneLess(Held(q.recent, q.frequent), Held(p.recent, p.frequent))
      && p.recent.items.Keys <= q.recent.items.Keys && p.frequent.items.Keys <= q.frequent.items.Keys
      && p.ghosts.items.Keys <= q.ghosts.items.Keys + q.recent.items.Keys
  {
    hide Stored, Held;
    var p := MadeRoom(q, ghostHit);
    if p.recent != q.recent {
      var k := q.recent.order[|q.recent.order| - 1];
      EvictedApart(q.recent, q.frequent, q.ghosts);
      OldestAgrees(q.recent);
      PutAgrees(q.ghosts, k, ());
      StoredKeeps(q.ghosts, k, ());
    } else if p.frequent != q.frequent {
      OldestAgrees(q.frequent);
      DroppedApart(q.recent, q.frequent);
    }
  }

  /** After a put the key is in with its value, in one queue only: a new key among the recent, any other among the
      frequent ones. At most one other entry makes room for it, and only if the cache was full and did not hold the
      key. */
  lemma PutOk<V>(q: Queues<V>, key: Key, value: V)
    requires QueuesOk(q)
    ensures var p := PutIn(q, key, value);
      var was, now := Held(q.recent, q.frequent), Held(p.recent, p.frequent);
      && QueuesOk(p) && p.size == q.size
      && Found(p, key) == Some(value)
      && (key in p.recent.items <==> key !in q.recent.items && key !in q.frequent.items && key !in q.ghosts.items)
      && (key in was || HasRoom(q) ==> now == was[key := value])
      && exists mid :: OneLess(was, mid) && now == mid[key := value]
  {
    hide QueuesOk, Held, HasRoom, Stored, Removed, WithoutOldest, MadeRoom;
    var was := Held(q.recent, q.frequent);
    HeldHas(q.recent, q.frequent, key);
    if key in q.frequent.items {
      PutFrequent(q.size, q.recent, q.frequent, q.ghosts, key, value);
      assert OneLess(was, was);
    } else if key in q.recent.items {
      Promote(q.size, q.recent, q.frequent, q.ghosts, key, value);
      assert OneLess(was, was);
    } else {
      var ghostHit := key in q.ghosts.items;
      var p := MadeRoom(q, ghostHit);
      MadeRoomOk(q, ghostHit);
      RoomyStays(q, ghostHit);
      assert OneLess(was, Held(p.recent, p.frequent));
      if ghostHit {
        Revive(q.size, p.recent, p.frequent, p.ghosts, key, value);
      } else {
        Admit(q.size, p.recent, p.frequent, p.ghosts, key, value);
      }
    }
  }

  lemma RoomyStays<V>(q: Queues<V>, ghostHit: bool)
    ensures HasRoom(q) ==> MadeRoom(q, ghostHit) == q
  {
  }

  /** A get changes neither keys nor values, and finds what is held. */
  lemma TouchedOk<V>(q: Queues<V>, key: Key)
    requires QueuesOk(q)
    ensures var p := Touched(q, key);
      QueuesOk(p) && p.size == q.size && Held(p.recent, p.frequent) == Held(q.recent, q.frequent)
    ensures Found(q, key) == var h := Held(q.recent, q.frequent); if key in h then Some(h[key]) else None
  {
    hide Stored, Removed, Minus;
    var was := Held(q.recent, q.frequent);
    if key in q.frequent.items {
      UsedAgrees(q.frequent, key);
    } else if key in q.recent.items {
      var v := q.recent.items[key];
      Promote(q.size, q.recent, q.frequent, q.ghosts, key, v);
      assert was[key := v] == was;
    }
  }

  /** After a remove the key is in none of the queues, and nothing else has changed. */
  lemma DroppedOk<V>(q: Queues<V>, key: Key)
    requires QueuesOk(q)
    ensures var p := Dropped(q, key);
      && QueuesOk(p) && p.size == q.size && Held(p.recent, p.frequent) == Held(q.recent, q.frequent) - {key}
      && key !in p.recent.items && key !in p.frequent.items && key !in p.ghosts.items
  {
    hide Removed, Minus;
    RemovedAgrees(q.recent, key);
    RemovedAgrees(q.frequent, key);
    RemovedAgrees(q.ghosts, key);
    RemovedKeeps(q.recent, key);
    RemovedKeeps(q.frequent, key);
    RemovedKeeps(q.ghosts, key);
  }

  /** A key used again is only updated. */
  lemma PutFrequent<V>(size: nat, r: View<V>, f: View<V>, g: View<()>, key: Key, value: V)
    requires QueuesOk(Queues(size, r, f, g)) && key in f.items
    ensures Agree(f) && QueuesOk(Queues(size, r, Stored(f, key, value), g))
    ensures Held(r, Stored(f, key, value)) == Held(r, f)[key := value]
    ensures key !in r.items && key in Stored(f, key, value).items && Stored(f, key, value).items[key] == value
  {
    hide Stored, Minus;
    PutAgrees(f, key, value);
    StoredKeeps(f, key, value);
  }

  lemma HeldHas<V>(r: View<V>, f: View<V>, key: Key)
    ensures key in Held(r, f) <==> key in r.items || key in f.items
  {
  }

  /** A recent key used again moves to the frequent ones. */
  lemma Promote<V>(size: nat, r: View<V>, f: View<V>, g: View<()>, key: Key, value: V)
    requires QueuesOk(Queues(size, r, f, g)) && key in r.items
    ensures Agree(r) && Agree(f) && QueuesOk(Queues(size, Removed(r, key), Stored(f, key, value), g))
    ensures Held(Removed(r, key), Stored(f, key, value)) == Held(r, f)[key := value]
    ensures key !in Removed(r, key).items && key in Stored(f, key, value).items && Stored(f, key, value).items[key] == value
  {
    hide Stored, Minus, Removed;
    assert key in Keys(r.order);
    RemovedAgrees(r, key);
    PutAgrees(f, key, value);
    RemovedKeeps(r, key);
    StoredKeeps(f, key, value);
  }

  lemma RemovedKeeps<V>(v: View<V>, key: Key)
    ensures Removed(v, key).maxCount == v.maxCount
  {
  }

  lemma StoredKeeps<V>(v: View<V>, key: Key, value: V)
    ensures Stored(v, key, value).maxCount == v.maxCount
  {
  }

  /** A key evicted lately comes back as a frequent one. */
  lemma Revive<V>(size: nat, r: View<V>, f: View<V>, g: View<()>, key: Key, value: V)
    requires QueuesOk(Queues(size, r, f, g)) && HasRoom(Queues(size, r, f, g)) && key !in r.items && key !in f.items
    ensures Agree(f) && Agree(g) && QueuesOk(Queues(size, r, Stored(f, key, value), Removed(g, key)))
    ensures Held(r, Stored(f, key, value)) == Held(r, f)[key := value]
    ensures key in Stored(f, key, value).items && Stored(f, key, value).items[key] == value
  {
    hide Stored, Minus, Removed;
    RemovedAgrees(g, key);
    PutAgrees(f, key, value);
    RemovedKeeps(g, key);
    StoredKeeps(f, key, value);
  }

  /** A new key is a recent one. */
  lemma Admit<V>(size: nat, r: View<V>, f: View<V>, g: View<()>, key: Key, value: V)
    requires QueuesOk(Queues(size, r, f, g)) && HasRoom(Queues(size, r, f, g)) && key !in r.items && key !in f.items && key !in g.items
    ensures Agree(r) && QueuesOk(Queues(size, Stored(r, key, value), f, g))
    ensures Held(Stored(r, key, value), f) == Held(r, f)[key := value]
    ensures key in Stored(r, key, value).items && Stored(r, key, value).items[key] == value
  {
    hide Stored, Minus;
    PutAgrees(r, key, value);
    StoredKeeps(r, key, value);
  }

  lemma EvictedApart<V>(r: View<V>, f: View<V>, g: View<()>)
    requires Agree(r) && Agree(f) && Apart(r, f, g) && r.order != []
    ensures var k := r.order[|r.order| - 1];
      k in r.items && k !in f.items && k !in g.items && Held(WithoutOldest(r), f) == Held(r, f) - {k} && k in Held(r, f)
  {
    hide Agree;
    OldestAgrees(r);
    MinusLeft(r.items, f.items, r.order[|r.order| - 1]);
  }

  lemma DroppedApart<V>(r: View<V>, f: View<V>)
    requires Agree(f) && r.items.Keys !! f.items.Keys && f.order != []
    ensures var k := f.order[|f.order| - 1];
      k in f.items && k !in r.items && Held(r, WithoutOldest(f)) == Held(r, f) - {k} && k in Held(r, f)
  {
    hide Agree;
    OldestAgrees(f);
    MinusRight(r.items, f.items, f.order[|f.order| - 1]);
  }

  lemma MinusRight<V>(a: map<Key, V>, b: map<Key, V>, k: Key)
    requires k !in a
    ensures a + (b - {k}) == (a + b) - {k}
  {
  }

  lemma MinusLeft<V>(a: map<Key, V>, b: map<Key, V>, k: Key)
    requires k !in b
    ensures (a - {k}) + b == (a + b) - {k}
  {
  }

  // ---------- which queue a key goes to, and which key goes ----------

  lemma StoredFront<V>(v: View<V>, key: Key, value: V)
    requires Agree(v)
    ensures Stored(v, key, value).order != [] && Stored(v, key, value).order[0] == key
  {
    hide Minus;
  }

  /** A key that is held, or was evicted lately, is the most recently used of the frequent ones afterwards, any other
      the latest of the recent ones. */
  lemma PutPlaces<V>(q: Queues<V>, key: Key, value: V)
    requires QueuesOk(q)
    ensures var p := PutIn(q, key, value);
      if key in q.recent.items || key in q.frequent.items || key in q.ghosts.items
      then p.frequent.order != [] && p.frequent.order[0] == key && key !in p.recent.items && key !in p.ghosts.items
      else p.recent.order != [] && p.recent.order[0] == key && key !in p.frequent.items && key !in p.ghosts.items
  {
    hide QueuesOk, Held, Stored, MadeRoom, Removed, Found, HasRoom;
    PutOk(q, key, value);
    var ghostHit := key in q.ghosts.items;
    var r := MadeRoom(q, ghostHit);
    MadeRoomOk(q, ghostHit);
    AllAgree(q);
    AllAgree(r);
    AllAgree(PutIn(q, key, value));
    StoredFront(q.frequent, key, value);
    StoredFront(r.frequent, key, value);
    StoredFront(r.recent, key, value);
    FrontHeld(PutIn(q, key, value));
  }

  lemma AllAgree<V>(q: Queues<V>)
    requires QueuesOk(q)
    ensures Agree(q.recent) && Agree(q.frequent) && Agree(q.ghosts) && Apart(q.recent, q.frequent, q.ghosts)
  {
  }

  lemma FrontHeld<V>(q: Queues<V>)
    requires QueuesOk(q)
    ensures q.frequent.order != [] ==> q.frequent.order[0] in q.frequent.items
    ensures q.recent.order != [] ==> q.recent.order[0] in q.recent.items
  {
    assert q.frequent.order != [] ==> q.frequent.order[0] in Keys(q.frequent.order);
    assert q.recent.order != [] ==> q.recent.order[0] in Keys(q.recent.order);
  }

  /** A key that is got becomes the most recently used of the frequent ones; without a hit nothing changes. */
  lemma GetPlaces<V>(q: Queues<V>, key: Key)
    requires QueuesOk(q)
    ensures var p := Touched(q, key);
      if key in q.recent.items || key in q.frequent.items then p.frequent.order != [] && p.frequent.order[0] == key && key !in p.recent.items
      else p == q
  {
    hide QueuesOk, Stored, Removed;
    AllAgree(q);
    if key in q.recent.items {
      StoredFront(q.frequent, key, q.recent.items[key]);
      RemovedAgrees(q.recent, key);
    }
  }

  /** The recent keys give way while they are more than a quarter of the size, or just as many and the new key is not
      one that was evicted lately. */
  ghost predicate RecentGives<V>(q: Queues<V>, key: Key) {
    var n := |q.recent.order|;
    n > 0 && (n > q.size / 4 || (n == q.size / 4 && key !in q.ghosts.items))
  }

  /** Into a full cache, a key that is not held comes for exactly one other: the oldest of the recent ones, which is
      remembered as the latest ghost, or the least recently used of the frequent ones, which is not remembered. */
  lemma Evicts<V>(q: Queues<V>, key: Key, value: V)
    requires QueuesOk(q) && key !in q.recent.items && key !in q.frequent.items
    requires |q.recent.order| + |q.frequent.order| == q.size
    ensures RecentGives(q, key) ==>
      var p, lost := PutIn(q, key, value), q.recent.order[|q.recent.order| - 1];
      && Held(p.recent, p.frequent) == (Held(q.recent, q.frequent) - {lost})[key := value]
      && p.ghosts.order != [] && p.ghosts.order[0] == lost
    ensures !RecentGives(q, key) ==>
      && q.frequent.order != []
      && var p, lost := PutIn(q, key, value), q.frequent.order[|q.frequent.order| - 1];
      && Held(p.recent, p.frequent) == (Held(q.recent, q.frequent) - {lost})[key := value]
      && p.ghosts.items.Keys == q.ghosts.items.Keys - {key}
  {
    var ghostHit := key in q.ghosts.items;
    MadeRoomOk(q, ghostHit);
    var r := MadeRoom(q, ghostHit);
    LostFrom(q, key);
    PlacedAfter(r, key, value, ghostHit);
    if ghostHit { KeepsFirst(r.ghosts, key); }
  }

  /** What making room takes. */
  lemma LostFrom<V>(q: Queues<V>, key: Key)
    requires QueuesOk(q) && !HasRoom(q) && key !in q.recent.items && key !in q.frequent.items
    ensures RecentGives(q, key) ==>
      var r, lost := MadeRoom(q, key in q.ghosts.items), q.recent.order[|q.recent.order| - 1];
      Held(r.recent, r.frequent) == Held(q.recent, q.frequent) - {lost} && r.ghosts.order != [] && r.ghosts.order[0] == lost != key
    ensures !RecentGives(q, key) ==>
      && q.frequent.order != []
      && var r := MadeRoom(q, key in q.ghosts.items);
      Held(r.recent, r.frequent) == Held(q.recent, q.frequent) - {q.frequent.order[|q.frequent.order| - 1]} && r.ghosts == q.ghosts
  {
    hide Held, Stored, Minus;
    if RecentGives(q, key) {
      EvictedApart(q.recent, q.frequent, q.ghosts);
      StoredFront(q.ghosts, q.recent.order[|q.recent.order| - 1], ());
    } else {
      DroppedApart(q.recent, q.frequent);
    }
  }

  /** With room, the key is added. */
  lemma PlacedAfter<V>(r: Queues<V>, key: Key, value: V, ghostHit: bool)
    requires QueuesOk(r) && HasRoom(r) && key !in r.recent.items && key !in r.frequent.items && (!ghostHit ==> key !in r.ghosts.items)
    ensures ghostHit ==> Held(r.recent, Stored(r.frequent, key, value)) == Held(r.recent, r.frequent)[key := value]
    ensures !ghostHit ==> Held(Stored(r.recent, key, value), r.frequent) == Held(r.recent, r.frequent)[key := value]
    ensures Removed(r.ghosts, key).items == r.ghosts.items - {key}
  {
    hide Held, Stored, Removed;
    if ghostHit {
      Revive(r.size, r.recent, r.frequent, r.ghosts, key, value);
    } else {
      Admit(r.size, r.recent, r.frequent, r.ghosts, key, value);
    }
    AllAgree(r);
    RemovedAgrees(r.ghosts, key);
  }

  lemma KeepsFirst<V>(v: View<V>, key: Key)
    ensures v.order != [] && v.order[0] != key ==> Removed(v, key).order != [] && Removed(v, key).order[0] == v.order[0]
  {
  }

  // ---------- the class ----------

  class TwoQueue<V> {
    const size: nat
    const recent: LRU<V>
    const frequent: LRU<V>
    const ghosts: LRU<()>
    ghost const Repr: set<object>

    ghost function State(): Queues<V>
      reads recent, frequent, ghosts
    {
      Queues(size, recent.Seen(), frequent.Seen(), ghosts.Seen())
    }

    ghost predicate Valid()
      reads this, Repr, recent, frequent, ghosts
    {
      Repr == {recent, frequent, ghosts} && |Repr| == 3 && this !in Repr && QueuesOk(State())
    }

    /** `newTwoQueue` (two_queue.go:46-61). */
    constructor (size: nat)
      requires size >= 1
      ensures Valid() && fresh(Repr)
      ensures State() == Queues(size, View(size, [], map[]), View(size, [], map[]), View(size / 2, [], map[]))
    {
      this.size := size;
      var r := new LRU<V>(size);
      var f := new LRU<V>(size);
      var g := new LRU<()>(size / 2);
      recent, frequent, ghosts := r, f, g;
      Repr := {r, f, g};
    }

    method EnsureSpace(ghostHit: bool)
      requires Valid()
      modifies Repr
      ensures Valid() && State() == MadeRoom(old(State()), ghostHit)
    {
      hide Stored, Apart, Held, OneLess, Agree;
      MadeRoomOk(State(), ghostHit);
      GhostsAgree(State());
      var recentLen, frequentLen := |recent.ll|, |frequent.ll|;
      if recentLen + frequentLen < size { return; }
      if recentLen > 0 && (recentLen > RecentSize(size) || (recentLen == RecentSize(size) && !ghostHit)) {
        var k, found := recent.GetAndRemoveOldest();
        ghosts.Put(k, ());
        return;
      }
      frequent.RemoveOldest();
    }

    method Put(key: Key, value: V)
      requires Valid()
      modifies Repr
      ensures Valid() && State() == PutIn(old(State()), key, value)
    {
      hide Stored, Removed, MadeRoom, Held, Found, HasRoom, Apart;
      PutOk(State(), key, value);
      if frequent.Contains(key) {
        frequent.Put(key, value);
        return;
      }
      if recent.Contains(key) {
        var found := recent.Remove(key);
        frequent.Put(key, value);
        return;
      }
      if ghosts.Contains(key) {
        EnsureSpace(true);
        var found := ghosts.Remove(key);
        frequent.Put(key, value);
        return;
      }
      EnsureSpace(false);
      recent.Put(key, value);
    }

    method Get(key: Key) returns (r: Option<V>)
      requires Valid()
      modifies Repr
      ensures Valid() && State() == Touched(old(State()), key) && r == Found(old(State()), key)
    {
      hide Stored, Removed, Used, Held, Apart;
      TouchedOk(State(), key);
      r := frequent.Get(key);
      if r.Some? { return; }
      r := recent.Peek(key);
      if r.Some? {
        var found := recent.Remove(key);
        frequent.Put(key, r.value);
      }
    }

    method Peek(key: Key) returns (r: Option<V>)
      requires Valid()
      ensures r == Found(State(), key)
    {
      r := frequent.Peek(key);
      if r.Some? { return; }
      r := recent.Peek(key);
    }

    method Remove(key: Key)
      requires Valid()
      modifies Repr
      ensures Valid() && State() == Dropped(old(State()), key)
    {
      hide Removed, Held, Apart;
      DroppedOk(State(), key);
      var found := frequent.Remove(key);
      if found { return; }
      NoKey(old(frequent.Seen()), key);
      found := recent.Remove(key);
      if found { return; }
      NoKey(old(recent.Seen()), key);
      found := ghosts.Remove(key);
    }

    /** `Len` (two_queue.go:161-163): the number of entries held, never more than the size. */
    method Len() returns (n: nat)
      requires Valid()
      ensures n == |Held(recent.Seen(), frequent.Seen())| <= size
    {
      CountHeld(recent.Seen(), frequent.Seen());
      n := |recent.ll| + |frequent.ll|;
    }
  }

  lemma GhostsAgree<V>(q: Queues<V>)
    requires QueuesOk(q)
    ensures Agree(q.ghosts)
  {
  }

  lemma NoKey<V>(v: View<V>, key: Key)
    ensures key !in v.items ==> Removed(v, key) == v
  {
  }

  lemma CountHeld<V>(r: View<V>, f: View<V>)
    requires Agree(r) && Agree(f) && r.items.Keys !! f.items.Keys
    ensures |Held(r, f)| == |r.order| + |f.order|
  {
    CountKeys(r.order);
    CountKeys(f.order);
    assert Held(r, f).Keys == Keys(r.order) + Keys(f.order);
  }

  // ---------- runs ----------

  datatype Op<V> = PutOp(key: Key, value: V) | GetOp(key: Key) | RemoveOp(key: Key)

  function Applied<V>(q: Queues<V>, op: Op<V>): Queues<V> {
    match op
    case PutOp(key, value) => PutIn(q, key, value)
    case GetOp(key) => Touched(q, key)
    case RemoveOp(key) => Dropped(q, key)
  }

  ghost function RunAll<V>(q: Queues<V>, ops: seq<Op<V>>): Queues<V>
    decreases |ops|
  {
    if ops == [] then q else Applied(RunAll(q, ops[..|ops| - 1]), ops[|ops| - 1])
  }

  /** The value last put for the key and not removed since. */
  ghost function LastValue<V>(ops: seq<Op<V>>, key: Key): Option<V>
    decreases |ops|
  {
    if ops == [] then None
    else
      var op := ops[|ops| - 1];
      if op.PutOp? && op.key == key then Some(op.value)
      else if op.RemoveOp? && op.key == key then None
      else LastValue(ops[..|ops| - 1], key)
  }

  function Empty<V>(size: nat): Queues<V> {
    Queues(size, View(size, [], map[]), View(size, [], map[]), View(size / 2, [], map[]))
  }

  lemma AppliedOk<V>(q: Queues<V>, op: Op<V>, key: Key)
    requires QueuesOk(q)
    ensures QueuesOk(Applied(q, op))
    ensures var was, now := Held(q.recent, q.frequent), Held(Applied(q, op).recent, Applied(q, op).frequent);
      key in now ==> if op.PutOp? && op.key == key then now[key] == op.value
                     else !(op.RemoveOp? && op.key == key) && key in was && now[key] == was[key]
  {
    hide QueuesOk, PutIn, Touched, Dropped, Held, Found, HasRoom;
    match op
    case PutOp(k, value) =>
      PutOk(q, k, value);
      FoundIsHeld(PutIn(q, k, value), k);
    case GetOp(k) => TouchedOk(q, k);
    case RemoveOp(k) => DroppedOk(q, k);
  }

  lemma FoundIsHeld<V>(q: Queues<V>, key: Key)
    requires QueuesOk(q) && Found(q, key).Some?
    ensures var h := Held(q.recent, q.frequent); key in h && h[key] == Found(q, key).value
  {
  }

  /** After every run a hit gives the value last put for the key. */
  lemma {:induction false} RunHits<V>(size: nat, ops: seq<Op<V>>, key: Key)
    requires size >= 1
    ensures var q := RunAll(Empty(size), ops);
      && QueuesOk(q)
      && (var h := Held(q.recent, q.frequent); key in h ==> LastValue(ops, key) == Some(h[key]))
      && (Found(q, key).Some? ==> LastValue(ops, key) == Found(q, key))
    decreases |ops|
  {
    hide QueuesOk, Applied, Found;
    if ops == [] {
      EmptyOk<V>(size);
    } else {
      var p := RunAll(Empty(size), ops[..|ops| - 1]);
      RunHits(size, ops[..|ops| - 1], key);
      AppliedOk(p, ops[|ops| - 1], key);
    }
    var q := RunAll(Empty(size), ops);
    if Found(q, key).Some? { FoundIsHeld(q, key); }
  }

  lemma EmptyOk<V>(size: nat)
    requires size >= 1
    ensures QueuesOk(Empty<V>(size)) && Held(Empty<V>(size).recent, Empty<V>(size).frequent) == map[]
    ensures forall key :: Found(Empty<V>(size), key) == None
  {
  }

  // ---------- how many ghosts there are ----------

  /** In all runs there are at most `n` ghosts. */
  ghost predicate GhostsWithin(size: nat, n: nat) {
    forall ops: seq<Op<int>> :: |RunAll(Empty(size), ops).ghosts.order| <= n
  }

  /** The ghosts of all runs are bounded exactly from size two on, and then by half the size. */
  lemma GhostsBoundedIff(size: nat)
    requires size >= 1
    ensures (exists n: nat :: GhostsWithin(size, n)) <==> size >= 2
    ensures size >= 2 ==> GhostsWithin(size, size / 2)
  {
    hide RunAll;
    if size >= 2 {
      forall ops: seq<Op<int>> ensures |RunAll(Empty(size), ops).ghosts.order| <= size / 2 {
        RunHits(size, ops, 0);
        RunSize(Empty<int>(size), ops);
      }
      var n: nat := size / 2;
      assert GhostsWithin(size, n);
    } else {
      forall n: nat ensures !GhostsWithin(size, n) {
        GhostsWithoutEnd(n + 1);
      }
    }
  }

  lemma {:induction false} RunSize<V>(q: Queues<V>, ops: seq<Op<V>>)
    ensures RunAll(q, ops).size == q.size
    decreases |ops|
  {
    if ops != [] {
      RunSize(q, ops[..|ops| - 1]);
      AppliedSize(RunAll(q, ops[..|ops| - 1]), ops[|ops| - 1]);
    }
  }

  lemma AppliedSize<V>(q: Queues<V>, op: Op<V>)
    ensures Applied(q, op).size == q.size
  {
    hide Stored, Removed, Used, WithoutOldest;
  }

  /** Puts of the keys below `n`. */
  function PutsBelow(n: nat): seq<Op<int>> {
    seq(n, i requires 0 <= i < n => PutOp(i, 0))
  }

  /** At size one half is none, which the list takes for no limit: each new key leaves another ghost behind. */
  lemma {:induction false} GhostsWithoutEnd(n: nat)
    ensures var q := RunAll(Empty<int>(1), PutsBelow(n + 1));
      && QueuesOk(q)
      && q.size == 1 && q.recent.order == [n] && q.frequent.order == [] && |q.ghosts.order| == n
      && forall k :: k in q.ghosts.items ==> k < n
  {
    hide QueuesOk, RunAll, PutIn, Held, Found;
    assert PutsBelow(n + 1) == PutsBelow(n) + [PutOp(n, 0)];
    RunLast(Empty<int>(1), PutsBelow(n), PutOp(n, 0));
    var q := RunAll(Empty<int>(1), PutsBelow(n));
    if n == 0 {
      RunNone(Empty<int>(1), PutsBelow(0));
      EmptyOk<int>(1);
      PutOk(q, 0, 0);
      FirstPut();
    } else {
      GhostsWithoutEnd(n - 1);
      PutOk(q, n, 0);
      OneMoreGhost(q, n - 1, n);
    }
  }

  lemma RunNone<V>(q: Queues<V>, ops: seq<Op<V>>)
    requires ops == []
    ensures RunAll(q, ops) == q
  {
  }

  lemma RunLast<V>(q: Queues<V>, ops: seq<Op<V>>, op: Op<V>)
    ensures RunAll(q, ops + [op]) == Applied(RunAll(q, ops), op)
  {
    hide Applied;
    assert (ops + [op])[..|ops|] == ops;
  }

  lemma FirstPut()
    ensures var p := PutIn(Empty<int>(1), 0, 0);
      p.recent.order == [0] && p.frequent.order == [] && p.ghosts.order == [] && p.ghosts.items == map[]
  {
  }

  lemma OneMoreGhost(q: Queues<int>, last: Key, key: Key)
    requires QueuesOk(q) && q.size == 1 && q.recent.order == [last] && q.frequent.order == [] && last < key
    requires forall k :: k in q.ghosts.items ==> k < key
    ensures var p := PutIn(q, key, 0);
      && p.recent.order == [key] && p.frequent.order == [] && |p.ghosts.order| == |q.ghosts.order| + 1
      && forall k :: k in p.ghosts.items ==> k < key
  {
  }
}
