/** pkg/cache/lru.go: a list of keys in the order of their use and a map of the items, changed together. */
module Lru {
  import opened SortedSeq

  type Key = nat

  // ---------- what a cache is to its users ----------

  /** The keys, the most recently used first, with their values; `maxCount` 0 means no limit. */
  datatype View<V> = View(maxCount: nat, order: seq<Key>, items: map<Key, V>)

  ghost predicate NoRepeat(s: seq<Key>) {
    forall i, j :: 0 <= i < j < |s| ==> s[i] != s[j]
  }

  ghost function Keys(s: seq<Key>): set<Key> {
    set k | k in s
  }

  /** List and map have the same keys, each once, and no more than the limit. */
  ghost predicate Agree<V>(v: View<V>) {
    && NoRepeat(v.order)
    && Keys(v.order) == v.items.Keys
    && (v.maxCount != 0 ==> |v.order| <= v.maxCount)
  }

  function Minus(s: seq<Key>, key: Key): seq<Key> {
    Filter((k: Key) => k != key, s)
  }

  /** The key comes to the front. */
  function Used<V>(v: View<V>, key: Key): View<V> {
    View(v.maxCount, [key] + Minus(v.order, key), v.items)
  }

  function Removed<V>(v: View<V>, key: Key): View<V> {
    if key in v.items then View(v.maxCount, Minus(v.order, key), v.items - {key}) else v
  }

  /** The least recently used key goes. */
  function WithoutOldest<V>(v: View<V>): View<V> {
    if v.order == [] then v else View(v.maxCount, v.order[..|v.order| - 1], v.items - {v.order[|v.order| - 1]})
  }

  function Stored<V>(v: View<V>, key: Key, value: V): View<V> {
    if key in v.items then Used(v, key).(items := v.items[key := value])
    else
      var w := View(v.maxCount, [key] + v.order, v.items[key := value]);
      if w.maxCount != 0 && |w.order| > w.maxCount then WithoutOldest(w) else w
  }

  // ---------- lists ----------

  lemma {:induction false} MinusIs(s: seq<Key>, key: Key)
    requires NoRepeat(s)
    ensures NoRepeat(Minus(s, key)) && Keys(Minus(s, key)) == Keys(s) - {key}
    ensures |Minus(s, key)| == |s| - if key in s then 1 else 0
  {
    if s != [] {
      var rest := s[1..];
      assert s == [s[0]] + rest;
      MinusIs(rest, key);
      var m := Minus(rest, key);
      assert forall k :: k in m <==> k in Keys(m);
      forall j | 0 <= j < |rest| ensures rest[j] != s[0] { assert s[j + 1] == rest[j]; }
      assert Minus(s, key) == if s[0] != key then [s[0]] + m else m;
      assert s[0] !in Keys(m);
      FrontIs(m, s[0]);
    }
  }

  lemma FrontIs(s: seq<Key>, key: Key)
    requires NoRepeat(s) && key !in s
    ensures NoRepeat([key] + s) && Keys([key] + s) == Keys(s) + {key}
  {
  }

  lemma BackIs(s: seq<Key>)
    requires NoRepeat(s) && s != []
    ensures NoRepeat(s[..|s| - 1]) && Keys(s[..|s| - 1]) == Keys(s) - {s[|s| - 1]}
  {
    assert s == s[..|s| - 1] + [s[|s| - 1]];
  }

  /** As many keys as places in the list. */
  lemma {:induction false} CountKeys(s: seq<Key>)
    requires NoRepeat(s)
    ensures |Keys(s)| == |s|
  {
    if s != [] {
      var n := |s| - 1;
      BackIs(s);
      CountKeys(s[..n]);
      assert s[n] !in s[..n];
      assert Keys(s) == Keys(s[..n]) + {s[n]};
    }
  }

  // ---------- the operations keep list and map in agreement ----------

  lemma UsedAgrees<V>(v: View<V>, key: Key)
    requires Agree(v) && key in v.items
    ensures Agree(Used(v, key)) && |Used(v, key).order| == |v.order|
  {
    hide Minus;
    MinusIs(v.order, key);
    assert key in Keys(v.order);
    NotLeft(v.order, key);
    FrontIs(Minus(v.order, key), key);
  }

  lemma NotLeft(s: seq<Key>, key: Key)
    requires NoRepeat(s)
    ensures key !in Minus(s, key)
  {
    MinusIs(s, key);
    assert key !in Keys(Minus(s, key));
  }

  lemma RemovedAgrees<V>(v: View<V>, key: Key)
    requires Agree(v)
    ensures Agree(Removed(v, key)) && Removed(v, key).items == v.items - {key}
    ensures |Removed(v, key).order| == |v.order| - if key in v.items then 1 else 0
  {
    hide Minus;
    if key in v.items {
      MinusIs(v.order, key);
      assert key in Keys(v.order);
    } else {
      assert v.items - {key} == v.items;
    }
  }

  lemma OldestAgrees<V>(v: View<V>)
    requires Agree(v) && v.order != []
    ensures Agree(WithoutOldest(v)) && |WithoutOldest(v).order| == |v.order| - 1
    ensures v.order[|v.order| - 1] in v.items
  {
    BackIs(v.order);
    assert v.order[|v.order| - 1] in Keys(v.order);
  }

  /** A full cache makes room for a new key; nothing else is lost. */
  lemma PutAgrees<V>(v: View<V>, key: Key, value: V)
    requires Agree(v)
    ensures Agree(Stored(v, key, value))
    ensures key in Stored(v, key, value).items && Stored(v, key, value).items[key] == value
    ensures key in v.items ==> Stored(v, key, value).items == v.items[key := value] && |Stored(v, key, value).order| == |v.order|
    ensures key !in v.items && (v.maxCount == 0 || |v.order| < v.maxCount) ==>
      Stored(v, key, value).items == v.items[key := value] && |Stored(v, key, value).order| == |v.order| + 1
    ensures Stored(v, key, value).items.Keys <= v.items.Keys + {key}
  {
    hide Minus;
    if key in v.items {
      UsedAgrees(v, key);
      assert v.items[key := value].Keys == v.items.Keys;
    } else {
      assert key !in Keys(v.order);
      FrontIs(v.order, key);
      var w := View(0, [key] + v.order, v.items[key := value]);
      if v.maxCount != 0 && |w.order| > v.maxCount {
        BackIs(w.order);
        assert w.order[|w.order| - 1] == v.order[|v.order| - 1];
        assert v.order[|v.order| - 1] in Keys(v.order);
      }
    }
  }

  // ---------- the least recently used goes first ----------

  datatype Use<V> = PutUse(key: Key, value: V) | GetUse(key: Key) | RemoveUse(key: Key)

  function Done<V>(v: View<V>, u: Use<V>): View<V> {
    match u
    case PutUse(key, value) => Stored(v, key, value)
    case GetUse(key) => if key in v.items then Used(v, key) else v
    case RemoveUse(key) => Removed(v, key)
  }

  ghost function AfterUses<V>(maxCount: nat, us: seq<Use<V>>): View<V>
    decreases |us|
  {
    if us == [] then View(maxCount, [], map[]) else Done(AfterUses(maxCount, us[..|us| - 1]), us[|us| - 1])
  }

  /** When a key was last put or got; 0 if never. */
  ghost function LastUse<V>(us: seq<Use<V>>, key: Key): nat
    decreases |us|
  {
    if us == [] then 0
    else if us[|us| - 1].key == key && !us[|us| - 1].RemoveUse? then |us|
    else LastUse(us[..|us| - 1], key)
  }

  /** Each key was used later than those behind it. */
  ghost predicate ByUse<V>(us: seq<Use<V>>, order: seq<Key>) {
    forall i, j :: 0 <= i < j < |order| ==> LastUse(us, order[i]) > LastUse(us, order[j])
  }

  lemma LastUseBound<V>(us: seq<Use<V>>, key: Key)
    ensures LastUse(us, key) <= |us|
    decreases |us|
  {
  }

  /** Filtering keeps the order. */
  lemma {:induction false} MinusByUse<V>(us: seq<Use<V>>, s: seq<Key>, key: Key)
    requires ByUse(us, s)
    ensures ByUse(us, Minus(s, key))
  {
    hide LastUse;
    if s != [] {
      var rest, m := s[1..], Minus(s[1..], key);
      assert s == [s[0]] + rest;
      MinusByUse(us, rest, key);
      assert Minus(s, key) == if s[0] != key then [s[0]] + m else m;
      forall j | 0 <= j < |m| ensures LastUse(us, s[0]) > LastUse(us, m[j]) {
        FilterIn((k: Key) => k != key, rest, m[j]);
        var i :| 0 <= i < |rest| && rest[i] == m[j];
        assert s[i + 1] == m[j];
      }
    }
  }

  /** A key that has just been used goes in front of the others. */
  lemma FrontByUse<V>(us: seq<Use<V>>, u: Use<V>, s: seq<Key>)
    requires ByUse(us, s) && u.key !in s
    ensures ByUse(us + [u], s) && (!u.RemoveUse? ==> ByUse(us + [u], [u.key] + s))
  {
    var us' := us + [u];
    assert us'[..|us|] == us;
    forall k | k in s ensures LastUse(us', k) == LastUse(us, k) <= |us| { LastUseBound(us, k); }
    assert forall i :: 0 <= i < |s| ==> s[i] in s;
  }

  /** After every run the keys are in the order of their last use, the latest first. */
  lemma {:induction false} RunByUse<V>(maxCount: nat, us: seq<Use<V>>)
    ensures Agree(AfterUses(maxCount, us)) && AfterUses(maxCount, us).maxCount == maxCount && ByUse(us, AfterUses(maxCount, us).order)
    decreases |us|
  {
    hide LastUse, ByUse, Agree, Stored, Removed, Used;
    if us == [] {
      NothingUsed<V>(maxCount);
    } else {
      var before, u := us[..|us| - 1], us[|us| - 1];
      assert us == before + [u];
      RunByUse(maxCount, before);
      DoneByUse(AfterUses(maxCount, before), before, u);
    }
  }

  lemma NothingUsed<V>(maxCount: nat)
    ensures Agree<V>(View(maxCount, [], map[])) && ByUse<V>([], [])
  {
  }

  lemma DoneByUse<V>(v: View<V>, us: seq<Use<V>>, u: Use<V>)
    requires Agree(v) && ByUse(us, v.order)
    ensures Agree(Done(v, u)) && Done(v, u).maxCount == v.maxCount && ByUse(us + [u], Done(v, u).order)
  {
    hide Minus, LastUse;
    var key := u.key;
    NotLeft(v.order, key);
    MinusByUse(us, v.order, key);
    FrontByUse(us, u, Minus(v.order, key));
    if key !in v.items {
      assert key !in Keys(v.order);
      FrontByUse(us, u, v.order);
    }
    match u
    case PutUse(_, value) => PutAgrees(v, key, value);
    case GetUse(_) => if key in v.items { UsedAgrees(v, key); }
    case RemoveUse(_) => RemovedAgrees(v, key);
  }

  /** After every run, a put of a key that is not held, into a cache that is full, loses exactly one key: the one whose
      last use is the longest ago. Otherwise it loses none. */
  lemma EvictsOldest<V>(maxCount: nat, us: seq<Use<V>>, key: Key, value: V, lost: Key)
    requires var v := AfterUses(maxCount, us); lost in v.items && lost !in Stored(v, key, value).items
    ensures var v := AfterUses(maxCount, us);
      && maxCount != 0 && |v.order| == maxCount && key !in v.items
      && Stored(v, key, value).items == (v.items - {lost})[key := value]
      && forall k :: k in v.items && k != lost ==> LastUse(us, k) > LastUse(us, lost)
  {
    hide LastUse, Stored, Agree;
    var v := AfterUses(maxCount, us);
    RunByUse(maxCount, us);
    LostIsLast(v, key, value, lost);
    forall k | k in v.items && k != lost ensures LastUse(us, k) > LastUse(us, lost) {
      var i := PlaceIn(v, k);
      assert i < |v.order| - 1;
    }
  }

  lemma PlaceIn<V>(v: View<V>, k: Key) returns (i: nat)
    requires Agree(v) && k in v.items
    ensures i < |v.order| && v.order[i] == k
  {
    assert k in Keys(v.order);
    i :| 0 <= i < |v.order| && v.order[i] == k;
  }

  lemma LostIsLast<V>(v: View<V>, key: Key, value: V, lost: Key)
    requires Agree(v) && lost in v.items && lost !in Stored(v, key, value).items
    ensures v.maxCount != 0 && |v.order| == v.maxCount && key !in v.items && v.order[|v.order| - 1] == lost
    ensures Stored(v, key, value).items == (v.items - {lost})[key := value]
  {
    hide Minus;
    var i := PlaceIn(v, lost);
    PutAgrees(v, key, value);
    var n := |v.order|;
    assert v.order[n-1] in Keys(v.order);
  }

  // ---------- the class ----------

  class LRU<V> {
    const maxCount: nat
    var ll: seq<Key>
    var cache: map<Key, V>

    ghost function Seen(): View<V>
      reads this
    {
      View(maxCount, ll, cache)
    }

    constructor (maxCount: nat)
      ensures Seen() == View(maxCount, [], map[])
    {
      this.maxCount := maxCount;
      ll, cache := [], map[];
    }

    predicate Contains(key: Key)
      reads this
    {
      key in cache
    }

    /** `Put` (lru.go:47-60). */
    method Put(key: Key, value: V)
      requires Agree(Seen())
      modifies this
      ensures Agree(Seen()) && Seen() == Stored(old(Seen()), key, value)
    {
      hide Minus;
      PutAgrees(Seen(), key, value);
      if key in cache {
        ll := [key] + Minus(ll, key);
        cache := cache[key := value];
        return;
      }
      ll := [key] + ll;
      cache := cache[key := value];
      if maxCount != 0 && |ll| > maxCount {
        RemoveOldest();
      }
    }

    /** `Get` (lru.go:63-70). */
    method Get(key: Key) returns (r: Option<V>)
      requires Agree(Seen())
      modifies this
      ensures Agree(Seen())
      ensures r == if key in old(cache) then Some(old(cache)[key]) else None
      ensures Seen() == if key in old(cache) then Used(old(Seen()), key) else old(Seen())
    {
      hide Minus;
      if key in cache {
        UsedAgrees(Seen(), key);
        ll := [key] + Minus(ll, key);
        return Some(cache[key]);
      }
      r := None;
    }

    /** `Peek` (lru.go:73-79). */
    function Peek(key: Key): Option<V>
      reads this
    {
      if key in cache then Some(cache[key]) else None
    }

    /** `remove` (lru.go:92-98). */
    method Remove(key: Key) returns (found: bool)
      requires Agree(Seen())
      modifies this
      ensures Agree(Seen()) && Seen() == Removed(old(Seen()), key) && found == (key in old(cache))
    {
      hide Minus;
      RemovedAgrees(Seen(), key);
      if key in cache {
        ll, cache := Minus(ll, key), cache - {key};
        return true;
      }
      found := false;
    }

    /** `removeOldest` (lru.go:100-105). */
    method RemoveOldest()
      modifies this
      ensures Seen() == WithoutOldest(old(Seen()))
    {
      if ll != [] {
        var key := ll[|ll| - 1];
        ll, cache := ll[..|ll| - 1], cache - {key};
      }
    }

    /** `getAndRemoveOldest` (lru.go:107-114). */
    method GetAndRemoveOldest() returns (key: Key, found: bool)
      modifies this
      ensures Seen() == WithoutOldest(old(Seen()))
      ensures found == (old(ll) != []) && (found ==> key == old(ll)[|old(ll)| - 1])
    {
      if ll == [] { return 0, false; }
      key, found := ll[|ll| - 1], true;
      RemoveOldest();
    }
  }
}
