/** server/core/region_storage.go:122-159: loading the stored regions into the cache, page by page, while the
    regions that later ones overlap are deleted from the storage. */
module RegionStorage {
  import opened SortedSeq
  import opened Bytes
  import opened Regions
  import opened RegionIndex
  import opened RegionPath
  import opened RegionsInfo
  import Heartbeat

  const MAX_KV_RANGE_LIMIT := 10000
  const MIN_KV_RANGE_LIMIT := 100

  // ---------- the key-value store ----------

  /** A stored pair; `None` is a value that is not an encoded region. */
  datatype Entry = Entry(key: Bytes, value: Option<Region>)

  predicate ByKey(a: Entry, b: Entry) {
    Lt(a.key, b.key)
  }

  predicate Between(e: Entry, start: Bytes, end: Bytes) {
    Le(start, e.key) && Lt(e.key, end)
  }

  function InPage(start: Bytes, end: Bytes): Entry -> bool {
    e => Between(e, start, end)
  }

  /** What every `kv.Base` does: the first `limit` pairs with keys in [start, end), in key order. */
  function LoadRange(kv: seq<Entry>, start: Bytes, end: Bytes, limit: nat): (res: seq<Entry>)
    ensures |res| <= limit
  {
    var all := Filter(InPage(start, end), kv);
    if |all| <= limit then all else all[..limit]
  }

  function NotIn(keys: set<Bytes>): Entry -> bool {
    (e: Entry) => e.key !in keys
  }

  /** The pairs left after removing keys. */
  function RemoveKeys(kv: seq<Entry>, keys: set<Bytes>): seq<Entry> {
    Filter(NotIn(keys), kv)
  }

  lemma {:induction false} FilterFilter<T(!new)>(p: T -> bool, q: T -> bool, r: T -> bool, s: seq<T>)
    requires forall x :: r(x) <==> p(x) && q(x)
    ensures Filter(p, Filter(q, s)) == Filter(r, s)
  {
    if s != [] {
      FilterFilter(p, q, r, s[1..]);
      FilterConcat(p, if q(s[0]) then [s[0]] else [], Filter(q, s[1..]));
      assert Filter(p, [s[0]]) == if p(s[0]) then [s[0]] else [];
    }
  }

  // ---------- what is in the storage ----------

  /** The pairs in the range `loadRegions` reads. */
  function Stored(kv: seq<Entry>): seq<Entry> {
    Filter(InPage(Path(0), Path(MAX_UINT64)), kv)
  }

  predicate IsPath(key: Bytes, id: nat) {
    key == Path(id)
  }

  /** Only region paths are in the range, and a value there is that region or broken. */
  ghost predicate EntryOk(e: Entry) {
    && (exists id: nat :: id < MAX_UINT64 && IsPath(e.key, id))
    && (e.value.Some? ==> e.value.value.id < MAX_UINT64 && e.key == Path(e.value.value.id) && RegionOk(e.value.value))
  }

  ghost predicate KvOk(kv: seq<Entry>) {
    Sorted(ByKey, kv) && forall e :: e in Stored(kv) ==> EntryOk(e)
  }

  ghost predicate HasKey(kv: seq<Entry>, key: Bytes) {
    exists e :: e in kv && e.key == key
  }

  /** The row of regions after setting them one after another. */
  ghost function SetAll(rs: seq<Region>): seq<Region> {
    if rs == [] then [] else
      var s, r := SetAll(rs[..|rs| - 1]), rs[|rs| - 1];
      Updated(OtherIds(s, r.id), r)
  }

  ghost function Values(es: seq<Entry>): (rs: seq<Region>)
    requires forall i :: 0 <= i < |es| ==> es[i].value.Some?
    ensures |rs| == |es| && forall i :: 0 <= i < |es| ==> rs[i] == es[i].value.value
  {
    seq(|es|, i requires 0 <= i < |es| => es[i].value.value)
  }

  /** How far a load has come: the entries of `all` up to `v` are set into the cache, those from `v` on are what
      the storage has from `nextID` on, and below `nextID` the stored ids are the cached ones. */
  ghost predicate Loaded(kv: seq<Entry>, all: seq<Entry>, v: nat, nextID: nat, row: seq<Region>) {
    && v <= |all| && nextID <= MAX_UINT64
    && (forall i :: 0 <= i < v ==> all[i].value.Some?)
    && row == SetAll(Values(all[..v]))
    && Filter(InPage(Path(nextID), Path(MAX_UINT64)), kv) == all[v..]
    && (forall id :: 0 <= id < nextID ==> (HasKey(kv, Path(id)) <==> id in Heartbeat.IdsOf(row)))
    && (forall id :: id in Heartbeat.IdsOf(row) ==> id < nextID)
  }

  /** Paging through the storage visits the entries in the order of their ids. */
  ghost predicate Ascending(all: seq<Entry>) {
    && Sorted(ByKey, all)
    && forall i :: 0 <= i < |all| ==> EntryOk(all[i]) && Between(all[i], Path(0), Path(MAX_UINT64))
  }

  lemma StoredAscending(kv: seq<Entry>)
    requires KvOk(kv)
    ensures Ascending(Stored(kv))
  {
    hide Lt, EntryOk, Between, Filter;
    var p := InPage(Path(0), Path(MAX_UINT64));
    FilterSorted(p, kv);
    forall i | 0 <= i < |Stored(kv)| ensures Between(Stored(kv)[i], Path(0), Path(MAX_UINT64)) {
      FilterIn(p, kv, Stored(kv)[i]);
    }
  }

  lemma {:induction false} FilterSorted(p: Entry -> bool, s: seq<Entry>)
    requires Sorted(ByKey, s)
    ensures Sorted(ByKey, Filter(p, s))
  {
    if s != [] {
      var f := Filter(p, s[1..]);
      FilterSorted(p, s[1..]);
      forall i | 0 <= i < |f| ensures ByKey(s[0], f[i]) {
        FilterIn(p, s[1..], f[i]);
        var j :| 0 <= j < |s[1..]| && s[1..][j] == f[i];
        assert s[j + 1] == f[i];
      }
    }
  }

  /** The next entry has an id of `nextID` or more, and what follows it a greater one. */
  lemma NextEntry(kv: seq<Entry>, all: seq<Entry>, v: nat, nextID: nat)
    requires Ascending(all) && v < |all| && nextID <= MAX_UINT64 && all[v].value.Some?
    requires Filter(InPage(Path(nextID), Path(MAX_UINT64)), kv) == all[v..]
    ensures var id := all[v].value.value.id;
      && nextID <= id < MAX_UINT64
      && Filter(InPage(Path(id + 1), Path(MAX_UINT64)), kv) == all[v+1..]
      && (forall k :: nextID <= k <= id ==> (HasKey(kv, Path(k)) <==> k == id))
  {
    hide Lt, Filter, Path, EntryOk, Ascending, Between, HasKey;
    var id := all[v].value.value.id;
    var p, q := InPage(Path(nextID), Path(MAX_UINT64)), InPage(Path(id + 1), Path(MAX_UINT64));
    FirstIn(kv, all, v, nextID);
    PageNarrows(nextID, id + 1);
    FilterFilter(q, p, q, kv);
    BehindNext(all, v);
    NotBehind(all[v], id);
    assert all[v..] == [all[v]] + all[v+1..];
    FilterConcat(q, [all[v]], all[v+1..]);
    FilterNone(q, [all[v]]);
    FilterAll(q, all[v+1..]);
    forall k | nextID <= k <= id ensures HasKey(kv, Path(k)) <==> k == id {
      KeyThere(kv, all, v, nextID, k);
    }
  }

  lemma FirstIn(kv: seq<Entry>, all: seq<Entry>, v: nat, nextID: nat)
    requires Ascending(all) && v < |all| && nextID <= MAX_UINT64 && all[v].value.Some?
    requires Filter(InPage(Path(nextID), Path(MAX_UINT64)), kv) == all[v..]
    ensures EntryOk(all[v]) && nextID <= all[v].value.value.id < MAX_UINT64 && all[v].key == Path(all[v].value.value.id)
  {
    hide Lt, Filter, Path;
    LtOrder();
    assert EntryOk(all[v]);
    assert all[v] in all[v..];
    FilterIn(InPage(Path(nextID), Path(MAX_UINT64)), kv, all[v]);
    PathOrder(nextID, all[v].value.value.id);
    PathOrder(all[v].value.value.id, nextID);
  }

  lemma PageNarrows(low: nat, high: nat)
    requires low <= high <= MAX_UINT64
    ensures forall e: Entry :: Between(e, Path(high), Path(MAX_UINT64)) ==> Between(e, Path(low), Path(MAX_UINT64))
  {
    hide Lt, Path;
    LtOrder();
    PathOrder(low, high);
  }

  lemma NotBehind(e: Entry, id: nat)
    requires id < MAX_UINT64 && e.key == Path(id)
    ensures !Between(e, Path(id + 1), Path(MAX_UINT64))
  {
    hide Lt, Path;
    LtOrder();
    PathOrder(id, id + 1);
  }

  lemma KeyThere(kv: seq<Entry>, all: seq<Entry>, v: nat, nextID: nat, k: nat)
    requires Ascending(all) && v < |all| && all[v].value.Some? && EntryOk(all[v])
    requires Filter(InPage(Path(nextID), Path(MAX_UINT64)), kv) == all[v..]
    requires nextID <= k <= all[v].value.value.id
    ensures HasKey(kv, Path(k)) <==> k == all[v].value.value.id
  {
    hide Lt, Filter, Path;
    LtOrder();
    var p, id := InPage(Path(nextID), Path(MAX_UINT64)), all[v].value.value.id;
    PathOrder(k, id);
    PathOrder(nextID, k);
    PathOrder(k, MAX_UINT64);
    FilterIn(p, kv, all[v]);
    assert all[v] in all[v..];
    if e :| e in kv && e.key == Path(k) {
      FilterIn(p, kv, e);
      var i :| 0 <= i < |all[v..]| && all[v..][i] == e;
      assert all[v + i] == e && (i > 0 ==> ByKey(all[v], all[v + i]));
    }
  }

  lemma BehindNext(all: seq<Entry>, v: nat)
    requires Ascending(all) && v < |all| && all[v].value.Some?
    ensures forall i :: v < i < |all| ==> Between(all[i], Path(all[v].value.value.id + 1), Path(MAX_UINT64))
  {
    hide Lt, Filter, Path;
    LtOrder();
    var id := all[v].value.value.id;
    forall i | v < i < |all| ensures Between(all[i], Path(id + 1), Path(MAX_UINT64)) {
      assert ByKey(all[v], all[i]) && EntryOk(all[i]) && EntryOk(all[v]);
      NextKey(id, all[i]);
    }
  }

  /** Between the paths of two consecutive ids there is no region's. */
  lemma NextKey(id: nat, e: Entry)
    requires id < MAX_UINT64 && Lt(Path(id), e.key) && EntryOk(e)
    ensures Le(Path(id + 1), e.key)
  {
    hide Lt, Path;
    var k: nat :| k < MAX_UINT64 && IsPath(e.key, k);
    PathOrder(id, k);
    PathOrder(id + 1, k);
  }

  // ---------- one region ----------

  /** The filter that removes one key after others. */
  lemma RemoveOne(kv: seq<Entry>, keys: set<Bytes>, key: Bytes)
    ensures RemoveKeys(RemoveKeys(kv, keys), {key}) == RemoveKeys(kv, keys + {key})
  {
    FilterFilter(NotIn({key}), NotIn(keys), NotIn(keys + {key}), kv);
  }

  ghost function Paths(rs: seq<Region>): set<Bytes> {
    set r | r in rs :: Path(r.id)
  }

  /** Sets one region and deletes what it overlaps (region_storage.go:147-152). */
  method LoadOne(core: RegionsInfo, kv: seq<Entry>, region: Region, deleteFails: set<nat>) returns (kv': seq<Entry>, ok: bool)
    requires core.Ok() && RegionOk(region)
    modifies core
    ensures core.Ok() && core.Contents() == Updated(OtherIds(old(core.Contents()), region.id), region)
    ensures ok ==> kv' == RemoveKeys(kv, Paths(Overlaps(OtherIds(old(core.Contents()), region.id), region.start, region.end)))
    ensures deleteFails == {} ==> ok
  {
    hide RegionsInfo.Ok, RegionsInfo.Contents, RemoveKeys, Path, Overlaps, OtherIds, Updated, RegionOk;
    var overlaps := core.SetRegion(region);
    kv', ok := kv, true;
    RemoveNothing(kv);
    assert Paths(overlaps[..0]) == {};
    for i := 0 to |overlaps|
      modifies {}
      invariant kv' == RemoveKeys(kv, Paths(overlaps[..i]))
    {
      if overlaps[i].id in deleteFails { return kv', false; }
      assert overlaps[..i+1] == overlaps[..i] + [overlaps[i]];
      assert Paths(overlaps[..i+1]) == Paths(overlaps[..i]) + {Path(overlaps[i].id)};
      RemoveOne(kv, Paths(overlaps[..i]), Path(overlaps[i].id));
      kv' := RemoveKeys(kv', {Path(overlaps[i].id)});
    }
    assert overlaps[..|overlaps|] == overlaps;
  }

  lemma RemoveNothing(kv: seq<Entry>)
    ensures RemoveKeys(kv, {}) == kv
  {
    FilterAll(NotIn({}), kv);
  }

  /** That takes the load one entry further. */
  lemma LoadedStep(kv: seq<Entry>, all: seq<Entry>, v: nat, nextID: nat, row: seq<Region>)
    requires Ascending(all) && v < |all| && all[v].value.Some? && Loaded(kv, all, v, nextID, row) && Heartbeat.RowOk(row)
    ensures var r := all[v].value.value;
      var keys := Paths(Overlaps(OtherIds(row, r.id), r.start, r.end));
      Loaded(RemoveKeys(kv, keys), all, v + 1, r.id + 1, Updated(OtherIds(row, r.id), r))
  {
    hide Filter, Path, Lt, RangesOk, Overlaps, OtherIds, Updated, EntryOk, RegionOk, Heartbeat.IdsOf, WellFormed, HasKey;
    var r := all[v].value.value;
    var overlaps := Overlaps(OtherIds(row, r.id), r.start, r.end);
    var keys := Paths(overlaps);
    var kv', row' := RemoveKeys(kv, keys), Updated(OtherIds(row, r.id), r);
    EntryFacts(all[v]);
    NextEntry(kv, all, v, nextID);
    Heartbeat.StepIds(row, r, overlaps);
    OverlapIds(row, r, overlaps);
    var p := InPage(Path(r.id + 1), Path(MAX_UINT64));
    forall e: Entry ensures p(e) <==> p(e) && NotIn(keys)(e) {
      if p(e) && e.key in keys { BelowNext(e.key, overlaps, r.id + 1); }
    }
    FilterFilter(p, NotIn(keys), p, kv);
    SetAllStep(all, v);
    forall id: nat | id < r.id + 1 ensures HasKey(kv', Path(id)) <==> id in Heartbeat.IdsOf(row') {
      KeyLeft(kv, overlaps, id);
    }
  }

  lemma EntryFacts(e: Entry)
    requires EntryOk(e) && e.value.Some?
    ensures e.value.value.id < MAX_UINT64 && RegionOk(e.value.value) && WellFormed(e.value.value) && e.key == Path(e.value.value.id)
  {
  }

  lemma OverlapIds(row: seq<Region>, r: Region, overlaps: seq<Region>)
    requires Heartbeat.RowOk(row) && WellFormed(r) && overlaps == Overlaps(OtherIds(row, r.id), r.start, r.end)
    ensures forall x :: x in overlaps ==> x in row && x.id != r.id
    ensures forall id :: id in Heartbeat.IdsOf(overlaps) ==> id in Heartbeat.IdsOf(row) && id != r.id
    ensures forall x :: x in overlaps ==> x.id in Heartbeat.IdsOf(row)
  {
    hide RangesOk, Overlaps, OtherIds, Updated, WellFormed, Intersects;
    forall x | x in overlaps ensures x in row && x.id != r.id {
      SetMeans(row, r, x);
    }
  }

  lemma BelowNext(key: Bytes, overlaps: seq<Region>, next: nat)
    requires key in Paths(overlaps) && next <= MAX_UINT64 && forall x :: x in overlaps ==> x.id < next
    ensures Lt(key, Path(next)) && !Le(Path(next), key)
  {
    hide Lt, Path;
    LtOrder();
    var x :| x in overlaps && key == Path(x.id);
    PathOrder(x.id, next);
  }

  lemma SetAllStep(all: seq<Entry>, v: nat)
    requires v < |all| && forall i :: 0 <= i <= v ==> all[i].value.Some?
    ensures var r := all[v].value.value;
      SetAll(Values(all[..v+1])) == Updated(OtherIds(SetAll(Values(all[..v])), r.id), r)
  {
    hide Updated, OtherIds;
    var a, b := Values(all[..v]), Values(all[..v+1]);
    assert b[..v] == a && b[v] == all[v].value.value;
  }

  lemma KeyLeft(kv: seq<Entry>, overlaps: seq<Region>, id: nat)
    requires id <= MAX_UINT64 && forall x :: x in overlaps ==> x.id <= MAX_UINT64
    ensures HasKey(RemoveKeys(kv, Paths(overlaps)), Path(id)) <==> HasKey(kv, Path(id)) && id !in Heartbeat.IdsOf(overlaps)
  {
    hide Path, Filter;
    forall e: Entry ensures e in RemoveKeys(kv, Paths(overlaps)) <==> e in kv && e.key !in Paths(overlaps) {
      FilterIn(NotIn(Paths(overlaps)), kv, e);
    }
    assert Path(id) in Paths(overlaps) <==> id in Heartbeat.IdsOf(overlaps) by {
      forall x | x in overlaps ensures Path(x.id) == Path(id) <==> x.id == id { PathOrder(x.id, id); }
    }
  }

  // ---------- the whole load ----------

  /** The page size after some failed calls. */
  function Halved(failed: nat): nat {
    if failed == 0 then 10000 else Halved(failed - 1) / 2
  }

  /** Six failures leave pages of 156 regions, a seventh is too many. */
  lemma SixHalvings(failed: nat)
    requires failed <= 7
    ensures Halved(failed) >= 100 <==> failed < 7
  {
    assert Halved(1) == 5000 && Halved(2) == 2500;
    assert Halved(3) == 1250 && Halved(4) == 625;
    assert Halved(5) == 312 && Halved(6) == 156;
    assert Halved(7) == 78;
  }

  /** `loadRegions` into an empty cache. `rangeFails` and `deleteFails` say which storage calls fail. `visited` logs
      the regions given to the cache, in order; `failed` counts the failed range calls. */
  method LoadRegions(core: RegionsInfo, kv: seq<Entry>, rangeFails: nat -> bool, deleteFails: set<nat>)
    returns (kv': seq<Entry>, ok: bool, ghost visited: seq<Region>, ghost failed: nat)
    requires core.Ok() && core.Contents() == [] && KvOk(kv)
    modifies core
    ensures core.Ok() && core.Contents() == SetAll(visited)
    ensures |visited| <= |Stored(kv)| && forall i :: 0 <= i < |visited| ==> Stored(kv)[i].value == Some(visited[i])
    ensures ok ==> |visited| == |Stored(kv)|
    ensures deleteFails == {} && (forall e :: e in Stored(kv) ==> e.value.Some?) ==> (ok <==> failed < 7)
    ensures (forall n :: !rangeFails(n)) ==> failed == 0
    ensures ok ==> forall id: nat :: id < MAX_UINT64 ==> (HasKey(kv', Path(id)) <==> id in Heartbeat.IdsOf(core.Contents()))
  {
    hide RegionsInfo.Ok, RegionsInfo.Contents, Filter, Path, Lt, EntryOk, Heartbeat.RowOk, RegionOk, Updated, OtherIds, Overlaps,
      RemoveKeys, HasKey, Heartbeat.IdsOf, SetAll, LoadRange, KvOk, Ascending;
    ghost var all, v := Stored(kv), 0;
    StoredAscending(kv);
    LoadedStart(kv);
    var nextID: nat, rangeLimit: nat, calls: nat := 0, MAX_KV_RANGE_LIMIT, 0;
    kv', ok, visited, failed := kv, false, [], 0;
    while true
      modifies core
      invariant core.Ok() && Loaded(kv', all, v, nextID, core.Contents()) && rangeLimit >= MIN_KV_RANGE_LIMIT
      invariant visited == Values(all[..v])
      invariant rangeLimit == Halved(failed) && failed < 7 && ((forall n :: !rangeFails(n)) ==> failed == 0)
      decreases |all| - v, rangeLimit
    {
      calls := calls + 1;
      if rangeFails(calls) {
        rangeLimit := rangeLimit / 2;
        failed := failed + 1;
        SixHalvings(failed);
        if rangeLimit >= MIN_KV_RANGE_LIMIT { continue; }
        return;
      }
      var res := LoadRange(kv', Path(nextID), Path(MAX_UINT64), rangeLimit);
      PageIs(kv', all, v, nextID, rangeLimit);
      ghost var v0 := v;
      assert v0 + |res| <= |all|;
      for i := 0 to |res|
        modifies core
        invariant core.Ok() && v == v0 + i && Loaded(kv', all, v, nextID, core.Contents())
        invariant visited == Values(all[..v])
      {
        assert res[i] == all[v] && all[v] in all;
        if res[i].value.None? { return; }
        var region := res[i].value.value;
        AscendingAt(all, v);
        EntryFacts(res[i]);
        Heartbeat.IdsUnique(core);
        LoadedStep(kv', all, v, nextID, core.Contents());
        OneMoreValue(all, v);
        nextID := region.id + 1;
        var deleted;
        visited := visited + [region];
        kv', deleted := LoadOne(core, kv', region, deleteFails);
        if !deleted { return; }
        v := v + 1;
      }
      if |res| < rangeLimit {
        LoadedEnd(kv', all, nextID, core.Contents());
        ok := true;
        return;
      }
    }
  }

  lemma OneMoreValue(all: seq<Entry>, v: nat)
    requires v < |all| && forall i :: 0 <= i <= v ==> all[i].value.Some?
    ensures Values(all[..v+1]) == Values(all[..v]) + [all[v].value.value]
  {
  }

  lemma LoadedStart(kv: seq<Entry>)
    ensures Loaded(kv, Stored(kv), 0, 0, [])
  {
    assert Stored(kv)[0..] == Stored(kv);
  }

  lemma PageIs(kv: seq<Entry>, all: seq<Entry>, v: nat, nextID: nat, limit: nat)
    requires v <= |all| && Filter(InPage(Path(nextID), Path(MAX_UINT64)), kv) == all[v..]
    ensures var res := LoadRange(kv, Path(nextID), Path(MAX_UINT64), limit);
      && |res| == (if |all| - v <= limit then |all| - v else limit)
      && forall i :: 0 <= i < |res| ==> res[i] == all[v + i]
  {
    hide Filter, Path;
  }

  lemma AscendingAt(all: seq<Entry>, v: nat)
    requires Ascending(all) && v < |all|
    ensures EntryOk(all[v])
  {
  }

  /** With nothing left, all ids are below the next one or without a key. */
  lemma LoadedEnd(kv: seq<Entry>, all: seq<Entry>, nextID: nat, row: seq<Region>)
    requires Loaded(kv, all, |all|, nextID, row)
    ensures (forall i :: 0 <= i < |all| ==> all[i].value.Some?) && row == SetAll(Values(all))
    ensures forall e :: e in all ==> e.value.Some?
    ensures forall id: nat :: id < MAX_UINT64 ==> (HasKey(kv, Path(id)) <==> id in Heartbeat.IdsOf(row))
  {
    hide Filter, Path, Lt, SetAll, Heartbeat.IdsOf;
    assert all[..|all|] == all;
    forall id: nat | nextID <= id < MAX_UINT64 ensures !HasKey(kv, Path(id)) {
      PathOrder(nextID, id);
      PathOrder(id, MAX_UINT64);
      if e :| e in kv && e.key == Path(id) {
        FilterIn(InPage(Path(nextID), Path(MAX_UINT64)), kv, e);
      }
    }
  }

  /** The visited regions come in ascending order of their ids, each once. */
  lemma VisitedAscending(kv: seq<Entry>)
    requires KvOk(kv) && forall e :: e in Stored(kv) ==> e.value.Some?
    ensures var rs := Values(Stored(kv));
      forall i, j :: 0 <= i < j < |rs| ==> rs[i].id < rs[j].id
  {
    hide Lt, Path, KvOk;
    StoredAscending(kv);
    var all := Stored(kv);
    forall i, j | 0 <= i < j < |all| ensures all[i].value.value.id < all[j].value.value.id {
      assert ByKey(all[i], all[j]) && EntryOk(all[i]) && EntryOk(all[j]);
      PathOrder(all[i].value.value.id, all[j].value.value.id);
    }
  }
}
