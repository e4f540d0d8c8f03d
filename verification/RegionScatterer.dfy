/** server/schedule/region_scatterer.go: scattering the peers of a region over stores that were not selected lately.
    The target stores are distinct, even if the set of selected stores is reset on the way. */
module RegionScatterer {
  import opened SortedSeq
  import opened Regions

  ghost function StoresFrom(peers: seq<Peer>, i: nat): set<nat> {
    set j | i <= j < |peers| :: peers[j].store
  }

  predicate DistinctStores(peers: seq<Peer>) {
    forall i, j :: 0 <= i < j < |peers| ==> peers[i].store != peers[j].store
  }

  /** A peer that takes another's place is on an available store the region has no peer on. */
  ghost predicate IsTarget(t: Peer, peer: Peer, peers: seq<Peer>, available: set<nat>) {
    t == peer || (t.store in available && t.store !in StoresFrom(peers, 0))
  }

  /** Where a peer goes, given the selected stores and the candidates at its turn: it stays if its store was not
      selected lately, or if there is no better place. */
  function Placed(peer: Peer, selected: set<nat>, candidates: set<nat>, choose: (set<nat>, nat) -> Option<Peer>, i: nat): Peer {
    if peer.store in selected && choose(candidates, i).Some? then choose(candidates, i).value else peer
  }

  /** The available stores that the region has no peer on and that were not selected. */
  ghost function Free(peers: seq<Peer>, available: set<nat>, selected: set<nat>): set<nat> {
    available - StoresFrom(peers, 0) - selected
  }

  /** What is selected before peer `i`'s turn. */
  ghost function Before(selected: set<nat>, seen: seq<set<nat>>, peers: seq<Peer>, targets: seq<Peer>, i: nat): set<nat>
    requires i <= |seen| && i <= |peers| && i <= |targets|
  {
    if i == 0 then selected else seen[i-1] + {peers[i-1].store, targets[i-1].store}
  }

  /** What peer `i` saw selected at its turn, and where it went for it: what was selected before, or nothing if that
      left no store free. */
  ghost predicate StepAt(selected: set<nat>, seen: seq<set<nat>>, peers: seq<Peer>, targets: seq<Peer>, available: set<nat>,
                         choose: (set<nat>, nat) -> Option<Peer>, i: nat)
    requires i < |seen| == |targets| <= |peers|
  {
    var was := Before(selected, seen, peers, targets, i);
    && seen[i] == (if Free(peers, available, was) == {} then {} else was)
    && targets[i] == Placed(peers[i], seen[i], Free(peers, available, seen[i]), choose, i)
  }

  ghost predicate Steps(selected: set<nat>, seen: seq<set<nat>>, peers: seq<Peer>, targets: seq<Peer>, available: set<nat>,
                        choose: (set<nat>, nat) -> Option<Peer>)
  {
    && |seen| == |targets| <= |peers|
    && forall i :: 0 <= i < |seen| ==> StepAt(selected, seen, peers, targets, available, choose, i)
  }

  lemma OneStep(selected: set<nat>, seen: seq<set<nat>>, peers: seq<Peer>, targets: seq<Peer>, available: set<nat>,
                choose: (set<nat>, nat) -> Option<Peer>, now: set<nat>)
    requires Steps(selected, seen, peers, targets, available, choose) && |targets| < |peers|
    requires var was := Before(selected, seen, peers, targets, |targets|); now == if Free(peers, available, was) == {} then {} else was
    ensures Steps(selected, seen + [now], peers,
                  targets + [Placed(peers[|targets|], now, Free(peers, available, now), choose, |targets|)], available, choose)
  {
    hide Placed, Free;
    var n := |targets|;
    var seen', targets' := seen + [now], targets + [Placed(peers[n], now, Free(peers, available, now), choose, n)];
    forall i | 0 <= i <= n ensures StepAt(selected, seen', peers, targets', available, choose, i) {
      if i < n { assert StepAt(selected, seen, peers, targets, available, choose, i); }
    }
  }

  /** In words: a peer on a store that was not selected stays. One on a selected store stays only if none of the free
      stores can take it; otherwise it goes to one of them, which was not selected. */
  lemma StepsMean(selected: set<nat>, seen: seq<set<nat>>, peers: seq<Peer>, targets: seq<Peer>, available: set<nat>,
                  choose: (set<nat>, nat) -> Option<Peer>, i: nat)
    requires Steps(selected, seen, peers, targets, available, choose) && i < |targets|
    requires forall s, i :: choose(s, i).Some? ==> choose(s, i).value.store in s
    ensures peers[i].store !in seen[i] ==> targets[i] == peers[i]
    ensures peers[i].store in seen[i] ==>
      match choose(Free(peers, available, seen[i]), i)
      case Some(t) => targets[i] == t && t.store in available && t.store !in seen[i] && forall j :: 0 <= j < |peers| ==> t.store != peers[j].store
      case None => targets[i] == peers[i]
  {
    assert StepAt(selected, seen, peers, targets, available, choose, i);
    assert forall j :: 0 <= j < |peers| ==> peers[j].store in StoresFrom(peers, 0);
  }

  /** Once a peer was dealt with, its old and its new store are selected for the next, until a reset. */
  lemma SelectedNext(selected: set<nat>, seen: seq<set<nat>>, peers: seq<Peer>, targets: seq<Peer>, available: set<nat>,
                     choose: (set<nat>, nat) -> Option<Peer>, i: nat)
    requires Steps(selected, seen, peers, targets, available, choose) && i + 1 < |targets|
    ensures seen[i+1] == seen[i] + {peers[i].store, targets[i].store} || seen[i+1] == {}
    ensures seen[i+1] == {} ==> Free(peers, available, seen[i] + {peers[i].store, targets[i].store}) == {}
    ensures seen[0] == selected || seen[0] == {}
  {
    hide Placed, Free;
    assert StepAt(selected, seen, peers, targets, available, choose, i + 1);
    assert StepAt(selected, seen, peers, targets, available, choose, 0);
  }

  class RegionScatterer {
    var selected: set<nat>

    constructor ()
      ensures selected == {}
    {
      selected := {};
    }

    /** `selectedStores.put` (region_scatterer.go:44-52). */
    method PutSelected(store: nat) returns (ok: bool)
      modifies this
      ensures ok == (store !in old(selected)) && selected == old(selected) + {store}
    {
      ok := store !in selected;
      selected := selected + {store};
    }

    /** `collectAvailableStores` (region_scatterer.go:174-191): `available` are the stores that pass the other
        filters. */
    function CollectAvailableStores(peers: seq<Peer>, available: set<nat>): (stores: set<nat>)
      reads this
      ensures stores == Free(peers, available, selected)
    {
      CollectedFree(peers, available, selected);
      set s | s in available && s !in selected && forall i :: 0 <= i < |peers| ==> peers[i].store != s
    }

    /** The body of the loop of `scatterRegion` for one peer (region_scatterer.go:119-138). */
    method PlacePeer(peer: Peer, candidates: set<nat>, choose: (set<nat>, nat) -> Option<Peer>, i: nat)
      returns (target: Peer, stores: set<nat>)
      requires peer.store !in candidates && forall s, i :: choose(s, i).Some? ==> choose(s, i).value.store in s
      modifies this
      ensures target == Placed(peer, old(selected), candidates, choose, i)
      ensures peer.store !in old(selected) || choose(candidates, i).None? ==> target == peer
      ensures peer.store in old(selected) && choose(candidates, i).Some? ==> Some(target) == choose(candidates, i)
      ensures selected == old(selected) + {peer.store, target.store} && stores == candidates - {target.store}
    {
      stores := candidates - {peer.store};
      var isNew := PutSelected(peer.store);
      if isNew { return peer, stores; }
      stores := candidates;
      var newPeer := choose(stores, i);
      if newPeer.None? { return peer, stores; }
      stores := stores - {newPeer.value.store};
      var _ := PutSelected(newPeer.value.store);
      target := newPeer.value;
    }

    /** `scatterRegion` (region_scatterer.go:106-142). `choose` picks a new peer on one of the stores it is given, or
        none. Returns the replaced and the target peers, in step, and for the record what each peer saw selected. */
    method ScatterRegion(peers: seq<Peer>, available: set<nat>, choose: (set<nat>, nat) -> Option<Peer>)
      returns (replaced: seq<Peer>, targets: seq<Peer>, ghost seen: seq<set<nat>>)
      requires DistinctStores(peers)
      requires forall s, i :: choose(s, i).Some? ==> choose(s, i).value.store in s
      modifies this
      ensures replaced == peers && |targets| == |peers| && DistinctStores(targets)
      ensures forall i :: 0 <= i < |peers| ==> IsTarget(targets[i], peers[i], peers, available)
      ensures Steps(old(selected), seen, peers, targets, available, choose)
      ensures selected == Before(old(selected), seen, peers, targets, |peers|)
    {
      hide Steps;
      var stores := CollectAvailableStores(peers, available);
      replaced, targets, seen := [], [], [];
      NoStep(selected, peers, available, choose);
      ghost var wasReset := false;
      for i := 0 to |peers|
        invariant replaced == peers[..i] && |targets| == i && |seen| == i
        invariant forall j :: 0 <= j < i ==> IsTarget(targets[j], peers[j], peers, available)
        invariant DistinctStores(targets)
        invariant stores == Free(peers, available, selected)
        invariant !wasReset ==> forall j :: 0 <= j < i ==> targets[j].store !in stores
        invariant wasReset ==> selected !! StoresFrom(peers, i)
        invariant Steps(old(selected), seen, peers, targets, available, choose)
        invariant selected == Before(old(selected), seen, peers, targets, i)
      {
        if stores == {} {
          selected := {};
          wasReset := true;
          stores := CollectAvailableStores(peers, available);
        }
        var peer := peers[i];
        KeepApart(peers, targets, i, available);
        OneStep(old(selected), seen, peers, targets, available, choose, selected);
        seen := seen + [selected];
        var target;
        target, stores := PlacePeer(peer, stores, choose, i);
        targets, replaced := targets + [target], replaced + [peer];
      }
    }
  }

  lemma CollectedFree(peers: seq<Peer>, available: set<nat>, selected: set<nat>)
    ensures (set s | s in available && s !in selected && forall i :: 0 <= i < |peers| ==> peers[i].store != s) == Free(peers, available, selected)
  {
    forall s ensures s in StoresFrom(peers, 0) <==> exists i :: 0 <= i < |peers| && peers[i].store == s {
    }
  }

  lemma NoStep(selected: set<nat>, peers: seq<Peer>, available: set<nat>, choose: (set<nat>, nat) -> Option<Peer>)
    ensures Steps(selected, [], peers, [], available, choose)
  {
  }

  /** A peer that stays is on none of the targets' stores. */
  lemma KeepApart(peers: seq<Peer>, targets: seq<Peer>, i: nat, available: set<nat>)
    requires DistinctStores(peers) && i < |peers| && |targets| == i
    requires forall j :: 0 <= j < i ==> IsTarget(targets[j], peers[j], peers, available)
    ensures forall j :: 0 <= j < i ==> targets[j].store != peers[i].store
    ensures peers[i].store in StoresFrom(peers, i) && peers[i].store in StoresFrom(peers, 0)
    ensures StoresFrom(peers, i) == StoresFrom(peers, i + 1) + {peers[i].store} && peers[i].store !in StoresFrom(peers, i + 1)
  {
  }
}
