/** server/id/id.go: allocators on any number of servers take blocks of ids from one counter in etcd. The read of
    the counter, the transaction and its reply are separate steps; a transaction may fail, or take effect after its
    caller has been told of an error; leaders change; a restarted server has a new allocator. No id is given twice. */
module IdAllocator {
  import opened SortedSeq

  const ALLOC_STEP := 1000

  type Id = nat
  type Member = nat

  /** Where `generate` is: not called, the counter read, the transaction sent. */
  datatype Phase = Idle | HasRead(value: Option<nat>) | Waiting(txn: nat)

  datatype Allocator = Allocator(member: Member, base: nat, end: nat, phase: Phase)

  /** The compare-and-put of `generate`: the counter as read, the new value; `done` once etcd has decided on it. */
  datatype Txn = Txn(allocator: Id, member: Member, was: Option<nat>, end: nat, done: bool, succeeded: bool)

  /** An id that `Alloc` has returned, and the block it is from. */
  datatype Issue = Issue(allocator: Id, block: nat, id: nat)

  datatype State = State(
    counter: Option<nat>,                  // etcd's alloc_id key
    leader: Option<Member>,                // etcd's leader key
    allocators: map<Id, Allocator>,
    txns: map<nat, Txn>,
    issued: seq<Issue>)

  function Value(c: Option<nat>): nat {
    if c.Some? then c.value else 0
  }

  /** Nothing is allocated; the counter may have any value. */
  function Init(counter: Option<nat>): State {
    State(counter, None, map[], map[], [])
  }

  datatype Action =
    | SetLeader(m: Option<Member>)         // the election changes the leader key
    | NewAllocator(a: Id, member: Member)  // a server starts, or starts again
    | Next(a: Id)                          // Alloc with ids left in the block
    | Read(a: Id)                          // generate reads the counter
    | Send(a: Id, t: nat)                  // and sends its transaction
    | Apply(t: nat)                        // etcd decides on a transaction
    | Reply(a: Id)                         // generate gets the answer, and Alloc goes on
    | GiveUp(a: Id)                        // generate gets an error instead

  predicate Enabled(st: State, act: Action) {
    match act
    case SetLeader(_) => true
    case NewAllocator(a, _) => a !in st.allocators
    case Next(a) => a in st.allocators && st.allocators[a].phase.Idle? && st.allocators[a].base != st.allocators[a].end
    case Read(a) => a in st.allocators && st.allocators[a].phase.Idle? && st.allocators[a].base == st.allocators[a].end
    case Send(a, t) => a in st.allocators && st.allocators[a].phase.HasRead? && t !in st.txns
    case Apply(t) => t in st.txns && !st.txns[t].done
    case Reply(a) =>
      a in st.allocators && st.allocators[a].phase.Waiting? && st.allocators[a].phase.txn in st.txns && st.txns[st.allocators[a].phase.txn].done
    case GiveUp(a) => a in st.allocators && !st.allocators[a].phase.Idle?
  }

  function SetAllocator(st: State, a: Id, x: Allocator): State {
    st.(allocators := st.allocators[a := x])
  }

  /** The next id of the block. */
  function Take(st: State, a: Id, x: Allocator): State {
    SetAllocator(st, a, x.(base := x.base + 1)).(issued := st.issued + [Issue(a, x.end, x.base + 1)])
  }

  function Step(st: State, act: Action): State
    requires Enabled(st, act)
  {
    match act
    case SetLeader(m) => st.(leader := m)
    case NewAllocator(a, member) => SetAllocator(st, a, Allocator(member, 0, 0, Idle))
    case Next(a) => Take(st, a, st.allocators[a])
    case Read(a) => SetAllocator(st, a, st.allocators[a].(phase := HasRead(st.counter)))
    case Send(a, t) =>
      var x := st.allocators[a];
      SetAllocator(st, a, x.(phase := Waiting(t)))
        .(txns := st.txns[t := Txn(a, x.member, x.phase.value, Value(x.phase.value) + ALLOC_STEP, false, false)])
    case Apply(t) =>
      var x := st.txns[t];
      if st.counter == x.was && st.leader == Some(x.member)
      then st.(counter := Some(x.end), txns := st.txns[t := x.(done := true, succeeded := true)])
      else st.(txns := st.txns[t := x.(done := true)])
    case Reply(a) =>
      var x := st.allocators[a];
      var t := st.txns[x.phase.txn];
      if t.succeeded then Take(st, a, x.(end := t.end, base := if t.end >= ALLOC_STEP then t.end - ALLOC_STEP else 0, phase := Idle))
      else SetAllocator(st, a, x.(phase := Idle))
    case GiveUp(a) => SetAllocator(st, a, st.allocators[a].(phase := Idle))
  }

  // ---------- the invariant ----------

  /** A block is all of the ids up to its end. */
  predicate InBlock(id: nat, block: nat) {
    block - ALLOC_STEP < id <= block
  }

  /** A transaction that has succeeded owns its block: it is below the counter and clear of all others. */
  ghost predicate TxnOk(st: State, t: nat) {
    t in st.txns ==>
      var x := st.txns[t];
      && x.allocator in st.allocators && x.end == Value(x.was) + ALLOC_STEP
      && (x.succeeded ==> x.done && st.counter.Some? && x.end <= st.counter.value)
  }

  ghost predicate TxnsApart(st: State, t: nat, u: nat) {
    t in st.txns && u in st.txns && t != u && st.txns[t].succeeded && st.txns[u].succeeded ==>
      st.txns[t].end + ALLOC_STEP <= st.txns[u].end || st.txns[u].end + ALLOC_STEP <= st.txns[t].end
  }

  ghost predicate Got(st: State, t: nat, a: Id, block: nat) {
    t in st.txns && st.txns[t].succeeded && st.txns[t].allocator == a && st.txns[t].end == block
  }

  /** The block was got by a transaction of the allocator. */
  ghost predicate Owns(st: State, a: Id, block: nat) {
    exists t :: Got(st, t, a, block)
  }

  /** An allocator's block is one it has got, and is used up to `base`; the block it waits for lies behind. */
  ghost predicate AllocatorOk(st: State, a: Id) {
    a in st.allocators ==>
      var x := st.allocators[a];
      && x.base <= x.end && (x.base < x.end ==> x.end - ALLOC_STEP < x.base)
      && x.end <= Value(st.counter)
      && (x.base < x.end ==> Owns(st, a, x.end))
      && (x.phase.Waiting? ==>
           && x.phase.txn in st.txns && st.txns[x.phase.txn].allocator == a
           && (st.txns[x.phase.txn].succeeded ==> x.end + ALLOC_STEP <= st.txns[x.phase.txn].end))
  }

  /** What is issued is from a block its allocator has got, up to that allocator's base. */
  ghost predicate IssueOk(st: State, i: nat) {
    i < |st.issued| ==>
      var x := st.issued[i];
      && InBlock(x.id, x.block)
      && x.allocator in st.allocators && x.id <= st.allocators[x.allocator].base && x.block <= st.allocators[x.allocator].end
      && Owns(st, x.allocator, x.block)
  }

  ghost predicate Distinct(issued: seq<Issue>) {
    && (forall i, j :: 0 <= i < j < |issued| ==> issued[i].id != issued[j].id)
    && (forall i, j :: 0 <= i < j < |issued| && issued[i].allocator == issued[j].allocator ==> issued[i].id < issued[j].id)
  }

  ghost predicate Inv(st: State) {
    && (forall t :: TxnOk(st, t))
    && (forall t, u :: TxnsApart(st, t, u))
    && (forall a :: AllocatorOk(st, a))
    && (forall i :: IssueOk(st, i))
    && Distinct(st.issued)
  }

  lemma InitInv(counter: Option<nat>)
    ensures Inv(Init(counter))
  {
  }

  /** A new transaction succeeds with a block behind the counter. */
  lemma StepTxns(st: State, act: Action, t: nat, u: nat)
    requires Inv(st) && Enabled(st, act)
    ensures TxnOk(Step(st, act), t) && TxnsApart(Step(st, act), t, u)
  {
    assert TxnOk(st, t) && TxnOk(st, u) && TxnsApart(st, t, u);
    if act.Apply? { assert TxnOk(st, act.t); }
  }

  lemma StepOwns(st: State, act: Action, a: Id, block: nat)
    requires Inv(st) && Enabled(st, act) && Owns(st, a, block)
    ensures Owns(Step(st, act), a, block)
  {
    var t :| Got(st, t, a, block);
    assert Got(Step(st, act), t, a, block);
  }

  lemma StepAllocators(st: State, act: Action, a: Id)
    requires Inv(st) && Enabled(st, act)
    ensures AllocatorOk(Step(st, act), a)
  {
    assert AllocatorOk(st, a);
    if a in st.allocators && Owns(st, a, st.allocators[a].end) { StepOwns(st, act, a, st.allocators[a].end); }
    if act.Apply? { assert TxnOk(st, act.t); }
    if act.Reply? && act.a == a {
      assert TxnOk(st, st.allocators[a].phase.txn);
      var t := st.allocators[a].phase.txn;
      if st.txns[t].succeeded { assert Got(Step(st, act), t, a, st.txns[t].end); }
    }
  }

  lemma StepIssues(st: State, act: Action, i: nat)
    requires Inv(st) && Enabled(st, act)
    ensures IssueOk(Step(st, act), i)
  {
    assert IssueOk(st, i);
    if i < |st.issued| { StepOwns(st, act, st.issued[i].allocator, st.issued[i].block); }
    if act.Next? || act.Reply? { assert AllocatorOk(st, act.a); }
    if act.Next? { StepOwns(st, act, act.a, st.allocators[act.a].end); }
    if act.Reply? {
      var t := st.allocators[act.a].phase.txn;
      assert TxnOk(st, t);
      if st.txns[t].succeeded { assert Got(Step(st, act), t, act.a, st.txns[t].end); }
    }
  }

  /** Blocks of different allocators have no id in common. */
  lemma BlocksApart(st: State, a: Id, p: nat, b: Id, q: nat, id: nat)
    requires Inv(st) && Owns(st, a, p) && Owns(st, b, q) && a != b
    ensures !(InBlock(id, p) && InBlock(id, q))
  {
    var t :| Got(st, t, a, p);
    var u :| Got(st, u, b, q);
    assert TxnsApart(st, t, u);
  }

  lemma Fresh(st: State, a: Id, block: nat, id: nat)
    requires Inv(st) && Owns(st, a, block) && InBlock(id, block) && a in st.allocators && st.allocators[a].base < id
    ensures Distinct(st.issued + [Issue(a, block, id)])
  {
    forall i | 0 <= i < |st.issued|
      ensures st.issued[i].id != id && (st.issued[i].allocator == a ==> st.issued[i].id < id)
    {
      assert IssueOk(st, i);
      if st.issued[i].allocator != a {
        BlocksApart(st, a, block, st.issued[i].allocator, st.issued[i].block, id);
      }
    }
  }

  lemma StepDistinct(st: State, act: Action)
    requires Inv(st) && Enabled(st, act)
    ensures Distinct(Step(st, act).issued)
  {
    if act.Next? {
      assert AllocatorOk(st, act.a);
      var x := st.allocators[act.a];
      Fresh(st, act.a, x.end, x.base + 1);
    } else if act.Reply? {
      assert AllocatorOk(st, act.a);
      var x := st.allocators[act.a];
      var t := st.txns[x.phase.txn];
      assert TxnOk(st, x.phase.txn);
      if t.succeeded {
        assert Got(st, x.phase.txn, act.a, t.end);
        Fresh(st, act.a, t.end, t.end - ALLOC_STEP + 1);
      }
    }
  }

  lemma StepInv(st: State, act: Action)
    requires Inv(st) && Enabled(st, act)
    ensures Inv(Step(st, act))
  {
    hide Step;
    forall t, u ensures TxnOk(Step(st, act), t) && TxnsApart(Step(st, act), t, u) { StepTxns(st, act, t, u); }
    forall t ensures TxnOk(Step(st, act), t) { StepTxns(st, act, t, t); }
    forall a ensures AllocatorOk(Step(st, act), a) { StepAllocators(st, act, a); }
    forall i ensures IssueOk(Step(st, act), i) { StepIssues(st, act, i); }
    StepDistinct(st, act);
  }

  // ---------- runs ----------

  ghost predicate Possible(st: State, acts: seq<Action>)
    decreases |acts|
  {
    acts == [] || (Enabled(st, acts[0]) && Possible(Step(st, acts[0]), acts[1..]))
  }

  ghost function After(st: State, acts: seq<Action>): State
    requires Possible(st, acts)
    decreases |acts|
  {
    if acts == [] then st else After(Step(st, acts[0]), acts[1..])
  }

  lemma {:induction false} RunInv(st: State, acts: seq<Action>)
    requires Inv(st) && Possible(st, acts)
    ensures Inv(After(st, acts))
    decreases |acts|
  {
    hide Step, Enabled, Inv;
    if acts != [] {
      StepInv(st, acts[0]);
      RunInv(Step(st, acts[0]), acts[1..]);
    }
  }

  /** Over every run no two calls of `Alloc` return the same id, and the ids of one allocator increase. */
  lemma RunUnique(counter: Option<nat>, acts: seq<Action>)
    requires Possible(Init(counter), acts)
    ensures var issued := After(Init(counter), acts).issued;
      forall i, j :: 0 <= i < j < |issued| ==>
        issued[i].id != issued[j].id && (issued[i].allocator == issued[j].allocator ==> issued[i].id < issued[j].id)
  {
    hide Step, Enabled, After, Possible;
    InitInv(counter);
    RunInv(Init(counter), acts);
  }

  /** None of them had been in use: all are above the counter's first value and at most its last. */
  lemma {:induction false} RunAbove(st: State, acts: seq<Action>, low: nat)
    requires Inv(st) && Possible(st, acts) && low <= Value(st.counter) && (forall i :: AboveOk(st, low, i)) && (forall t :: TxnAbove(st, low, t))
    ensures forall i :: 0 <= i < |After(st, acts).issued| ==> low < After(st, acts).issued[i].id <= Value(After(st, acts).counter)
    decreases |acts|
  {
    hide Step, Enabled, Inv;
    if acts == [] {
      forall i | 0 <= i < |st.issued| ensures low < st.issued[i].id <= Value(st.counter) {
        assert AboveOk(st, low, i);
        IssuedBelow(st, i);
      }
    } else {
      StepInv(st, acts[0]);
      StepAbove(st, acts[0], low);
      RunAbove(Step(st, acts[0]), acts[1..], low);
    }
  }

  ghost predicate AboveOk(st: State, low: nat, i: nat) {
    i < |st.issued| ==> low < st.issued[i].id
  }

  ghost predicate TxnAbove(st: State, low: nat, t: nat) {
    t in st.txns && st.txns[t].succeeded ==> low + ALLOC_STEP <= st.txns[t].end
  }

  lemma IssuedBelow(st: State, i: nat)
    requires Inv(st) && i < |st.issued|
    ensures st.issued[i].id <= Value(st.counter)
  {
    assert IssueOk(st, i);
    assert AllocatorOk(st, st.issued[i].allocator);
  }

  lemma StepAbove(st: State, act: Action, low: nat)
    requires Inv(st) && Enabled(st, act) && low <= Value(st.counter) && (forall i :: AboveOk(st, low, i)) && (forall t :: TxnAbove(st, low, t))
    ensures low <= Value(Step(st, act).counter)
    ensures forall i :: AboveOk(Step(st, act), low, i)
    ensures forall t :: TxnAbove(Step(st, act), low, t)
  {
    var st' := Step(st, act);
    if act.Apply? { assert TxnOk(st, act.t); }
    forall t ensures TxnAbove(st', low, t) { assert TxnAbove(st, low, t); }
    forall i ensures AboveOk(st', low, i) {
      assert AboveOk(st, low, i);
      if act.Next? {
        assert AllocatorOk(st, act.a);
        var t :| Got(st, t, act.a, st.allocators[act.a].end);
        assert TxnAbove(st, low, t);
      } else if act.Reply? {
        assert AllocatorOk(st, act.a) && TxnAbove(st, low, st.allocators[act.a].phase.txn);
      }
    }
  }

  /** Over every run each returned id is above the first value of the counter, so it was not in use before, and at
      most its last, so it never will be given by a later run. */
  lemma RunFresh(counter: Option<nat>, acts: seq<Action>)
    requires Possible(Init(counter), acts)
    ensures var st := After(Init(counter), acts);
      forall i :: 0 <= i < |st.issued| ==> Value(counter) < st.issued[i].id <= Value(st.counter)
  {
    hide Step, Enabled, After, Possible;
    InitInv(counter);
    RunAbove(Init(counter), acts, Value(counter));
  }

  // ---------- blocks are used from the first id on ----------

  /** How many of the ids are from a block. */
  function Count(issued: seq<Issue>, block: nat): nat {
    if issued == [] then 0
    else Count(issued[..|issued| - 1], block) + if issued[|issued| - 1].block == block then 1 else 0
  }

  lemma CountMore(issued: seq<Issue>, x: Issue, block: nat)
    ensures Count(issued + [x], block) == Count(issued, block) + if x.block == block then 1 else 0
  {
    assert (issued + [x])[..|issued|] == issued;
  }

  lemma {:induction false} CountNone(issued: seq<Issue>, block: nat)
    requires forall i :: 0 <= i < |issued| ==> issued[i].block != block
    ensures Count(issued, block) == 0
  {
    if issued != [] { CountNone(issued[..|issued| - 1], block); }
  }

  /** The id comes behind those that were issued from the block before. */
  ghost predicate InTurn(issued: seq<Issue>, i: nat) {
    i < |issued| ==> issued[i].id == issued[i].block - ALLOC_STEP + 1 + Count(issued[..i], issued[i].block)
  }

  /** An allocator has issued the ids of its block up to `base`, and asks for another only when that is its end. */
  ghost predicate BlockOk(st: State, a: Id) {
    a in st.allocators ==>
      var x := st.allocators[a];
      && (!x.phase.Idle? ==> x.base == x.end)
      && (x.end > 0 ==> x.end >= ALLOC_STEP && Owns(st, a, x.end) && Count(st.issued, x.end) == x.base - (x.end - ALLOC_STEP))
  }

  /** A block that its allocator has left was used to the end. */
  ghost predicate UsedUp(st: State, i: nat) {
    i < |st.issued| ==>
      var x := st.issued[i];
      && x.allocator in st.allocators
      && (x.block == st.allocators[x.allocator].end || Count(st.issued, x.block) == ALLOC_STEP)
  }

  ghost predicate InOrder(st: State) {
    && (forall a :: BlockOk(st, a))
    && (forall i :: InTurn(st.issued, i))
    && (forall i :: UsedUp(st, i))
  }

  /** What a step issues. */
  function NewIssue(st: State, act: Action): Option<Issue>
    requires Enabled(st, act)
  {
    match act
    case Next(a) => Some(Issue(a, st.allocators[a].end, st.allocators[a].base + 1))
    case Reply(a) =>
      var t := st.txns[st.allocators[a].phase.txn];
      if t.succeeded && t.end >= ALLOC_STEP then Some(Issue(a, t.end, t.end - ALLOC_STEP + 1)) else None
    case _ => None
  }

  lemma IssuesOne(st: State, act: Action)
    requires Inv(st) && Enabled(st, act)
    ensures Step(st, act).issued == st.issued + if NewIssue(st, act).Some? then [NewIssue(st, act).value] else []
  {
    assert st.issued + [] == st.issued;
    if act.Reply? { assert TxnOk(st, st.allocators[act.a].phase.txn); }
  }

  /** Nothing is issued from a block that its allocator has just got. */
  lemma NewBlock(st: State, a: Id)
    requires Inv(st) && Enabled(st, Reply(a)) && st.txns[st.allocators[a].phase.txn].succeeded
    ensures Count(st.issued, st.txns[st.allocators[a].phase.txn].end) == 0
  {
    var t := st.allocators[a].phase.txn;
    var block := st.txns[t].end;
    assert AllocatorOk(st, a) && Got(st, t, a, block);
    forall i | 0 <= i < |st.issued| ensures st.issued[i].block != block {
      assert IssueOk(st, i);
      var x := st.issued[i];
      if x.allocator != a { BlocksApart(st, a, block, x.allocator, x.block, x.id); }
    }
    CountNone(st.issued, block);
  }

  /** A new id is the next of its block. */
  lemma IssueInTurn(st: State, act: Action)
    requires Inv(st) && InOrder(st) && Enabled(st, act) && NewIssue(st, act).Some?
    ensures var x := NewIssue(st, act).value; x.id == x.block - ALLOC_STEP + 1 + Count(st.issued, x.block) && x.block > 0
  {
    assert BlockOk(st, act.a) && AllocatorOk(st, act.a);
    if act.Reply? { NewBlock(st, act.a); }
  }

  lemma StepInTurn(st: State, act: Action, i: nat)
    requires Inv(st) && InOrder(st) && Enabled(st, act)
    ensures InTurn(Step(st, act).issued, i)
  {
    hide Step, Enabled, Inv;
    var s, s' := st.issued, Step(st, act).issued;
    IssuesOne(st, act);
    assert InTurn(s, i);
    if i < |s| { assert s'[..i] == s[..i]; }
    if NewIssue(st, act).Some? {
      IssueInTurn(st, act);
      assert s'[..|s|] == s;
    }
  }

  lemma OwnApart(st: State, a: Id, p: nat, b: Id, q: nat)
    requires Inv(st) && Owns(st, a, p) && Owns(st, b, q) && a != b
    ensures p != q
  {
    var t :| Got(st, t, a, p);
    var u :| Got(st, u, b, q);
    assert TxnsApart(st, t, u);
  }

  lemma OwnedBlock(st: State, a: Id, block: nat)
    requires Inv(st) && Owns(st, a, block)
    ensures block >= ALLOC_STEP
  {
    var t :| Got(st, t, a, block);
    assert TxnOk(st, t);
  }

  /** What a step issues is from a block of its own allocator, so no other block is used up by it. */
  lemma CountStep(st: State, act: Action, a: Id, block: nat)
    requires Inv(st) && InOrder(st) && Enabled(st, act) && Owns(st, a, block)
    ensures NewIssue(st, act).Some? && (act.a != a || NewIssue(st, act).value.block != block) ==>
      Count(Step(st, act).issued, block) == Count(st.issued, block)
    ensures NewIssue(st, act).Some? && NewIssue(st, act).value.block == block ==>
      Count(Step(st, act).issued, block) == Count(st.issued, block) + 1
    ensures NewIssue(st, act).None? ==> Count(Step(st, act).issued, block) == Count(st.issued, block)
  {
    hide Step, Inv;
    IssuesOne(st, act);
    if NewIssue(st, act).Some? {
      var x := NewIssue(st, act).value;
      CountMore(st.issued, x, block);
      IssueOwned(st, act);
      if act.a != a { OwnApart(st, act.a, x.block, a, block); }
    } else {
      assert st.issued + [] == st.issued;
    }
  }

  lemma IssueOwned(st: State, act: Action)
    requires Inv(st) && InOrder(st) && Enabled(st, act) && NewIssue(st, act).Some?
    ensures act.Next? || act.Reply?
    ensures Owns(st, act.a, NewIssue(st, act).value.block)
  {
    assert BlockOk(st, act.a) && AllocatorOk(st, act.a);
    if act.Reply? {
      var t := st.allocators[act.a].phase.txn;
      assert Got(st, t, act.a, st.txns[t].end);
    }
  }

  lemma StepBlock(st: State, act: Action, a: Id)
    requires Inv(st) && InOrder(st) && Enabled(st, act)
    ensures BlockOk(Step(st, act), a)
  {
    assert BlockOk(st, a) && AllocatorOk(st, a);
    if a in st.allocators && st.allocators[a].end > 0 {
      StepOwns(st, act, a, st.allocators[a].end);
      CountStep(st, act, a, st.allocators[a].end);
    }
    if act.Reply? && act.a == a {
      var t := st.allocators[a].phase.txn;
      assert TxnOk(st, t);
      if st.txns[t].succeeded {
        NewBlock(st, a);
        assert Got(st, t, a, st.txns[t].end) && Got(Step(st, act), t, a, st.txns[t].end);
        CountStep(st, act, a, st.txns[t].end);
      }
    }
  }

  lemma StepUsedUp(st: State, act: Action, i: nat)
    requires Inv(st) && InOrder(st) && Enabled(st, act)
    ensures UsedUp(Step(st, act), i)
  {
    IssuesOne(st, act);
    assert UsedUp(st, i);
    if i < |st.issued| {
      var x := st.issued[i];
      assert IssueOk(st, i) && BlockOk(st, x.allocator) && AllocatorOk(st, x.allocator);
      OwnedBlock(st, x.allocator, x.block);
      CountStep(st, act, x.allocator, x.block);
      if act.Reply? && act.a == x.allocator {
        assert TxnOk(st, st.allocators[act.a].phase.txn);
        if st.txns[st.allocators[act.a].phase.txn].succeeded { NewBlock(st, act.a); }
      }
    }
  }

  lemma StepInOrder(st: State, act: Action)
    requires Inv(st) && InOrder(st) && Enabled(st, act)
    ensures InOrder(Step(st, act))
  {
    hide Step, Inv, InTurn, BlockOk, UsedUp;
    forall a ensures BlockOk(Step(st, act), a) { StepBlock(st, act, a); }
    forall i ensures InTurn(Step(st, act).issued, i) { StepInTurn(st, act, i); }
    forall i ensures UsedUp(Step(st, act), i) { StepUsedUp(st, act, i); }
  }

  lemma {:induction false} RunInOrder(st: State, acts: seq<Action>)
    requires Inv(st) && InOrder(st) && Possible(st, acts)
    ensures Inv(After(st, acts)) && InOrder(After(st, acts))
    decreases |acts|
  {
    hide Step, Enabled, Inv, InOrder;
    if acts != [] {
      StepInv(st, acts[0]);
      StepInOrder(st, acts[0]);
      RunInOrder(Step(st, acts[0]), acts[1..]);
    }
  }

  /** Over every run each id is issued from a block that its allocator got, one behind the ids issued from it before,
      the first being the first of the block; and a block is left only when it is used up. */
  lemma RunInTurn(counter: Option<nat>, acts: seq<Action>, i: nat)
    requires Possible(Init(counter), acts) && i < |After(Init(counter), acts).issued|
    ensures var st := After(Init(counter), acts);
      var x := st.issued[i];
      && Owns(st, x.allocator, x.block)
      && x.id == x.block - ALLOC_STEP + 1 + Count(st.issued[..i], x.block)
      && x.allocator in st.allocators
      && (x.block != st.allocators[x.allocator].end ==> Count(st.issued, x.block) == ALLOC_STEP)
  {
    hide Step, Enabled, After, Possible;
    InitInv(counter);
    RunInOrder(Init(counter), acts);
    var st := After(Init(counter), acts);
    assert IssueOk(st, i) && InTurn(st.issued, i) && UsedUp(st, i);
  }

  // ---------- which transactions succeed ----------

  /** The state after the first `k` actions. */
  ghost function At(st: State, acts: seq<Action>, k: nat): State
    requires Possible(st, acts) && k <= |acts|
    decreases k
  {
    if k == 0 then st else At(Step(st, acts[0]), acts[1..], k - 1)
  }

  lemma {:induction false} AtStep(st: State, acts: seq<Action>, k: nat)
    requires Possible(st, acts) && k < |acts|
    ensures Enabled(At(st, acts, k), acts[k]) && At(st, acts, k + 1) == Step(At(st, acts, k), acts[k])
    decreases k
  {
    hide Step, Enabled;
    if k > 0 {
      AtStep(Step(st, acts[0]), acts[1..], k - 1);
    } else {
      assert At(Step(st, acts[0]), acts[1..], 0) == Step(st, acts[0]);
    }
  }

  lemma {:induction false} AtInv(st: State, acts: seq<Action>, k: nat)
    requires Inv(st) && Possible(st, acts) && k <= |acts|
    ensures Inv(At(st, acts, k))
    decreases k
  {
    hide Step, Enabled, Inv;
    if k > 0 {
      StepInv(st, acts[0]);
      AtInv(Step(st, acts[0]), acts[1..], k - 1);
    }
  }

  /** An allocator keeps its member. */
  lemma {:induction false} MemberKept(st: State, acts: seq<Action>, n: nat, k: nat, a: Id, m: Member)
    requires Possible(st, acts) && n < k <= |acts| && acts[n] == NewAllocator(a, m)
    ensures a in At(st, acts, k).allocators && At(st, acts, k).allocators[a].member == m
    decreases k
  {
    hide At;
    AtStep(st, acts, k - 1);
    if n < k - 1 { MemberKept(st, acts, n, k - 1, a, m); }
  }

  ghost predicate NoRead(acts: seq<Action>, i: nat, j: nat, a: Id) {
    j <= |acts| && forall l :: i < l < j ==> acts[l] != Read(a)
  }

  /** What it has read it keeps, or it gives up. */
  lemma {:induction false} ReadKept(st: State, acts: seq<Action>, i: nat, k: nat, a: Id)
    requires Possible(st, acts) && i < k <= |acts| && acts[i] == Read(a) && NoRead(acts, i, k, a)
    ensures a in At(st, acts, k).allocators
    ensures var x := At(st, acts, k).allocators[a]; x.phase.HasRead? ==> x.phase.value == At(st, acts, i).counter
    decreases k
  {
    hide At;
    AtStep(st, acts, k - 1);
    if i < k - 1 { ReadKept(st, acts, i, k - 1, a); }
  }

  /** A transaction is what was sent until etcd decides on it. */
  lemma {:induction false} SentKept(st: State, acts: seq<Action>, j: nat, k: nat, a: Id, t: nat)
    requires Possible(st, acts) && j < k <= |acts| && acts[j] == Send(a, t)
    ensures a in At(st, acts, j).allocators && At(st, acts, j).allocators[a].phase.HasRead? && t in At(st, acts, k).txns
    ensures var x, y := At(st, acts, j).allocators[a], At(st, acts, k).txns[t];
      y.member == x.member && y.was == x.phase.value && y.end == Value(y.was) + ALLOC_STEP
    decreases k
  {
    hide At;
    AtStep(st, acts, k - 1);
    AtStep(st, acts, j);
    if j < k - 1 { SentKept(st, acts, j, k - 1, a, t); }
  }

  /** Over every run: a transaction succeeds exactly if, when etcd decides on it, the counter is what it was when its
      allocator read it and the leader key names the allocator's member; then the counter goes up by one block,
      otherwise it stays. */
  lemma RunDecides(counter: Option<nat>, acts: seq<Action>, a: Id, m: Member, t: nat, n: nat, i: nat, j: nat, k: nat)
    requires Possible(Init(counter), acts) && n < i < j < k < |acts|
    requires acts[n] == NewAllocator(a, m) && acts[i] == Read(a) && acts[j] == Send(a, t) && acts[k] == Apply(t)
    requires NoRead(acts, i, j, a)
    ensures var st := Init(counter);
      var read, now, later := At(st, acts, i).counter, At(st, acts, k), At(st, acts, k + 1);
      && t in later.txns && later.txns[t].done && (later.txns[t].succeeded <==> now.counter == read && now.leader == Some(m))
      && later.counter == if later.txns[t].succeeded then Some(Value(read) + ALLOC_STEP) else now.counter
  {
    hide At;
    var st := Init(counter);
    AtStep(st, acts, k);
    MemberKept(st, acts, n, j, a, m);
    ReadKept(st, acts, i, j, a);
    SentKept(st, acts, j, k, a, t);
    InitInv(counter);
    AtInv(st, acts, k);
    assert TxnOk(At(st, acts, k), t);
  }

  // ---------- an undisturbed call ----------

  /** A call of `Alloc` by an allocator with ids left returns the next one. */
  lemma AllocNext(st: State, a: Id)
    requires a in st.allocators && st.allocators[a].phase.Idle? && st.allocators[a].base != st.allocators[a].end
    ensures Enabled(st, Next(a))
    ensures var st' := Step(st, Next(a)); |st'.issued| == |st.issued| + 1 && st'.issued[|st.issued|].id == st.allocators[a].base + 1
  {
  }

  /** Without ids left, and undisturbed, it takes the block behind the counter and returns its first id, if its member
      leads. */
  lemma AllocGenerates(st: State, a: Id, t: nat)
    requires a in st.allocators && st.allocators[a].phase.Idle? && st.allocators[a].base == st.allocators[a].end && t !in st.txns
    requires st.leader == Some(st.allocators[a].member)
    ensures var call := [Read(a), Send(a, t), Apply(t), Reply(a)];
      && Possible(st, call)
      && var st' := After(st, call);
         && st'.counter == Some(Value(st.counter) + 1000)
         && |st'.issued| == |st.issued| + 1 && st'.issued[|st.issued|].id == Value(st.counter) + 1
         && a in st'.allocators && st'.allocators[a].base == Value(st.counter) + 1 && st'.allocators[a].end == Value(st.counter) + 1000
  {
    var call := [Read(a), Send(a, t), Apply(t), Reply(a)];
    var one := Step(st, Read(a));
    var two := Step(one, Send(a, t));
    var three := Step(two, Apply(t));
    var four := Step(three, Reply(a));
    assert call[1..] == [Send(a, t), Apply(t), Reply(a)];
    assert call[1..][1..] == [Apply(t), Reply(a)];
    assert call[1..][1..][1..] == [Reply(a)];
    assert call[1..][1..][1..][1..] == [];
    Final(four);
    OneOf(three, [Reply(a)]);
    OneOf(two, [Apply(t), Reply(a)]);
    OneOf(one, [Send(a, t), Apply(t), Reply(a)]);
    OneOf(st, call);
  }

  /** If its member does not lead it fails: no id is returned and the counter stays, and it may be called again. */
  lemma AllocFails(st: State, a: Id, t: nat)
    requires a in st.allocators && st.allocators[a].phase.Idle? && st.allocators[a].base == st.allocators[a].end && t !in st.txns
    requires st.leader != Some(st.allocators[a].member)
    ensures var call := [Read(a), Send(a, t), Apply(t), Reply(a)];
      && Possible(st, call)
      && var st' := After(st, call); st'.counter == st.counter && st'.issued == st.issued && st'.allocators == st.allocators
  {
    var call := [Read(a), Send(a, t), Apply(t), Reply(a)];
    var one := Step(st, Read(a));
    var two := Step(one, Send(a, t));
    var three := Step(two, Apply(t));
    var four := Step(three, Reply(a));
    assert call[1..] == [Send(a, t), Apply(t), Reply(a)];
    assert call[1..][1..] == [Apply(t), Reply(a)];
    assert call[1..][1..][1..] == [Reply(a)];
    assert call[1..][1..][1..][1..] == [];
    assert four.allocators == st.allocators;
    Final(four);
    OneOf(three, [Reply(a)]);
    OneOf(two, [Apply(t), Reply(a)]);
    OneOf(one, [Send(a, t), Apply(t), Reply(a)]);
    OneOf(st, call);
  }

  /** An error ends the call: the allocator is as it was and may be called again. */
  lemma GivesUp(st: State, a: Id)
    requires Enabled(st, GiveUp(a))
    ensures var st' := Step(st, GiveUp(a));
      st'.issued == st.issued && a in st'.allocators && st'.allocators[a] == st.allocators[a].(phase := Idle)
      && (Enabled(st', Next(a)) || Enabled(st', Read(a)))
  {
  }

  lemma Final(st: State)
    ensures Possible(st, []) && After(st, []) == st
  {
  }

  lemma OneOf(st: State, acts: seq<Action>)
    requires acts != [] && Enabled(st, acts[0]) && Possible(Step(st, acts[0]), acts[1..])
    ensures Possible(st, acts) && After(st, acts) == After(Step(st, acts[0]), acts[1..])
  {
  }
}
