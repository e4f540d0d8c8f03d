/** server/schedulers/utils.go, server/schedulers/balance_leader.go and server/core/store.go: balancing leaders by
    count. Scores are reals. Every move the scheduler allows lowers one potential by a fixed amount, so balancing
    comes to an end. */
module LeaderBalance {
  import opened StoreWeight

  const LEADER_TOLERANT_SIZE_RATIO := 5.0

  datatype Store = Store(leaders: int, weight: real)

  /** `LeaderScore` by count (store.go:257-266). */
  function LeaderScore(s: Store, delta: int): real {
    (s.leaders + delta) as real / Weight(s.weight)
  }

  /** `getTolerantResource` for leaders by count (utils.go:93-101); the conversion drops the fraction. */
  function TolerantResource(ratio: real): int {
    (if ratio == 0.0 then LEADER_TOLERANT_SIZE_RATIO else ratio).Floor
  }

  /** `shouldBalance` without unfinished operators (utils.go:65-84). */
  predicate ShouldBalance(source: Store, target: Store, tolerant: int) {
    LeaderScore(source, -tolerant) > LeaderScore(target, tolerant)
  }

  type Stores = seq<Store>

  /** A leader is transferred from one store to another. */
  datatype Move = Move(source: nat, target: nat)

  predicate Allowed(ss: Stores, m: Move, tolerant: int) {
    m.source < |ss| && m.target < |ss| && m.source != m.target && ShouldBalance(ss[m.source], ss[m.target], tolerant)
  }

  function Moved(ss: Stores, m: Move): Stores
    requires m.source < |ss| && m.target < |ss|
  {
    var s := ss[m.source := ss[m.source].(leaders := ss[m.source].leaders - 1)];
    s[m.target := s[m.target].(leaders := s[m.target].leaders + 1)]
  }

  // ---------- the potential ----------

  function Energy(s: Store): real {
    s.leaders as real * s.leaders as real / Weight(s.weight)
  }

  /** The sum of count²/weight. */
  function Potential(ss: Stores): real {
    if ss == [] then 0.0 else Potential(ss[..|ss| - 1]) + Energy(ss[|ss| - 1])
  }

  lemma EnergyNotNegative(s: Store)
    ensures Energy(s) >= 0.0
  {
    var c, w := s.leaders as real, Weight(s.weight);
    assert c * c >= 0.0;
    DivNotNegative(c * c, w);
  }

  lemma DivNotNegative(x: real, w: real)
    requires x >= 0.0 && w > 0.0
    ensures x / w >= 0.0
  {
  }

  lemma {:induction false} PotentialNotNegative(ss: Stores)
    ensures Potential(ss) >= 0.0
  {
    if ss != [] {
      PotentialNotNegative(ss[..|ss| - 1]);
      EnergyNotNegative(ss[|ss| - 1]);
    }
  }

  lemma {:induction false} PotentialSet(ss: Stores, i: nat, s: Store)
    requires i < |ss|
    ensures Potential(ss[i := s]) == Potential(ss) - Energy(ss[i]) + Energy(s)
    decreases |ss|
  {
    hide Energy;
    var n := |ss| - 1;
    if i == n {
      assert ss[i := s][..n] == ss[..n];
    } else {
      assert ss[i := s][..n] == ss[..n][i := s];
      PotentialSet(ss[..n], i, s);
    }
  }

  /** One leader more or fewer. */
  lemma EnergyStep(s: Store)
    ensures Energy(s.(leaders := s.leaders - 1)) == Energy(s) - (2 * s.leaders - 1) as real / Weight(s.weight)
    ensures Energy(s.(leaders := s.leaders + 1)) == Energy(s) + (2 * s.leaders + 1) as real / Weight(s.weight)
  {
    var c, w := s.leaders as real, Weight(s.weight);
    assert (c - 1.0) * (c - 1.0) == c * c - (2.0 * c - 1.0);
    assert (c + 1.0) * (c + 1.0) == c * c + (2.0 * c + 1.0);
    SplitSub(c * c, 2.0 * c - 1.0, w);
    SplitAdd(c * c, 2.0 * c + 1.0, w);
  }

  lemma SplitAdd(x: real, y: real, w: real)
    requires w > 0.0
    ensures (x + y) / w == x / w + y / w
  {
  }

  lemma SplitSub(x: real, y: real, w: real)
    requires w > 0.0
    ensures (x - y) / w == x / w - y / w
  {
  }

  /** What an allowed move is worth at least. */
  function Drop(source: Store, target: Store, tolerant: int): real {
    (2 * tolerant - 1) as real * (1.0 / Weight(source.weight) + 1.0 / Weight(target.weight))
  }

  /** Each allowed move lowers the potential by (2T-1)(1/ws + 1/wt) or more. */
  lemma MoveLowers(ss: Stores, m: Move, tolerant: int)
    requires Allowed(ss, m, tolerant)
    ensures Potential(Moved(ss, m)) < Potential(ss) - Drop(ss[m.source], ss[m.target], tolerant)
  {
    hide Energy, Potential;
    var s, t := ss[m.source], ss[m.target];
    var s', t' := s.(leaders := s.leaders - 1), t.(leaders := t.leaders + 1);
    PotentialSet(ss, m.source, s');
    PotentialSet(ss[m.source := s'], m.target, t');
    EnergyStep(s);
    EnergyStep(t);
    Arithmetic(s.leaders as real, Weight(s.weight), t.leaders as real, Weight(t.weight), tolerant as real);
  }

  lemma Arithmetic(c: real, w: real, d: real, v: real, k: real)
    requires w > 0.0 && v > 0.0 && (c - k) / w > (d + k) / v
    ensures (2.0 * d + 1.0) / v - (2.0 * c - 1.0) / w < -((2.0 * k - 1.0) * (1.0 / w + 1.0 / v))
  {
    var a, b := 1.0 / w, 1.0 / v;
    Reciprocal(c - k, w);
    Reciprocal(d + k, v);
    Reciprocal(2.0 * d + 1.0, v);
    Reciprocal(2.0 * c - 1.0, w);
    assert (2.0 * d + 1.0) * b - (2.0 * c - 1.0) * a == 2.0 * ((d + k) * b - (c - k) * a) - (2.0 * k - 1.0) * (a + b);
  }

  lemma Reciprocal(x: real, w: real)
    requires w > 0.0
    ensures x / w == x * (1.0 / w)
  {
  }

  // ---------- runs ----------

  ghost predicate Run(ss: Stores, ms: seq<Move>, tolerant: int)
    decreases |ms|
  {
    ms == [] || (Allowed(ss, ms[0], tolerant) && Run(Moved(ss, ms[0]), ms[1..], tolerant))
  }

  /** No weight is above `top`. */
  ghost predicate WeightsBelow(ss: Stores, top: real) {
    forall i :: 0 <= i < |ss| ==> Weight(ss[i].weight) <= top
  }

  lemma DropAtLeast(source: Store, target: Store, tolerant: int, top: real)
    requires tolerant >= 1 && Weight(source.weight) <= top && Weight(target.weight) <= top
    ensures Drop(source, target, tolerant) >= 2.0 / top
  {
    var w, v := Weight(source.weight), Weight(target.weight);
    OneOver(w, top);
    OneOver(v, top);
    Twice((2 * tolerant - 1) as real, 1.0 / w, 1.0 / v, 1.0 / top);
  }

  lemma Twice(k: real, a: real, b: real, x: real)
    requires k >= 1.0 && a >= x > 0.0 && b >= x
    ensures k * (a + b) >= x + x
  {
    AtLeastOnce(k, a + b);
  }

  lemma AtLeastOnce(k: real, x: real)
    requires k >= 1.0 && x >= 0.0
    ensures k * x >= x
  {
    assert (k - 1.0) * x >= 0.0;
  }

  lemma OneOver(w: real, top: real)
    requires 0.0 < w <= top
    ensures 1.0 / w >= 1.0 / top > 0.0 && 2.0 / top == 1.0 / top + 1.0 / top
  {
  }

  /** No run of allowed moves is longer than the potential allows: it has at most `Potential(ss) * top / 2` moves. */
  lemma {:induction false} RunsEnd(ss: Stores, ms: seq<Move>, tolerant: int, top: real)
    requires tolerant >= 1 && Run(ss, ms, tolerant) && WeightsBelow(ss, top) && top > 0.0
    ensures |ms| as real * (2.0 / top) <= Potential(ss)
    decreases |ms|
  {
    hide Potential, Drop, ShouldBalance;
    if ms == [] {
      PotentialNotNegative(ss);
    } else {
      var m, ss' := ms[0], Moved(ss, ms[0]);
      MoveLowers(ss, m, tolerant);
      DropAtLeast(ss[m.source], ss[m.target], tolerant, top);
      WeightsKept(ss, m, top);
      RunsEnd(ss', ms[1..], tolerant, top);
      OneMore(|ms[1..]| as real, 2.0 / top);
    }
  }

  lemma OneMore(n: real, x: real)
    ensures (n + 1.0) * x == n * x + x
  {
  }

  lemma WeightsKept(ss: Stores, m: Move, top: real)
    requires m.source < |ss| && m.target < |ss| && WeightsBelow(ss, top)
    ensures WeightsBelow(Moved(ss, m), top)
  {
  }

  // ---------- where balancing ends ----------

  /** The tolerance is five leaders if the ratio is not set, otherwise the ratio without its fraction. */
  lemma TolerantIs(ratio: real)
    ensures ratio == 0.0 ==> TolerantResource(ratio) == 5
    ensures ratio != 0.0 ==> TolerantResource(ratio) as real <= ratio < (TolerantResource(ratio) + 1) as real
  {
  }

  /** A store's score times its weight is its number of leaders; weights below a millionth count as that. */
  lemma ScoreTimesWeight(s: Store, delta: int)
    ensures s.weight >= 0.000001 ==> LeaderScore(s, delta) * s.weight == (s.leaders + delta) as real
    ensures s.weight <= 0.000001 ==> LeaderScore(s, delta) * 0.000001 == (s.leaders + delta) as real
  {
  }

  /** Balancing is at rest exactly if no store, less the tolerance, has more leaders for its weight than another plus
      the tolerance. */
  lemma AtRest(ss: Stores, tolerant: int)
    requires forall i :: 0 <= i < |ss| ==> ss[i].weight >= 0.000001
    ensures (forall m :: !Allowed(ss, m, tolerant)) <==>
      forall i, j :: 0 <= i < |ss| && 0 <= j < |ss| && i != j ==>
        (ss[i].leaders - tolerant) as real * ss[j].weight <= (ss[j].leaders + tolerant) as real * ss[i].weight
  {
    hide ShouldBalance;
    forall i, j | 0 <= i < |ss| && 0 <= j < |ss| && i != j
      ensures Allowed(ss, Move(i, j), tolerant) <==>
        !((ss[i].leaders - tolerant) as real * ss[j].weight <= (ss[j].leaders + tolerant) as real * ss[i].weight)
    {
      Crosswise(ss[i], ss[j], tolerant);
    }
    forall m ensures Allowed(ss, m, tolerant) ==> m.source < |ss| && m.target < |ss| && m.source != m.target && m == Move(m.source, m.target) {
    }
  }

  lemma Crosswise(s: Store, t: Store, tolerant: int)
    requires s.weight >= 0.000001 && t.weight >= 0.000001
    ensures ShouldBalance(s, t, tolerant) <==>
      (s.leaders - tolerant) as real * t.weight > (t.leaders + tolerant) as real * s.weight
  {
    CrossMultiply((s.leaders - tolerant) as real, s.weight, (t.leaders + tolerant) as real, t.weight);
  }

  lemma CrossMultiply(x: real, w: real, y: real, v: real)
    requires w > 0.0 && v > 0.0
    ensures x / w > y / v <==> x * v > y * w
  {
    var a, b := x / w, y / v;
    assert x == a * w && y == b * v;
    assert x * v == a * (w * v) && y * w == b * (w * v);
    Scaled(a, b, w * v);
  }

  lemma Scaled(a: real, b: real, k: real)
    requires k > 0.0
    ensures a > b <==> a * k > b * k
  {
    if a > b {
      assert (a - b) * k > 0.0;
    } else {
      assert (b - a) * k >= 0.0;
    }
  }

  /** Stores of equal weight then differ by at most twice the tolerance. */
  lemma EvenAtRest(ss: Stores, tolerant: int, i: nat, j: nat)
    requires (forall m :: !Allowed(ss, m, tolerant)) && i < |ss| && j < |ss| && i != j && ss[i].weight == ss[j].weight
    ensures ss[i].leaders - ss[j].leaders <= 2 * tolerant
  {
    var w := Weight(ss[i].weight);
    assert !Allowed(ss, Move(i, j), tolerant);
    CrossMultiply((ss[i].leaders - tolerant) as real, w, (ss[j].leaders + tolerant) as real, w);
    Scaled((ss[i].leaders - tolerant) as real, (ss[j].leaders + tolerant) as real, w);
  }

  // ---------- no move back ----------

  /** After an allowed move the move back is not allowed. */
  ghost predicate NoMoveBack(tolerant: int) {
    forall s, t :: ShouldBalance(s, t, tolerant) ==>
      !ShouldBalance(t.(leaders := t.leaders + 1), s.(leaders := s.leaders - 1), tolerant)
  }

  lemma Back(c: real, w: real, d: real, v: real, k: real)
    requires w > 0.0 && v > 0.0 && k >= 1.0 && (c - k) / w > (d + k) / v
    ensures (d + 1.0 - k) / v <= (c - 1.0 + k) / w
  {
    var a, b := 1.0 / w, 1.0 / v;
    Reciprocal(c - k, w);
    Reciprocal(d + k, v);
    Reciprocal(d + 1.0 - k, v);
    Reciprocal(c - 1.0 + k, w);
    BackTimes(c, a, d, b, k);
  }

  lemma BackTimes(c: real, a: real, d: real, b: real, k: real)
    requires a > 0.0 && b > 0.0 && k >= 1.0 && (c - k) * a > (d + k) * b
    ensures (d + 1.0 - k) * b <= (c - 1.0 + k) * a
  {
    var y := 2.0 * k - 1.0;
    assert (d + 1.0 - k) * b == (d + k) * b - y * b;
    assert (c - 1.0 + k) * a == (c - k) * a + y * a;
    Positive(y, a);
    Positive(y, b);
  }

  lemma Positive(x: real, y: real)
    requires x > 0.0 && y > 0.0
    ensures x * y > 0.0
  {
  }

  /** That is so exactly if at least one leader is tolerated. */
  lemma MovesBackIff(tolerant: int)
    requires tolerant >= 0
    ensures NoMoveBack(tolerant) <==> tolerant >= 1
  {
    if tolerant >= 1 {
      forall s: Store, t: Store | ShouldBalance(s, t, tolerant)
        ensures !ShouldBalance(t.(leaders := t.leaders + 1), s.(leaders := s.leaders - 1), tolerant)
      {
        Back(s.leaders as real, Weight(s.weight), t.leaders as real, Weight(t.weight), tolerant as real);
      }
    } else {
      var s, t := Store(1, 1.0), Store(0, 1.0);
      assert ShouldBalance(s, t, 0);
      assert ShouldBalance(t.(leaders := t.leaders + 1), s.(leaders := s.leaders - 1), 0);
    }
  }

  /** With the configured ratio that is: not set, or at least one. */
  lemma RatioIff(ratio: real)
    requires ratio >= 0.0
    ensures NoMoveBack(TolerantResource(ratio)) <==> ratio == 0.0 || ratio >= 1.0
  {
    hide NoMoveBack;
    MovesBackIff(TolerantResource(ratio));
  }

  /** One leader on two stores of equal weight. */
  function Pair(first: bool): Stores {
    if first then [Store(1, 1.0), Store(0, 1.0)] else [Store(0, 1.0), Store(1, 1.0)]
  }

  /** Without tolerance the leader is moved to and fro without end. */
  lemma {:induction false} PingPong(n: nat, first: bool) returns (ms: seq<Move>)
    ensures |ms| == n && Run(Pair(first), ms, 0)
    decreases n
  {
    if n == 0 {
      ms := [];
    } else {
      var m := if first then Move(0, 1) else Move(1, 0);
      assert Allowed(Pair(first), m, 0);
      assert Moved(Pair(first), m) == Pair(!first);
      ms := PingPong(n - 1, !first);
      assert ([m] + ms)[1..] == ms;
      ms := [m] + ms;
    }
  }

  /** From every cluster the runs of allowed moves are no longer than some number. */
  ghost predicate Ends(tolerant: int) {
    forall ss :: EndsFrom(ss, tolerant)
  }

  ghost predicate EndsFrom(ss: Stores, tolerant: int) {
    exists n: nat :: NoLonger(ss, tolerant, n)
  }

  ghost predicate NoLonger(ss: Stores, tolerant: int, n: nat) {
    forall ms :: Run(ss, ms, tolerant) ==> |ms| <= n
  }

  lemma {:induction false} Top(ss: Stores) returns (top: real)
    ensures top > 0.0 && WeightsBelow(ss, top)
  {
    if ss == [] {
      top := 1.0;
    } else {
      var n := |ss| - 1;
      var rest := Top(ss[..n]);
      var w := Weight(ss[n].weight);
      top := if rest > w then rest else w;
      forall i | 0 <= i < |ss| ensures Weight(ss[i].weight) <= top {
        if i < n { assert ss[..n][i] == ss[i]; }
      }
    }
  }

  lemma Bounded(ss: Stores, tolerant: int) returns (n: nat)
    requires tolerant >= 1
    ensures NoLonger(ss, tolerant, n)
  {
    hide Run, WeightsBelow, Potential;
    var top := Top(ss);
    var p := Potential(ss);
    PotentialNotNegative(ss);
    n := (p * top).Floor + 1;
    assert p * top >= 0.0;
    forall ms | Run(ss, ms, tolerant) ensures |ms| <= n {
      RunsEnd(ss, ms, tolerant, top);
      AtMost(|ms| as real, p, top);
    }
  }

  lemma AtMost(n: real, p: real, top: real)
    requires top > 0.0 && n >= 0.0 && n * (2.0 / top) <= p
    ensures n <= p * top
  {
    assert n * (2.0 / top) * top == 2.0 * n by { assert 2.0 / top * top == 2.0; }
    assert (p - n * (2.0 / top)) * top >= 0.0;
  }

  /** Leader balancing ends, whatever the cluster, exactly if the configured ratio is not set or at least one. */
  lemma EndsIff(ratio: real)
    requires ratio >= 0.0
    ensures Ends(TolerantResource(ratio)) <==> ratio == 0.0 || ratio >= 1.0
  {
    hide Run, NoLonger;
    var t := TolerantResource(ratio);
    if t >= 1 {
      forall ss ensures EndsFrom(ss, t) {
        var n := Bounded(ss, t);
      }
    } else {
      forall n: nat ensures !NoLonger(Pair(true), 0, n) { LongerThan(n); }
      assert !EndsFrom(Pair(true), 0);
    }
  }

  lemma LongerThan(n: nat)
    ensures !NoLonger(Pair(true), 0, n)
  {
    hide Run;
    var ms := PingPong(n + 1, true);
    assert Run(Pair(true), ms, 0) && |ms| > n;
  }

  // ---------- leaders are neither made nor lost ----------

  function Total(ss: Stores): int {
    if ss == [] then 0 else Total(ss[..|ss| - 1]) + ss[|ss| - 1].leaders
  }

  lemma {:induction false} TotalSet(ss: Stores, i: nat, s: Store)
    requires i < |ss|
    ensures Total(ss[i := s]) == Total(ss) - ss[i].leaders + s.leaders
    decreases |ss|
  {
    var n := |ss| - 1;
    if i == n {
      assert ss[i := s][..n] == ss[..n];
    } else {
      assert ss[i := s][..n] == ss[..n][i := s];
      TotalSet(ss[..n], i, s);
    }
  }

  /** A move keeps the number of leaders, and no count falls below zero. */
  lemma MoveKeeps(ss: Stores, m: Move, tolerant: int)
    requires tolerant >= 1 && Allowed(ss, m, tolerant) && forall i :: 0 <= i < |ss| ==> ss[i].leaders >= 0
    ensures Total(Moved(ss, m)) == Total(ss)
    ensures forall i :: 0 <= i < |ss| ==> Moved(ss, m)[i].leaders >= 0
  {
    hide Total, ShouldBalance;
    var s, t := ss[m.source], ss[m.target];
    TotalSet(ss, m.source, s.(leaders := s.leaders - 1));
    TotalSet(ss[m.source := s.(leaders := s.leaders - 1)], m.target, t.(leaders := t.leaders + 1));
    SourceHasOne(s, t, tolerant);
  }

  lemma SourceHasOne(s: Store, t: Store, tolerant: int)
    requires tolerant >= 1 && ShouldBalance(s, t, tolerant) && t.leaders >= 0
    ensures s.leaders >= 1
  {
    var c, w, d, v := (s.leaders - tolerant) as real, Weight(s.weight), (t.leaders + tolerant) as real, Weight(t.weight);
    DivNotNegative(d, v);
    PositiveDividend(c, w);
  }

  lemma PositiveDividend(x: real, w: real)
    requires w > 0.0 && x / w > 0.0
    ensures x > 0.0
  {
    assert x == x / w * w;
    Positive(x / w, w);
  }
}
