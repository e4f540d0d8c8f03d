/** server/core/store.go:269-312: the region score of a store, over the reals. It has three stages, by the space that
    would be left: the size itself, a line in between, and a fixed large score minus what is left. */
module StoreScore {
  import opened StoreWeight

  const MAX_SCORE := 1073741824.0

  /** Sizes in megabytes, and the regions' size with the weight. */
  datatype Store = Store(available: real, used: real, capacity: real, size: real, weight: real)

  /** What the code divides by is not zero: used space where there are regions. */
  predicate Measured(s: Store) {
    s.size >= 0.0 && s.used >= 0.0 && s.capacity > 0.0 && (s.size > 0.0 ==> s.used > 0.0)
  }

  /** Region size per used space. */
  function Amplification(s: Store): (a: real)
    requires Measured(s)
    ensures a > 0.0
  {
    if s.size == 0.0 then 1.0 else s.size / s.used
  }

  function HighBound(s: Store, high: real): real {
    (1.0 - high) * s.capacity
  }

  function LowBound(s: Store, low: real): real {
    (1.0 - low) * s.capacity
  }

  /** The space left after growing by `delta`. */
  function Left(s: Store, delta: real): real
    requires Measured(s)
  {
    s.available - delta / Amplification(s)
  }

  /** The region size at which `bound` is left. */
  function SizeAt(s: Store, bound: real): real
    requires Measured(s)
  {
    (s.used + s.available - bound) * Amplification(s)
  }

  /** The line through the ends of the two other stages. */
  function Line(x1: real, y1: real, x2: real, y2: real, x: real): real
    requires x1 != x2
  {
    var k := (y2 - y1) / (x2 - x1);
    k * x + (y1 - k * x1)
  }

  function Between(s: Store, high: real, low: real, delta: real): real
    requires Measured(s) && high < low
  {
    BoundsApart(s, high, low);
    var x1, x2 := SizeAt(s, HighBound(s, high)), SizeAt(s, LowBound(s, low));
    Line(x1, x1, x2, MAX_SCORE - LowBound(s, low), s.size + delta)
  }

  /** The score before the division by the weight. */
  function RawScore(s: Store, high: real, low: real, delta: real): real
    requires Measured(s) && high < low
  {
    if Left(s, delta) >= HighBound(s, high) then s.size + delta
    else if Left(s, delta) <= LowBound(s, low) then MAX_SCORE - Left(s, delta)
    else Between(s, high, low, delta)
  }

  function RegionScore(s: Store, high: real, low: real, delta: real): real
    requires Measured(s) && high < low
  {
    RawScore(s, high, low, delta) / Weight(s.weight)
  }

  /** The space left in the units of the store: what the regions grow by takes space as they do now. */
  function SpaceLeft(s: Store, delta: real): real {
    if s.size == 0.0 then s.available - delta else s.available - delta * s.used / s.size
  }

  /** The outer stages: with more left than the high space ratio leaves free the score is the size, with less than the
      low space ratio leaves free it is 2^30 minus what is left; divided by the weight. */
  lemma Stages(s: Store, high: real, low: real, delta: real)
    requires Measured(s) && high < low && s.weight >= 0.000001
    ensures SpaceLeft(s, delta) >= (1.0 - high) * s.capacity ==> RegionScore(s, high, low, delta) * s.weight == s.size + delta
    ensures SpaceLeft(s, delta) <= (1.0 - low) * s.capacity ==>
      RegionScore(s, high, low, delta) * s.weight == 1073741824.0 - SpaceLeft(s, delta)
  {
    hide Between, Left, SpaceLeft, SizeAt;
    LeftIs(s, delta);
    BoundsApart(s, high, low);
    var raw := RawScore(s, high, low, delta);
    Cancel(raw, s.weight);
    assert RegionScore(s, high, low, delta) * s.weight == raw by { hide RawScore; }
  }

  lemma LeftIs(s: Store, delta: real)
    requires Measured(s)
    ensures Left(s, delta) == SpaceLeft(s, delta)
  {
    if s.size != 0.0 { Inverted(delta, s.size, s.used); }
  }

  lemma Inverted(x: real, y: real, z: real)
    requires y != 0.0 && z != 0.0 && y / z != 0.0
    ensures x / (y / z) == x * z / y
  {
    var a := y / z;
    assert a * z == y;
    assert x * z / y == x * z / (a * z);
  }

  // ---------- arithmetic ----------

  lemma Times(x: real, y: real)
    requires x > 0.0 && y > 0.0
    ensures x * y > 0.0
  {
  }

  lemma TimesMonotone(x: real, y: real, k: real)
    requires x <= y && k >= 0.0
    ensures k * x <= k * y
  {
    assert k * (y - x) >= 0.0;
  }

  lemma TimesStrict(x: real, y: real, k: real)
    requires k > 0.0
    ensures x * k < y * k <==> x < y
    ensures x * k == y * k <==> x == y
  {
    if x < y { Times(y - x, k); } else if y < x { Times(x - y, k); }
  }

  lemma Cancel(x: real, y: real)
    requires y != 0.0
    ensures x / y * y == x
  {
  }

  lemma BoundsApart(s: Store, high: real, low: real)
    requires Measured(s) && high < low
    ensures LowBound(s, low) < HighBound(s, high)
    ensures SizeAt(s, HighBound(s, high)) < SizeAt(s, LowBound(s, low))
  {
    TimesStrict(1.0 - low, 1.0 - high, s.capacity);
    TimesStrict(s.used + s.available - HighBound(s, high), s.used + s.available - LowBound(s, low), Amplification(s));
  }

  lemma LineEnds(x1: real, y1: real, x2: real, y2: real)
    requires x1 != x2
    ensures Line(x1, y1, x2, y2, x1) == y1 && Line(x1, y1, x2, y2, x2) == y2
  {
    var k := (y2 - y1) / (x2 - x1);
    Cancel(y2 - y1, x2 - x1);
    assert k * x2 - k * x1 == k * (x2 - x1);
  }

  lemma LineMonotone(x1: real, y1: real, x2: real, y2: real, x: real, x': real)
    requires x1 < x2 && x <= x' && y1 <= y2
    ensures Line(x1, y1, x2, y2, x) <= Line(x1, y1, x2, y2, x')
  {
    var k := (y2 - y1) / (x2 - x1);
    SlopeSign(y2 - y1, x2 - x1);
    TimesMonotone(x, x', k);
  }

  lemma SlopeSign(y: real, x: real)
    requires x > 0.0
    ensures y / x >= 0.0 <==> y >= 0.0
  {
    Cancel(y, x);
    if y / x < 0.0 { Times(-(y / x), x); assert -(y / x) * x == -(y / x * x); }
    if y < 0.0 && y / x >= 0.0 { TimesMonotone(0.0, x, y / x); }
  }

  // ---------- the score as a function of the size ----------

  /** The regions' size is what the used space amounts to: there are regions, or nothing is used. */
  predicate Regular(s: Store) {
    s.size > 0.0 || s.used == 0.0
  }

  lemma RegularMeans(s: Store)
    requires Measured(s)
    ensures Regular(s) <==> s.size == s.used * Amplification(s)
  {
    if s.size > 0.0 {
      Cancel(s.size, s.used);
      assert s.size / s.used * s.used == s.used * (s.size / s.used);
    }
  }

  /** The size at which that much is left is the new size, as far as the store is regular. */
  lemma SizeAtLeft(s: Store, delta: real)
    requires Measured(s)
    ensures SizeAt(s, Left(s, delta)) == s.used * Amplification(s) + delta
  {
    var a := Amplification(s);
    Cancel(delta, a);
    assert (s.used + delta / a) * a == s.used * a + delta / a * a;
  }

  lemma SizeAtOrder(s: Store, b: real, c: real)
    requires Measured(s)
    ensures b < c <==> SizeAt(s, c) < SizeAt(s, b)
    ensures b == c <==> SizeAt(s, c) == SizeAt(s, b)
  {
    TimesStrict(s.used + s.available - c, s.used + s.available - b, Amplification(s));
  }

  /** The three stages over the size `x`; `a` is the amplification. */
  function Staged(x1: real, x2: real, y2: real, a: real, x: real): real
    requires x1 < x2 && a > 0.0
  {
    if x <= x1 then x else if x >= x2 then y2 + (x - x2) / a else Line(x1, x1, x2, y2, x)
  }

  lemma LowStage(s: Store, low: real, delta: real)
    requires Measured(s) && Regular(s)
    ensures MAX_SCORE - Left(s, delta)
         == MAX_SCORE - LowBound(s, low) + (s.size + delta - SizeAt(s, LowBound(s, low))) / Amplification(s)
  {
    var a, l := Amplification(s), LowBound(s, low);
    RegularMeans(s);
    SizeAtLeft(s, delta);
    assert s.size + delta - SizeAt(s, l) == (l - Left(s, delta)) * a by {
      Factor(s.used + s.available - Left(s, delta), s.used + s.available - l, a);
    }
    Quotient(l - Left(s, delta), a);
  }

  lemma Factor(x: real, y: real, a: real)
    ensures x * a - y * a == (x - y) * a
  {
  }

  lemma Quotient(x: real, a: real)
    requires a > 0.0
    ensures x * a / a == x
  {
  }

  lemma ScoreIsStaged(s: Store, high: real, low: real, delta: real)
    requires Measured(s) && Regular(s) && high < low
    ensures SizeAt(s, HighBound(s, high)) < SizeAt(s, LowBound(s, low))
    ensures RawScore(s, high, low, delta)
         == Staged(SizeAt(s, HighBound(s, high)), SizeAt(s, LowBound(s, low)), MAX_SCORE - LowBound(s, low), Amplification(s), s.size + delta)
  {
    hide SizeAt, Left, Line;
    BoundsApart(s, high, low);
    RegularMeans(s);
    SizeAtLeft(s, delta);
    SizeAtOrder(s, HighBound(s, high), Left(s, delta));
    SizeAtOrder(s, Left(s, delta), LowBound(s, low));
    LowStage(s, low, delta);
  }

  // ---------- continuity ----------

  ghost predicate MeetsHigh(s: Store, high: real, low: real)
    requires Measured(s) && high < low
  {
    forall d: real :: Left(s, d) == HighBound(s, high) ==> Between(s, high, low, d) == s.size + d
  }

  ghost predicate MeetsLow(s: Store, high: real, low: real)
    requires Measured(s) && high < low
  {
    forall d: real :: Left(s, d) == LowBound(s, low) ==> Between(s, high, low, d) == MAX_SCORE - Left(s, d)
  }

  /** The growth that leaves `bound`. */
  function DeltaAt(s: Store, bound: real): real
    requires Measured(s)
  {
    (s.available - bound) * Amplification(s)
  }

  lemma LeftAt(s: Store, bound: real)
    requires Measured(s)
    ensures Left(s, DeltaAt(s, bound)) == bound
  {
    Quotient(s.available - bound, Amplification(s));
  }

  /** The line meets both other stages, for every regular store. */
  lemma Continuous(s: Store, high: real, low: real)
    requires Measured(s) && Regular(s) && high < low
    ensures MeetsHigh(s, high, low) && MeetsLow(s, high, low)
  {
    hide SizeAt, Left, Line;
    BoundsApart(s, high, low);
    RegularMeans(s);
    var x1, x2, y2 := SizeAt(s, HighBound(s, high)), SizeAt(s, LowBound(s, low)), MAX_SCORE - LowBound(s, low);
    LineEnds(x1, x1, x2, y2);
    forall d: real | Left(s, d) == HighBound(s, high) ensures Between(s, high, low, d) == s.size + d {
      SizeAtLeft(s, d);
    }
    forall d: real | Left(s, d) == LowBound(s, low) ensures Between(s, high, low, d) == MAX_SCORE - Left(s, d) {
      SizeAtLeft(s, d);
    }
  }

  /** And only for those: without regions, but with used space, one of the two ends is missed. */
  lemma ContinuousIff(s: Store, high: real, low: real)
    requires Measured(s) && high < low
    ensures MeetsHigh(s, high, low) && MeetsLow(s, high, low) <==> Regular(s)
  {
    hide SizeAt, Left, Line, Between, MeetsHigh, MeetsLow;
    if Regular(s) {
      Continuous(s, high, low);
    } else {
      Missed(s, high, low);
    }
  }

  lemma Missed(s: Store, high: real, low: real)
    requires Measured(s) && !Regular(s) && high < low
    ensures !(MeetsHigh(s, high, low) && MeetsLow(s, high, low))
  {
    hide SizeAt, Left, Line;
    BoundsApart(s, high, low);
    var h, l := HighBound(s, high), LowBound(s, low);
    var x1, x2, y2 := SizeAt(s, h), SizeAt(s, l), MAX_SCORE - l;
    LeftAt(s, h);
    LeftAt(s, l);
    SizeAtLeft(s, DeltaAt(s, h));
    SizeAtLeft(s, DeltaAt(s, l));
    LineShift(x1, x1, x2, y2, s.used);
  }

  /** Shifted by the same amount, a line does not both rise as the diagonal and stay level. */
  lemma LineShift(x1: real, y1: real, x2: real, y2: real, u: real)
    requires x1 < x2 && u > 0.0
    ensures !(Line(x1, y1, x2, y2, x1 - u) == y1 - u && Line(x1, y1, x2, y2, x2 - u) == y2)
  {
    var k := (y2 - y1) / (x2 - x1);
    LineEnds(x1, y1, x2, y2);
    assert k * (x1 - u) == k * x1 - k * u;
    assert k * (x2 - u) == k * x2 - k * u;
  }

  // ---------- monotonicity ----------

  ghost predicate Nondecreasing(s: Store, high: real, low: real)
    requires Measured(s) && high < low
  {
    forall d: real, e: real :: d <= e ==> RegionScore(s, high, low, d) <= RegionScore(s, high, low, e)
  }

  lemma StagedMonotone(x1: real, x2: real, y2: real, a: real, x: real, x': real)
    requires x1 < x2 && a > 0.0 && x1 <= y2 && x <= x'
    ensures Staged(x1, x2, y2, a, x) <= Staged(x1, x2, y2, a, x')
  {
    hide Line;
    LineEnds(x1, x1, x2, y2);
    if x1 < x < x2 { LineMonotone(x1, x1, x2, y2, x1, x); LineMonotone(x1, x1, x2, y2, x, x2); }
    if x1 < x' < x2 { LineMonotone(x1, x1, x2, y2, x1, x'); }
    if x1 < x && x' < x2 { LineMonotone(x1, x1, x2, y2, x, x'); }
    if x' >= x2 { SlopeSign(x' - x2, a); }
    if x >= x2 { Divided(x - x2, x' - x2, a); }
  }

  lemma Divided(x: real, y: real, a: real)
    requires a > 0.0
    ensures x <= y <==> x / a <= y / a
  {
    Cancel(x, a);
    Cancel(y, a);
    TimesStrict(y / a, x / a, a);
  }

  /** The low space stage begins at or above where the high space stage ends; and without regions, but with used
      space, not above the size the line is drawn to. */
  ghost predicate Rises(s: Store, high: real, low: real)
    requires Measured(s)
  {
    var y2 := MAX_SCORE - LowBound(s, low);
    y2 >= SizeAt(s, HighBound(s, high)) && (Regular(s) || y2 <= SizeAt(s, LowBound(s, low)))
  }

  /** For every store, the score never falls as the store grows exactly under that condition. */
  lemma NondecreasingIff(s: Store, high: real, low: real)
    requires Measured(s) && high < low
    ensures Nondecreasing(s, high, low) <==> Rises(s, high, low)
  {
    hide Nondecreasing, SizeAt;
    if Regular(s) { RegularIff(s, high, low); } else { IrregularIff(s, high, low); }
  }

  lemma RegularIff(s: Store, high: real, low: real)
    requires Measured(s) && Regular(s) && high < low
    ensures Nondecreasing(s, high, low) <==> MAX_SCORE - LowBound(s, low) >= SizeAt(s, HighBound(s, high))
  {
    hide SizeAt, Left, Line, RawScore, Staged;
    var h, l, a, w := HighBound(s, high), LowBound(s, low), Amplification(s), Weight(s.weight);
    var x1, x2, y2 := SizeAt(s, h), SizeAt(s, l), MAX_SCORE - l;
    BoundsApart(s, high, low);
    if y2 >= x1 {
      forall d: real, e: real | d <= e ensures RegionScore(s, high, low, d) <= RegionScore(s, high, low, e) {
        ScoreIsStaged(s, high, low, d);
        ScoreIsStaged(s, high, low, e);
        StagedMonotone(x1, x2, y2, a, s.size + d, s.size + e);
        Divided(RawScore(s, high, low, d), RawScore(s, high, low, e), w);
      }
    } else {
      Falls(s, high, low);
    }
  }

  lemma Falls(s: Store, high: real, low: real)
    requires Measured(s) && Regular(s) && high < low && MAX_SCORE - LowBound(s, low) < SizeAt(s, HighBound(s, high))
    ensures !Nondecreasing(s, high, low)
  {
    hide SizeAt, Left, Line;
    var h, l, w := HighBound(s, high), LowBound(s, low), Weight(s.weight);
    var d, e := SizeAt(s, h) - s.size, SizeAt(s, l) - s.size;
    BoundsApart(s, high, low);
    ScoreIsStaged(s, high, low, d);
    ScoreIsStaged(s, high, low, e);
    Nothing(Amplification(s));
    Divided(RawScore(s, high, low, d), RawScore(s, high, low, e), w);
    assert d <= e && !(RegionScore(s, high, low, d) <= RegionScore(s, high, low, e));
  }

  lemma Nothing(a: real)
    requires a > 0.0
    ensures 0.0 / a == 0.0
  {
  }

  // ---------- a store without regions, but with used space ----------

  /** Its three stages over the growth `d`: the line is shifted by the used space `u` against the other two. */
  function Shifted(x1: real, x2: real, y2: real, u: real, d: real): real
    requires x1 < x2
  {
    if d <= x1 - u then d else if d >= x2 - u then y2 + (d - (x2 - u)) else Line(x1, x1, x2, y2, d)
  }

  lemma ScoreIsShifted(s: Store, high: real, low: real, d: real)
    requires Measured(s) && !Regular(s) && high < low
    ensures SizeAt(s, HighBound(s, high)) < SizeAt(s, LowBound(s, low))
    ensures RawScore(s, high, low, d)
         == Shifted(SizeAt(s, HighBound(s, high)), SizeAt(s, LowBound(s, low)), MAX_SCORE - LowBound(s, low), s.used, d)
  {
    hide Line;
    BoundsApart(s, high, low);
    assert d / 1.0 == d;
  }

  function Slope(x1: real, x2: real, y2: real): real
    requires x1 < x2
  {
    (y2 - x1) / (x2 - x1)
  }

  lemma SlopeIs(x1: real, x2: real, y2: real)
    requires x1 < x2
    ensures var k := Slope(x1, x2, y2);
      k * (x2 - x1) == y2 - x1 && (k >= 0.0 <==> y2 >= x1) && (k <= 1.0 <==> y2 <= x2)
  {
    Cancel(y2 - x1, x2 - x1);
    SlopeSign(y2 - x1, x2 - x1);
    SlopeSign(x2 - y2, x2 - x1);
    assert (x2 - x1) - (y2 - x1) == x2 - y2;
    OneMinus(y2 - x1, x2 - x1);
  }

  lemma LineIs(x1: real, x2: real, y2: real, x: real)
    requires x1 < x2
    ensures Line(x1, x1, x2, y2, x) == x1 + Slope(x1, x2, y2) * (x - x1)
  {
    var k := Slope(x1, x2, y2);
    assert k * (x - x1) == k * x - k * x1;
  }

  lemma OneMinus(y: real, x: real)
    requires x > 0.0
    ensures (x - y) / x == 1.0 - y / x
  {
    Cancel(x - y, x);
    Cancel(y, x);
    assert (1.0 - y / x) * x == x - y / x * x;
    TimesStrict((x - y) / x, 1.0 - y / x, x);
  }

  lemma ShiftedMonotone(x1: real, x2: real, y2: real, u: real, d: real, e: real)
    requires x1 < x2 && u > 0.0 && x1 <= y2 <= x2 && d <= e
    ensures Shifted(x1, x2, y2, u, d) <= Shifted(x1, x2, y2, u, e)
  {
    hide Line, Shifted, Slope;
    SlopeIs(x1, x2, y2);
    LineIs(x1, x2, y2, d);
    LineIs(x1, x2, y2, e);
    var at, behind, first := OnTheSlope(Slope(x1, x2, y2), x1, x2, y2, u, d, e);
    ShiftedCases(x1, x2, y2, u, d, e, at, behind, first);
  }

  lemma OnTheSlope(k: real, x1: real, x2: real, y2: real, u: real, d: real, e: real)
    returns (at: real, behind: real, first: real)
    requires 0.0 <= k <= 1.0 && k * (x2 - x1) == y2 - x1 && u > 0.0 && d <= e
    ensures at == k * (d - x1) && behind == k * (e - x1) && at <= behind && first >= -u
    ensures x1 - u < e < x2 - u ==> first <= behind
    ensures x1 - u < d < x2 - u ==> at <= y2 - x1
  {
    at, behind, first := k * (d - x1), k * (e - x1), k * -u;
    TimesMonotone(d - x1, e - x1, k);
    if x1 - u < e < x2 - u { TimesMonotone(-u, e - x1, k); }
    if x1 - u < d < x2 - u { TimesMonotone(d - x1, x2 - x1, k); }
    Below(k, u);
  }

  lemma ShiftedCases(x1: real, x2: real, y2: real, u: real, d: real, e: real, at: real, behind: real, first: real)
    requires x1 < x2 && u > 0.0 && x1 <= y2 <= x2 && d <= e && at <= behind && first >= -u
    requires Line(x1, x1, x2, y2, d) == x1 + at && Line(x1, x1, x2, y2, e) == x1 + behind
    requires x1 - u < e < x2 - u ==> first <= behind
    requires x1 - u < d < x2 - u ==> at <= y2 - x1
    ensures Shifted(x1, x2, y2, u, d) <= Shifted(x1, x2, y2, u, e)
  {
    hide Line;
  }

  lemma Below(k: real, u: real)
    requires k <= 1.0 && u > 0.0
    ensures k * -u >= -u
  {
    assert (1.0 - k) * u >= 0.0;
  }

  /** Too steep, the line starts below the diagonal. */
  lemma TooSteep(x1: real, x2: real, y2: real, u: real) returns (d: real, e: real)
    requires x1 < x2 && u > 0.0 && y2 > x2
    ensures d <= e && Shifted(x1, x2, y2, u, d) > Shifted(x1, x2, y2, u, e)
  {
    hide Line, Slope;
    SlopeIs(x1, x2, y2);
    var k := Slope(x1, x2, y2);
    var step := Step(k, u, x2 - x1);
    d, e := x1 - u, x1 - u + step;
    LineIs(x1, x2, y2, e);
    assert e - x1 == step - u;
    assert Line(x1, x1, x2, y2, e) < x1 - u;
  }

  lemma Step(k: real, u: real, width: real) returns (step: real)
    requires k > 1.0 && u > 0.0 && width > 0.0
    ensures 0.0 < step < width && k * (step - u) < -u
  {
    var gap := (k - 1.0) * u;
    Times(k - 1.0, u);
    SlopePositive(gap, k);
    step := if width < gap / k then width / 2.0 else gap / k / 2.0;
    SmallStep(k, step, gap);
    assert k * (step - u) == k * step - k * u;
  }

  lemma SlopePositive(y: real, x: real)
    requires y > 0.0 && x > 0.0
    ensures y / x > 0.0
  {
    Cancel(y, x);
    SlopeSign(y, x);
  }

  lemma SmallStep(k: real, step: real, gap: real)
    requires k > 0.0 && step < gap / k
    ensures k * step < gap
  {
    Cancel(gap, k);
    TimesStrict(step, gap / k, k);
  }

  /** With a negative slope it falls. */
  lemma Falling(x1: real, x2: real, y2: real, u: real) returns (d: real, e: real)
    requires x1 < x2 && u > 0.0 && y2 < x1
    ensures d <= e && Shifted(x1, x2, y2, u, d) > Shifted(x1, x2, y2, u, e)
  {
    hide Line, Slope;
    var step := (x2 - x1) / 3.0;
    d, e := x1 - u + step, x1 - u + step + step;
    assert x1 - u < d < e < x2 - u;
    SlopeIs(x1, x2, y2);
    LineIs(x1, x2, y2, d);
    LineIs(x1, x2, y2, e);
    Downhill(Slope(x1, x2, y2), d - x1, e - x1);
  }

  lemma Downhill(k: real, x: real, y: real)
    requires k < 0.0 && x < y
    ensures k * x > k * y
  {
    TimesStrict(x, y, -k);
  }

  lemma IrregularIff(s: Store, high: real, low: real)
    requires Measured(s) && !Regular(s) && high < low
    ensures Nondecreasing(s, high, low) <==>
      SizeAt(s, HighBound(s, high)) <= MAX_SCORE - LowBound(s, low) <= SizeAt(s, LowBound(s, low))
  {
    hide SizeAt, RawScore, Shifted;
    var x1, x2, y2, w := SizeAt(s, HighBound(s, high)), SizeAt(s, LowBound(s, low)), MAX_SCORE - LowBound(s, low), Weight(s.weight);
    BoundsApart(s, high, low);
    if x1 <= y2 <= x2 {
      forall d: real, e: real | d <= e ensures RegionScore(s, high, low, d) <= RegionScore(s, high, low, e) {
        ScoreIsShifted(s, high, low, d);
        ScoreIsShifted(s, high, low, e);
        ShiftedMonotone(x1, x2, y2, s.used, d, e);
        Divided(RawScore(s, high, low, d), RawScore(s, high, low, e), w);
      }
    } else {
      var d, e;
      if y2 > x2 { d, e := TooSteep(x1, x2, y2, s.used); } else { d, e := Falling(x1, x2, y2, s.used); }
      ScoreIsShifted(s, high, low, d);
      ScoreIsShifted(s, high, low, e);
      Divided(RawScore(s, high, low, d), RawScore(s, high, low, e), w);
      assert d <= e && !(RegionScore(s, high, low, d) <= RegionScore(s, high, low, e));
    }
  }

  /** An empty store with ten megabytes used: between a growth of ten and one of eleven the score falls below zero. */
  lemma EmptyStoreFalls()
    ensures var s := Store(50.0, 10.0, 100.0, 0.0, 1.0);
      && Measured(s) && MAX_SCORE - LowBound(s, 0.8) >= SizeAt(s, HighBound(s, 0.6))
      && RegionScore(s, 0.6, 0.8, 10.0) == 10.0 && RegionScore(s, 0.6, 0.8, 11.0) < 0.0
  {
    var s := Store(50.0, 10.0, 100.0, 0.0, 1.0);
    ScoreIsShifted(s, 0.6, 0.8, 10.0);
    ScoreIsShifted(s, 0.6, 0.8, 11.0);
    LineIs(20.0, 40.0, MAX_SCORE - 20.0, 11.0);
  }
}
