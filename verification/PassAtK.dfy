/**
 * The pass@k estimator of minicc/bench_compare.py, over exact rationals.  The
 * reference meaning is counting: of all the ways to pick `k` of a row's draws,
 * the share that holds at least one success.
 */
module PassAtK {
  import opened Common

  // ---------- binomial coefficients and what they count ----------

  function Choose(n: nat, k: nat): (r: nat)
    ensures r == 0 <==> n < k
    decreases n
  {
    if k == 0 then 1 else if n == 0 then 0 else Choose(n - 1, k - 1) + Choose(n - 1, k)
  }

  /** The `k`-element subsets of `u`. */
  ghost function Picks<T>(u: set<T>, k: nat): set<set<T>> {
    set s | s <= u && |s| == k
  }

  lemma PicksSplit<T>(u: set<T>, x: T, k: nat)
    requires x in u && k > 0
    ensures |Picks(u, k)| == |Picks(u - {x}, k)| + |Picks(u - {x}, k - 1)|
  {
    var without, smaller := Picks(u - {x}, k), Picks(u - {x}, k - 1);
    var with := set s | s in smaller :: s + {x};
    AddOneIsInjective(smaller, x, with);
    Disjointly(u, x, k, with);
  }

  lemma Disjointly<T>(u: set<T>, x: T, k: nat, with: set<set<T>>)
    requires x in u && k > 0
    requires with == set s | s in Picks(u - {x}, k - 1) :: s + {x}
    ensures |Picks(u, k)| == |Picks(u - {x}, k)| + |with|
  {
    var without := Picks(u - {x}, k);
    forall s ensures s in Picks(u, k) <==> s in without + with {
      PickedEitherWay(u, x, k, s);
    }
    var both := without + with;
    assert Picks(u, k) == both;
    assert without !! with;
    assert |both| == |without| + |with|;
  }

  lemma PickedEitherWay<T>(u: set<T>, x: T, k: nat, s: set<T>)
    requires x in u && k > 0
    ensures s in Picks(u, k) <==> s in Picks(u - {x}, k) || exists t :: t in Picks(u - {x}, k - 1) && s == t + {x}
  {
    if s in Picks(u, k) && x in s {
      var t := s - {x};
      assert t in Picks(u - {x}, k - 1) && s == t + {x};
    }
  }

  lemma AddOneIsInjective<T>(family: set<set<T>>, x: T, image: set<set<T>>)
    requires forall s :: s in family ==> x !in s
    requires image == set s | s in family :: s + {x}
    ensures |image| == |family|
    decreases |family|
  {
    if family != {} {
      var s :| s in family;
      var rest := family - {s};
      var smaller := set t | t in rest :: t + {x};
      AddOneIsInjective(rest, x, smaller);
      forall t | t in rest ensures t + {x} != s + {x} {
        assert (t + {x}) - {x} == t && (s + {x}) - {x} == s;
      }
      assert image == smaller + {s + {x}};
      assert s + {x} !in smaller;
    }
  }

  /** `Choose` counts: a set of `n` things has `Choose(n, k)` subsets of size `k`. */
  lemma {:induction false} PicksAreCounted<T>(u: set<T>, k: nat)
    ensures |Picks(u, k)| == Choose(|u|, k)
    decreases |u|
  {
    if k == 0 {
      assert Picks(u, k) == {{}};
    } else if u == {} {
      assert Picks(u, k) == {};
    } else {
      var x :| x in u;
      PicksSplit(u, x, k);
      PicksAreCounted(u - {x}, k);
      PicksAreCounted(u - {x}, k - 1);
    }
  }

  /** The absorption identity relating neighbours of one row of Pascal's triangle. */
  lemma {:induction false} ChooseNext(n: nat, k: nat)
    requires k <= n
    ensures (k + 1) * Choose(n, k + 1) == (n - k) * Choose(n, k)
  {
    if n > 0 {
      if k < n {
        ChooseNext(n - 1, k);
      }
      if k > 0 {
        ChooseNext(n - 1, k - 1);
        Absorb(n, k, Choose(n - 1, k - 1), Choose(n - 1, k), Choose(n - 1, k + 1));
      }
    }
  }

  /** Two neighbouring identities of one row of the triangle give that of the row below. */
  lemma Absorb(n: nat, k: nat, left: nat, middle: nat, right: nat)
    requires k * middle == (n - k) * left && (k + 1) * right == (n - 1 - k) * middle
    ensures (k + 1) * (middle + right) == (n - k) * (left + middle)
  {
    assert (k + 1) * (middle + right) == (k + 1) * middle + (k + 1) * right;
    assert (n - k) * (left + middle) == (n - k) * left + (n - k) * middle;
    assert (k + 1) * middle + (n - 1 - k) * middle == n * middle;
    assert k * middle + (n - k) * middle == n * middle;
  }

  // ---------- one row ----------

  /** One draw's verdict; only a definite pass counts as a success. */
  type Draw = Option<bool>

  const SUCCESS: Draw := Some(true)

  function Successes(draws: seq<Draw>): (c: nat)
    ensures c <= |draws|
  {
    if draws == [] then 0
    else Successes(draws[..|draws| - 1]) + (if draws[|draws| - 1] == SUCCESS then 1 else 0)
  }

  function Indices(n: nat): (r: set<nat>)
    ensures forall i: nat :: i in r <==> i < n
    ensures |r| == n
  {
    if n == 0 then {} else Indices(n - 1) + {n - 1}
  }

  ghost function Positions(draws: seq<Draw>): set<nat> {
    Indices(|draws|)
  }

  ghost function Misses(draws: seq<Draw>): set<nat> {
    set i | i in Indices(|draws|) && draws[i] != SUCCESS
  }

  lemma {:induction false} MissesAreCounted(draws: seq<Draw>)
    ensures |Positions(draws)| == |draws|
    ensures |Misses(draws)| == |draws| - Successes(draws)
  {
    if draws != [] {
      MissesAreCounted(draws[..|draws| - 1]);
      OneMoreDraw(draws, Misses(draws[..|draws| - 1]));
    }
  }

  lemma OneMoreDraw(draws: seq<Draw>, before: set<nat>)
    requires draws != [] && before == Misses(draws[..|draws| - 1])
    ensures |Misses(draws)| == |before| + if draws[|draws| - 1] == SUCCESS then 0 else 1
  {
    var last, init := |draws| - 1, draws[..|draws| - 1];
    forall i ensures i in Misses(draws) <==> i in before || (i == last && draws[last] != SUCCESS) {
      assert 0 <= i < last ==> init[i] == draws[i];
    }
    if draws[last] == SUCCESS {
      assert Misses(draws) == before;
    } else {
      assert Misses(draws) == before + {last};
    }
  }

  /** A choice of draws in which at least one succeeded. */
  ghost predicate Hits(draws: seq<Draw>, s: set<nat>) {
    exists i :: i in s && i < |draws| && draws[i] == Some(true)
  }

  ghost function HittingPicks(draws: seq<Draw>, k: nat): set<set<nat>> {
    set s | s in Picks(Positions(draws), k) && Hits(draws, s)
  }

  function Ratio(a: nat, b: nat): real
    requires b > 0
  {
    a as real / b as real
  }

  /** What pass@k means for one row: the share of `k`-draw picks that hit. */
  ghost function HitShare(draws: seq<Draw>, k: nat): real
    requires k <= |draws|
  {
    HitsAreTheRest(draws, k);
    Ratio(|HittingPicks(draws, k)|, |Picks(Positions(draws), k)|)
  }

  lemma HitsAreTheRest(draws: seq<Draw>, k: nat)
    ensures |Picks(Positions(draws), k)| == Choose(|draws|, k)
    ensures |HittingPicks(draws, k)| + Choose(|draws| - Successes(draws), k) == Choose(|draws|, k)
  {
    var all, misses := Positions(draws), Misses(draws);
    MissesAreCounted(draws);
    PicksAreCounted(all, k);
    PicksAreCounted(misses, k);
    HitOrMiss(draws, k, Picks(Misses(draws), k));
  }

  lemma HitOrMiss(draws: seq<Draw>, k: nat, missing: set<set<nat>>)
    requires missing == Picks(Misses(draws), k)
    ensures |Picks(Positions(draws), k)| == |HittingPicks(draws, k)| + |missing|
  {
    var hitting := HittingPicks(draws, k);
    forall s ensures s in Picks(Positions(draws), k) && !Hits(draws, s) <==> s in missing {
      MissingEveryHit(draws, k, s);
    }
    var both := hitting + missing;
    assert Picks(Positions(draws), k) == both;
    assert hitting !! missing;
    assert |both| == |hitting| + |missing|;
  }

  lemma MissingEveryHit(draws: seq<Draw>, k: nat, s: set<nat>)
    ensures s in Picks(Positions(draws), k) && !Hits(draws, s) <==> s in Picks(Misses(draws), k)
  {
    assert Misses(draws) <= Positions(draws);
    if s <= Positions(draws) && !Hits(draws, s) {
      forall i | i in s ensures i in Misses(draws) {}
    }
  }

  // ---------- the closed form ----------

  /** The chance that `k` of `n` draws all come from the `m` misses. */
  function MissRatio(n: nat, m: nat, k: nat): real
    requires k <= n
  {
    Ratio(Choose(m, k), Choose(n, k))
  }

  lemma Complement(hits: nat, misses: nat, all: nat)
    requires hits + misses == all && all > 0
    ensures Ratio(hits, all) == 1.0 - Ratio(misses, all)
  {
    assert hits as real + misses as real == all as real;
    ExactComplement(hits as real, misses as real, all as real);
  }

  lemma ExactComplement(a: real, b: real, d: real)
    requires a + b == d > 0.0
    ensures a / d == 1.0 - b / d
  {
    var x, y := a / d, b / d;
    assert x * d == a && y * d == b;
    CancelFactor(x + y - 1.0, d);
  }

  lemma CancelFactor(z: real, d: real)
    requires z * d == 0.0 && d > 0.0
    ensures z == 0.0
  {
  }

  /** The closed form `1 - C(n-c, k) / C(n, k)` is exactly the counted share. */
  lemma ClosedFormIsTheShare(draws: seq<Draw>, k: nat)
    requires k <= |draws|
    ensures HitShare(draws, k) == 1.0 - MissRatio(|draws|, |draws| - Successes(draws), k)
  {
    HitsAreTheRest(draws, k);
    Complement(|HittingPicks(draws, k)|, Choose(|draws| - Successes(draws), k), Choose(|draws|, k));
  }

  lemma ExactRatioStep(a: real, b: real, a1: real, b1: real, t: real, u: real, v: real)
    requires b > 0.0 && b1 > 0.0 && t > 0.0 && v > 0.0
    requires t * a1 == u * a && t * b1 == v * b
    ensures a1 / b1 == (a / b) * (u / v)
  {
    var x, y := a / b, u / v;
    assert a == x * b && u == y * v;
    assert t * a1 == (y * v) * (x * b) == (x * y) * (v * b) == (x * y) * (t * b1);
    assert t * (a1 - x * y * b1) == 0.0;
    assert a1 == x * y * b1;
  }

  lemma CastProduct(a: nat, b: nat)
    ensures (a * b) as real == a as real * b as real
  {
  }

  lemma RatioStep(a: nat, b: nat, a1: nat, b1: nat, t: nat, u: nat, v: nat)
    requires b > 0 && b1 > 0 && t > 0 && v > 0
    requires t * a1 == u * a && t * b1 == v * b
    ensures Ratio(a1, b1) == Ratio(a, b) * Ratio(u, v)
  {
    CastProduct(t, a1);
    CastProduct(u, a);
    CastProduct(t, b1);
    CastProduct(v, b);
    ExactRatioStep(a as real, b as real, a1 as real, b1 as real, t as real, u as real, v as real);
  }

  lemma MissRatioStep(n: nat, m: nat, k: nat)
    requires k < m <= n
    ensures MissRatio(n, m, k + 1) == MissRatio(n, m, k) * Ratio(m - k, n - k)
  {
    ChooseNext(m, k);
    ChooseNext(n, k);
    RatioStep(Choose(m, k), Choose(n, k), Choose(m, k + 1), Choose(n, k + 1), k + 1, m - k, n - k);
  }

  // ---------- bounds and monotonicity ----------

  lemma {:induction false} ChooseGrows(m: nat, n: nat, k: nat)
    requires m <= n
    ensures Choose(m, k) <= Choose(n, k)
    ensures m < n && 0 < k <= n ==> Choose(m, k) < Choose(n, k)
    decreases n
  {
    if m < n {
      ChooseGrows(m, n - 1, k);
    }
  }

  lemma RatioGrows(a: nat, b: nat, d: nat)
    requires a <= b && d > 0
    ensures Ratio(a, d) <= Ratio(b, d)
    ensures a < b ==> Ratio(a, d) < Ratio(b, d)
    ensures Ratio(0, d) == 0.0 && Ratio(d, d) == 1.0
  {
  }

  /** The value is a share, and its extremes mean exactly what they should. */
  lemma ShareIsAProbability(draws: seq<Draw>, k: nat)
    requires 0 < k <= |draws|
    ensures 0.0 <= HitShare(draws, k) <= 1.0
    ensures HitShare(draws, k) == 0.0 <==> Successes(draws) == 0
    ensures HitShare(draws, k) == 1.0 <==> |draws| - Successes(draws) < k
  {
    var n := |draws|;
    var m := n - Successes(draws);
    ChooseGrows(m, n, k);
    ShareHasExtremes(draws, k, Choose(m, k), Choose(n, k));
    ReadExtremes(HitShare(draws, k), Choose(m, k), Choose(n, k));
  }

  lemma ReadExtremes(share: real, missed: nat, all: nat)
    requires Extremes(share, missed, all)
    ensures 0.0 <= share <= 1.0 && (share == 0.0 <==> missed == all) && (share == 1.0 <==> missed == 0)
  {
  }

  /** What the bounds of a share of `all` without `missed` mean. */
  predicate Extremes(share: real, missed: nat, all: nat) {
    && 0.0 <= share <= 1.0
    && (share == 0.0 <==> missed == all)
    && (share == 1.0 <==> missed == 0)
  }

  lemma ShareHasExtremes(draws: seq<Draw>, k: nat, missed: nat, all: nat)
    requires k <= |draws| && missed == Choose(|draws| - Successes(draws), k) <= all == Choose(|draws|, k)
    ensures Extremes(HitShare(draws, k), missed, all)
  {
    RatioExtremes(missed, all);
    assert Extremes(1.0 - Ratio(missed, all), missed, all);
    ClosedFormIsTheShare(draws, k);
    assert HitShare(draws, k) == 1.0 - Ratio(missed, all);
  }

  lemma RatioExtremes(part: nat, all: nat)
    requires part <= all && all > 0
    ensures 0.0 <= Ratio(part, all) <= 1.0
    ensures Ratio(part, all) == 0.0 <==> part == 0
    ensures Ratio(part, all) == 1.0 <==> part == all
  {
    RatioGrows(0, part, all);
    RatioGrows(part, all, all);
  }

  /** More successes among equally many draws never lower the value. */
  lemma MoreSuccessesNeverHurt(before: seq<Draw>, after: seq<Draw>, k: nat)
    requires k <= |before| == |after|
    requires Successes(before) <= Successes(after)
    ensures HitShare(before, k) <= HitShare(after, k)
  {
    var n := |before|;
    var least := n - Successes(before);
    ShareAtMost(before, k, least);
    ShareAtLeast(after, k, least);
  }

  lemma ShareAtMost(draws: seq<Draw>, k: nat, least: nat)
    requires k <= |draws| && least <= |draws| - Successes(draws)
    ensures HitShare(draws, k) <= 1.0 - MissRatio(|draws|, least, k)
  {
    var n, m := |draws|, |draws| - Successes(draws);
    FewerMissesAreRarer(n, least, m, k);
    ShareIs(draws, k, MissRatio(n, m, k));
  }

  lemma ShareIs(draws: seq<Draw>, k: nat, missed: real)
    requires k <= |draws| && missed == MissRatio(|draws|, |draws| - Successes(draws), k)
    ensures HitShare(draws, k) == 1.0 - missed
  {
    ClosedFormIsTheShare(draws, k);
  }

  lemma ShareAtLeast(draws: seq<Draw>, k: nat, most: nat)
    requires k <= |draws| && |draws| - Successes(draws) <= most <= |draws|
    ensures HitShare(draws, k) >= 1.0 - MissRatio(|draws|, most, k)
  {
    var n, m := |draws|, |draws| - Successes(draws);
    FewerMissesAreRarer(n, m, most, k);
    ShareIs(draws, k, MissRatio(n, m, k));
  }

  lemma FewerMissesAreRarer(n: nat, m: nat, m': nat, k: nat)
    requires m <= m' <= n && k <= n
    ensures MissRatio(n, m, k) <= MissRatio(n, m', k)
  {
    ChooseGrows(m, m', k);
    RatioGrows(Choose(m, k), Choose(m', k), Choose(n, k));
  }

  /** Asking for more attempts never lowers the value either. */
  lemma MoreAttemptsNeverHurt(draws: seq<Draw>, k: nat)
    requires k < |draws|
    ensures HitShare(draws, k) <= HitShare(draws, k + 1)
  {
    ClosedFormIsTheShare(draws, k);
    ClosedFormIsTheShare(draws, k + 1);
    LongerMissesAreRarer(|draws|, |draws| - Successes(draws), k);
  }

  lemma LongerMissesAreRarer(n: nat, m: nat, k: nat)
    requires m <= n && k < n
    ensures MissRatio(n, m, k + 1) <= MissRatio(n, m, k)
  {
    var a, b, a1, b1 := Choose(m, k), Choose(n, k), Choose(m, k + 1), Choose(n, k + 1);
    if k < m {
      ChooseNext(m, k);
      ChooseNext(n, k);
      CrossProduct(a, b, a1, b1, k + 1, m - k, n - k);
    } else {
      assert a1 == 0 && a1 * b == 0;
    }
    RatioByCrossProduct(a1, b1, a, b);
  }

  lemma CrossProduct(a: nat, b: nat, a1: nat, b1: nat, t: nat, u: nat, v: nat)
    requires t > 0 && u <= v && t * a1 == u * a && t * b1 == v * b
    ensures a1 * b <= a * b1
  {
    Regroup(t, a1, b);
    Regroup(u, a, b);
    Regroup(t, b1, a);
    Regroup(v, b, a);
    ProductGrows(u, v, a * b);
    FactorCancels(t, a1 * b, b1 * a);
  }

  lemma Regroup(x: nat, y: nat, z: nat)
    ensures x * (y * z) == (x * y) * z
  {
  }

  lemma ProductGrows(u: nat, v: nat, p: nat)
    requires u <= v
    ensures u * p <= v * p
  {
  }

  lemma FactorCancels(t: nat, x: nat, y: nat)
    requires t > 0 && t * x <= t * y
    ensures x <= y
  {
  }

  lemma RatioByCrossProduct(a: nat, b: nat, c: nat, d: nat)
    requires b > 0 && d > 0 && a * d <= c * b
    ensures Ratio(a, b) <= Ratio(c, d)
  {
    CastProduct(a, d);
    CastProduct(c, b);
    QuotientsByCrossProduct(a as real, b as real, c as real, d as real);
  }

  lemma QuotientsByCrossProduct(a: real, b: real, c: real, d: real)
    requires b > 0.0 && d > 0.0 && a * d <= c * b
    ensures a / b <= c / d
  {
    var x, y := a / b, c / d;
    assert x * b == a && y * d == c;
    assert x * (b * d) == a * d && y * (b * d) == c * b;
    PositiveFactorCancels(x, y, b * d);
  }

  lemma PositiveFactorCancels(x: real, y: real, p: real)
    requires p > 0.0 && x * p <= y * p
    ensures x <= y
  {
    assert (y - x) * p >= 0.0;
  }

  // ---------- the report figure ----------

  /** One report row; a row without recorded draws carries an empty list. */
  datatype Row = Row(passed: Option<bool>, draws: seq<Draw>)

  ghost function Gradable(rows: seq<Row>): seq<Row> {
    if rows == [] then []
    else Gradable(rows[..|rows| - 1]) + if rows[|rows| - 1].passed.Some? then [rows[|rows| - 1]] else []
  }

  /** Every gradable row is kept, once and in its place; its place is the number of gradable rows before it. */
  lemma {:induction false} GradableAt(rows: seq<Row>, i: nat)
    requires i < |rows|
    ensures forall j :: 0 <= j < |Gradable(rows)| ==> Gradable(rows)[j].passed.Some?
    ensures rows[i].passed.Some? ==>
              |Gradable(rows[..i])| < |Gradable(rows)| && Gradable(rows)[|Gradable(rows[..i])|] == rows[i]
    decreases |rows|
  {
    GradableRows(rows);
    var init := rows[..|rows| - 1];
    if i < |init| {
      GradableAt(init, i);
      assert init[..i] == rows[..i];
    }
  }

  lemma {:induction false} GradableRows(rows: seq<Row>)
    ensures forall j :: 0 <= j < |Gradable(rows)| ==> Gradable(rows)[j].passed.Some?
    ensures |Gradable(rows)| == |set i | 0 <= i < |rows| && rows[i].passed.Some?|
  {
    if rows != [] {
      var init, last := rows[..|rows| - 1], |rows| - 1;
      GradableRows(init);
      var before := set i | 0 <= i < |init| && init[i].passed.Some?;
      var after := set i | 0 <= i < |rows| && rows[i].passed.Some?;
      assert after == before + if rows[last].passed.Some? then {last} else {};
    }
  }

  ghost predicate Sampled(row: Row, k: nat) {
    0 < |row.draws| && k <= |row.draws|
  }

  ghost function ShareSum(rows: seq<Row>, k: nat): real
    requires AllSampled(rows, k)
  {
    if rows == [] then 0.0
    else
      var last := |rows| - 1;
      assert Sampled(rows[last], k);
      ShareSum(rows[..last], k) + HitShare(rows[last].draws, k)
  }

  method CountSuccesses(draws: seq<Draw>) returns (c: nat)
    ensures c == Successes(draws)
  {
    c := 0;
    for i := 0 to |draws|
      invariant c == Successes(draws[..i])
    {
      assert draws[..i + 1][..i] == draws[..i];
      if draws[i] == SUCCESS {
        c := c + 1;
      }
    }
    assert draws[..|draws|] == draws;
  }

  /** One row's term of the sum: the product form, with the saturated case apart. */
  method RowValue(draws: seq<Draw>, k: nat) returns (v: real)
    requires k <= |draws|
    ensures v == HitShare(draws, k)
  {
    ClosedFormIsTheShare(draws, k);
    var n := |draws|;
    var c := CountSuccesses(draws);
    if n - c < k {
      RatioGrows(0, 0, Choose(n, k));
      return 1.0;
    }
    var ratio := 1.0;
    RatioGrows(1, 1, 1);
    for i := 0 to k
      invariant ratio == MissRatio(n, n - c, i)
    {
      MissRatioStep(n, n - c, i);
      ratio := ratio * Ratio(n - c - i, n - i);
    }
    v := 1.0 - ratio;
  }

  method SelectGradable(rows: seq<Row>) returns (gradable: seq<Row>)
    ensures gradable == Gradable(rows)
  {
    gradable := [];
    for i := 0 to |rows|
      invariant gradable == Gradable(rows[..i])
    {
      assert rows[..i + 1][..i] == rows[..i];
      if rows[i].passed.Some? {
        gradable := gradable + [rows[i]];
      }
    }
    assert rows[..|rows|] == rows;
  }

  ghost predicate AllSampled(rows: seq<Row>, k: nat) {
    forall i :: 0 <= i < |rows| ==> Sampled(rows[i], k)
  }

  method EnoughDraws(rows: seq<Row>, k: nat) returns (ok: bool)
    ensures ok <==> AllSampled(rows, k)
  {
    for i := 0 to |rows|
      invariant forall j :: 0 <= j < i ==> Sampled(rows[j], k)
    {
      if rows[i].draws == [] || |rows[i].draws| < k {
        assert !Sampled(rows[i], k);
        return false;
      }
    }
    ok := true;
  }

  method TotalOf(rows: seq<Row>, k: nat) returns (total: real)
    requires AllSampled(rows, k)
    ensures total == ShareSum(rows, k)
  {
    total := 0.0;
    for i := 0 to |rows|
      invariant total == ShareSum(rows[..i], k)
    {
      assert Sampled(rows[i], k);
      var v := RowValue(rows[i].draws, k);
      SumStep(rows, i, k);
      total := total + v;
    }
    assert rows[..|rows|] == rows;
  }

  lemma SumStep(rows: seq<Row>, i: nat, k: nat)
    requires i < |rows| && AllSampled(rows, k)
    ensures Sampled(rows[i], k)
    ensures ShareSum(rows[..i + 1], k) == ShareSum(rows[..i], k) + HitShare(rows[i].draws, k)
  {
    assert rows[..i + 1][..i] == rows[..i];
  }

  /** The mean over all rows, each drawn often enough. */
  method MeanOf(rows: seq<Row>, k: nat) returns (mean: real)
    requires rows != [] && AllSampled(rows, k)
    ensures IsMean(mean, rows, k)
  {
    var total := TotalOf(rows, k);
    mean := Divide(total, |rows|);
  }

  /**
   * The figure exists exactly when there is a gradable row and every gradable
   * row was drawn often enough; it is then the mean share over all of them.
   */
  method PassAtK(rows: seq<Row>, k: nat) returns (figure: Option<real>)
    ensures figure.Some? <==> Gradable(rows) != [] && AllSampled(Gradable(rows), k)
    ensures figure.Some? ==> IsMean(figure.value, Gradable(rows), k)
  {
    var gradable := SelectGradable(rows);
    if gradable == [] {
      return None;
    }
    var ok := EnoughDraws(gradable, k);
    if !ok {
      return None;
    }
    var mean := MeanOf(gradable, k);
    figure := Some(mean);
  }

  method Divide(total: real, n: nat) returns (mean: real)
    requires n > 0
    ensures mean * n as real == total
  {
    mean := total / n as real;
  }

  ghost predicate IsMean(figure: real, rows: seq<Row>, k: nat) {
    AllSampled(rows, k) && figure * |rows| as real == ShareSum(rows, k)
  }

  lemma {:induction false} SumBounds(rows: seq<Row>, k: nat)
    requires k > 0 && AllSampled(rows, k)
    ensures 0.0 <= ShareSum(rows, k) <= |rows| as real
  {
    if rows != [] {
      SumBounds(rows[..|rows| - 1], k);
      ShareIsAProbability(rows[|rows| - 1].draws, k);
    }
  }

  /** The mean stays a probability. */
  lemma FigureIsAProbability(rows: seq<Row>, k: nat, figure: real)
    requires k > 0 && rows != [] && IsMean(figure, rows, k)
    ensures 0.0 <= figure <= 1.0
  {
    SumBounds(rows, k);
    MeanBounds(figure, |rows| as real);
  }

  lemma MeanBounds(mean: real, n: real)
    requires n > 0.0 && 0.0 <= mean * n <= n
    ensures 0.0 <= mean <= 1.0
  {
    assert (1.0 - mean) * n >= 0.0;
    assert mean >= 0.0 && 1.0 - mean >= 0.0;
  }
}
