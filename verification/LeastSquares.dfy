/** The two least-squares slopes: the raw sums of battery_soh_calculator.py and the centred sums
    of degradation_tracker.py. */
module LeastSquares {
  import opened Registers

  function Sum(xs: seq<real>): real {
    if xs == [] then 0.0 else Sum(xs[..|xs| - 1]) + xs[|xs| - 1]
  }

  function Products(xs: seq<real>, ys: seq<real>): real
    requires |xs| == |ys|
  {
    var n := |xs| - 1;
    if xs == [] then 0.0 else Products(xs[..n], ys[..n]) + xs[n] * ys[n]
  }

  /** n times the sum of products, less the product of the sums. */
  function Cross(xs: seq<real>, ys: seq<real>): real
    requires |xs| == |ys|
  {
    |xs| as real * Products(xs, ys) - Sum(xs) * Sum(ys)
  }

  /** The slope from raw sums. */
  function RawSlope(xs: seq<real>, ys: seq<real>): Option<real>
    requires |xs| == |ys|
  {
    var denominator := Cross(xs, xs);
    if denominator == 0.0 then None else Some(Cross(xs, ys) / denominator)
  }

  function Mean(xs: seq<real>): real
    requires xs != []
  {
    Sum(xs) / |xs| as real
  }

  /** The sum of the products of the distances to u and v. */
  function Distances(xs: seq<real>, ys: seq<real>, u: real, v: real): real
    requires |xs| == |ys|
  {
    var n := |xs| - 1;
    if xs == [] then 0.0 else Distances(xs[..n], ys[..n], u, v) + (xs[n] - u) * (ys[n] - v)
  }

  /** The slope from sums of distances to the means. */
  function CentredSlope(xs: seq<real>, ys: seq<real>): Option<real>
    requires |xs| == |ys| && xs != []
  {
    var denominator := Distances(xs, xs, Mean(xs), Mean(xs));
    if denominator == 0.0 then None else Some(Distances(xs, ys, Mean(xs), Mean(ys)) / denominator)
  }

  /** The sum over all pairs i < j of the products of their differences. */
  function Pairs(xs: seq<real>, ys: seq<real>): real
    requires |xs| == |ys|
  {
    var n := |xs| - 1;
    if xs == [] then 0.0 else Pairs(xs[..n], ys[..n]) + Distances(xs[..n], ys[..n], xs[n], ys[n])
  }

  lemma Expanded(x: real, y: real, u: real, v: real)
    ensures (x - u) * (y - v) == x * y - v * x - u * y + u * v
  {}

  lemma DistancesGrow(p: real, sx: real, sy: real, n: real, x: real, y: real, u: real, v: real, d: real, m: real)
    requires d == p - v * sx - u * sy + n * (u * v) && m == n + 1.0
    ensures d + (x - u) * (y - v) == (p + x * y) - v * (sx + x) - u * (sy + y) + m * (u * v)
  {
    Expanded(x, y, u, v);
    assert v * (sx + x) == v * sx + v * x;
    assert u * (sy + y) == u * sy + u * y;
    assert m * (u * v) == n * (u * v) + u * v;
  }

  lemma SumStep(xs: seq<real>, n: nat, x: real)
    requires |xs| == n + 1 && xs[n] == x
    ensures Sum(xs) == Sum(xs[..n]) + x
  {}

  lemma ProductsStep(xs: seq<real>, ys: seq<real>, n: nat, x: real, y: real)
    requires |xs| == |ys| == n + 1 && xs[n] == x && ys[n] == y
    ensures Products(xs, ys) == Products(xs[..n], ys[..n]) + x * y
  {}

  lemma DistancesStep(xs: seq<real>, ys: seq<real>, u: real, v: real, n: nat, x: real, y: real)
    requires |xs| == |ys| == n + 1 && xs[n] == x && ys[n] == y
    ensures Distances(xs, ys, u, v) == Distances(xs[..n], ys[..n], u, v) + (x - u) * (y - v)
  {}

  lemma NoDistances(u: real, v: real)
    ensures Distances([], [], u, v) == Products([], []) - v * Sum([]) - u * Sum([]) + 0.0 * (u * v)
  {}

  /** Distances to (u, v), expanded. */
  lemma {:induction false} DistancesExpand(xs: seq<real>, ys: seq<real>, u: real, v: real)
    requires |xs| == |ys|
    ensures Distances(xs, ys, u, v) == Products(xs, ys) - v * Sum(xs) - u * Sum(ys) + |xs| as real * (u * v)
  {
    hide *;
    if xs == [] {
      assert ys == [] && |xs| as real == 0.0;
      NoDistances(u, v);
    } else {
      var n := |xs| - 1;
      var x, y := xs[n], ys[n];
      DistancesExpand(xs[..n], ys[..n], u, v);
      DistancesStep(xs, ys, u, v, n, x, y);
      ProductsStep(xs, ys, n, x, y);
      SumStep(xs, n, x);
      SumStep(ys, n, y);
      DistancesGrow(Products(xs[..n], ys[..n]), Sum(xs[..n]), Sum(ys[..n]), n as real, x, y, u, v,
                    Distances(xs[..n], ys[..n], u, v), |xs| as real);
    }
  }

  lemma CrossGrows(n: real, p: real, sx: real, sy: real, x: real, y: real,
                   m: real, q: real, tx: real, ty: real, c: real, d: real, e: real)
    requires m == n + 1.0 && q == p + x * y && tx == sx + x && ty == sy + y
    requires c == n * p - sx * sy && d == p - y * sx - x * sy + n * (x * y) && e == m * q - tx * ty
    ensures e == c + d
  {
    assert m * q == n * p + n * (x * y) + p + x * y;
    assert tx * ty == sx * sy + y * sx + x * sy + x * y;
  }

  lemma CrossIs(xs: seq<real>, ys: seq<real>)
    requires |xs| == |ys|
    ensures Cross(xs, ys) == |xs| as real * Products(xs, ys) - Sum(xs) * Sum(ys)
  {
    hide Products, Sum;
  }

  lemma PairsStep(xs: seq<real>, ys: seq<real>, n: nat, x: real, y: real)
    requires |xs| == |ys| == n + 1 && xs[n] == x && ys[n] == y
    ensures Pairs(xs, ys) == Pairs(xs[..n], ys[..n]) + Distances(xs[..n], ys[..n], x, y)
  {}

  lemma NoCross(xs: seq<real>, ys: seq<real>)
    requires xs == [] && ys == []
    ensures Cross(xs, ys) == Pairs(xs, ys)
  {
    assert Sum(xs) == 0.0 && Products(xs, ys) == 0.0 && |xs| as real == 0.0;
  }

  /** The identity behind both slopes: n times the products less the product of the sums is the
      sum over all pairs. */
  lemma {:induction false} CrossIsPairs(xs: seq<real>, ys: seq<real>)
    requires |xs| == |ys|
    ensures Cross(xs, ys) == Pairs(xs, ys)
  {
    hide *;
    if xs == [] {
      NoCross(xs, ys);
    } else {
      var n := |xs| - 1;
      var x, y := xs[n], ys[n];
      CrossIsPairs(xs[..n], ys[..n]);
      DistancesExpand(xs[..n], ys[..n], x, y);
      PairsStep(xs, ys, n, x, y);
      ProductsStep(xs, ys, n, x, y);
      SumStep(xs, n, x);
      SumStep(ys, n, y);
      CrossIs(xs[..n], ys[..n]);
      CrossIs(xs, ys);
      assert |xs[..n]| as real == n as real && |xs| as real == n as real + 1.0;
      CrossGrows(n as real, Products(xs[..n], ys[..n]), Sum(xs[..n]), Sum(ys[..n]), x, y,
                 |xs| as real, Products(xs, ys), Sum(xs), Sum(ys),
                 Cross(xs[..n], ys[..n]), Distances(xs[..n], ys[..n], x, y), Cross(xs, ys));
    }
  }

  lemma Positive(a: real, b: real, p: real)
    requires a > 0.0 && b > 0.0 && p == a * b
    ensures p > 0.0
  {}

  lemma Square(d: real, s: real)
    requires s == d * d
    ensures s >= 0.0 && (s == 0.0 <==> d == 0.0)
  {
    if d > 0.0 {
      Positive(d, d, s);
    } else if d < 0.0 {
      Positive(-d, -d, s);
    }
  }

  lemma {:induction false} SquaresAreNonNegative(xs: seq<real>, u: real)
    ensures Distances(xs, xs, u, u) >= 0.0
    ensures Distances(xs, xs, u, u) == 0.0 <==> forall i :: 0 <= i < |xs| ==> xs[i] == u
  {
    if xs != [] {
      var n := |xs| - 1;
      SquaresAreNonNegative(xs[..n], u);
      DistancesStep(xs, xs, u, u, n, xs[n], xs[n]);
      Square(xs[n] - u, (xs[n] - u) * (xs[n] - u));
      hide *;
      assert (forall i :: 0 <= i < |xs| ==> xs[i] == u) <==> (forall i :: 0 <= i < n ==> xs[..n][i] == u) && xs[n] == u;
    }
  }

  predicate AllEqual(xs: seq<real>) {
    forall i, j :: 0 <= i < j < |xs| ==> xs[i] == xs[j]
  }

  /** The denominator is never negative, and zero exactly when all x agree. */
  lemma {:induction false} DenominatorVanishes(xs: seq<real>)
    ensures Cross(xs, xs) >= 0.0
    ensures Cross(xs, xs) == 0.0 <==> AllEqual(xs)
  {
    CrossIsPairs(xs, xs);
    PairsVanish(xs);
  }

  lemma {:induction false} PairsVanish(xs: seq<real>)
    ensures Pairs(xs, xs) >= 0.0
    ensures Pairs(xs, xs) == 0.0 <==> AllEqual(xs)
  {
    if xs != [] {
      var n := |xs| - 1;
      PairsVanish(xs[..n]);
      SquaresAreNonNegative(xs[..n], xs[n]);
      assert forall i :: 0 <= i < n ==> xs[..n][i] == xs[i];
    }
  }

  /** The two modules compute the same slope from the same points. */
  lemma SlopesAgree(xs: seq<real>, ys: seq<real>)
    requires |xs| == |ys| && xs != []
    ensures CentredSlope(xs, ys) == RawSlope(xs, ys)
  {
    CentredIsCross(xs, ys);
    CentredIsCross(xs, xs);
    var n, a, b := |xs| as real, Distances(xs, ys, Mean(xs), Mean(ys)), Distances(xs, xs, Mean(xs), Mean(xs));
    assert n > 0.0;
    hide Cross, Distances, Mean;
    CancelFactor(n, a, b, Cross(xs, ys), Cross(xs, xs));
  }

  lemma QuotientIs(a: real, b: real, q: real)
    requires b != 0.0 && q * b == a
    ensures a / b == q
  {
    var d := a / b - q;
    assert (a / b) * b == a;
    assert d * b == (a / b) * b - q * b;
    if d != 0.0 { NonZero(d, b, d * b); }
  }

  lemma NonZero(a: real, b: real, p: real)
    requires a != 0.0 && b != 0.0 && p == a * b
    ensures p != 0.0
  {
    if a > 0.0 && b > 0.0 {
      Positive(a, b, p);
    } else if a > 0.0 {
      Positive(a, -b, -p);
    } else if b > 0.0 {
      Positive(-a, b, -p);
    } else {
      Positive(-a, -b, p);
    }
  }

  lemma CancelFactor(n: real, a: real, b: real, c: real, e: real)
    requires n > 0.0 && n * a == c && n * b == e
    ensures e == 0.0 <==> b == 0.0
    ensures b != 0.0 ==> c / e == a / b
  {
    if b == 0.0 {
      assert n * b == n * 0.0;
    } else {
      NonZero(n, b, e);
      var q := a / b;
      assert q * b == a;
      assert q * (n * b) == n * (q * b);
      QuotientIs(c, e, q);
    }
  }

  lemma MeansDrop(n: real, p: real, sx: real, sy: real, u: real, v: real, d: real, c: real)
    requires n * u == sx && n * v == sy && d == p - v * sx - u * sy + n * (u * v) && c == n * p - sx * sy
    ensures n * d == c
  {
    assert n * (v * sx) == (n * v) * sx;
    assert n * (u * sy) == (n * u) * sy;
    assert n * (n * (u * v)) == (n * u) * (n * v);
    assert n * d == n * p - n * (v * sx) - n * (u * sy) + n * (n * (u * v));
  }

  /** The centred sum, n times. */
  lemma CentredIsCross(xs: seq<real>, ys: seq<real>)
    requires |xs| == |ys| && xs != []
    ensures |xs| as real * Distances(xs, ys, Mean(xs), Mean(ys)) == Cross(xs, ys)
  {
    hide *;
    DistancesExpand(xs, ys, Mean(xs), Mean(ys));
    MeanTimes(xs);
    MeanTimes(ys);
    CrossIs(xs, ys);
    MeansDrop(|xs| as real, Products(xs, ys), Sum(xs), Sum(ys), Mean(xs), Mean(ys),
              Distances(xs, ys, Mean(xs), Mean(ys)), Cross(xs, ys));
  }

  lemma MeanTimes(xs: seq<real>)
    requires xs != []
    ensures |xs| as real * Mean(xs) == Sum(xs)
  {
    assert |xs| as real > 0.0;
    hide Sum;
  }

  predicate NonDecreasing(xs: seq<real>) { forall i, j :: 0 <= i < j < |xs| ==> xs[i] <= xs[j] }

  predicate NonIncreasing(ys: seq<real>) { forall i, j :: 0 <= i < j < |ys| ==> ys[i] >= ys[j] }

  /** Capacity that only falls while the throughput only rises gives no rising slope. */
  lemma OpposedSlopes(xs: seq<real>, ys: seq<real>)
    requires |xs| == |ys| && NonDecreasing(xs) && NonIncreasing(ys)
    ensures RawSlope(xs, ys).Some? ==> RawSlope(xs, ys).value <= 0.0
  {
    CrossIsPairs(xs, ys);
    OpposedPairs(xs, ys);
    DenominatorVanishes(xs);
    var a, b := Cross(xs, ys), Cross(xs, xs);
    if b != 0.0 { QuotientSign(a, b); }
  }

  lemma QuotientSign(a: real, b: real)
    requires b > 0.0
    ensures a / b <= 0.0 <==> a <= 0.0
  {
    var q := a / b;
    assert q * b == a;
    if q > 0.0 {
      Positive(q, b, a);
    } else if q < 0.0 {
      Positive(-q, b, -a);
    }
  }

  lemma {:induction false} OpposedPairs(xs: seq<real>, ys: seq<real>)
    requires |xs| == |ys| && NonDecreasing(xs) && NonIncreasing(ys)
    ensures Pairs(xs, ys) <= 0.0
  {
    if xs != [] {
      var n := |xs| - 1;
      OpposedPairs(xs[..n], ys[..n]);
      OpposedDistances(xs[..n], ys[..n], xs[n], ys[n]);
    }
  }

  lemma {:induction false} OpposedDistances(xs: seq<real>, ys: seq<real>, u: real, v: real)
    requires |xs| == |ys| && forall i :: 0 <= i < |xs| ==> xs[i] <= u && ys[i] >= v
    ensures Distances(xs, ys, u, v) <= 0.0
  {
    if xs != [] {
      var n := |xs| - 1;
      OpposedDistances(xs[..n], ys[..n], u, v);
      DistancesStep(xs, ys, u, v, n, xs[n], ys[n]);
      hide *;
      OpposedSigns(xs[n], ys[n], u, v, (xs[n] - u) * (ys[n] - v));
    }
  }

  lemma OpposedSigns(x: real, y: real, u: real, v: real, p: real)
    requires x <= u && y >= v && p == (x - u) * (y - v)
    ensures p <= 0.0
  {
    if x < u && y > v { Positive(u - x, y - v, -p); }
  }

  // ---------- the best fit ----------

  /** How far the point lies above the line a + b x. */
  function Gap(x: real, y: real, a: real, b: real): real { y - a - b * x }

  /** The sum of the squared distances of the points from the line. */
  function Misfit(xs: seq<real>, ys: seq<real>, a: real, b: real): real
    requires |xs| == |ys|
  {
    var n := |xs| - 1;
    if xs == [] then 0.0
    else Misfit(xs[..n], ys[..n], a, b) + Gap(xs[n], ys[n], a, b) * Gap(xs[n], ys[n], a, b)
  }

  /** The sum of the distances, and of their products with x. */
  function Residuals(xs: seq<real>, ys: seq<real>, a: real, b: real): real
    requires |xs| == |ys|
  {
    var n := |xs| - 1;
    if xs == [] then 0.0 else Residuals(xs[..n], ys[..n], a, b) + Gap(xs[n], ys[n], a, b)
  }

  function Leverage(xs: seq<real>, ys: seq<real>, a: real, b: real): real
    requires |xs| == |ys|
  {
    var n := |xs| - 1;
    if xs == [] then 0.0 else Leverage(xs[..n], ys[..n], a, b) + Gap(xs[n], ys[n], a, b) * xs[n]
  }

  lemma MisfitStep(xs: seq<real>, ys: seq<real>, a: real, b: real, n: nat, r: real)
    requires |xs| == |ys| == n + 1 && r == Gap(xs[n], ys[n], a, b)
    ensures Misfit(xs, ys, a, b) == Misfit(xs[..n], ys[..n], a, b) + r * r
  {
    hide Gap;
  }

  lemma ResidualStep(xs: seq<real>, ys: seq<real>, a: real, b: real, n: nat, r: real)
    requires |xs| == |ys| == n + 1 && r == Gap(xs[n], ys[n], a, b)
    ensures Residuals(xs, ys, a, b) == Residuals(xs[..n], ys[..n], a, b) + r
    ensures Leverage(xs, ys, a, b) == Leverage(xs[..n], ys[..n], a, b) + r * xs[n]
  {
    hide Gap;
  }

  lemma NoPoints(a: real, b: real)
    ensures Misfit([], [], a, b) == 0.0 && Residuals([], [], a, b) == 0.0 && Leverage([], [], a, b) == 0.0
    ensures Sum([]) == 0.0 && Products([], []) == 0.0
  {}

  lemma GapShifts(x: real, y: real, a: real, b: real, c: real, e: real, d: real)
    requires d == (a - c) + (b - e) * x
    ensures Gap(x, y, c, e) == Gap(x, y, a, b) + d
  {
    assert (b - e) * x == b * x - e * x;
  }

  lemma Shifted(r: real, x: real, da: real, db: real, d: real)
    requires d == da + db * x
    ensures (r + d) * (r + d) == r * r + 2.0 * (da * r + db * (r * x)) + d * d
  {
    assert r * d == da * r + db * (r * x);
    assert (r + d) * (r + d) == r * r + 2.0 * (r * d) + d * d;
  }

  /** One point more: m2, m are the misfits of the two lines, r0, r1 the residual sums of the first. */
  lemma ShiftGrows(m2: real, m: real, r0: real, r1: real, r: real, x: real, da: real, db: real, d: real, rest: real,
                   n2: real, n: real, s0: real, s1: real)
    requires d == da + db * x && rest >= 0.0
    requires m2 == m + 2.0 * (da * r0 + db * r1) + rest
    requires n2 == m2 + (r + d) * (r + d) && n == m + r * r && s0 == r0 + r && s1 == r1 + r * x
    ensures n2 == n + 2.0 * (da * s0 + db * s1) + (rest + d * d)
    ensures rest + d * d >= 0.0
  {
    Shifted(r, x, da, db, d);
    Square(d, d * d);
    assert da * s0 == da * r0 + da * r;
    assert db * s1 == db * r1 + db * (r * x);
  }

  /** Another line fits worse by a sum of squares, but for the residuals of the first. */
  lemma {:induction false} OtherLine(xs: seq<real>, ys: seq<real>, a: real, b: real, c: real, e: real)
    returns (rest: real)
    requires |xs| == |ys|
    ensures rest >= 0.0
    ensures Misfit(xs, ys, c, e)
         == Misfit(xs, ys, a, b)
            + 2.0 * ((a - c) * Residuals(xs, ys, a, b) + (b - e) * Leverage(xs, ys, a, b)) + rest
  {
    hide *;
    if xs == [] {
      NoPoints(a, b);
      NoPoints(c, e);
      assert ys == [];
      NothingShifts(a - c, b - e);
      rest := 0.0;
    } else {
      var n := |xs| - 1;
      var x, y := xs[n], ys[n];
      var before := OtherLine(xs[..n], ys[..n], a, b, c, e);
      var r, d := Gap(x, y, a, b), (a - c) + (b - e) * x;
      GapShifts(x, y, a, b, c, e, d);
      MisfitStep(xs, ys, a, b, n, r);
      ResidualStep(xs, ys, a, b, n, r);
      MisfitStep(xs, ys, c, e, n, r + d);
      ShiftGrows(Misfit(xs[..n], ys[..n], c, e), Misfit(xs[..n], ys[..n], a, b), Residuals(xs[..n], ys[..n], a, b),
                 Leverage(xs[..n], ys[..n], a, b), r, x, a - c, b - e, d, before,
                 Misfit(xs, ys, c, e), Misfit(xs, ys, a, b), Residuals(xs, ys, a, b), Leverage(xs, ys, a, b));
      rest := before + d * d;
    }
  }

  lemma NothingShifts(da: real, db: real)
    ensures 0.0 == 0.0 + 2.0 * (da * 0.0 + db * 0.0) + 0.0
  {}

  lemma GapTimes(x: real, y: real, a: real, b: real, r: real)
    requires r == Gap(x, y, a, b)
    ensures r == y - a - b * x && r * x == x * y - a * x - b * (x * x)
  {
    var bx := b * x;
    assert r == y - a - bx;
    assert bx * x == b * (x * x);
    assert r * x == y * x - a * x - bx * x;
  }

  lemma SumsGrow(n: real, m: real, a: real, b: real, s: real, x: real, p: real, q: real)
    requires m == n + 1.0
    ensures m * a == n * a + a && b * (s + x) == b * s + b * x && a * (s + x) == a * s + a * x
    ensures b * (p + q) == b * p + b * q
  {}

  lemma {:induction false} ResidualSums(xs: seq<real>, ys: seq<real>, a: real, b: real)
    requires |xs| == |ys|
    ensures Residuals(xs, ys, a, b) == Sum(ys) - |xs| as real * a - b * Sum(xs)
    ensures Leverage(xs, ys, a, b) == Products(xs, ys) - a * Sum(xs) - b * Products(xs, xs)
  {
    hide *;
    if xs == [] {
      NoPoints(a, b);
      assert ys == [] && |xs| as real == 0.0;
      NothingSums(a, b);
    } else {
      var n := |xs| - 1;
      var x, y := xs[n], ys[n];
      var r := Gap(x, y, a, b);
      ResidualSums(xs[..n], ys[..n], a, b);
      ResidualStep(xs, ys, a, b, n, r);
      SumStep(xs, n, x);
      SumStep(ys, n, y);
      ProductsStep(xs, ys, n, x, y);
      ProductsStep(xs, xs, n, x, x);
      GapTimes(x, y, a, b, r);
      SumsGrow(n as real, |xs| as real, a, b, Sum(xs[..n]), x, Products(xs[..n], xs[..n]), x * x);
    }
  }

  lemma NothingSums(a: real, b: real)
    ensures 0.0 == 0.0 - 0.0 * a - b * 0.0 && 0.0 == 0.0 - a * 0.0 - b * 0.0
  {}

  lemma Scaled(n: real, z: real)
    requires n > 0.0 && n * z == 0.0
    ensures z == 0.0
  {
    if z > 0.0 {
      Positive(n, z, n * z);
    } else if z < 0.0 {
      Positive(n, -z, -(n * z));
    }
  }

  lemma NormalEquations(n: real, sx: real, sy: real, p: real, q: real, a: real, b: real)
    requires n > 0.0 && n * a == sy - b * sx && b * (n * q - sx * sx) == n * p - sx * sy
    ensures sy - n * a - b * sx == 0.0
    ensures p - a * sx - b * q == 0.0
  {
    var z := p - a * sx - b * q;
    assert n * z == n * p - (n * a) * sx - n * (b * q);
    assert (n * a) * sx == sy * sx - (b * sx) * sx;
    assert b * (n * q - sx * sx) == n * (b * q) - (b * sx) * sx;
    Scaled(n, z);
  }

  lemma SlopeTimes(xs: seq<real>, ys: seq<real>, b: real)
    requires |xs| == |ys| && RawSlope(xs, ys) == Some(b)
    ensures b * Cross(xs, xs) == Cross(xs, ys)
  {
    hide Cross;
  }

  lemma NoSlopeOfNothing(xs: seq<real>, ys: seq<real>)
    requires |xs| == |ys| && RawSlope(xs, ys).Some?
    ensures xs != []
  {}

  lemma MeanLine(n: real, mx: real, my: real, a: real, b: real, sx: real, sy: real)
    requires a == my - b * mx && n * mx == sx && n * my == sy
    ensures n * a == sy - b * sx
  {
    assert n * (b * mx) == b * (n * mx);
    assert n * a == n * my - n * (b * mx);
  }

  /** The line of the slope through the mean of the points leaves no residuals on balance. */
  lemma Balanced(xs: seq<real>, ys: seq<real>, a: real, b: real)
    requires |xs| == |ys| && xs != [] && RawSlope(xs, ys) == Some(b) && a == Mean(ys) - b * Mean(xs)
    ensures Residuals(xs, ys, a, b) == 0.0 && Leverage(xs, ys, a, b) == 0.0
  {
    hide *;
    var n := |xs| as real;
    SlopeTimes(xs, ys, b);
    MeanTimes(xs);
    MeanTimes(ys);
    MeanLine(n, Mean(xs), Mean(ys), a, b, Sum(xs), Sum(ys));
    CrossIs(xs, xs);
    CrossIs(xs, ys);
    ResidualSums(xs, ys, a, b);
    NormalEquations(n, Sum(xs), Sum(ys), Products(xs, ys), Products(xs, xs), a, b);
  }

  /** The slope is that of the best fit: with the line through the mean of the points, no other line
      has a smaller sum of squared distances. */
  lemma SlopeFitsBest(xs: seq<real>, ys: seq<real>, b: real, c: real, e: real)
    requires |xs| == |ys| && RawSlope(xs, ys) == Some(b)
    ensures xs != [] && Misfit(xs, ys, Mean(ys) - b * Mean(xs), b) <= Misfit(xs, ys, c, e)
  {
    hide *;
    NoSlopeOfNothing(xs, ys);
    var a := Mean(ys) - b * Mean(xs);
    Balanced(xs, ys, a, b);
    var rest := OtherLine(xs, ys, a, b, c, e);
    NothingShifts(a - c, b - e);
  }
}
