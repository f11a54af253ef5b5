// The tridiagonal equations that the second derivatives of a cubic spline have to meet, and
// what eliminating below the diagonal does to them. Numbers are exact reals.
module SplineSystem {

  // ---- Rows of the system ----------------------------------------------------------------

  function Product(a: real, b: real): real { a * b }

  // a m + t = b, and h l + a m + t = b
  predicate Row(a: real, m: real, t: real, b: real) { a * m + t == b }

  predicate FullRow(h: real, l: real, a: real, m: real, t: real, b: real) { h * l + a * m + t == b }

  // The diagonal and the right-hand side of a row once the row above, with pivot p and right
  // side r, has been used to remove its first term.
  function NextPivot(a: real, h: real, p: real): real
    requires p != 0.0
  {
    a - h * h / p
  }

  function NextReduced(b: real, h: real, r: real, p: real): real
    requires p != 0.0
  {
    b - h * r / p
  }

  // What a row without a first term says about m, given its last term
  function Ratio(r: real, t: real, p: real): real
    requires p != 0.0
  {
    (r - t) / p
  }

  // ---- The system --------------------------------------------------------------------------

  // h[i] is the step before point i, b[i] the right-hand side at it; k ties the outermost
  // second derivatives to their neighbours.
  datatype System = System(h: seq<real>, b: seq<real>, k: real) {

    predicate Valid() {
      |h| == |b| && |h| >= 3
    }

    // The number of the last equation
    function Last(): nat
      requires Valid()
    {
      |h| - 2
    }

    predicate SameWay(i: nat)
      requires 1 <= i < |h| - 1
    {
      Product(h[i + 1], h[i]) > 0.0
    }

    // The steps before point n + 1 go one way.
    ghost predicate MonotoneTo(n: nat)
      requires Valid() && n <= Last()
    {
      forall i :: 1 <= i <= n ==> SameWay(i)
    }

    ghost predicate Monotone()
      requires Valid()
    {
      MonotoneTo(Last())
    }

    // The diagonal, the boundary conditions included
    function Diagonal(i: nat): real
      requires Valid() && 1 <= i <= Last()
    {
      2.0 * (h[i] + h[i + 1]) + (if i == 1 then Product(k, h[i]) else 0.0)
      + if i == Last() then Product(k, h[i + 1]) else 0.0
    }

    // The pivots of the elimination; what follows a zero one is of no interest.
    function Pivot(i: nat): real
      requires Valid() && 1 <= i <= Last()
    {
      if i == 1 then Diagonal(1)
      else
        var p := Pivot(i - 1);
        if p == 0.0 then 0.0 else NextPivot(Diagonal(i), h[i], p)
    }

    ghost predicate Regular()
      requires Valid()
    {
      forall i :: 1 <= i <= Last() ==> Pivot(i) != 0.0
    }

    // The right-hand sides after the elimination
    ghost function Reduced(i: nat): real
      requires Valid() && 1 <= i <= Last()
    {
      if i == 1 then b[1]
      else
        var p := Pivot(i - 1);
        if p == 0.0 then 0.0 else NextReduced(b[i], h[i], Reduced(i - 1), p)
    }

    ghost predicate Equation(m: seq<real>, i: nat)
      requires Valid() && |m| == |h| && 1 <= i <= Last()
    {
      h[i] * m[i - 1] + 2.0 * (h[i] + h[i + 1]) * m[i] + h[i + 1] * m[i + 1] == b[i]
    }

    ghost predicate Bounded(m: seq<real>)
      requires Valid() && |m| == |h|
    {
      m[0] == Product(k, m[1]) && m[|h| - 1] == Product(k, m[|h| - 2])
    }

    ghost predicate Solves(m: seq<real>)
      requires Valid()
    {
      |m| == |h| && Bounded(m) && forall i :: 1 <= i <= Last() ==> Equation(m, i)
    }

    // The last term of an equation, where the boundary condition has not folded it away
    function Ahead(m: seq<real>, i: nat): real
      requires Valid() && |m| == |h| && 1 <= i <= Last()
    {
      if i == Last() then 0.0 else Product(h[i + 1], m[i + 1])
    }

    // An equation after the elimination
    ghost predicate Triangular(m: seq<real>, i: nat)
      requires Valid() && |m| == |h| && 1 <= i <= Last()
    {
      Row(Pivot(i), m[i], Ahead(m, i), Reduced(i))
    }

    // ---- Elimination changes nothing ----------------------------------------------------

    // An equation with the boundary conditions folded into the diagonal
    ghost predicate Folded(m: seq<real>, i: nat)
      requires Valid() && |m| == |h| && 1 <= i <= Last()
    {
      if i == 1 then Row(Diagonal(i), m[i], Ahead(m, i), b[i])
      else FullRow(h[i], m[i - 1], Diagonal(i), m[i], Ahead(m, i), b[i])
    }

    lemma Fold(m: seq<real>, i: nat)
      requires Valid() && |m| == |h| && Bounded(m) && 1 <= i <= Last()
      ensures Equation(m, i) <==> Folded(m, i)
    {
      if i == 1 {
        Factor(h[i], k, m[1]);
      }
      if i == Last() {
        Factor(h[i + 1], k, m[i]);
      }
      Distribute(2.0 * (h[i] + h[i + 1]), if i == 1 then Product(k, h[i]) else 0.0,
                 if i == Last() then Product(k, h[i + 1]) else 0.0, m[i]);
    }

    lemma StepEquivalent(m: seq<real>, i: nat)
      requires Valid() && Regular() && |m| == |h| && Bounded(m) && 1 <= i <= Last()
      requires i > 1 ==> Triangular(m, i - 1)
      ensures Equation(m, i) <==> Triangular(m, i)
    {
      Fold(m, i);
      if i > 1 {
        Eliminate(Pivot(i - 1), h[i], m[i - 1], m[i], Reduced(i - 1), Diagonal(i), Ahead(m, i), b[i]);
      }
    }

    lemma {:induction false} SystemsEquivalent(m: seq<real>, n: nat)
      requires Valid() && Regular() && |m| == |h| && Bounded(m) && n <= Last()
      ensures (forall i :: 1 <= i <= n ==> Equation(m, i)) <==> forall i :: 1 <= i <= n ==> Triangular(m, i)
    {
      if n > 0 {
        SystemsEquivalent(m, n - 1);
        if n == 1 || Triangular(m, n - 1) {
          StepEquivalent(m, n);
        }
      }
    }

    // ---- One solution ----------------------------------------------------------------------

    lemma {:induction false} TriangularUnique(m: seq<real>, m': seq<real>, i: nat)
      requires Valid() && Regular() && |m| == |m'| == |h| && 1 <= i <= Last()
      requires forall j :: i <= j <= Last() ==> Triangular(m, j) && Triangular(m', j)
      ensures m[i] == m'[i]
      decreases Last() - i
    {
      if i < Last() {
        TriangularUnique(m, m', i + 1);
      }
      assert Triangular(m, i) && Triangular(m', i);
      Cancel(Pivot(i), m[i], m'[i], Ahead(m, i), Reduced(i));
    }

    // Regular equations have no two solutions.
    lemma Unique(m: seq<real>, m': seq<real>)
      requires Valid() && Regular() && Solves(m) && Solves(m')
      ensures m == m'
    {
      SystemsEquivalent(m, Last());
      SystemsEquivalent(m', Last());
      forall i | 0 <= i < |h| ensures m[i] == m'[i] {
        TriangularUnique(m, m', if i == 0 then 1 else if i == |h| - 1 then Last() else i);
      }
    }

    // ---- When no pivot vanishes -------------------------------------------------------------

    // The steps seen from the other side
    function Mirrored(): (s: System)
      ensures |s.h| == |h| && s.k == k && s.b == b
      ensures forall i :: 0 <= i < |h| ==> s.h[i] == -h[i]
    {
      System(seq(|h|, i requires 0 <= i < |h| => -h[i]), b, k)
    }

    lemma MirroredDiagonal(i: nat)
      requires Valid() && 1 <= i <= Last()
      ensures Mirrored().Diagonal(i) == -Diagonal(i)
    {
      Negated(k, h[i]);
      Negated(k, h[i + 1]);
    }

    lemma {:induction false} MirroredPivot(i: nat)
      requires Valid() && 1 <= i <= Last()
      ensures Mirrored().Pivot(i) == -Pivot(i)
    {
      MirroredDiagonal(i);
      if i > 1 {
        MirroredPivot(i - 1);
        if Pivot(i - 1) != 0.0 {
          SignsCancel(Diagonal(i), h[i], Pivot(i - 1));
        }
      }
    }

    lemma DiagonalLarge(i: nat)
      requires Valid() && 1 <= i <= Last() && h[i] > 0.0 && h[i + 1] > 0.0 && k > -2.0
      ensures Diagonal(i) > (if i == 1 then 0.0 else h[i]) + if i < Last() then 2.0 * h[i + 1] else 0.0
    {
      Share(k, h[i]);
      Share(k, h[i + 1]);
      var s, s1 := Product(k, h[i]), Product(k, h[i + 1]);
      assert s > -2.0 * h[i] && s1 > -2.0 * h[i + 1];
    }

    // With steps to the right every pivot is above twice the step ahead, but for the last,
    // which is still positive.
    lemma {:induction false} PivotPositive(i: nat)
      requires Valid() && 1 <= i <= Last() && (forall j :: 1 <= j <= i + 1 ==> h[j] > 0.0) && k > -2.0
      ensures Pivot(i) > if i < Last() then 2.0 * h[i + 1] else 0.0
    {
      DiagonalLarge(i);
      if i > 1 {
        PivotPositive(i - 1);
        assert Pivot(i - 1) > 2.0 * h[i];
        SquareOver(Diagonal(i), h[i], Pivot(i - 1));
      }
    }

    lemma {:induction false} OneDirection(n: nat, i: nat)
      requires Valid() && 1 <= n <= Last() && MonotoneTo(n) && 1 <= i <= n + 1
      ensures (h[1] > 0.0 <==> h[i] > 0.0) && h[i] != 0.0
    {
      if i == 1 {
        assert SameWay(1);
      } else {
        OneDirection(n, i - 1);
        assert SameWay(i - 1);
        SameSign(h[i], h[i - 1]);
      }
    }

    // Whatever the points, as long as they go one way: with k > -2 the elimination never
    // divides by zero.
    lemma PivotNonzero(i: nat)
      requires Valid() && 1 <= i <= Last() && MonotoneTo(i) && k > -2.0
      ensures Pivot(i) != 0.0
    {
      forall j | 1 <= j <= i + 1 ensures (h[1] > 0.0 <==> h[j] > 0.0) && h[j] != 0.0 {
        OneDirection(i, j);
      }
      if h[1] > 0.0 {
        PivotPositive(i);
      } else {
        Mirrored().PivotPositive(i);
        MirroredPivot(i);
      }
    }

    // As far as the points go one way, no pivot vanishes.
    ghost predicate Solvable()
      requires Valid()
    {
      forall i :: 1 <= i <= Last() && MonotoneTo(i) ==> Pivot(i) != 0.0
    }

    lemma SolvableAboveMinusTwo()
      requires Valid() && k > -2.0
      ensures Solvable()
    {
      forall i | 1 <= i <= Last() && MonotoneTo(i) ensures Pivot(i) != 0.0 {
        PivotNonzero(i);
      }
    }

    lemma SolvableIsRegular()
      requires Valid() && Monotone() && Solvable()
      ensures Regular()
    {
      forall i | 1 <= i <= Last() ensures Pivot(i) != 0.0 {
        assert MonotoneTo(i);
      }
    }

    // ---- Back substitution --------------------------------------------------------------------

    ghost function Back(i: nat): real
      requires Valid() && 1 <= i <= Last()
      decreases Last() - i
    {
      if Pivot(i) == 0.0 then 0.0
      else Ratio(Reduced(i), if i == Last() then 0.0 else Product(h[i + 1], Back(i + 1)), Pivot(i))
    }

    ghost function Solution(): (m: seq<real>)
      requires Valid()
      ensures |m| == |h| && Bounded(m)
      ensures forall i :: 1 <= i <= Last() ==> m[i] == Back(i)
    {
      seq(|h|, i requires 0 <= i < |h| =>
        if i == 0 then Product(k, Back(1)) else if i == |h| - 1 then Product(k, Back(Last())) else Back(i))
    }

    // Regular equations have a solution, and back substitution finds it.
    lemma SolutionSolves()
      requires Valid() && Regular()
      ensures Solves(Solution())
    {
      var m := Solution();
      forall i | 1 <= i <= Last() ensures Triangular(m, i) {
        Quotient(Pivot(i), m[i], Ahead(m, i), Reduced(i));
      }
      SystemsEquivalent(m, Last());
    }
  }

  // For every other k some points make a pivot vanish.
  lemma SingularBelow(k: real)
    requires k <= -2.0
    ensures exists s: System :: s.k == k && s.Valid() && s.Monotone() && !s.Regular()
  {
    if k == -2.0 {
      var s := System([0.0, 1.0, 1.0], [0.0, 0.0, 0.0], k);
      assert s.Pivot(1) == 0.0;
      assert s.Monotone();
    } else {
      var h := -(2.0 + k) / 2.0;
      var s := System([0.0, 1.0, h, 1.0], [0.0, 0.0, 0.0, 0.0], k);
      assert s.Pivot(1) == 2.0 * (1.0 + h) + k;
      assert s.Monotone();
    }
  }

  // k > -2 is exactly what keeps the elimination from dividing by zero.
  lemma RegularIff(k: real)
    ensures k > -2.0 <==> forall s: System :: s.k == k && s.Valid() && s.Monotone() ==> s.Regular()
  {
    if k > -2.0 {
      forall s: System | s.k == k && s.Valid() && s.Monotone() ensures s.Regular() {
        s.SolvableAboveMinusTwo();
        s.SolvableIsRegular();
      }
    } else {
      SingularBelow(k);
    }
  }

  // ---- Arithmetic --------------------------------------------------------------------------

  lemma Factor(h: real, k: real, m: real)
    ensures h * (k * m) == (k * h) * m
  {
  }

  lemma Distribute(a: real, b: real, c: real, m: real)
    ensures (a + b + c) * m == a * m + b * m + c * m
  {
  }

  lemma Negated(k: real, h: real)
    ensures Product(k, -h) == -Product(k, h)
  {
  }

  lemma Cancel(p: real, a: real, b: real, t: real, r: real)
    requires p != 0.0 && Row(p, a, t, r) && Row(p, b, t, r)
    ensures a == b
  {
    assert p * (a - b) == 0.0;
  }

  lemma Quotient(p: real, m: real, t: real, r: real)
    requires p != 0.0 && m == Ratio(r, t, p)
    ensures Row(p, m, t, r)
  {
  }

  // A share of h above -2 of it leaves twice h positive.
  lemma Share(k: real, h: real)
    requires k > -2.0 && h > 0.0
    ensures Product(k, h) > -2.0 * h
  {
    Scale(k + 2.0, h);
  }

  lemma Scale(c: real, h: real)
    requires c > 0.0 && h > 0.0
    ensures c * h > 0.0
  {
  }

  lemma SameSign(a: real, b: real)
    requires a * b > 0.0
    ensures a > 0.0 <==> b > 0.0
  {
  }

  lemma SignsCancel(a: real, h: real, p: real)
    requires p != 0.0
    ensures NextPivot(-a, -h, -p) == -NextPivot(a, h, p)
  {
    var q := h * h / p;
    assert q * p == h * h;
    assert (-q) * (-p) == (-h) * (-h);
  }

  lemma PositiveFactor(a: real, p: real)
    requires p > 0.0 && a * p > 0.0
    ensures a > 0.0
  {
  }

  lemma SquareOver(a: real, h: real, p: real)
    requires h > 0.0 && p > 2.0 * h
    ensures NextPivot(a, h, p) > a - h
  {
    var q := h * h / p;
    assert q * p == h * h;
    Scale(p - h, h);
    assert (h - q) * p == (p - h) * h;
    PositiveFactor(h - q, p);
  }

  lemma Eliminate(p: real, h: real, l: real, m: real, r: real, a: real, t: real, b: real)
    requires p != 0.0 && Row(p, l, Product(h, m), r)
    ensures FullRow(h, l, a, m, t, b) <==> Row(NextPivot(a, h, p), m, t, NextReduced(b, h, r, p))
  {
    var u := h / p;
    Over(h, h, p);
    Over(h, r, p);
    EliminateBy(u, p, h, l, m, r, a, t, b, NextPivot(a, h, p), NextReduced(b, h, r, p));
  }

  // The row above is taken u times.
  lemma EliminateBy(u: real, p: real, h: real, l: real, m: real, r: real, a: real, t: real, b: real, a': real, b': real)
    requires h == u * p && Row(p, l, Product(h, m), r) && a' == a - u * h && b' == b - u * r
    ensures FullRow(h, l, a, m, t, b) <==> Row(a', m, t, b')
  {
    Expand(u, p, h, l, m);
    Spread(a, u * h, m);
  }

  lemma Spread(a: real, v: real, m: real)
    ensures (a - v) * m == a * m - v * m
  {
  }

  lemma Expand(u: real, p: real, h: real, l: real, m: real)
    requires h == u * p
    ensures u * (p * l + h * m) == h * l + (u * h) * m
  {
    assert u * (p * l) == (u * p) * l;
    assert u * (h * m) == (u * h) * m;
  }

  lemma Over(h: real, r: real, p: real)
    requires p != 0.0
    ensures h * r / p == (h / p) * r
  {
    var u := h / p;
    assert h == u * p;
    assert h * r == (u * r) * p;
  }
}
