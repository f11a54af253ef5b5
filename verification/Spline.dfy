// spline.c without -p: second derivatives by elimination and back substitution, and the
// points of the curve they make. Numbers are exact reals.
module Spline {
  import opened SplineSystem

  type Point = (real, real)

  datatype Data = Data(x: seq<real>, y: seq<real>, k: real) {

    predicate Valid() {
      |x| == |y| && |x| >= 3
    }

    function H(i: nat): real
      requires 1 <= i < |x|
    {
      x[i] - x[i - 1]
    }

    // The slope of the chord that ends at point i
    function Chord(i: nat): real
      requires Valid() && 1 <= i < |x|
    {
      if H(i) == 0.0 then 0.0 else (y[i] - y[i - 1]) / H(i)
    }

    function Rhs(i: nat): real
      requires Valid() && 1 <= i < |x| - 1
    {
      6.0 * (Chord(i + 1) - Chord(i))
    }

    // The equations for the second derivatives
    function Equations(): (s: System)
      requires Valid()
      ensures s.Valid() && |s.h| == |x| && s.k == k
      ensures forall i :: 1 <= i < |x| ==> s.h[i] == H(i)
      ensures forall i :: 1 <= i < |x| - 1 ==> s.b[i] == Rhs(i)
    {
      System(seq(|x|, i requires 0 <= i < |x| => if i == 0 then 0.0 else H(i)),
             seq(|x|, i requires 0 <= i < |x| => if i == 0 || i == |x| - 1 then 0.0 else Rhs(i)), k)
    }

    ghost predicate Monotone()
      requires Valid()
    {
      Equations().Monotone()
    }

    ghost predicate Solves(m: seq<real>)
      requires Valid()
    {
      Equations().Solves(m)
    }
  }

  // ---- The curve -----------------------------------------------------------------------

  function Bend(s: real): real { s - s * s * s }

  // The cubic over a step h, at the fraction t of it
  function Value(h: real, y0: real, y1: real, m0: real, m1: real, t: real): real {
    Along(y0, y1, 1.0 - t, t) - Sag(h, Bends(m0, m1, 1.0 - t, t))
  }

  function Along(y0: real, y1: real, u: real, t: real): real { y0 * u + y1 * t }

  function Bends(m0: real, m1: real, u: real, t: real): real { m0 * Bend(u) + m1 * Bend(t) }

  function Sag(h: real, s: real): real { h * h * s / 6.0 }

  // Its first derivative, c being the slope of the chord, and its second
  function First(h: real, c: real, m0: real, m1: real, t: real): real {
    c - Tilt(h, Slant(m0, m1, t))
  }

  function Slant(m0: real, m1: real, t: real): real {
    m0 * (3.0 * (1.0 - t) * (1.0 - t) - 1.0) + m1 * (1.0 - 3.0 * t * t)
  }

  function Tilt(h: real, q: real): real { h * q / 6.0 }

  function Second(m0: real, m1: real, t: real): real {
    m0 * (1.0 - t) + m1 * t
  }

  // What First and Second contribute over a distance e h
  function Rise(e: real, h: real, first: real): real { (e * h) * first }

  function Curl(e: real, h: real, second: real): real { (e * h) * (e * h) * second / 2.0 }

  function Rest(e: real, h: real, g: real): real { (e * h) * (e * h) * e * g / 6.0 }

  // What Bends gains over e, q and m being Slant and Second
  function Gain(e: real, q: real, m: real, g: real): real {
    e * q - 3.0 * (e * e) * m - e * e * e * g
  }

  // The expansion of the cubic around t: First and Second are its derivatives.
  lemma Expansion(h: real, y0: real, y1: real, c: real, m0: real, m1: real, t: real, e: real)
    requires c * h == y1 - y0
    ensures Value(h, y0, y1, m0, m1, t + e)
         == Value(h, y0, y1, m0, m1, t) + Rise(e, h, First(h, c, m0, m1, t))
            + Curl(e, h, Second(m0, m1, t)) + Rest(e, h, m1 - m0)
  {
    BendsExpansion(m0, m1, t, e);
    ValueExpansion(h, c, y0, y1, t, e, Bends(m0, m1, 1.0 - t, t), Bends(m0, m1, 1.0 - (t + e), t + e),
                   Slant(m0, m1, t), Second(m0, m1, t), m1 - m0);
  }

  lemma ValueExpansion(h: real, c: real, y0: real, y1: real, t: real, e: real, s0: real, s1: real,
                       q: real, m: real, g: real)
    requires c * h == y1 - y0 && s1 == s0 + Gain(e, q, m, g)
    ensures Along(y0, y1, 1.0 - (t + e), t + e) - Sag(h, s1)
         == Along(y0, y1, 1.0 - t, t) - Sag(h, s0) + Rise(e, h, c - Tilt(h, q)) + Curl(e, h, m) + Rest(e, h, g)
  {
    SagExpansion(h, e, s0, s1, q, m, g);
    RiseExpansion(h, c, e, q, y0, y1, t);
  }

  lemma BendsExpansion(m0: real, m1: real, t: real, e: real)
    ensures Bends(m0, m1, 1.0 - (t + e), t + e)
         == Bends(m0, m1, 1.0 - t, t) + Gain(e, Slant(m0, m1, t), Second(m0, m1, t), m1 - m0)
  {
    TermExpansion(m0, 1.0 - t, 1.0 - (t + e), -e);
    TermExpansion(m1, t, t + e, e);
    GainOfTerms(m0, m1, 1.0 - t, t, e);
  }

  // What m times Bend gains over e
  function Term(m: real, s: real, e: real): real {
    e * (m * (1.0 - 3.0 * s * s)) - 3.0 * (e * e) * (m * s) - e * e * e * m
  }

  lemma GainOfTerms(m0: real, m1: real, u: real, t: real, e: real)
    requires u == 1.0 - t
    ensures Term(m0, u, -e) + Term(m1, t, e) == Gain(e, Slant(m0, m1, t), Second(m0, m1, t), m1 - m0)
  {
    var a, b := m0 * (1.0 - 3.0 * u * u), m1 * (1.0 - 3.0 * t * t);
    assert Slant(m0, m1, t) == b - a;
    assert Second(m0, m1, t) == m0 * u + m1 * t;
    assert e * (b - a) == -e * a + e * b;
    assert 3.0 * (e * e) * (m0 * u + m1 * t) == 3.0 * (e * e) * (m0 * u) + 3.0 * (e * e) * (m1 * t);
    assert e * e * e * (m1 - m0) == e * e * e * m1 - e * e * e * m0;
  }

  lemma TermExpansion(m: real, s: real, s': real, e: real)
    requires s' == s + e
    ensures m * Bend(s') == m * Bend(s) + Term(m, s, e)
  {
    BendExpansion(s, e);
  }

  lemma SagExpansion(h: real, e: real, s0: real, s1: real, q: real, m: real, g: real)
    requires s1 == s0 + Gain(e, q, m, g)
    ensures Sag(h, s1) == Sag(h, s0) + Rise(e, h, Tilt(h, q)) - Curl(e, h, m) - Rest(e, h, g)
  {
    assert h * h * s1 == h * h * s0 + h * h * (e * q) - h * h * (3.0 * (e * e) * m) - h * h * (e * e * e * g);
  }

  lemma RiseExpansion(h: real, c: real, e: real, q: real, y0: real, y1: real, t: real)
    requires c * h == y1 - y0
    ensures Rise(e, h, c - Tilt(h, q))
            == Along(y0, y1, 1.0 - (t + e), t + e) - Along(y0, y1, 1.0 - t, t) - Rise(e, h, Tilt(h, q))
  {
    var d := Tilt(h, q);
    assert (e * h) * (c - d) == (e * h) * c - (e * h) * d;
    assert (e * h) * c == e * (c * h);
  }

  lemma BendExpansion(s: real, e: real)
    ensures Bend(s + e) == Bend(s) + e * (1.0 - 3.0 * s * s) - 3.0 * s * e * e - e * e * e
  {
  }

  // The curve has no corner at point i: the cubics on both sides have the same slope there.
  ghost predicate Smooth(d: Data, m: seq<real>, i: nat)
    requires d.Valid() && |m| == |d.x| && 1 <= i < |d.x| - 1
  {
    First(d.H(i), d.Chord(i), m[i - 1], m[i], 1.0) == First(d.H(i + 1), d.Chord(i + 1), m[i], m[i + 1], 0.0)
  }

  // The equations say just that.
  lemma EquationIsSmooth(d: Data, m: seq<real>, i: nat)
    requires d.Valid() && |m| == |d.x| && 1 <= i < |d.x| - 1
    ensures d.Equations().Equation(m, i) <==> Smooth(d, m, i)
  {
    var h, g, l, c, r := d.H(i), d.H(i + 1), m[i - 1], m[i], m[i + 1];
    assert First(h, d.Chord(i), l, c, 1.0) == d.Chord(i) + h * (l + 2.0 * c) / 6.0;
    assert First(g, d.Chord(i + 1), c, r, 0.0) == d.Chord(i + 1) - g * (2.0 * c + r) / 6.0;
    assert h * (l + 2.0 * c) + g * (2.0 * c + r) == h * l + 2.0 * (h + g) * c + g * r;
  }

  // The number of pieces a step is cut into
  function Pieces(step: real, ni: int, lb: real, ub: real): (p: int)
    requires lb != ub
    ensures p >= 1
  {
    var m := if step > 0.0 then ni else -ni;
    AtLeastOne(Share(m as real, step, ub - lb))
  }

  function AtLeastOne(share: real): (p: int)
    ensures p >= 1
  {
    if share.Floor <= 0 then 1 else share.Floor
  }

  // What a step has of m equal parts of the range, and a thousandth more
  function Share(m: real, step: real, range: real): real
    requires range != 0.0
  {
    1.001 * m * step / range
  }

  // The point at j p-ths of the step from point i
  function PointAt(d: Data, m: seq<real>, i: nat, p: int, j: int): Point
    requires d.Valid() && |m| == |d.x| && i + 1 < |d.x| && p >= 1
  {
    var t := j as real / p as real;
    Plotted(d.x[i], d.H(i + 1), d.y[i], d.y[i + 1], m[i], m[i + 1], t)
  }

  // The point at the fraction t of the step h from x
  function Plotted(x: real, h: real, y0: real, y1: real, m0: real, m1: real, t: real): Point {
    (x + Product(t, h), Value(h, y0, y1, m0, m1, t))
  }

  // The points from j on down to the first piece, or down to point 0 itself
  function Points(d: Data, m: seq<real>, i: nat, p: int, j: int): seq<Point>
    requires d.Valid() && |m| == |d.x| && i + 1 < |d.x| && p >= 1 && -1 <= j
    decreases j + 1
  {
    if j < 0 || (j == 0 && i != 0) then [] else [PointAt(d, m, i, p, j)] + Points(d, m, i, p, j - 1)
  }

  // The whole curve, from the last point back to point i
  function Curve(d: Data, m: seq<real>, ni: int, lb: real, ub: real, i: nat): seq<Point>
    requires d.Valid() && |m| == |d.x| && i < |d.x| && lb != ub
    decreases |d.x| - i
  {
    if i == |d.x| - 1 then []
    else
      var p := Pieces(d.H(i + 1), ni, lb, ub);
      Curve(d, m, ni, lb, ub, i + 1) + Points(d, m, i, p, p)
  }

  lemma {:induction false} PointOnCurve(d: Data, m: seq<real>, ni: int, lb: real, ub: real, i: nat, q: nat, pt: Point)
    requires d.Valid() && |m| == |d.x| && i <= q < |d.x| - 1 && lb != ub
    requires var p := Pieces(d.H(q + 1), ni, lb, ub); pt in Points(d, m, q, p, p)
    ensures pt in Curve(d, m, ni, lb, ub, i)
    decreases |d.x| - i
  {
    if i < q {
      PointOnCurve(d, m, ni, lb, ub, i + 1, q, pt);
    }
  }

  lemma EndPoints(d: Data, m: seq<real>, i: nat, p: int)
    requires d.Valid() && |m| == |d.x| && i + 1 < |d.x| && p >= 1
    ensures PointAt(d, m, i, p, 0) == (d.x[i], d.y[i]) && PointAt(d, m, i, p, p) == (d.x[i + 1], d.y[i + 1])
  {
    assert 0 as real / p as real == 0.0 && p as real / p as real == 1.0;
    PlottedEnds(d.x[i], d.H(i + 1), d.y[i], d.y[i + 1], m[i], m[i + 1]);
  }

  lemma PlottedEnds(x: real, h: real, y0: real, y1: real, m0: real, m1: real)
    ensures Plotted(x, h, y0, y1, m0, m1, 0.0) == (x, y0) && Plotted(x, h, y0, y1, m0, m1, 1.0) == (x + h, y1)
  {
  }

  // Whatever the second derivatives, the curve goes through every given point.
  lemma MeetsKnots(d: Data, m: seq<real>, ni: int, lb: real, ub: real, q: nat)
    requires d.Valid() && |m| == |d.x| && q < |d.x| && lb != ub
    ensures (d.x[q], d.y[q]) in Curve(d, m, ni, lb, ub, 0)
  {
    if q == 0 {
      var p := Pieces(d.H(1), ni, lb, ub);
      EndPoints(d, m, 0, p);
      LastPoint(d, m, p, p);
      PointOnCurve(d, m, ni, lb, ub, 0, 0, (d.x[0], d.y[0]));
    } else {
      var p := Pieces(d.H(q), ni, lb, ub);
      EndPoints(d, m, q - 1, p);
      PointOnCurve(d, m, ni, lb, ub, 0, q - 1, (d.x[q], d.y[q]));
    }
  }

  lemma {:induction false} LastPoint(d: Data, m: seq<real>, p: int, j: int)
    requires d.Valid() && |m| == |d.x| && p >= 1 && 0 <= j
    ensures PointAt(d, m, 0, p, 0) in Points(d, m, 0, p, j)
  {
    if j > 0 {
      LastPoint(d, m, p, j - 1);
    }
  }

  // ---- How the steps are cut ----------------------------------------------------------------

  function Abs(h: real): real {
    if h < 0.0 then -h else h
  }

  // 1.001 times the number of pieces a step of this length would have if the range were cut into
  // ni
  ghost function Due(ni: int, length: real, range: real): real
    requires range != 0.0
  {
    (ni as real + ni as real / 1000.0) * (length / range)
  }

  // As many pieces as are due, rounded down, but one at least
  ghost predicate RightCount(p: int, due: real) {
    if due < 1.0 then p == 1 else p as real <= due < p as real + 1.0
  }

  lemma PiecesRight(step: real, ni: int, lb: real, ub: real)
    requires lb != ub
    ensures RightCount(Pieces(step, ni, lb, ub), Due(ni, Abs(step), ub - lb))
  {
    ShareIsDue(ni as real, Abs(step), ub - lb);
    if step > 0.0 {
      FloorRight(Share(ni as real, step, ub - lb));
    } else {
      TurnedAround(ni as real, step, ub - lb);
      FloorRight(Share((-ni) as real, step, ub - lb));
    }
  }

  lemma ShareIsDue(m: real, length: real, range: real)
    requires range != 0.0
    ensures Share(m, length, range) == (m + m / 1000.0) * (length / range)
  {
    var part := length / range;
    assert 1.001 * m == m + m / 1000.0;
    assert 1.001 * m * length == (1.001 * m * part) * range;
  }

  lemma TurnedAround(m: real, step: real, range: real)
    requires range != 0.0
    ensures Share(-m, step, range) == Share(m, -step, range)
  {
    assert 1.001 * (-m) * step == 1.001 * m * (-step);
  }

  lemma FloorRight(share: real)
    ensures RightCount(AtLeastOne(share), share)
  {
    assert share.Floor as real <= share < share.Floor as real + 1.0;
  }

  // From index a on the points of out go down to index b along the step after point i, in
  // equal pieces.
  ghost predicate StepCut(d: Data, m: seq<real>, out: seq<Point>, i: nat, a: nat, b: nat)
    requires d.Valid() && |m| == |d.x| && i + 1 < |d.x|
  {
    a < b < |out| && forall r: nat :: r <= b - a ==> IsPiece(d, m, out, i, a, b, r)
  }

  // The point at index a + r ends piece b - a - r of the step.
  predicate IsPiece(d: Data, m: seq<real>, out: seq<Point>, i: nat, a: nat, b: nat, r: nat)
    requires d.Valid() && |m| == |d.x| && i + 1 < |d.x| && a < b && a + r < |out|
  {
    out[a + r] == PointAt(d, m, i, b - a, b - a - r)
  }

  // Neighbouring abscissas are one piece apart.
  lemma OnePieceApart(d: Data, m: seq<real>, out: seq<Point>, i: nat, a: nat, b: nat, r: nat)
    requires d.Valid() && |m| == |d.x| && i + 1 < |d.x| && StepCut(d, m, out, i, a, b) && r < b - a
    ensures Abs(out[a + r].0 - out[a + r + 1].0) == Abs(d.H(i + 1)) / (b - a) as real
    ensures out[a] == (d.x[i + 1], d.y[i + 1]) && out[b] == (d.x[i], d.y[i])
  {
    var p, j := b - a, b - a - r;
    EndPoints(d, m, i, p);
    assert IsPiece(d, m, out, i, a, b, 0) && IsPiece(d, m, out, i, a, b, p);
    assert IsPiece(d, m, out, i, a, b, r) && IsPiece(d, m, out, i, a, b, r + 1);
    FractionsApart(j as real, p as real, d.H(i + 1));
  }

  lemma FractionsApart(j: real, p: real, h: real)
    requires p >= 1.0
    ensures Abs(Product(j / p, h) - Product((j - 1.0) / p, h)) == Abs(h) / p
  {
    var one := 1.0 / p;
    assert (j - 1.0) / p == j / p - one;
    assert Product(j / p, h) - Product(j / p - one, h) == one * h;
    assert one * h == h / p && one > 0.0;
  }

  // cuts[i] is where point i is in out; between two of them the step is cut into the right number
  // of pieces.
  ghost predicate EvenlyCut(d: Data, m: seq<real>, ni: int, lb: real, ub: real, out: seq<Point>, cuts: seq<nat>)
    requires d.Valid() && |m| == |d.x| && lb != ub
  {
    && |cuts| == |d.x| && cuts[|d.x| - 1] == 0 && cuts[0] == |out| - 1
    && forall i: nat :: i + 1 < |d.x| ==> RightlyCut(d, m, ni, lb, ub, out, i, cuts[i + 1], cuts[i])
  }

  ghost predicate RightlyCut(d: Data, m: seq<real>, ni: int, lb: real, ub: real, out: seq<Point>, i: nat, a: nat,
                             b: nat)
    requires d.Valid() && |m| == |d.x| && i + 1 < |d.x| && lb != ub
  {
    StepCut(d, m, out, i, a, b) && RightCount(b - a, Due(ni, Abs(d.H(i + 1)), ub - lb))
  }

  // Where point i is in the curve
  ghost function KnotAt(d: Data, m: seq<real>, ni: int, lb: real, ub: real, i: nat): nat
    requires d.Valid() && |m| == |d.x| && i < |d.x| && lb != ub
  {
    var n := |Curve(d, m, ni, lb, ub, i)|;
    if i == 0 && n > 0 then n - 1 else n
  }

  lemma {:induction false} PointsAre(d: Data, m: seq<real>, i: nat, p: int, j: int)
    requires d.Valid() && |m| == |d.x| && i + 1 < |d.x| && p >= 1 && j >= 0
    ensures |Points(d, m, i, p, j)| == if i == 0 then j + 1 else j
    ensures forall r :: 0 <= r < |Points(d, m, i, p, j)| ==> Points(d, m, i, p, j)[r] == PointAt(d, m, i, p, j - r)
  {
    if j > 0 {
      PointsAre(d, m, i, p, j - 1);
    } else if i == 0 {
      assert Points(d, m, i, p, 0) == [PointAt(d, m, i, p, 0)] + Points(d, m, i, p, -1);
    }
  }

  lemma {:induction false} CurveGrows(d: Data, m: seq<real>, ni: int, lb: real, ub: real, i: nat)
    requires d.Valid() && |m| == |d.x| && i < |d.x| && lb != ub
    ensures Curve(d, m, ni, lb, ub, i) <= Curve(d, m, ni, lb, ub, 0)
    decreases i
  {
    if i > 0 {
      CurveGrows(d, m, ni, lb, ub, i - 1);
    }
  }

  // The first of the points that the curve adds for the step before point i is point i.
  lemma FirstAdded(d: Data, m: seq<real>, ni: int, lb: real, ub: real, i: nat)
    requires d.Valid() && |m| == |d.x| && 1 <= i < |d.x| && lb != ub
    ensures var n := |Curve(d, m, ni, lb, ub, i)|;
            n < |Curve(d, m, ni, lb, ub, 0)| && Curve(d, m, ni, lb, ub, 0)[n] == (d.x[i], d.y[i])
  {
    var p := Pieces(d.H(i), ni, lb, ub);
    PointsAre(d, m, i - 1, p, p);
    EndPoints(d, m, i - 1, p);
    CurveGrows(d, m, ni, lb, ub, i - 1);
    assert Curve(d, m, ni, lb, ub, i - 1) == Curve(d, m, ni, lb, ub, i) + Points(d, m, i - 1, p, p);
  }

  lemma CurveStep(d: Data, m: seq<real>, ni: int, lb: real, ub: real, i: nat)
    requires d.Valid() && |m| == |d.x| && i + 1 < |d.x| && lb != ub
    ensures RightlyCut(d, m, ni, lb, ub, Curve(d, m, ni, lb, ub, 0), i, KnotAt(d, m, ni, lb, ub, i + 1),
                       KnotAt(d, m, ni, lb, ub, i))
  {
    var p, out, a := Pieces(d.H(i + 1), ni, lb, ub), Curve(d, m, ni, lb, ub, 0), KnotAt(d, m, ni, lb, ub, i + 1);
    PiecesRight(d.H(i + 1), ni, lb, ub);
    PointsAre(d, m, i, p, p);
    EndPoints(d, m, i, p);
    CurveGrows(d, m, ni, lb, ub, i);
    if i > 0 {
      FirstAdded(d, m, ni, lb, ub, i);
    }
    var c, b := Curve(d, m, ni, lb, ub, i), a + p;
    assert c == Curve(d, m, ni, lb, ub, i + 1) + Points(d, m, i, p, p);
    forall r: nat | r <= p ensures a + r < |out| && IsPiece(d, m, out, i, a, b, r) {
      if r < |Points(d, m, i, p, p)| {
        assert c[a + r] == Points(d, m, i, p, p)[r];
      }
    }
  }

  // The curve goes from point to point in equal pieces, as many for a step to the left as for one to
  // the right.
  lemma CurveEvenlyCut(d: Data, m: seq<real>, ni: int, lb: real, ub: real)
    requires d.Valid() && |m| == |d.x| && lb != ub
    ensures exists cuts :: EvenlyCut(d, m, ni, lb, ub, Curve(d, m, ni, lb, ub, 0), cuts)
  {
    var cuts := seq(|d.x|, i requires 0 <= i < |d.x| => KnotAt(d, m, ni, lb, ub, i));
    forall i: nat | i + 1 < |d.x|
      ensures RightlyCut(d, m, ni, lb, ub, Curve(d, m, ni, lb, ub, 0), i, cuts[i + 1], cuts[i])
    {
      CurveStep(d, m, ni, lb, ub, i);
    }
    assert RightlyCut(d, m, ni, lb, ub, Curve(d, m, ni, lb, ub, 0), 0, cuts[1], cuts[0]);
    assert EvenlyCut(d, m, ni, lb, ub, Curve(d, m, ni, lb, ub, 0), cuts);
  }

  // ---- Parabolas and straight lines -------------------------------------------------------

  function Parabola(a: real, b: real, c: real, x: real): real {
    a + b * x + c * x * x
  }

  ghost predicate OnParabola(d: Data, a: real, b: real, c: real)
    requires d.Valid()
  {
    forall i :: 0 <= i < |d.x| ==> d.y[i] == Parabola(a, b, c, d.x[i])
  }

  lemma ParabolaChord(d: Data, a: real, b: real, c: real, i: nat)
    requires d.Valid() && OnParabola(d, a, b, c) && 1 <= i < |d.x| && d.H(i) != 0.0
    ensures d.Chord(i) == b + c * (d.x[i] + d.x[i - 1])
  {
    var u, v, s := d.x[i], d.x[i - 1], b + c * (d.x[i] + d.x[i - 1]);
    assert s * (u - v) == Parabola(a, b, c, u) - Parabola(a, b, c, v);
  }

  ghost function Constant(n: nat, v: real): (m: seq<real>)
    ensures |m| == n && forall i :: 0 <= i < n ==> m[i] == v
  {
    seq(n, i => v)
  }

  lemma ParabolaSolves(d: Data, a: real, b: real, c: real)
    requires d.Valid() && d.Monotone() && OnParabola(d, a, b, c) && (d.k == 1.0 || c == 0.0)
    ensures d.Solves(Constant(|d.x|, 2.0 * c))
  {
    var m, s := Constant(|d.x|, 2.0 * c), d.Equations();
    forall i | 1 <= i <= s.Last() ensures s.Equation(m, i) {
      s.OneDirection(s.Last(), i);
      s.OneDirection(s.Last(), i + 1);
      ParabolaChord(d, a, b, c, i);
      ParabolaChord(d, a, b, c, i + 1);
      ParabolaRow(d.H(i), d.H(i + 1), c);
    }
  }

  lemma ParabolaRow(h: real, g: real, c: real)
    ensures h * (2.0 * c) + 2.0 * (h + g) * (2.0 * c) + g * (2.0 * c) == 6.0 * (c * (h + g))
  {
  }

  // With k = 1 the spline of points on a parabola is the parabola; that of points on a
  // straight line is the line for every k.
  lemma ReproducesParabola(d: Data, a: real, b: real, c: real, m: seq<real>, i: nat, p: int, j: int)
    requires d.Valid() && d.Monotone() && d.Equations().Regular() && OnParabola(d, a, b, c)
    requires (d.k == 1.0 || c == 0.0) && d.Solves(m) && i + 1 < |d.x| && p >= 1
    ensures PointAt(d, m, i, p, j).1 == Parabola(a, b, c, PointAt(d, m, i, p, j).0)
  {
    ParabolaSolves(d, a, b, c);
    d.Equations().Unique(m, Constant(|d.x|, 2.0 * c));
    OnParabolaBetween(a, b, c, d.x[i], d.x[i + 1], d.H(i + 1), d.y[i], d.y[i + 1], j as real / p as real);
  }

  lemma OnParabolaBetween(a: real, b: real, c: real, x: real, x1: real, h: real, y: real, y1: real, t: real)
    requires x1 == x + h && y == Parabola(a, b, c, x) && y1 == Parabola(a, b, c, x1)
    ensures Value(h, y, y1, 2.0 * c, 2.0 * c, t) == Parabola(a, b, c, x + Product(t, h))
  {
    ParabolaAlong(a, b, c, x, h, t);
    ParabolaSag(h, c, t);
  }

  lemma ParabolaAlong(a: real, b: real, c: real, x: real, h: real, t: real)
    ensures Along(Parabola(a, b, c, x), Parabola(a, b, c, x + h), 1.0 - t, t)
         == Parabola(a, b, c, x + Product(t, h)) + c * (h * h * (t - t * t))
  {
  }

  lemma ParabolaSag(h: real, c: real, t: real)
    ensures Sag(h, Bends(2.0 * c, 2.0 * c, 1.0 - t, t)) == c * (h * h * (t - t * t))
  {
    assert Bend(1.0 - t) + Bend(t) == 3.0 * t - 3.0 * t * t;
    assert Bends(2.0 * c, 2.0 * c, 1.0 - t, t) == 2.0 * c * (3.0 * t - 3.0 * t * t);
  }

  // ---- The program --------------------------------------------------------------------------

  // s is the system of d; stated row by row, so that only the row at hand is looked at.
  ghost predicate RowOf(d: Data, s: System, i: nat)
    requires d.Valid() && s.Valid() && |s.h| == |d.x| && 1 <= i < |d.x| - 1
  {
    s.h[i] == d.H(i) && s.h[i + 1] == d.H(i + 1) && s.b[i] == d.Rhs(i)
  }

  ghost predicate Describes(s: System, d: Data)
    requires d.Valid()
  {
    s.Valid() && |s.h| == |d.x| && s.k == d.k && forall i: nat :: 1 <= i < |d.x| - 1 ==> RowOf(d, s, i)
  }

  lemma EquationsDescribe(d: Data)
    requires d.Valid()
    ensures Describes(d.Equations(), d)
  {
  }

  lemma StepsOf(d: Data, s: System, i: nat)
    requires d.Valid() && Describes(s, d) && 1 <= i < |d.x|
    ensures s.h[i] == d.x[i] - d.x[i - 1]
  {
    assert RowOf(d, s, if i == |d.x| - 1 then i - 1 else i);
  }

  // rhs(i)
  method RightSide(d: Data, ghost s: System, i: nat) returns (b: real)
    requires d.Valid() && Describes(s, d) && 1 <= i < |d.x| - 1 && s.h[i] != 0.0 && s.h[i + 1] != 0.0
    ensures b == s.b[i]
  {
    assert RowOf(d, s, i);
    var zz := (d.y[i] - d.y[i - 1]) / (d.x[i] - d.x[i - 1]);
    b := 6.0 * ((d.y[i + 1] - d.y[i]) / (d.x[i + 1] - d.x[i]) - zz);
  }

  lemma Turn(s: System, i: nat, hi: real, hi1: real)
    requires s.Valid() && 1 <= i <= s.Last() && s.h[i] == hi && s.h[i + 1] == hi1 && Product(hi1, hi) <= 0.0
    ensures !s.Monotone()
  {
    assert !s.SameWay(i);
  }

  lemma NoTurn(s: System, i: nat, hi: real, hi1: real)
    requires s.Valid() && 1 <= i <= s.Last() && s.h[i] == hi && s.h[i + 1] == hi1 && Product(hi1, hi) > 0.0
    requires s.MonotoneTo(i - 1)
    ensures s.MonotoneTo(i) && hi != 0.0 && hi1 != 0.0
  {
    assert s.SameWay(i);
    s.OneDirection(i, i);
    s.OneDirection(i, i + 1);
  }

  // The pivot and the right-hand side of row i, from those of the row above
  method EliminateAt(ghost s: System, i: nat, hi: real, hi1: real, k: real, above: real, r: real, b: real, n: nat)
    returns (p: real, r': real)
    requires s.Valid() && 1 <= i <= s.Last() && |s.h| == n
    requires s.h[i] == hi && s.h[i + 1] == hi1 && s.k == k && s.b[i] == b
    requires if i == 1 then above == 1.0 && r == 0.0
             else above == s.Pivot(i - 1) && r == s.Reduced(i - 1) && above != 0.0
    ensures p == s.Pivot(i) && r' == s.Reduced(i)
  {
    r' := NextReduced(b, hi, r, above);
    var a := 2.0 * (hi + hi1);
    if i == 1 {
      a := a + Product(k, hi);
    }
    if i == n - 2 {
      a := a + Product(k, hi1);
    }
    p := if i == 1 then a else NextPivot(a, hi, above);
  }

  // Below n the arrays hold the right-hand sides and the pivots.
  ghost predicate Eliminated(s: System, r: seq<real>, diag: seq<real>, n: nat)
    requires s.Valid() && |r| == |diag| == |s.h| + 1 && n <= |s.h| - 1
  {
    forall i :: 1 <= i < n ==> diag[i] == s.Pivot(i) && r[i] == s.Reduced(i)
  }

  // Before row i the pivot is p, and the arrays hold what the rows above left.
  ghost predicate Reached(s: System, r: array<real>, diag: array<real>, i: nat, p: real)
    requires s.Valid()
    reads r, diag
  {
    && r.Length == diag.Length == |s.h| + 1 && 1 <= i <= |s.h| - 1 && s.MonotoneTo(i - 1)
    && Eliminated(s, r[..], diag[..], i)
    && if i == 1 then p == 1.0 && r[0] == 0.0 else p == s.Pivot(i - 1) != 0.0 && r[i - 1] == s.Reduced(i - 1)
  }

  // Row i, whose steps go one way
  method EliminateRow(d: Data, ghost s: System, r: array<real>, diag: array<real>, i: nat, hi: real, hi1: real, p: real)
    returns (p': real)
    requires d.Valid() && Describes(s, d) && 1 <= i < |d.x| - 1 && r != diag && s.Solvable()
    requires s.h[i] == hi != 0.0 && s.h[i + 1] == hi1 != 0.0 && s.MonotoneTo(i) && Reached(s, r, diag, i, p)
    modifies r, diag
    ensures Reached(s, r, diag, i + 1, p')
  {
    var b := RightSide(d, s, i);
    var r';
    p', r' := EliminateAt(s, i, hi, hi1, d.k, p, r[i - 1], b, |d.x|);
    r[i], diag[i] := r', p';
  }

  // The pass that triangularizes; it gives up at the first turn of the abscissas.
  method Triangularize(d: Data, ghost s: System, r: array<real>, diag: array<real>) returns (ok: bool)
    requires d.Valid() && Describes(s, d) && r.Length == diag.Length == |d.x| + 1 && r != diag && s.Solvable()
    modifies r, diag
    ensures ok <==> s.Monotone()
    ensures ok ==> Eliminated(s, r[..], diag[..], |d.x| - 1)
  {
    var n := |d.x|;
    var p := 1.0;
    r[0] := 0.0;
    var i := 1;
    while i < n - 1
      invariant 1 <= i <= n - 1 && Reached(s, r, diag, i, p)
    {
      var hi, hi1 := d.x[i] - d.x[i - 1], d.x[i + 1] - d.x[i];
      StepsOf(d, s, i);
      StepsOf(d, s, i + 1);
      if Product(hi1, hi) <= 0.0 {
        Turn(s, i, hi, hi1);
        return false;
      }
      NoTurn(s, i, hi, hi1);
      p := EliminateRow(d, s, r, diag, i, hi, hi1, p);
      i := i + 1;
    }
    return true;
  }

  // The point j pieces of width h from x
  method Plot(x: real, step: real, h: real, p: int, j: int, y0: real, y1: real, m0: real, m1: real)
    returns (point: Point)
    requires step != 0.0 && p >= 1 && h == step / p as real
    ensures point == Plotted(x, step, y0, y1, m0, m1, j as real / p as real)
  {
    var x0, x1, along := Weights(step, h, p as real, j as real, (p - j) as real);
    var yy := Bends(m0, m1, x0, x1);
    yy := Along(y0, y1, x0, x1) - Sag(step, yy);
    point := (x + along, yy);
  }

  // The weights of the ends of the step, and the way along it, w being p - j
  method Weights(step: real, h: real, p: real, j: real, w: real) returns (x0: real, x1: real, along: real)
    requires step != 0.0 && p != 0.0 && h == step / p && w == p - j
    ensures x1 == j / p && x0 == 1.0 - x1 && along == Product(x1, step)
  {
    Fractions(step, h, p, j, w);
    x0, x1, along := w * h / step, j * h / step, j * h;
  }

  // The points of one step, the second derivatives at its ends being known
  method Interpolate(d: Data, i: nat, m0: real, m1: real, ni: int, lb: real, ub: real, ghost m: seq<real>)
    returns (out: seq<Point>)
    requires d.Valid() && |m| == |d.x| && i + 1 < |d.x| && m[i] == m0 && m[i + 1] == m1 && lb != ub && d.H(i + 1) != 0.0
    ensures var p := Pieces(d.H(i + 1), ni, lb, ub); out == Points(d, m, i, p, p)
  {
    var step := d.x[i + 1] - d.x[i];
    var p := Pieces(step, ni, lb, ub);
    var h := step / p as real;
    out := [];
    var j := p;
    while j > 0 || (i == 0 && j == 0)
      invariant -1 <= j <= p && (i != 0 ==> j >= 0)
      invariant out + Points(d, m, i, p, j) == Points(d, m, i, p, p)
      decreases j
    {
      var point := Plot(d.x[i], step, h, p, j, d.y[i], d.y[i + 1], m0, m1);
      assert out + Points(d, m, i, p, j) == out + [point] + Points(d, m, i, p, j - 1);
      out := out + [point];
      j := j - 1;
    }
  }

  lemma Fractions(step: real, h: real, p: real, j: real, w: real)
    requires step != 0.0 && p != 0.0 && h == step / p && w == p - j
    ensures j * h / step == j / p && w * h / step == 1.0 - j / p
    ensures j * h == Product(j / p, step)
  {
    var t := j / p;
    assert h * p == step && t * p == j;
    assert j * h == t * step;
    assert w * h == (1.0 - t) * step;
    Undone(j * h, step, t);
    Undone(w * h, step, 1.0 - t);
  }

  lemma Undone(a: real, b: real, c: real)
    requires b != 0.0 && a == c * b
    ensures a / b == c
  {
  }

  // The second derivatives at the ends of the step after point i, from that at the end of
  // the next
  method Substitute(ghost s: System, i: nat, hi1: real, next: real, r: real, diag: real, k: real, n: nat)
    returns (d2: real, d2next: real)
    requires s.Valid() && |s.h| == n && s.k == k && i + 1 < n && s.h[i + 1] == hi1 && s.Regular()
    requires next == if i == s.Last() then 0.0 else s.Solution()[i + 1]
    requires 1 <= i ==> diag == s.Pivot(i) && r == s.Reduced(i)
    ensures d2 == s.Solution()[i] && d2next == s.Solution()[i + 1]
  {
    d2next := next;
    if i > 0 {
      d2 := Ratio(r, Product(hi1, d2next), diag);
    } else {
      d2 := 0.0;
    }
    if i == 0 {
      d2 := Product(k, d2next);
    }
    if i == n - 2 {
      assert Product(hi1, next) == 0.0;
      d2next := Product(k, d2);
    }
  }

  // The step after point i: its curve, and the second derivative at point i
  method DrawStep(d: Data, ghost s: System, i: nat, r: real, diag: real, next: real, ni: int, lb: real, ub: real)
    returns (d2: real, points: seq<Point>)
    requires d.Valid() && Describes(s, d) && s.Monotone() && s.Regular() && i + 1 < |d.x| && lb != ub
    requires next == if i == s.Last() then 0.0 else s.Solution()[i + 1]
    requires 1 <= i ==> diag == s.Pivot(i) && r == s.Reduced(i)
    ensures d2 == s.Solution()[i]
    ensures var p := Pieces(d.H(i + 1), ni, lb, ub); points == Points(d, s.Solution(), i, p, p)
  {
    var hi1 := d.x[i + 1] - d.x[i];
    StepsOf(d, s, i + 1);
    s.OneDirection(s.Last(), i + 1);
    var d2next;
    d2, d2next := Substitute(s, i, hi1, next, r, diag, d.k, |d.x|);
    points := Interpolate(d, i, d2, d2next, ni, lb, ub, s.Solution());
  }

  // The pass that substitutes back, step by step from the right, and draws each step
  method BackSubstitute(d: Data, ghost s: System, r: array<real>, diag: array<real>, ni: int, lb: real, ub: real)
    returns (out: seq<Point>)
    requires d.Valid() && Describes(s, d) && s.Monotone() && s.Regular() && r.Length == diag.Length == |d.x| + 1
    requires Eliminated(s, r[..], diag[..], |d.x| - 1) && lb != ub
    ensures out == Curve(d, s.Solution(), ni, lb, ub, 0)
  {
    ghost var m := s.Solution();
    var n := |d.x|;
    var d2 := 0.0;
    out := [];
    var i := n - 1;
    while i > 0
      invariant 0 <= i <= n - 1 && d2 == if i == n - 1 then 0.0 else m[i]
      invariant out == Curve(d, m, ni, lb, ub, i)
    {
      i := i - 1;
      var points;
      d2, points := DrawStep(d, s, i, r[i], diag[i], d2, ni, lb, ub);
      out := out + points;
    }
  }

  // The whole fit, where no pivot vanishes, as for every k > -2: refused unless there are
  // three points or more and their abscissas go one way, and otherwise the curve whose second
  // derivatives meet the equations.
  method Fit(d: Data, ni: int, lb: real, ub: real) returns (ok: bool, out: seq<Point>)
    requires |d.x| == |d.y| && lb != ub && (d.Valid() ==> d.Equations().Solvable())
    ensures ok <==> d.Valid() && d.Monotone()
    ensures ok ==> d.Solves(d.Equations().Solution())
    ensures ok ==> out == Curve(d, d.Equations().Solution(), ni, lb, ub, 0)
    ensures ok ==> exists cuts :: EvenlyCut(d, d.Equations().Solution(), ni, lb, ub, out, cuts)
  {
    out := [];
    if |d.x| < 3 {
      return false, out;
    }
    var r, diag := new real[|d.x| + 1], new real[|d.x| + 1];
    ghost var s := d.Equations();
    EquationsDescribe(d);
    ok := Triangularize(d, s, r, diag);
    if ok {
      s.SolvableIsRegular();
      s.SolutionSolves();
      out := BackSubstitute(d, s, r, diag, ni, lb, ub);
      CurveEvenlyCut(d, s.Solution(), ni, lb, ub);
    }
  }
}
