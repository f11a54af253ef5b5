// factor.c: trial division by 2, 3, 5, 7 and by the numbers a wheel of 210 visits.
module Factor {

  // The steps of the wheel
  const SQ: seq<int> :=
    [10, 2, 4, 2, 4, 6, 2, 6]
    + [4, 2, 4, 6, 6, 2, 6, 4]
    + [2, 6, 4, 6, 8, 4, 2, 4]
    + [2, 4, 8, 6, 4, 6, 2, 4]
    + [6, 2, 6, 6, 4, 2, 4, 6]
    + [2, 6, 4, 2, 4, 2, 10, 2]

  // Where they lead, from 1 on
  const SPOKES: seq<int> :=
    [1, 11, 13, 17, 19, 23, 29, 31]
    + [37, 41, 43, 47, 53, 59, 61, 67]
    + [71, 73, 79, 83, 89, 97, 101, 103]
    + [107, 109, 113, 121, 127, 131, 137, 139]
    + [143, 149, 151, 157, 163, 167, 169, 173]
    + [179, 181, 187, 191, 193, 197, 199, 209]
    + [211]

  // ---- The wheel -----------------------------------------------------------------------

  // c has one of the first four primes as a factor.
  predicate Small(c: int) {
    c % 2 == 0 || c % 3 == 0 || c % 5 == 0 || c % 7 == 0
  }

  predicate Skips(r: int, g: int, e: int) {
    e < g ==> Small(r + e)
  }

  // A step of g from r, 10 at most, skips nothing of use.
  predicate GapOk(r: int, g: int) {
    && 2 <= g <= 10 && Skips(r, g, 1) && Skips(r, g, 2) && Skips(r, g, 3) && Skips(r, g, 4) && Skips(r, g, 5)
    && Skips(r, g, 6) && Skips(r, g, 7) && Skips(r, g, 8) && Skips(r, g, 9)
  }

  lemma Row0(j: nat)
    requires 0 <= j < 8
    ensures SPOKES[j + 1] == SPOKES[j] + SQ[j] && GapOk(SPOKES[j], SQ[j])
  {
  }

  lemma Row1(j: nat)
    requires 8 <= j < 16
    ensures SPOKES[j + 1] == SPOKES[j] + SQ[j] && GapOk(SPOKES[j], SQ[j])
  {
  }

  lemma Row2(j: nat)
    requires 16 <= j < 24
    ensures SPOKES[j + 1] == SPOKES[j] + SQ[j] && GapOk(SPOKES[j], SQ[j])
  {
  }

  lemma Row3(j: nat)
    requires 24 <= j < 32
    ensures SPOKES[j + 1] == SPOKES[j] + SQ[j] && GapOk(SPOKES[j], SQ[j])
  {
  }

  lemma Row4(j: nat)
    requires 32 <= j < 40
    ensures SPOKES[j + 1] == SPOKES[j] + SQ[j] && GapOk(SPOKES[j], SQ[j])
  {
  }

  lemma Row5(j: nat)
    requires 40 <= j < 48
    ensures SPOKES[j + 1] == SPOKES[j] + SQ[j] && GapOk(SPOKES[j], SQ[j])
  {
  }

  lemma SpokesOk(j: nat)
    requires j < 48
    ensures SPOKES[j + 1] == SPOKES[j] + SQ[j] && GapOk(SPOKES[j], SQ[j])
  {
    if j < 8 { Row0(j); } else if j < 16 { Row1(j); } else if j < 24 { Row2(j); }
    else if j < 32 { Row3(j); } else if j < 40 { Row4(j); } else { Row5(j); }
  }

  // ---- Divisors --------------------------------------------------------------------------

  predicate Divides(d: int, n: int)
    requires d > 0
  {
    n % d == 0
  }

  lemma Larger(d: int, e: int)
    requires d > 0
    ensures e > 0 ==> d * e >= d
    ensures e < 0 ==> d * e <= -d
  {
  }

  lemma Whole(n: int, d: int)
    requires d > 0 && Divides(d, n)
    ensures n == d * (n / d)
  {
  }

  lemma MultipleDivides(d: int, q: int)
    requires d > 0
    ensures Divides(d, d * q) && d * q / d == q
  {
    Remainder(d * q, d, q);
  }

  lemma Remainder(n: int, d: int, q: int)
    requires d > 0 && n == d * q
    ensures n % d == 0 && n / d == q
  {
    var e := n / d - q;
    assert n == d * (n / d) + n % d;
    assert d * (n / d) - d * q == d * e;
    Larger(d, e);
  }

  lemma DividesTrans(d: int, e: int, n: int)
    requires d > 0 && e > 0 && Divides(d, e) && Divides(e, n)
    ensures Divides(d, n)
  {
    Whole(e, d);
    Whole(n, e);
    var p, q := e / d, n / e;
    assert n == d * (p * q) by {
      assert n == (d * p) * q;
    }
    MultipleDivides(d, p * q);
  }

  ghost predicate Prime(p: int) {
    p > 1 && forall d :: 1 < d < p ==> !Divides(d, p)
  }

  // Nothing up to k but 1 divides n.
  ghost predicate Rough(n: int, k: int) {
    forall d :: 1 < d <= k ==> !Divides(d, n)
  }

  function Product(f: seq<int>): int {
    if f == [] then 1 else Product(f[..|f| - 1]) * f[|f| - 1]
  }

  ghost predicate Primes(f: seq<int>) {
    forall i :: 0 <= i < |f| ==> Prime(f[i])
  }

  ghost predicate Ascending(f: seq<int>) {
    forall i, j :: 0 <= i <= j < |f| ==> f[i] <= f[j]
  }

  // A divisor of a number with no smaller one is prime.
  lemma FirstDivisorPrime(n: int, d: int)
    requires d > 1 && Divides(d, n) && Rough(n, d - 1)
    ensures Prime(d)
  {
    forall e | 1 < e < d ensures !Divides(e, d) {
      if Divides(e, d) {
        DividesTrans(e, d, n);
      }
    }
  }

  lemma QuotientRough(n: int, d: int, q: int, k: int)
    requires n >= 1 && d > 1 && n == d * q && Rough(n, k)
    ensures Rough(q, k) && 1 <= q < n
  {
    Larger(d, q);
    Larger(q, d - 1);
    MultipleDivides(q, d);
    forall e | 1 < e <= k ensures !Divides(e, q) {
      if Divides(e, q) {
        DividesTrans(e, q, n);
      }
    }
  }

  // A number that has no divisor up to k, and is below the square of k - 1, is 1 or prime.
  lemma RestPrime(n: int, k: int)
    requires n > 1 && k >= 1 && Rough(n, k) && Square(k - 1) > n
    ensures Prime(n) && n > k
  {
    MultipleDivides(n, 1);
    forall d | 1 < d < n ensures !Divides(d, n) {
      if Divides(d, n) {
        Whole(n, d);
        var q := n / d;
        CofactorSmall(d, q, k);
        MultipleDivides(q, d);
      }
    }
  }

  lemma CofactorSmall(d: int, q: int, k: int)
    ensures d > k >= 1 && q > k ==> d * q > Square(k - 1)
    ensures d > 0 && q <= 1 ==> d * q <= d
  {
    if d > k >= 1 && q > k {
      assert (d - k) * q >= 0 && k * (q - k) >= 0;
      assert d * q == (d - k) * q + k * (q - k) + k * k;
    }
  }

  lemma ProductMore(f: seq<int>, d: int)
    ensures Product(f + [d]) == Product(f) * d
  {
    assert (f + [d])[..|f|] == f;
  }

  // A number with one of the first four primes as a factor does not divide one without them.
  lemma SmallNoDivisor(n: int, c: int)
    requires c > 7 && Small(c) && Rough(n, 7)
    ensures !Divides(c, n)
  {
    if Divides(c, n) {
      var p := if c % 2 == 0 then 2 else if c % 3 == 0 then 3 else if c % 5 == 0 then 5 else 7;
      assert Divides(p, c);
      DividesTrans(p, c, n);
    }
  }

  // From one candidate to the next, in any lap of the wheel, nothing is skipped that could
  // divide n.
  lemma SkipRough(n: int, ii: int, j: nat, lap: nat)
    requires j < 48 && ii == SPOKES[j] + 210 * lap && ii > 0 && Rough(n, 7) && Rough(n, ii)
    ensures Rough(n, ii + SQ[j] - 1) && SPOKES[j + 1] == SPOKES[j] + SQ[j] && 2 <= SQ[j] <= 10
  {
    SpokesOk(j);
    forall c | 1 < c <= ii + SQ[j] - 1 ensures !Divides(c, n) {
      if c > ii && c > 7 {
        Between(SPOKES[j], SQ[j], c - ii, lap);
        SmallNoDivisor(n, c);
      }
    }
  }

  lemma Between(r: int, g: int, e: int, lap: nat)
    requires GapOk(r, g) && 1 <= e < g
    ensures Small(r + e + 210 * lap)
  {
    assert Skips(r, g, e);
    SameSmall(r + e, lap);
  }

  lemma SameSmall(b: int, lap: nat)
    requires Small(b)
    ensures Small(b + 210 * lap)
  {
    if b % 2 == 0 {
      AddMultiple(b, 2, 105 * lap);
    } else if b % 3 == 0 {
      AddMultiple(b, 3, 70 * lap);
    } else if b % 5 == 0 {
      AddMultiple(b, 5, 42 * lap);
    } else {
      AddMultiple(b, 7, 30 * lap);
    }
  }

  lemma AddMultiple(b: int, p: int, t: int)
    requires p > 0 && b % p == 0
    ensures (b + p * t) % p == 0
  {
    var q := b / p;
    assert b == p * q;
    Remainder(b + p * t, p, q + t);
  }

  predicate OnSpoke(c: int, j: nat, lap: nat)
    requires j <= 48
  {
    c == SPOKES[j] + 210 * lap
  }

  // Seen from the other side: every number above 7 without such a factor lies on a spoke.
  lemma EveryoneVisited(c: int)
    requires c > 7 && !Small(c)
    ensures exists j: nat, lap: nat :: j <= 48 && OnSpoke(c, j, lap)
  {
    var lap := (c - 2) / 210;
    var r := c - 210 * lap;
    var j := Locate(r, 48);
    if r < SPOKES[j + 1] {
      SpokesOk(j);
      Between(SPOKES[j], SQ[j], r - SPOKES[j], lap);
    }
    assert OnSpoke(c, j + 1, lap);
  }

  lemma {:induction false} Locate(r: int, n: nat) returns (j: nat)
    requires 1 <= n <= 48 && 1 < r <= SPOKES[n]
    ensures j < n && SPOKES[j] < r <= SPOKES[j + 1]
  {
    if SPOKES[n - 1] < r {
      j := n - 1;
    } else {
      j := Locate(r, n - 1);
    }
  }

  // ---- The program ---------------------------------------------------------------------------

  const HUGE := 100_000_000_000_000

  datatype Reply = Stop | Ouch | Factors(f: seq<int>)

  // What is printed, none of it above k, and what is left make up n.
  ghost predicate Split(n: int, f: seq<int>, nn: int, k: int) {
    && nn >= 1 && Product(f) * nn == n && Primes(f) && Ascending(f)
    && forall i :: 0 <= i < |f| ==> f[i] <= k
  }

  lemma SplitMore(n: int, f: seq<int>, nn: int, q: int, k: int)
    requires Split(n, f, nn, k) && Rough(nn, k - 1) && k > 1 && nn == k * q
    ensures Split(n, f + [k], q, k) && Rough(q, k - 1) && q < nn
  {
    MultipleDivides(k, q);
    FirstDivisorPrime(nn, k);
    QuotientRough(nn, k, q, k - 1);
    ProductMore(f, k);
    Regroup(Product(f), k, q);
  }

  lemma Regroup(a: int, b: int, c: int)
    ensures a * (b * c) == (a * b) * c
  {
  }

  function Square(x: int): int { x * x }

  // ii <= 1 + sqrt(nn)
  predicate InReach(ii: int, nn: int) {
    ii <= 1 || Square(ii - 1) <= nn
  }

  class Factorizer {
    var nn: int
    var out: seq<int>

    constructor (n: int)
      ensures nn == n && out == []
    {
      nn, out := n, [];
    }

    // try(d), and the inner loop at candidate d: d is divided out.
    method Try(d: int, ghost n: int)
      requires d > 1 && Split(n, out, nn, d) && Rough(nn, d - 1)
      modifies this
      ensures Split(n, out, nn, d) && Rough(nn, d) && nn <= old(nn)
    {
      while nn % d == 0
        invariant Split(n, out, nn, d) && Rough(nn, d - 1) && nn <= old(nn)
        decreases nn
      {
        Whole(nn, d);
        SplitMore(n, out, nn, nn / d, d);
        out := out + [d];
        nn := nn / d;
      }
      assert !Divides(d, nn);
    }

    // One turn of the wheel, whatever the bound has become meanwhile
    method Turn(start: int, ghost n: int, ghost lap: nat) returns (ii: int)
      requires start == 1 + 210 * lap && Rough(nn, 7) && Rough(nn, start)
      requires Split(n, out, nn, if start > 7 then start else 7)
      modifies this
      ensures ii == start + 210 && Rough(nn, 7) && Rough(nn, ii) && Split(n, out, nn, ii) && nn <= old(nn)
    {
      ii := start;
      for j := 0 to 48
        invariant ii == SPOKES[j] + 210 * lap && ii >= start
        invariant Rough(nn, 7) && Rough(nn, ii) && Split(n, out, nn, if ii > 7 then ii else 7) && nn <= old(nn)
      {
        SkipRough(nn, ii, j, lap);
        ii := ii + SQ[j];
        SpokesPast7(j, lap);
        Try(ii, n);
      }
    }

    // try(2) to try(7)
    method TryFour(n: int)
      requires nn == n >= 1 && out == []
      modifies this
      ensures Split(n, out, nn, 7) && Rough(nn, 7) && nn <= n
    {
      assert Product(out) == 1;
      Try(2, n);
      Try(3, n);
      RoughNext(nn, 4, 2);
      Try(5, n);
      RoughNext(nn, 6, 2);
      Try(7, n);
    }

    // The wheel turns until it is past the square root of what is left.
    method Roll(n: int) returns (ii: int)
      requires Split(n, out, nn, 7) && Rough(nn, 7) && nn <= n
      modifies this
      ensures Split(n, out, nn, if ii > 7 then ii else 7) && Rough(nn, 7) && Rough(nn, ii) && !InReach(ii, nn)
    {
      ii := 1;
      ghost var lap := 0;
      while InReach(ii, nn)
        invariant ii == 1 + 210 * lap && Rough(nn, 7) && Rough(nn, ii) && 1 <= nn <= n
        invariant Split(n, out, nn, if ii > 7 then ii else 7)
        decreases n + 2 - ii
      {
        Reach(ii, nn);
        ii := Turn(ii, n, lap);
        lap := lap + 1;
      }
    }

    // What is left is 1, or the last prime.
    method Finish(n: int, ghost ii: int)
      requires Split(n, out, nn, if ii > 7 then ii else 7) && Rough(nn, 7) && Rough(nn, ii) && !InReach(ii, nn)
      modifies this
      ensures Product(out) == n && Primes(out) && Ascending(out)
    {
      if nn > 1 {
        RestPrime(nn, ii);
        PastSeven(nn);
        ProductMore(out, nn);
        out := out + [nn];
      }
    }

    // Zero stops the program and other numbers out of range are refused; for the rest the
    // factors printed are prime, in ascending order, and make up the number.
    method Factor(n: int) returns (reply: Reply)
      requires nn == n && out == []
      modifies this
      ensures reply.Stop? <==> n == 0
      ensures reply.Ouch? <==> n < 0 || n > HUGE
      ensures reply.Factors? ==> Product(reply.f) == n && Primes(reply.f) && Ascending(reply.f)
    {
      if nn == 0 {
        return Stop;
      }
      if nn < 0 || nn > HUGE {
        return Ouch;
      }
      TryFour(n);
      var ii := Roll(n);
      Finish(n, ii);
      return Factors(out);
    }
  }

  lemma PastSeven(n: int)
    requires n > 1 && Rough(n, 7)
    ensures n > 7
  {
    MultipleDivides(n, 1);
  }

  lemma Reach(ii: int, nn: int)
    requires InReach(ii, nn) && nn >= 1
    ensures ii <= nn + 1
  {
  }

  // The first spoke is 11, so no step ends below 8.
  lemma SpokesPast7(j: nat, lap: nat)
    requires j < 48
    ensures SPOKES[j] + SQ[j] + 210 * lap > 7
  {
    SpokesAbove(j);
  }

  lemma {:induction false} SpokesAbove(j: nat)
    requires j < 48
    ensures SPOKES[j] + SQ[j] >= 11
  {
    SpokesOk(j);
    if j > 0 {
      SpokesAbove(j - 1);
      SpokesOk(j - 1);
    }
  }

  // k + 1 is a multiple of d, which does not divide n.
  lemma RoughNext(n: int, k: int, d: int)
    requires 1 < d < k && Divides(d, k) && Rough(n, k - 1)
    ensures Rough(n, k)
  {
    if Divides(k, n) {
      DividesTrans(d, k, n);
    }
  }
}
