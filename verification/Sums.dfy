// Powers of two, Fibonacci numbers, and sums of the values of a finite map.
// The Huffman and canonical-code arguments are all phrased with these.
module Sums {

  function Pow2(n: nat): (r: nat)
    ensures r >= 1
  {
    if n == 0 then 1 else 2 * Pow2(n - 1)
  }

  lemma {:induction false} Pow2Add(a: nat, b: nat)
    ensures Pow2(a + b) == Pow2(a) * Pow2(b)
  {
    if a == 0 {
    } else {
      Pow2Add(a - 1, b);
      calc {
        Pow2(a + b);
        2 * Pow2(a - 1 + b);
        2 * (Pow2(a - 1) * Pow2(b));
        (2 * Pow2(a - 1)) * Pow2(b);
      }
    }
  }

  lemma {:induction false} Pow2Monotone(a: nat, b: nat)
    requires a <= b
    ensures Pow2(a) <= Pow2(b)
  {
    if a < b {
      Pow2Monotone(a, b - 1);
    }
  }

  lemma DivUnique(x: nat, p: nat, q: nat, r: nat)
    requires p > 0 && x == q * p + r && r < p
    ensures x / p == q && x % p == r
  {
    var d := x / p;
    assert x == d * p + x % p;
    if d < q {
      NextMultiple(d, q, p);
    } else if q < d {
      NextMultiple(q, d, p);
    }
  }

  lemma NextMultiple(d: nat, q: nat, p: nat)
    requires d < q
    ensures d * p + p <= q * p
  {
    var k := q - d - 1;
    assert q * p == (d + 1 + k) * p == d * p + p + k * p;
  }

  // Fib(1) == Fib(2) == 1.
  function Fib(n: nat): nat {
    if n < 2 then n else Fib(n - 2) + Fib(n - 1)
  }

  lemma {:induction false} FibMonotone(m: nat, n: nat)
    requires m <= n
    ensures Fib(m) <= Fib(n)
    decreases n
  {
    if m < n {
      FibMonotone(m, n - 1);
      if n >= 2 {
        assert Fib(n) == Fib(n - 2) + Fib(n - 1);
      }
    }
  }

  ghost function Pick(m: map<nat, nat>): (k: nat)
    requires m != map[]
    ensures k in m
  {
    var k :| k in m;
    k
  }

  // The sum of all values of a map.
  ghost function Sum(m: map<nat, nat>): nat {
    if m == map[] then 0
    else var k := Pick(m); m[k] + Sum(m - {k})
  }

  lemma {:induction false} SumRemove(m: map<nat, nat>, k: nat)
    requires k in m
    ensures Sum(m) == m[k] + Sum(m - {k})
    decreases |m|
  {
    var j := Pick(m);
    if j != k {
      SumRemove(m - {j}, k);
      SumRemove(m - {k}, j);
      assert m - {j} - {k} == m - {k} - {j};
    }
  }

  lemma SumEmpty(m: map<nat, nat>)
    requires m.Keys == {}
    ensures Sum(m) == 0
  {
    assert m == map[];
  }

  lemma {:induction false} SumUnion(m: map<nat, nat>, p: map<nat, nat>, q: map<nat, nat>)
    requires p.Keys !! q.Keys && m.Keys == p.Keys + q.Keys
    requires forall k :: k in p ==> m[k] == p[k]
    requires forall k :: k in q ==> m[k] == q[k]
    ensures Sum(m) == Sum(p) + Sum(q)
    decreases |p|
  {
    if p.Keys == {} {
      SumEmpty(p);
      assert m == q;
    } else {
      var k := Pick(p);
      SumRemove(p, k);
      SumRemove(m, k);
      assert (m - {k}).Keys == (p - {k}).Keys + q.Keys;
      SumUnion(m - {k}, p - {k}, q);
    }
  }

  lemma {:induction false} SumScale(m: map<nat, nat>, p: map<nat, nat>, f: nat)
    requires m.Keys == p.Keys && forall k :: k in p ==> m[k] == f * p[k]
    ensures Sum(m) == f * Sum(p)
    decreases |p|
  {
    if p.Keys == {} {
      SumEmpty(p);
      SumEmpty(m);
    } else {
      var k := Pick(p);
      SumRemove(p, k);
      SumRemove(m, k);
      SumScale(m - {k}, p - {k}, f);
      calc {
        Sum(m);
        m[k] + Sum(m - {k});
        f * p[k] + f * Sum(p - {k});
        f * (p[k] + Sum(p - {k}));
      }
    }
  }

  lemma {:induction false} SumAdd(m: map<nat, nat>, p: map<nat, nat>, q: map<nat, nat>)
    requires m.Keys == p.Keys == q.Keys && forall k :: k in m ==> m[k] == p[k] + q[k]
    ensures Sum(m) == Sum(p) + Sum(q)
    decreases |p|
  {
    if p.Keys == {} {
      SumEmpty(p);
      SumEmpty(q);
      SumEmpty(m);
    } else {
      var k := Pick(p);
      SumRemove(p, k);
      SumRemove(q, k);
      SumRemove(m, k);
      SumAdd(m - {k}, p - {k}, q - {k});
    }
  }

  // ---- Members below a bound -------------------------------------------------------

  ghost function Below(s: set<nat>, n: nat): set<nat> {
    set x | x in s && x < n
  }

  lemma OneMoreBelow(s: set<nat>, n: nat)
    requires n > 0
    ensures |Below(s, n)| == |Below(s, n - 1)| + if n - 1 in s then 1 else 0
  {
    if n - 1 in s {
      assert Below(s, n) == Below(s, n - 1) + {n - 1};
    } else {
      assert Below(s, n) == Below(s, n - 1);
    }
  }
}
