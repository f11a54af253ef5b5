// Codeword lengths.  A code is summarised by the length it gives each symbol; the
// lengths of every prefix code satisfy Kraft's inequality, and the exchange
// arguments behind Huffman's algorithm need nothing else about the code.
module Kraft {
  import opened Sums

  // Length assignments and weights are both finite maps from symbols to numbers.
  type Lengths = map<nat, nat>

  ghost predicate Bounded(l: Lengths, top: nat) {
    forall k :: k in l ==> l[k] <= top
  }

  ghost function Terms(l: Lengths, top: nat): (m: map<nat, nat>)
    requires Bounded(l, top)
  {
    map k | k in l :: Pow2(top - l[k])
  }

  // Kraft's inequality, scaled by 2^top so that it is a statement about integers.
  ghost predicate Admissible(l: Lengths, top: nat) {
    Bounded(l, top) && Sum(Terms(l, top)) <= Pow2(top)
  }

  ghost function Products(w: map<nat, nat>, l: Lengths): map<nat, nat>
    requires w.Keys <= l.Keys
  {
    map k | k in w :: w[k] * l[k]
  }

  // The total number of bits a code with these lengths spends on these weights.
  ghost function Spent(w: map<nat, nat>, l: Lengths): nat
    requires w.Keys <= l.Keys
  {
    Sum(Products(w, l))
  }

  ghost predicate LowerBound(w: map<nat, nat>, bound: nat) {
    forall l: Lengths, top: nat :: l.Keys == w.Keys && Admissible(l, top) ==> bound <= Spent(w, l)
  }

  ghost predicate LightestPair(w: map<nat, nat>, a: nat, b: nat) {
    && a in w && b in w && a != b
    && (forall k :: k in w ==> w[a] <= w[k])
    && (forall k :: k in w && k != a ==> w[b] <= w[k])
  }

  lemma RestOfTerms(l: Lengths, top: nat, k: nat)
    requires Bounded(l, top) && k in l
    ensures Bounded(l - {k}, top)
    ensures Sum(Terms(l, top)) == Pow2(top - l[k]) + Sum(Terms(l - {k}, top))
  {
    SumRemove(Terms(l, top), k);
    assert Terms(l, top) - {k} == Terms(l - {k}, top);
  }

  lemma RestOfProducts(w: map<nat, nat>, l: Lengths, k: nat)
    requires w.Keys <= l.Keys && k in w
    ensures Spent(w, l) == w[k] * l[k] + Spent(w - {k}, l - {k})
  {
    SumRemove(Products(w, l), k);
    assert Products(w, l) - {k} == Products(w - {k}, l - {k});
  }

  lemma HalveTerms(l: Lengths, top: nat)
    requires top > 0 && Bounded(l, top - 1)
    ensures Sum(Terms(l, top)) == 2 * Sum(Terms(l, top - 1))
  {
    SumScale(Terms(l, top), Terms(l, top - 1), 2);
  }

  lemma UpdateTerms(l: Lengths, top: nat, k: nat, v: nat)
    requires Bounded(l, top) && k in l && v <= top
    ensures Bounded(l[k := v], top)
    ensures Sum(Terms(l[k := v], top)) == Sum(Terms(l, top)) - Pow2(top - l[k]) + Pow2(top - v)
  {
    RestOfTerms(l, top, k);
    RestOfTerms(l[k := v], top, k);
    assert l[k := v] - {k} == l - {k};
  }

  lemma UpdateProducts(w: map<nat, nat>, l: Lengths, k: nat, v: nat)
    requires w.Keys == l.Keys && k in w
    ensures Spent(w, l[k := v]) == Spent(w, l) - w[k] * l[k] + w[k] * v
  {
    RestOfProducts(w, l, k);
    RestOfProducts(w, l[k := v], k);
    assert l[k := v] - {k} == l - {k};
  }

  // Swapping the lengths of two symbols.
  ghost function Exchanged(l: Lengths, x: nat, y: nat): Lengths
    requires x in l && y in l
  {
    l[x := l[y]][y := l[x]]
  }

  lemma ExchangeTerms(l: Lengths, top: nat, x: nat, y: nat)
    requires Bounded(l, top) && x in l && y in l && x != y
    ensures Bounded(Exchanged(l, x, y), top)
    ensures Sum(Terms(Exchanged(l, x, y), top)) == Sum(Terms(l, top))
  {
    UpdateTerms(l, top, x, l[y]);
    UpdateTerms(l[x := l[y]], top, y, l[x]);
  }

  lemma ExchangeProducts(w: map<nat, nat>, l: Lengths, x: nat, y: nat)
    requires w.Keys == l.Keys && x in l && y in l && x != y
    ensures Spent(w, Exchanged(l, x, y)) + w[x] * l[x] + w[y] * l[y] == Spent(w, l) + w[x] * l[y] + w[y] * l[x]
  {
    var l1 := l[x := l[y]];
    assert l1.Keys == l.Keys && l1[y] == l[y];
    UpdateProducts(w, l, x, l[y]);
    UpdateProducts(w, l1, y, l[x]);
  }

  lemma CrossProducts(a: nat, b: nat, c: nat, d: nat)
    requires a <= b && c <= d
    ensures a * d + b * c <= a * c + b * d
    ensures a < b && c < d ==> a * d + b * c < a * c + b * d
  {
    var u, v := b - a, d - c;
    assert a * d == a * c + a * v;
    assert b * d == b * c + b * v;
    assert b * v == a * v + u * v;
  }

  lemma ExchangeNoWorse(w: map<nat, nat>, l: Lengths, top: nat, x: nat, y: nat) returns (l': Lengths)
    requires w.Keys == l.Keys && Admissible(l, top) && x in l && y in l && x != y
    requires w[x] <= w[y] && l[x] <= l[y]
    ensures l'.Keys == l.Keys && Admissible(l', top) && Spent(w, l') <= Spent(w, l)
    ensures l'[x] == l[y] && l'[y] == l[x] && forall k :: k in l && k != x && k != y ==> l'[k] == l[k]
  {
    ExchangeTerms(l, top, x, y);
    ExchangeProducts(w, l, x, y);
    CrossProducts(w[x], w[y], l[x], l[y]);
    l' := Exchanged(l, x, y);
  }

  // Any admissible assignment can be made no worse so that a and b, the two lightest
  // symbols, both sit on the deepest level.
  lemma {:induction false} SinkLightest(w: map<nat, nat>, l: Lengths, top: nat, a: nat, b: nat)
    returns (l': Lengths, top': nat)
    requires w.Keys == l.Keys && Admissible(l, top) && LightestPair(w, a, b)
    ensures l'.Keys == l.Keys && Admissible(l', top') && Spent(w, l') <= Spent(w, l)
    ensures top' > 0 && l'[a] == l'[b] == top'
    decreases top
  {
    DeeperThanRoot(l, top, a, b);
    if Bounded(l, top - 1) {
      HalveTerms(l, top);
      l', top' := SinkLightest(w, l, top - 1, a, b);
    } else {
      var p :| p in l && l[p] == top;
      if Bounded(l - {p}, top - 1) {
        var shorter := ShortenOnlyDeepest(w, l, top, p);
        l', top' := SinkLightest(w, shorter, top - 1, a, b);
      } else {
        var q :| q in l - {p} && l[q] > top - 1;
        l' := SwapDown(w, l, top, a, b, p, q);
        top' := top;
      }
    }
  }

  lemma DeeperThanRoot(l: Lengths, top: nat, a: nat, b: nat)
    requires Admissible(l, top) && a in l && b in l && a != b
    ensures top > 0
  {
    TwoTerms(l, top, a, b);
  }

  // A symbol alone on the deepest level can move up one level.
  lemma ShortenOnlyDeepest(w: map<nat, nat>, l: Lengths, top: nat, p: nat) returns (l': Lengths)
    requires w.Keys == l.Keys && Admissible(l, top) && top > 0
    requires p in l && l[p] == top && Bounded(l - {p}, top - 1)
    ensures l'.Keys == l.Keys && Admissible(l', top - 1) && Spent(w, l') <= Spent(w, l)
  {
    l' := l[p := top - 1];
    ShortenedTerms(l, top, p);
    UpdateProducts(w, l, p, top - 1);
    ScaledDown(w[p], top);
  }

  lemma ShortenedTerms(l: Lengths, top: nat, p: nat)
    requires Admissible(l, top) && top > 0
    requires p in l && l[p] == top && Bounded(l - {p}, top - 1)
    ensures Admissible(l[p := top - 1], top - 1)
  {
    var rest := l - {p};
    RestOfTerms(l, top, p);
    HalveTerms(rest, top);
    RoomForOne(Sum(Terms(rest, top - 1)), top);
    var l' := ExtendTerms(rest, top - 1, p, top - 1);
    assert l' == l[p := top - 1];
  }

  lemma RoomForOne(s: nat, top: nat)
    requires top > 0 && Pow2(0) + 2 * s <= Pow2(top)
    ensures s + Pow2(0) <= Pow2(top - 1)
  {
  }

  lemma ScaledDown(x: nat, top: nat)
    requires top > 0
    ensures x * (top - 1) <= x * top
  {
  }

  lemma SwapDown(w: map<nat, nat>, l: Lengths, top: nat, a: nat, b: nat, p: nat, q: nat) returns (l': Lengths)
    requires w.Keys == l.Keys && Admissible(l, top) && LightestPair(w, a, b)
    requires p in l && q in l && p != q && l[p] == l[q] == top
    ensures l'.Keys == l.Keys && Admissible(l', top) && Spent(w, l') <= Spent(w, l)
    ensures l'[a] == l'[b] == top
  {
    l' := l;
    var rest := if q == a then p else q;
    if a != p && a != q {
      l' := ExchangeNoWorse(w, l, top, a, p);
    }
    if rest != b {
      l' := ExchangeNoWorse(w, l', top, b, rest);
    }
  }

  // One step of the greedy algorithm: a lower bound for the merged weights gives one
  // for the original weights.
  lemma MergeLowerBound(w: map<nat, nat>, a: nat, b: nat, c: nat, merged: map<nat, nat>, bound: nat)
    requires LightestPair(w, a, b) && c !in w
    requires merged == (w - {a, b})[c := w[a] + w[b]]
    requires LowerBound(merged, bound)
    ensures LowerBound(w, bound + w[a] + w[b])
  {
    forall l: Lengths, top: nat | l.Keys == w.Keys && Admissible(l, top)
      ensures bound + w[a] + w[b] <= Spent(w, l)
    {
      var l1, top1 := SinkLightest(w, l, top, a, b);
      var l2 := MergeAssignment(w, a, b, c, merged, l1, top1);
    }
  }

  lemma TwoTerms(l: Lengths, top: nat, a: nat, b: nat)
    requires Bounded(l, top) && a in l && b in l && a != b
    ensures Sum(Terms(l, top)) == Pow2(top - l[a]) + Pow2(top - l[b]) + Sum(Terms(l - {a, b}, top))
    ensures Bounded(l - {a, b}, top)
    ensures Sum(Terms(l, top)) <= Pow2(top) ==> top > 0
  {
    RestOfTerms(l, top, a);
    RestOfTerms(l - {a}, top, b);
    assert l - {a} - {b} == l - {a, b};
  }

  lemma TwoProducts(w: map<nat, nat>, l: Lengths, a: nat, b: nat)
    requires w.Keys == l.Keys && a in l && b in l && a != b
    ensures Spent(w, l) == w[a] * l[a] + w[b] * l[b] + Spent(w - {a, b}, l - {a, b})
  {
    RestOfProducts(w, l, a);
    RestOfProducts(w - {a}, l - {a}, b);
    assert l - {a} - {b} == l - {a, b} && w - {a} - {b} == w - {a, b};
  }

  lemma MergeAssignment(w: map<nat, nat>, a: nat, b: nat, c: nat, merged: map<nat, nat>, l: Lengths, top: nat)
    returns (l': Lengths)
    requires LightestPair(w, a, b) && c !in w
    requires merged == (w - {a, b})[c := w[a] + w[b]]
    requires l.Keys == w.Keys && Admissible(l, top) && top > 0 && l[a] == l[b] == top
    ensures l'.Keys == merged.Keys && Admissible(l', top) && Spent(w, l) == Spent(merged, l') + w[a] + w[b]
  {
    TwoTerms(l, top, a, b);
    TwoProducts(w, l, a, b);
    l' := ExtendTerms(l - {a, b}, top, c, top - 1);
    ExtendProducts(w - {a, b}, l - {a, b}, c, w[a] + w[b], top - 1);
    assert Pow2(1) == 2;
    MergedCost(w[a], w[b], top);
  }

  lemma ExtendTerms(l: Lengths, top: nat, c: nat, v: nat) returns (l': Lengths)
    requires Bounded(l, top) && c !in l && v <= top
    ensures l' == l[c := v] && Bounded(l', top)
    ensures Sum(Terms(l', top)) == Sum(Terms(l, top)) + Pow2(top - v)
  {
    l' := l[c := v];
    assert l' - {c} == l;
    RestOfTerms(l', top, c);
  }

  lemma ExtendProducts(w: map<nat, nat>, l: Lengths, c: nat, u: nat, v: nat)
    requires w.Keys == l.Keys && c !in l
    ensures Spent(w[c := u], l[c := v]) == Spent(w, l) + u * v
  {
    assert w[c := u] - {c} == w && l[c := v] - {c} == l;
    RestOfProducts(w[c := u], l[c := v], c);
  }

  lemma MergedCost(x: nat, y: nat, top: nat)
    requires top > 0
    ensures (x + y) * (top - 1) + x + y == x * top + y * top
  {
  }

  // ---- Prefix codes -------------------------------------------------------------

  type Code = map<nat, seq<bool>>

  predicate IsPrefix(u: seq<bool>, v: seq<bool>) {
    u <= v
  }

  ghost predicate PrefixFree(code: Code) {
    forall j, k {:trigger IsPrefix(code[j], code[k])} ::
      j in code && k in code && j != k ==> !IsPrefix(code[j], code[k])
  }

  ghost predicate NoEmptyCodeword(code: Code) {
    forall k :: k in code ==> code[k] != []
  }

  ghost function LengthsOf(code: Code): (l: Lengths)
    ensures l.Keys == code.Keys
  {
    map k | k in code :: |code[k]|
  }

  // The codewords that start with bit v, without that bit.
  ghost function Branch(code: Code, v: bool): (c: Code) {
    map k | k in code && |code[k]| > 0 && code[k][0] == v :: code[k][1..]
  }

  lemma BranchPrefixFree(code: Code, v: bool)
    requires PrefixFree(code)
    ensures PrefixFree(Branch(code, v))
  {
    var c := Branch(code, v);
    forall j, k | j in c && k in c && j != k
      ensures !IsPrefix(c[j], c[k])
    {
      assert code[j] == [v] + c[j] && code[k] == [v] + c[k];
      assert !IsPrefix(code[j], code[k]);
    }
  }

  lemma SplitTerms(l: Lengths, l0: Lengths, l1: Lengths, top: nat)
    requires top > 0 && Bounded(l, top) && l.Keys == l0.Keys + l1.Keys && l0.Keys !! l1.Keys
    requires forall k :: k in l0 ==> l[k] == l0[k] + 1
    requires forall k :: k in l1 ==> l[k] == l1[k] + 1
    ensures Bounded(l0, top - 1) && Bounded(l1, top - 1)
    ensures Sum(Terms(l, top)) == Sum(Terms(l0, top - 1)) + Sum(Terms(l1, top - 1))
  {
    assert forall k :: k in l ==> l[k] <= top;
    SumUnion(Terms(l, top), Terms(l0, top - 1), Terms(l1, top - 1));
  }

  lemma BranchTerms(code: Code, top: nat)
    requires top > 0 && Bounded(LengthsOf(code), top) && NoEmptyCodeword(code)
    ensures Bounded(LengthsOf(Branch(code, false)), top - 1) && Bounded(LengthsOf(Branch(code, true)), top - 1)
    ensures Sum(Terms(LengthsOf(code), top))
         == Sum(Terms(LengthsOf(Branch(code, false)), top - 1)) + Sum(Terms(LengthsOf(Branch(code, true)), top - 1))
  {
    var c0, c1 := Branch(code, false), Branch(code, true);
    assert code.Keys == c0.Keys + c1.Keys;
    SplitTerms(LengthsOf(code), LengthsOf(c0), LengthsOf(c1), top);
  }

  lemma EmptyCodewordAlone(code: Code, e: nat, top: nat)
    requires PrefixFree(code) && e in code && code[e] == []
    ensures Bounded(LengthsOf(code), top) && Sum(Terms(LengthsOf(code), top)) == Pow2(top)
  {
    forall k | k in code ensures k == e {
      assert IsPrefix(code[e], code[k]);
    }
    var l := LengthsOf(code);
    RestOfTerms(l, top, e);
    SumEmpty(Terms(l - {e}, top));
  }

  lemma BranchesSuffice(code: Code, top: nat)
    requires top > 0 && Bounded(LengthsOf(code), top) && NoEmptyCodeword(code)
    requires Admissible(LengthsOf(Branch(code, false)), top - 1)
    requires Admissible(LengthsOf(Branch(code, true)), top - 1)
    ensures Admissible(LengthsOf(code), top)
  {
    BranchTerms(code, top);
  }

  // Kraft's inequality for prefix codes.
  lemma {:induction false} PrefixCodeAdmissible(code: Code, top: nat)
    requires PrefixFree(code) && Bounded(LengthsOf(code), top)
    ensures Admissible(LengthsOf(code), top)
    decreases top, 1
  {
    if !NoEmptyCodeword(code) {
      var e :| e in code && code[e] == [];
      EmptyCodewordAlone(code, e, top);
    } else if top == 0 {
      ZeroLengths(code);
      assert code.Keys == {};
      SumEmpty(Terms(LengthsOf(code), top));
    } else {
      AdmissibleBranch(code, top, false);
      AdmissibleBranch(code, top, true);
      BranchesSuffice(code, top);
    }
  }

  lemma BranchBounded(code: Code, top: nat, v: bool)
    requires top > 0 && Bounded(LengthsOf(code), top)
    ensures Bounded(LengthsOf(Branch(code, v)), top - 1)
  {
    var l, b := LengthsOf(code), LengthsOf(Branch(code, v));
    assert forall k :: k in b ==> k in l && b[k] == l[k] - 1;
  }

  lemma {:induction false} AdmissibleBranch(code: Code, top: nat, v: bool)
    requires PrefixFree(code) && Bounded(LengthsOf(code), top) && NoEmptyCodeword(code) && top > 0
    ensures Admissible(LengthsOf(Branch(code, v)), top - 1)
    decreases top, 0
  {
    BranchPrefixFree(code, v);
    BranchBounded(code, top, v);
    PrefixCodeAdmissible(Branch(code, v), top - 1);
  }

  lemma ZeroLengths(code: Code)
    requires Bounded(LengthsOf(code), 0)
    ensures forall k :: k in code ==> code[k] == []
  {
    var l := LengthsOf(code);
    assert forall k :: k in l ==> l[k] == |code[k]|;
  }
}
