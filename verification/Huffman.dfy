// Huffman trees as the outcome of greedy merging (pack.c, "build Huffman tree"),
// with any way of breaking ties.  Nothing here depends on how the two lightest
// trees are found; HeapTree.dfy shows that the in-place heap finds them.
module Huffman {
  import opened Sums
  import opened Kraft

  // Leaves carry the symbol and its count; inner nodes carry the number the program
  // gives them, which indexes its parent array.
  datatype Tree = Leaf(sym: nat, weight: nat) | Node(id: nat, left: Tree, right: Tree) {

    function Root(): nat {
      if Leaf? then sym else id
    }

    function Weight(): nat {
      if Leaf? then weight else left.Weight() + right.Weight()
    }

    // The sum of the weights of the inner nodes.
    function Cost(): nat {
      if Leaf? then 0 else left.Cost() + right.Cost() + Weight()
    }

    ghost function Ids(): (s: set<nat>)
      ensures Root() in s
    {
      if Leaf? then {sym} else {id} + left.Ids() + right.Ids()
    }

    // No number is used twice.
    ghost predicate Distinct() {
      Node? ==>
        && left.Distinct() && right.Distinct()
        && id !in left.Ids() && id !in right.Ids()
        && left.Ids() !! right.Ids()
    }

    ghost function Symbols(): (m: map<nat, nat>)
      ensures m.Keys <= Ids()
    {
      if Leaf? then map[sym := weight] else left.Symbols() + right.Symbols()
    }

    ghost function Depth(x: nat): nat
      requires x in Ids()
    {
      if x == Root() then 0
      else if x in left.Ids() then 1 + left.Depth(x)
      else 1 + right.Depth(x)
    }

    function Height(): nat {
      if Leaf? then 0
      else if left.Height() > right.Height() then 1 + left.Height()
      else 1 + right.Height()
    }

    ghost function Depths(): (l: Lengths)
      ensures l.Keys == Symbols().Keys
    {
      map s | s in Symbols() :: Depth(s)
    }
  }

  // ---- What a single tree spends --------------------------------------------------

  lemma BranchSymbols(t: Tree)
    requires t.Node? && t.Distinct()
    ensures t.left.Symbols().Keys !! t.right.Symbols().Keys
    ensures t.id !in t.Symbols()
    ensures forall s :: s in t.left.Symbols() ==> s in t.Depths() && t.Depths()[s] == t.left.Depths()[s] + 1
    ensures forall s :: s in t.right.Symbols() ==> s in t.Depths() && t.Depths()[s] == t.right.Depths()[s] + 1
  {
  }

  lemma {:induction false} WeightIsSum(t: Tree)
    requires t.Distinct()
    ensures t.Weight() == Sum(t.Symbols())
  {
    if t.Leaf? {
      SumRemove(t.Symbols(), t.sym);
      SumEmpty(t.Symbols() - {t.sym});
    } else {
      WeightIsSum(t.left);
      WeightIsSum(t.right);
      BranchSymbols(t);
      SumUnion(t.Symbols(), t.left.Symbols(), t.right.Symbols());
    }
  }

  lemma SpentOneDeeper(w: map<nat, nat>, l: Lengths, l1: Lengths)
    requires w.Keys == l.Keys == l1.Keys && forall k :: k in w ==> l1[k] == l[k] + 1
    ensures Spent(w, l1) == Spent(w, l) + Sum(w)
  {
    forall k | k in w ensures w[k] * l1[k] == w[k] * l[k] + w[k] {
      assert w[k] * (l[k] + 1) == w[k] * l[k] + w[k];
    }
    SumAdd(Products(w, l1), Products(w, l), w);
  }

  lemma SpentSplit(w: map<nat, nat>, l: Lengths, w0: map<nat, nat>, l0: Lengths, w1: map<nat, nat>, l1: Lengths)
    requires w.Keys == l.Keys && w0.Keys == l0.Keys && w1.Keys == l1.Keys
    requires w == w0 + w1 && w0.Keys !! w1.Keys
    requires forall k :: k in l0 ==> l[k] == l0[k]
    requires forall k :: k in l1 ==> l[k] == l1[k]
    ensures Spent(w, l) == Spent(w0, l0) + Spent(w1, l1)
  {
    SumUnion(Products(w, l), Products(w0, l0), Products(w1, l1));
  }

  // The sum of inner weights is the number of bits spent when each symbol's codeword
  // is as long as its leaf is deep.
  lemma {:induction false} CostIsSpent(t: Tree)
    requires t.Distinct()
    ensures t.Cost() == Spent(t.Symbols(), t.Depths())
  {
    if t.Leaf? {
      RestOfProducts(t.Symbols(), t.Depths(), t.sym);
      SumEmpty(Products(t.Symbols() - {t.sym}, t.Depths() - {t.sym}));
    } else {
      CostIsSpent(t.left);
      CostIsSpent(t.right);
      WeightIsSum(t.left);
      WeightIsSum(t.right);
      BranchSymbols(t);
      var l0 := map s | s in t.left.Symbols() :: t.Depths()[s];
      var l1 := map s | s in t.right.Symbols() :: t.Depths()[s];
      SpentOneDeeper(t.left.Symbols(), t.left.Depths(), l0);
      SpentOneDeeper(t.right.Symbols(), t.right.Depths(), l1);
      SpentSplit(t.Symbols(), t.Depths(), t.left.Symbols(), l0, t.right.Symbols(), l1);
    }
  }

  lemma {:induction false} DepthAtMostHeight(t: Tree, x: nat)
    requires x in t.Ids()
    ensures t.Depth(x) <= t.Height()
  {
    if x != t.Root() {
      if x in t.left.Ids() {
        DepthAtMostHeight(t.left, x);
      } else {
        DepthAtMostHeight(t.right, x);
      }
    }
  }

  // Kraft's inequality with equality: the code leaves no bit string unused.
  ghost predicate Complete(l: Lengths, top: nat) {
    Bounded(l, top) && Sum(Terms(l, top)) == Pow2(top)
  }

  lemma LeafDepths(t: Tree)
    requires t.Leaf?
    ensures t.Depths() == map[t.sym := 0]
  {
  }

  lemma LeafKraft(s: nat, l: Lengths, top: nat)
    requires l == map[s := 0]
    ensures Complete(l, top)
  {
    RestOfTerms(l, top, s);
    SumEmpty(Terms(l - {s}, top));
  }

  lemma LeafComplete(t: Tree, top: nat)
    requires t.Leaf?
    ensures Complete(t.Depths(), top)
  {
    LeafDepths(t);
    LeafKraft(t.sym, t.Depths(), top);
  }

  lemma DepthsBounded(t: Tree, top: nat)
    requires t.Height() <= top
    ensures Bounded(t.Depths(), top)
  {
    forall s | s in t.Depths() ensures t.Depths()[s] <= top {
      DepthAtMostHeight(t, s);
    }
  }

  // Kraft's inequality is an equality for the leaves of a tree.
  lemma {:induction false} TreeKraft(t: Tree, top: nat)
    requires t.Distinct() && t.Height() <= top
    ensures Complete(t.Depths(), top)
  {
    if t.Leaf? {
      LeafComplete(t, top);
    } else {
      TreeKraft(t.left, top - 1);
      TreeKraft(t.right, top - 1);
      NodeKraft(t, top);
    }
  }

  lemma NodeKraft(t: Tree, top: nat)
    requires t.Node? && t.Distinct() && 0 < t.Height() <= top
    requires Complete(t.left.Depths(), top - 1) && Complete(t.right.Depths(), top - 1)
    ensures Complete(t.Depths(), top)
  {
    DepthsBounded(t, top);
    BranchSymbols(t);
    SplitTerms(t.Depths(), t.left.Depths(), t.right.Depths(), top);
  }

  // ---- Greedy merging --------------------------------------------------------------

  // The trees not yet merged, each filed under its root.
  type Forest = map<nat, Tree>

  ghost function Weights(f: Forest): (w: map<nat, nat>)
    ensures w.Keys == f.Keys
  {
    map k | k in f :: f[k].Weight()
  }

  ghost function Costs(f: Forest): map<nat, nat> {
    map k | k in f :: f[k].Cost()
  }

  ghost function LeafForest(w: map<nat, nat>): (f: Forest)
    ensures f.Keys == w.Keys
  {
    map s | s in w :: Leaf(s, w[s])
  }

  ghost predicate Unused(f: Forest, c: nat) {
    forall k :: k in f ==> c !in f[k].Ids()
  }

  ghost predicate Disjoint(f: Forest) {
    && (forall k :: k in f ==> f[k].Root() == k && f[k].Distinct())
    && (forall j, k :: j in f && k in f && j != k ==> f[j].Ids() !! f[k].Ids())
  }

  // The forest carries exactly the symbols and counts w.
  ghost predicate Carries(f: Forest, w: map<nat, nat>) {
    && (forall k, s :: k in f && s in f[k].Symbols() ==> s in w && w[s] == f[k].Symbols()[s])
    && (forall s :: s in w ==> Holds(f, s))
  }

  ghost predicate Holds(f: Forest, s: nat) {
    exists k :: k in f && s in f[k].Symbols()
  }

  ghost function Merged(f: Forest, a: nat, b: nat, c: nat): Forest
    requires a in f && b in f
  {
    (f - {a, b})[c := Node(c, f[a], f[b])]
  }

  // One greedy step: two lightest trees become the subtrees of a new node.
  ghost predicate Step(f: Forest, a: nat, b: nat, c: nat, g: Forest) {
    LightestPair(Weights(f), a, b) && Unused(f, c) && c !in f && g == Merged(f, a, b, c)
  }

  ghost predicate CanStep(f: Forest, g: Forest) {
    exists a, b, c :: Step(f, a, b, c, g)
  }

  ghost predicate Run(fs: seq<Forest>) {
    |fs| > 0 && forall i :: 0 <= i < |fs| - 1 ==> CanStep(fs[i], fs[i + 1])
  }

  // t is the single tree left by some greedy run on the counts w.
  ghost predicate HuffmanTree(w: map<nat, nat>, t: Tree) {
    exists fs :: RunFromTo(fs, w, t)
  }

  ghost predicate RunFromTo(fs: seq<Forest>, w: map<nat, nat>, t: Tree) {
    Run(fs) && fs[0] == LeafForest(w) && fs[|fs| - 1] == map[t.Root() := t]
  }

  lemma StepKeepsDisjoint(f: Forest, a: nat, b: nat, c: nat, g: Forest)
    requires Disjoint(f) && Step(f, a, b, c, g)
    ensures Disjoint(g)
  {
    assert f[a].Ids() !! f[b].Ids();
    forall k | k in g && k != c
      ensures k in f && g[k] == f[k] && g[k].Ids() !! g[c].Ids()
    {
      assert f[k].Ids() !! f[a].Ids() && f[k].Ids() !! f[b].Ids();
    }
  }

  lemma StepKeepsSymbols(f: Forest, a: nat, b: nat, c: nat, g: Forest, w: map<nat, nat>)
    requires Step(f, a, b, c, g) && Carries(f, w)
    ensures forall k, s :: k in g && s in g[k].Symbols() ==> s in w && w[s] == g[k].Symbols()[s]
  {
    forall k, s | k in g && s in g[k].Symbols()
      ensures s in w && w[s] == g[k].Symbols()[s]
    {
      if k == c {
        assert g[c].Symbols() == f[a].Symbols() + f[b].Symbols();
      } else {
        assert f[k] == g[k];
      }
    }
  }

  lemma StepKeepsHolds(f: Forest, a: nat, b: nat, c: nat, g: Forest, s: nat)
    requires Step(f, a, b, c, g) && Holds(f, s)
    ensures Holds(g, s)
  {
    var k :| k in f && s in f[k].Symbols();
    if k == a || k == b {
      assert g[c].Symbols() == f[a].Symbols() + f[b].Symbols();
      assert s in g[c].Symbols();
    } else {
      assert k in g && g[k] == f[k];
    }
  }

  lemma StepKeepsCarries(f: Forest, a: nat, b: nat, c: nat, g: Forest, w: map<nat, nat>)
    requires Step(f, a, b, c, g) && Carries(f, w)
    ensures Carries(g, w)
  {
    StepKeepsSymbols(f, a, b, c, g, w);
    forall s | s in w ensures Holds(g, s) {
      StepKeepsHolds(f, a, b, c, g, s);
    }
  }

  lemma StepCosts(f: Forest, a: nat, b: nat, c: nat, g: Forest)
    requires Step(f, a, b, c, g)
    ensures Sum(Costs(g)) == Sum(Costs(f)) + Weights(f)[a] + Weights(f)[b]
  {
    SumRemove(Costs(f), a);
    SumRemove(Costs(f) - {a}, b);
    SumRemove(Costs(g), c);
    assert Costs(f) - {a} - {b} == Costs(g) - {c};
  }

  lemma {:induction false} RunInvariants(fs: seq<Forest>, w: map<nat, nat>)
    requires Run(fs) && fs[0] == LeafForest(w)
    ensures Disjoint(fs[|fs| - 1]) && Carries(fs[|fs| - 1], w)
    decreases |fs|
  {
    if |fs| == 1 {
      forall s | s in w ensures Holds(fs[0], s) {
        assert s in fs[0][s].Symbols();
      }
    } else {
      var n := |fs| - 1;
      RunInvariants(fs[..n], w);
      assert CanStep(fs[n - 1], fs[n]);
      var a, b, c :| Step(fs[n - 1], a, b, c, fs[n]);
      StepKeepsDisjoint(fs[n - 1], a, b, c, fs[n]);
      StepKeepsCarries(fs[n - 1], a, b, c, fs[n], w);
    }
  }

  lemma LastStep(fs: seq<Forest>, w: map<nat, nat>) returns (a: nat, b: nat, c: nat)
    requires Run(fs) && fs[0] == LeafForest(w) && |fs| > 1
    ensures var n := |fs| - 1; Run(fs[..n]) && Disjoint(fs[n - 1]) && Step(fs[n - 1], a, b, c, fs[n])
  {
    var n := |fs| - 1;
    RunInvariants(fs[..n], w);
    assert CanStep(fs[n - 1], fs[n]);
    a, b, c :| Step(fs[n - 1], a, b, c, fs[n]);
  }

  lemma ExtendRun(fs: seq<Forest>, f: Forest, a: nat, b: nat, c: nat, g: Forest)
    requires Run(fs) && fs[|fs| - 1] == f && Step(f, a, b, c, g)
    ensures Run(fs + [g])
  {
    assert CanStep(f, g);
    var gs := fs + [g];
    forall i | 0 <= i < |gs| - 1 ensures CanStep(gs[i], gs[i + 1]) {
      if i < |fs| - 1 {
        assert CanStep(fs[i], fs[i + 1]);
      }
    }
  }

  lemma HuffmanTreeShape(w: map<nat, nat>, t: Tree)
    requires HuffmanTree(w, t)
    ensures t.Distinct() && t.Symbols() == w
  {
    var fs :| RunFromTo(fs, w, t);
    RunInvariants(fs, w);
    var f := fs[|fs| - 1];
    assert f[t.Root()] == t;
    forall s | s in w ensures s in t.Symbols() {
      assert Holds(f, s);
    }
    assert t.Symbols().Keys == w.Keys;
  }

  // ---- Every run ends in a tree ------------------------------------------------------

  lemma {:induction false} LeastWeight(w: map<nat, nat>, s: set<nat>) returns (a: nat)
    requires s != {} && s <= w.Keys
    ensures a in s && forall k :: k in s ==> w[a] <= w[k]
    decreases |s|
  {
    var x :| x in s;
    a := x;
    if s - {x} != {} {
      var b := LeastWeight(w, s - {x});
      a := if w[x] <= w[b] then x else b;
      forall k | k in s ensures w[a] <= w[k] {
        assert k == x || k in s - {x};
      }
    }
  }

  lemma SomeLightestPair(w: map<nat, nat>) returns (a: nat, b: nat)
    requires |w| >= 2
    ensures LightestPair(w, a, b)
  {
    assert |w.Keys| == |w|;
    a := LeastWeight(w, w.Keys);
    assert |w.Keys - {a}| > 0;
    b := LeastWeight(w, w.Keys - {a});
  }

  lemma {:induction false} AboveAll(s: set<nat>) returns (c: nat)
    ensures forall x :: x in s ==> x < c
    decreases |s|
  {
    if s == {} {
      c := 0;
    } else {
      var y :| y in s;
      c := AboveAll(s - {y});
      c := if y < c then c else y + 1;
      forall x | x in s ensures x < c {
        assert x == y || x in s - {y};
      }
    }
  }

  lemma FreshNumber(f: Forest) returns (c: nat)
    ensures Unused(f, c) && c !in f
  {
    var used := set k, x | k in f && x in f[k].Ids() :: x;
    c := AboveAll(f.Keys + used);
    forall k | k in f ensures c !in f[k].Ids() {
      assert forall x :: x in f[k].Ids() ==> x in used;
    }
  }

  // Another greedy step, which leaves one tree fewer
  lemma StepAhead(f: Forest) returns (a: nat, b: nat, c: nat, g: Forest)
    requires |f| >= 2
    ensures Step(f, a, b, c, g) && |g| == |f| - 1
  {
    var w := Weights(f);
    assert |w.Keys| == |f.Keys|;
    a, b := SomeLightestPair(w);
    c := FreshNumber(f);
    g := Merged(f, a, b, c);
    assert g.Keys == f.Keys - {a, b} + {c};
  }

  lemma OneTree(f: Forest) returns (t: Tree)
    requires |f| == 1 && Disjoint(f)
    ensures f == map[t.Root() := t]
  {
    var k :| k in f;
    t := f[k];
    assert |f.Keys - {k}| == 0;
    assert f.Keys == {k};
  }

  lemma {:induction false} RunCanEnd(fs: seq<Forest>, w: map<nat, nat>) returns (t: Tree)
    requires Run(fs) && fs[0] == LeafForest(w) && |fs[|fs| - 1]| > 0
    ensures HuffmanTree(w, t)
    decreases |fs[|fs| - 1]|
  {
    var f := fs[|fs| - 1];
    if |f| == 1 {
      RunInvariants(fs, w);
      t := OneTree(f);
      assert RunFromTo(fs, w, t);
    } else {
      var a, b, c, g := StepAhead(f);
      ExtendRun(fs, f, a, b, c, g);
      t := RunCanEnd(fs + [g], w);
    }
  }

  lemma HuffmanTreeExists(w: map<nat, nat>) returns (t: Tree)
    requires w != map[]
    ensures HuffmanTree(w, t)
  {
    assert |LeafForest(w).Keys| == |w.Keys|;
    t := RunCanEnd([LeafForest(w)], w);
  }

  // ---- Optimality ------------------------------------------------------------------

  lemma {:induction false} RunLowerBound(fs: seq<Forest>, t: Tree)
    requires Run(fs) && fs[|fs| - 1] == map[t.Root() := t]
    ensures Sum(Costs(fs[0])) <= t.Cost()
    ensures LowerBound(Weights(fs[0]), t.Cost() - Sum(Costs(fs[0])))
    decreases |fs|
  {
    if |fs| == 1 {
      SingleTreeCost(fs[0], t);
    } else {
      assert CanStep(fs[0], fs[1]);
      var a, b, c :| Step(fs[0], a, b, c, fs[1]);
      TailOfRun(fs);
      RunLowerBound(fs[1..], t);
      StepCosts(fs[0], a, b, c, fs[1]);
      StepLowerBound(fs[0], a, b, c, fs[1], t.Cost() - Sum(Costs(fs[1])));
    }
  }

  lemma StepLowerBound(f: Forest, a: nat, b: nat, c: nat, g: Forest, bound: nat)
    requires Step(f, a, b, c, g) && LowerBound(Weights(g), bound)
    ensures LowerBound(Weights(f), bound + Weights(f)[a] + Weights(f)[b])
  {
    var w: map<nat, nat> := Weights(f);
    var merged: map<nat, nat> := Weights(g);
    assert merged == (w - {a, b})[c := w[a] + w[b]];
    MergeLowerBound(w, a, b, c, merged, bound);
  }

  lemma SingleTreeCost(f: Forest, t: Tree)
    requires f == map[t.Root() := t]
    ensures Sum(Costs(f)) == t.Cost()
  {
    var m := Costs(f);
    SumRemove(m, t.Root());
    SumEmpty(m - {t.Root()});
  }

  lemma TailOfRun(fs: seq<Forest>)
    requires Run(fs) && |fs| > 1
    ensures Run(fs[1..])
  {
    forall i | 0 <= i < |fs[1..]| - 1 ensures CanStep(fs[1..][i], fs[1..][i + 1]) {
      assert CanStep(fs[i + 1], fs[i + 2]);
    }
  }

  lemma NoLeafCost(w: map<nat, nat>)
    ensures Sum(Costs(LeafForest(w))) == 0
  {
    var m := Costs(LeafForest(w));
    SumScale(m, m, 0);
  }

  // No lengths satisfying Kraft's inequality beat the depths of a Huffman tree.
  lemma HuffmanLowerBound(w: map<nat, nat>, t: Tree)
    requires HuffmanTree(w, t)
    ensures LowerBound(w, t.Cost())
  {
    var fs :| RunFromTo(fs, w, t);
    RunLowerBound(fs, t);
    NoLeafCost(w);
    assert Weights(LeafForest(w)) == w;
  }

  // Optimality: no prefix code for the same symbols has a smaller total of count
  // times length than the leaf depths of a Huffman tree.
  lemma HuffmanOptimal(w: map<nat, nat>, t: Tree, code: Code)
    requires HuffmanTree(w, t)
    requires code.Keys == w.Keys && PrefixFree(code)
    ensures t.Depths().Keys == w.Keys
    ensures Spent(w, t.Depths()) <= Spent(w, LengthsOf(code))
  {
    HuffmanTreeShape(w, t);
    CostIsSpent(t);
    HuffmanLowerBound(w, t);
    var top := LongestCodeword(code);
    PrefixCodeAdmissible(code, top);
  }

  lemma {:induction false} LongestCodeword(code: Code) returns (top: nat)
    ensures Bounded(LengthsOf(code), top)
    decreases |code|
  {
    if code == map[] {
      top := 0;
    } else {
      var k :| k in code;
      top := LongestCodeword(code - {k});
      assert forall j :: j in code && j != k ==> j in LengthsOf(code - {k}) && LengthsOf(code - {k})[j] == |code[j]|;
      top := if |code[k]| > top then |code[k]| else top;
    }
  }

  // A strictly lighter symbol never sits higher in the tree.
  lemma LighterIsDeeper(w: map<nat, nat>, t: Tree, x: nat, y: nat)
    requires HuffmanTree(w, t) && x in w && y in w && w[x] < w[y]
    ensures t.Depths().Keys == w.Keys && t.Depths()[x] >= t.Depths()[y]
  {
    HuffmanTreeShape(w, t);
    CostIsSpent(t);
    HuffmanLowerBound(w, t);
    TreeKraft(t, t.Height());
    NoProfitableExchange(w, t.Depths(), t.Height(), x, y);
  }

  lemma NoProfitableExchange(w: map<nat, nat>, l: Lengths, top: nat, x: nat, y: nat)
    requires w.Keys == l.Keys && Admissible(l, top) && LowerBound(w, Spent(w, l))
    requires x in w && y in w && w[x] < w[y]
    ensures l[x] >= l[y]
  {
    if l[x] < l[y] {
      ExchangeTerms(l, top, x, y);
      ExchangeProducts(w, l, x, y);
      CrossProducts(w[x], w[y], l[x], l[y]);
      assert Admissible(Exchanged(l, x, y), top);
      assert false;
    }
  }
}
