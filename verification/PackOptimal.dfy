// The code is optimal for what is actually written.  packfile() weighs END half as much
// as a byte that occurs once, but END is written once; since its tree is the only one of
// odd weight, every greedy choice it makes would also be made with END at full weight.
module PackOptimal {
  import opened Kraft
  import opened PackFormat
  import opened Huffman
  import opened DepthBound
  import opened TextCost

  // The same tree with END's leaf one heavier.
  ghost function Bump(t: Tree): (u: Tree)
    ensures u.Root() == t.Root() && u.Ids() == t.Ids() && u.Symbols().Keys == t.Symbols().Keys
    ensures u.Node? == t.Node? && u.Distinct() == t.Distinct()
  {
    if t.Leaf? then Leaf(t.sym, t.weight + if t.sym == END then 1 else 0)
    else Node(t.id, Bump(t.left), Bump(t.right))
  }

  predicate HasEnd(t: Tree) {
    if t.Leaf? then t.sym == END else HasEnd(t.left) || HasEnd(t.right)
  }

  lemma {:induction false} EndIsNumber(t: Tree)
    ensures HasEnd(t) ==> END in t.Ids()
  {
    if t.Node? {
      EndIsNumber(t.left);
      EndIsNumber(t.right);
    }
  }

  ghost function BumpForest(f: Forest): (g: Forest)
    ensures g.Keys == f.Keys
  {
    map k | k in f :: Bump(f[k])
  }

  lemma {:induction false} BumpDepth(t: Tree, x: nat)
    requires x in t.Ids()
    ensures Bump(t).Depth(x) == t.Depth(x)
  {
    if t.Node? && x != t.id {
      if x in t.left.Ids() {
        BumpDepth(t.left, x);
      } else {
        BumpDepth(t.right, x);
      }
    }
  }

  lemma {:induction false} BumpWeight(t: Tree)
    requires t.Distinct()
    ensures Bump(t).Weight() == t.Weight() + if HasEnd(t) then 1 else 0
  {
    if t.Node? {
      BumpWeight(t.left);
      BumpWeight(t.right);
      EndIsNumber(t.left);
      EndIsNumber(t.right);
    }
  }

  // Trees with END in them are odd, all others even.
  ghost predicate OddEnd(f: Forest) {
    forall k :: k in f ==> OddIfEnd(f[k])
  }

  lemma StepKeepsOddEnd(f: Forest, a: nat, b: nat, c: nat, g: Forest)
    requires Disjoint(f) && Step(f, a, b, c, g) && OddEnd(f)
    ensures OddEnd(g)
  {
    forall k | k in g ensures OddIfEnd(g[k]) {
      if k == c {
        assert f[a].Ids() !! f[b].Ids();
        OddMerge(f[a], f[b], c);
      } else {
        assert g[k] == f[k];
      }
    }
  }

  ghost predicate OddIfEnd(t: Tree) {
    t.Weight() % 2 == if HasEnd(t) then 1 else 0
  }

  lemma OddMerge(x: Tree, y: Tree, c: nat)
    requires x.Ids() !! y.Ids() && OddIfEnd(x) && OddIfEnd(y)
    ensures OddIfEnd(Node(c, x, y))
  {
    EndIsNumber(x);
    EndIsNumber(y);
  }

  // Rounding up to even numbers keeps the order.
  lemma RoundedPair(w: map<nat, nat>, u: map<nat, nat>, a: nat, b: nat)
    requires LightestPair(w, a, b) && u.Keys == w.Keys && forall k :: k in w ==> u[k] == w[k] + w[k] % 2
    ensures LightestPair(u, a, b)
  {
  }

  lemma BumpedStep(f: Forest, a: nat, b: nat, c: nat, g: Forest)
    requires Disjoint(f) && OddEnd(f) && Step(f, a, b, c, g)
    ensures Step(BumpForest(f), a, b, c, BumpForest(g))
  {
    var w, u := Weights(f), Weights(BumpForest(f));
    forall k | k in w ensures u[k] == w[k] + w[k] % 2 {
      BumpWeight(f[k]);
    }
    RoundedPair(w, u, a, b);
    BumpedMerge(f, a, b, c);
    BumpedUnused(f, c);
  }

  lemma BumpedMerge(f: Forest, a: nat, b: nat, c: nat)
    requires a in f && b in f
    ensures BumpForest(Merged(f, a, b, c)) == Merged(BumpForest(f), a, b, c)
  {
  }

  lemma BumpedUnused(f: Forest, c: nat)
    requires Unused(f, c)
    ensures Unused(BumpForest(f), c)
  {
    var g := BumpForest(f);
    forall k | k in g ensures c !in g[k].Ids() {
      assert g[k].Ids() == f[k].Ids();
    }
  }

  lemma {:induction false} BumpedRun(fs: seq<Forest>, w: map<nat, nat>) returns (gs: seq<Forest>)
    requires Run(fs) && fs[0] == LeafForest(w) && PackCounts(w, END)
    ensures Run(gs) && gs[0] == BumpForest(fs[0]) && gs[|gs| - 1] == BumpForest(fs[|fs| - 1])
    ensures OddEnd(fs[|fs| - 1])
    decreases |fs|
  {
    if |fs| == 1 {
      gs := [BumpForest(fs[0])];
    } else {
      var n := |fs| - 1;
      var a, b, c := LastStep(fs, w);
      gs := BumpedRun(fs[..n], w);
      StepKeepsOddEnd(fs[n - 1], a, b, c, fs[n]);
      BumpedStep(fs[n - 1], a, b, c, fs[n]);
      ExtendRun(gs, gs[|gs| - 1], a, b, c, BumpForest(fs[n]));
      gs := gs + [BumpForest(fs[n])];
    }
  }

  lemma BumpedTree(w: map<nat, nat>, t: Tree)
    requires PackCounts(w, END) && HuffmanTree(w, t)
    ensures HuffmanTree(w[END := 2], Bump(t)) && Bump(t).Depths() == t.Depths()
  {
    var fs :| RunFromTo(fs, w, t);
    var gs := BumpedRun(fs, w);
    assert BumpForest(LeafForest(w)) == LeafForest(w[END := 2]);
    assert BumpForest(map[t.Root() := t]) == map[Bump(t).Root() := Bump(t)];
    assert RunFromTo(gs, w[END := 2], Bump(t));
    forall s | s in t.Symbols() ensures Bump(t).Depth(s) == t.Depth(s) {
      BumpDepth(t, s);
    }
  }

  lemma TextCountsArePackCounts(text: seq<Byte>)
    ensures PackCounts(TextCounts(text), END)
  {
  }

  // No prefix code for the bytes of the text and an end mark writes the text and the
  // mark in fewer bits than the leaf depths of packfile()'s tree.
  lemma NoShorterMessage(text: seq<Byte>, t: Tree, code: Code)
    requires HuffmanTree(TextCounts(text), t)
    requires code.Keys == TextCounts(text).Keys && PrefixFree(code)
    ensures t.Depths().Keys == code.Keys && Covers(t.Depths(), text) && Covers(LengthsOf(code), text)
    ensures TextLength(t.Depths(), text) + t.Depths()[END] <= TextLength(LengthsOf(code), text) + |code[END]|
  {
    var w := TextCounts(text);
    TextCountsArePackCounts(text);
    BumpedTree(w, t);
    HuffmanOptimal(w[END := 2], Bump(t), code);
    CountsSpent(text, t.Depths(), 2);
    CountsSpent(text, LengthsOf(code), 2);
  }
}
