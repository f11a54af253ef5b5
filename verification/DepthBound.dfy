// How deep a Huffman tree can get.  pack.c gives END the count 1 and every other
// symbol an even count, and refuses trees of more than 24 levels.
module DepthBound {
  import opened Sums
  import opened Kraft
  import opened Huffman

  // The counts input() and packfile() produce: END once, other symbols twice each.
  ghost predicate PackCounts(w: map<nat, nat>, end: nat) {
    end in w && w[end] == 1 && forall s :: s in w && s != end ==> w[s] % 2 == 0 && w[s] >= 2
  }

  // Tree k holds END at depth d; it is the only odd tree, and Fibonacci numbers bound
  // all weights from below.
  ghost predicate AtLeastFib(f: Forest, end: nat, k: nat, d: nat) {
    && k in f && end in f[k].Ids() && f[k].Depth(end) == d
    && f[k].Weight() % 2 == 1 && f[k].Weight() >= 2 * Fib(d + 2) - 1
    && forall j :: j in f && j != k ==> f[j].Weight() % 2 == 0 && f[j].Weight() >= 2 * Fib(d + 1)
  }

  lemma DepthAfterMerge(f: Forest, a: nat, b: nat, c: nat, g: Forest, end: nat, k: nat)
    requires Disjoint(f) && Step(f, a, b, c, g) && (k == a || k == b) && end in f[k].Ids()
    ensures c in g && end in g[c].Ids() && g[c].Depth(end) == f[k].Depth(end) + 1
    ensures g[c].Weight() == f[a].Weight() + f[b].Weight()
  {
    assert f[a].Ids() !! f[b].Ids();
  }

  lemma MergeEndKeepsFib(f: Forest, a: nat, b: nat, c: nat, g: Forest, end: nat, k: nat, d: nat)
    requires Disjoint(f) && Step(f, a, b, c, g) && AtLeastFib(f, end, k, d) && (k == a || k == b)
    ensures AtLeastFib(g, end, c, d + 1)
  {
    DepthAfterMerge(f, a, b, c, g, end, k);
    var x := if k == a then b else a;
    assert f[x].Weight() % 2 == 0 && f[x].Weight() >= 2 * Fib(d + 1);
    FibStep(d);
    forall j | j in g && j != c ensures g[j].Weight() % 2 == 0 && g[j].Weight() >= 2 * Fib(d + 2) {
      HeavierThanEnd(f, a, b, c, g, end, k, d, j);
    }
  }

  lemma FibStep(d: nat)
    ensures Fib(d + 3) == Fib(d + 1) + Fib(d + 2)
  {
  }

  lemma HeavierThanEnd(f: Forest, a: nat, b: nat, c: nat, g: Forest, end: nat, k: nat, d: nat, j: nat)
    requires Step(f, a, b, c, g) && AtLeastFib(f, end, k, d) && (k == a || k == b) && j in g && j != c
    ensures g[j].Weight() % 2 == 0 && g[j].Weight() >= 2 * Fib(d + 2)
  {
    assert j in f && j != k && g[j] == f[j];
    assert Weights(f)[j] >= Weights(f)[k];
  }

  lemma MergeOthersKeepsFib(f: Forest, a: nat, b: nat, c: nat, g: Forest, end: nat, k: nat, d: nat)
    requires Step(f, a, b, c, g) && AtLeastFib(f, end, k, d) && k != a && k != b
    ensures AtLeastFib(g, end, k, d)
  {
    assert g[k] == f[k];
    forall j | j in g && j != k ensures g[j].Weight() % 2 == 0 && g[j].Weight() >= 2 * Fib(d + 1) {
      if j == c {
        assert g[c].Weight() == f[a].Weight() + f[b].Weight();
      } else {
        assert g[j] == f[j];
      }
    }
  }

  lemma {:induction false} RunKeepsFib(fs: seq<Forest>, w: map<nat, nat>, end: nat) returns (k: nat, d: nat)
    requires Run(fs) && fs[0] == LeafForest(w) && PackCounts(w, end)
    ensures AtLeastFib(fs[|fs| - 1], end, k, d)
    decreases |fs|
  {
    if |fs| == 1 {
      k, d := end, 0;
    } else {
      var n := |fs| - 1;
      k, d := RunKeepsFib(fs[..n], w, end);
      var a, b, c := LastStep(fs, w);
      if k == a || k == b {
        MergeEndKeepsFib(fs[n - 1], a, b, c, fs[n], end, k, d);
        k, d := c, d + 1;
      } else {
        MergeOthersKeepsFib(fs[n - 1], a, b, c, fs[n], end, k, d);
      }
    }
  }

  // A tree that puts END on level d needs a total count of at least 2 * Fib(d + 2) - 1.
  lemma DepthNeedsWeight(w: map<nat, nat>, t: Tree, end: nat)
    requires PackCounts(w, end) && HuffmanTree(w, t)
    ensures t.Depths().Keys == w.Keys
    ensures Sum(w) >= 2 * Fib(t.Depths()[end] + 2) - 1
  {
    HuffmanTreeShape(w, t);
    WeightIsSum(t);
    var fs :| RunFromTo(fs, w, t);
    var k, d := RunKeepsFib(fs, w, end);
    assert k == t.Root();
  }

  // END is the lightest symbol, so no symbol lies deeper.
  lemma EndIsDeepest(w: map<nat, nat>, t: Tree, end: nat, s: nat)
    requires PackCounts(w, end) && HuffmanTree(w, t) && s in w
    ensures t.Depths().Keys == w.Keys && t.Depths()[s] <= t.Depths()[end]
  {
    if s == end {
      HuffmanTreeShape(w, t);
    } else {
      LighterIsDeeper(w, t, end, s);
    }
  }

  lemma Fib27()
    ensures Fib(27) == 196418
  {
    assert Fib(0) == 0 && Fib(1) == 1 && Fib(2) == 1 && Fib(3) == 2 && Fib(4) == 3 && Fib(5) == 5 && Fib(6) == 8;
    assert Fib(7) == 13 && Fib(8) == 21 && Fib(9) == 34 && Fib(10) == 55 && Fib(11) == 89 && Fib(12) == 144;
    assert Fib(13) == 233 && Fib(14) == 377 && Fib(15) == 610 && Fib(16) == 987 && Fib(17) == 1597;
    assert Fib(18) == 2584 && Fib(19) == 4181 && Fib(20) == 6765 && Fib(21) == 10946 && Fib(22) == 17711;
    assert Fib(23) == 28657 && Fib(24) == 46368 && Fib(25) == 75025 && Fib(26) == 121393;
  }

  lemma DeepTreeIsHeavy(d: nat)
    ensures d >= 25 ==> Fib(d + 2) >= 196418
  {
    if d >= 25 {
      FibMonotone(27, d + 2);
      Fib27();
    }
  }

  // Inputs of fewer than 196417 bytes never need more than 24 levels.
  lemma ShortInputsFit(w: map<nat, nat>, t: Tree, end: nat, size: nat, s: nat)
    requires PackCounts(w, end) && HuffmanTree(w, t) && Sum(w) == 2 * size + 1 && size < 196417 && s in w
    ensures t.Depths().Keys == w.Keys && t.Depths()[s] <= 24
  {
    DepthNeedsWeight(w, t, end);
    EndIsDeepest(w, t, end, s);
    DeepTreeIsHeavy(t.Depths()[end]);
  }

  // ---- The bound is reached --------------------------------------------------------

  // Symbol i occurs Fib(i + 1) times, for each i below n.
  ghost function FibCounts(n: nat, end: nat): (m: map<nat, nat>)
    requires n <= end
    ensures forall s: nat {:trigger s in m} :: s in m <==> s < n || s == end
    ensures forall s: nat {:trigger m[s]} :: s in m ==> m[s] == if s == end then 1 else 2 * Fib(s + 1)
  {
    if n == 0 then map[end := 1] else FibCounts(n - 1, end)[n - 1 := 2 * Fib(n)]
  }

  lemma FibPositive(n: nat)
    ensures Fib(n + 1) >= 1
  {
    FibMonotone(1, n + 1);
  }

  lemma {:induction false} FibCountsTotal(n: nat, end: nat)
    requires n <= end
    ensures Sum(FibCounts(n, end)) == 2 * (Fib(n + 2) - 1) + 1
  {
    var m := FibCounts(n, end);
    if n == 0 {
      SumRemove(m, end);
      SumEmpty(m - {end});
    } else {
      SumRemove(m, n - 1);
      assert m - {n - 1} == FibCounts(n - 1, end);
      FibCountsTotal(n - 1, end);
      assert Fib(n + 2) == Fib(n) + Fib(n + 1);
    }
  }

  // The same counts, but that the last symbol may occur more often.
  ghost predicate FibLike(w: map<nat, nat>, n: nat, end: nat) {
    && n <= end && (forall s: nat {:trigger s in w} :: s in w <==> s < n || s == end)
    && w[end] == 1 && forall s: nat :: s < n ==> FibWeight(w[s], s, s + 1 == n)
  }

  predicate FibWeight(weight: nat, i: nat, last: bool) {
    if last then weight >= 2 * Fib(i + 1) else weight == 2 * Fib(i + 1)
  }

  lemma FibCountsAreFibLike(n: nat, end: nat)
    requires n <= end
    ensures FibLike(FibCounts(n, end), n, end)
  {
    var w := FibCounts(n, end);
    forall s: nat | s < n ensures FibWeight(w[s], s, s + 1 == n) {
      assert s in w;
    }
  }

  // Tree k holds END at depth d; the trees ks are still waiting, in order of weight.
  ghost predicate Chain(f: Forest, end: nat, k: nat, d: nat, ks: seq<nat>) {
    && k in f && k !in ks && end in f[k].Ids() && f[k].Depth(end) == d
    && (ks != [] ==> f[k].Weight() == 2 * Fib(d + 2) - 1)
    && (forall j :: j in f <==> j == k || j in ks)
    && (forall i, j :: 0 <= i < j < |ks| ==> ks[i] != ks[j])
    && (forall i :: 0 <= i < |ks| ==> Waiting(f, ks[i], d + i, i + 1 == |ks|))
  }

  ghost predicate Waiting(f: Forest, j: nat, i: nat, last: bool) {
    j in f && FibWeight(f[j].Weight(), i, last)
  }

  lemma FibFlat(d: nat)
    ensures Fib(d + 2) <= Fib(d + 1) ==> d == 0
  {
    if d > 0 {
      FibMonotone(1, d);
    }
  }

  // Whatever the tie-breaking, the greedy step takes tree k and the lightest waiting tree.
  lemma ChainPicks(f: Forest, a: nat, b: nat, end: nat, k: nat, d: nat, ks: seq<nat>) returns (i: nat)
    requires LightestPair(Weights(f), a, b) && Chain(f, end, k, d, ks)
    ensures i < |ks| && ((a == k && b == ks[i]) || (b == k && a == ks[i]))
    ensures i == 0 || (i == 1 && d == 0)
    ensures |ks| > 1 ==> f[ks[i]].Weight() == 2 * Fib(d + 1)
  {
    var w := Weights(f);
    assert |ks| >= 1 by {
      assert a in f && b in f;
    }
    assert Waiting(f, ks[0], d, |ks| == 1);
    if |ks| == 1 {
      assert forall j :: j in f ==> j == k || j == ks[0];
      return 0;
    }
    forall x | x in f && x != k && x != ks[0] ensures w[x] >= 2 * Fib(d + 2) {
      var j :| 0 < j < |ks| && ks[j] == x;
      assert Waiting(f, ks[j], d + j, j + 1 == |ks|);
      FibMonotone(d + 2, d + j + 1);
    }
    assert a == k || b == k;
    var x := if a == k then b else a;
    i :| 0 <= i < |ks| && ks[i] == x;
    assert Waiting(f, ks[i], d + i, i + 1 == |ks|);
    assert w[x] <= w[ks[0]];
    assert i != 0 ==> Fib(d + 2) <= Fib(d + 1);
    FibFlat(d);
    if i >= 2 {
      FibMonotone(3, i + 1);
    }
  }

  lemma StillWaiting(f: Forest, a: nat, b: nat, c: nat, g: Forest, j: nat, i: nat, last: bool)
    requires Step(f, a, b, c, g) && Waiting(f, j, i, last) && j != a && j != b
    ensures Waiting(g, j, i, last)
  {
    assert g[j] == f[j];
  }

  lemma ChainStep(f: Forest, a: nat, b: nat, c: nat, g: Forest, end: nat, k: nat, d: nat, ks: seq<nat>)
    returns (ks': seq<nat>)
    requires Disjoint(f) && Step(f, a, b, c, g) && Chain(f, end, k, d, ks)
    ensures Chain(g, end, c, d + 1, ks') && |ks'| + 1 == |ks|
  {
    var i := ChainPicks(f, a, b, end, k, d, ks);
    DepthAfterMerge(f, a, b, c, g, end, k);
    ks' := ks[..i] + ks[i + 1..];
    assert ks' != [] ==> g[c].Weight() == 2 * Fib(d + 3) - 1 by {
      FibStep(d);
    }
    ChainKeys(f, a, b, c, g, end, k, d, ks, i, ks');
    forall j | 0 <= j < |ks'| ensures Waiting(g, ks'[j], d + 1 + j, j + 1 == |ks'|) {
      ChainWaits(f, a, b, c, g, end, k, d, ks, i, j);
    }
  }

  lemma ChainWaits(f: Forest, a: nat, b: nat, c: nat, g: Forest, end: nat, k: nat, d: nat, ks: seq<nat>,
                   i: nat, j: nat)
    requires Step(f, a, b, c, g) && Chain(f, end, k, d, ks)
    requires i < |ks| && ((a == k && b == ks[i]) || (b == k && a == ks[i])) && (i == 0 || (i == 1 && d == 0))
    requires j + 1 < |ks|
    ensures Waiting(g, (ks[..i] + ks[i + 1..])[j], d + 1 + j, j + 2 == |ks|)
  {
    var x := if j < i then j else j + 1;
    assert (ks[..i] + ks[i + 1..])[j] == ks[x] && ks[x] in ks;
    assert Waiting(f, ks[x], d + x, x + 1 == |ks|);
    StillWaiting(f, a, b, c, g, ks[x], d + x, x + 1 == |ks|);
    if x == j {
      FirstTwoFibs();
    }
  }

  lemma FirstTwoFibs()
    ensures Fib(1) == Fib(2) == 1
  {
  }

  lemma ChainKeys(f: Forest, a: nat, b: nat, c: nat, g: Forest, end: nat, k: nat, d: nat, ks: seq<nat>,
                  i: nat, ks': seq<nat>)
    requires Step(f, a, b, c, g) && Chain(f, end, k, d, ks)
    requires i < |ks| && ((a == k && b == ks[i]) || (b == k && a == ks[i]))
    requires ks' == ks[..i] + ks[i + 1..]
    ensures c !in ks' && forall j :: j in g <==> j == c || j in ks'
    ensures forall x, y :: 0 <= x < y < |ks'| ==> ks'[x] != ks'[y]
  {
    Without(ks, i, ks');
    forall j ensures j in g <==> j == c || j in ks' {
      assert j in ks' <==> j in ks && j != ks[i];
    }
  }

  lemma Without(ks: seq<nat>, i: nat, ks': seq<nat>)
    requires i < |ks| && ks' == ks[..i] + ks[i + 1..]
    requires forall x, y :: 0 <= x < y < |ks| ==> ks[x] != ks[y]
    ensures forall j :: j in ks' <==> j in ks && j != ks[i]
    ensures forall x, y :: 0 <= x < y < |ks'| ==> ks'[x] != ks'[y]
  {
    forall j | j in ks && j != ks[i] ensures j in ks' {
      var x :| 0 <= x < |ks| && ks[x] == j;
      assert ks'[if x < i then x else x - 1] == j;
    }
  }

  lemma ChainStart(f: Forest, w: map<nat, nat>, n: nat, end: nat) returns (ks: seq<nat>)
    requires FibLike(w, n, end) && f == LeafForest(w)
    ensures Chain(f, end, end, 0, ks) && |ks| == n
  {
    ks := seq(n, i requires 0 <= i < n => i);
    assert f[end] == Leaf(end, 1) && Fib(2) == 1;
    forall i | 0 <= i < n ensures ks[i] == i && ks[i] in ks && Waiting(f, i, i, i + 1 == n) {
      assert f[i] == Leaf(i, w[i]);
    }
    forall j | j in f && j != end ensures j in ks {
      assert j < n && ks[j] == j;
    }
  }

  lemma {:induction false} ChainRun(fs: seq<Forest>, w: map<nat, nat>, n: nat, end: nat)
    returns (k: nat, d: nat, ks: seq<nat>)
    requires FibLike(w, n, end) && Run(fs) && fs[0] == LeafForest(w)
    ensures Chain(fs[|fs| - 1], end, k, d, ks) && d + |ks| == n
    decreases |fs|
  {
    if |fs| == 1 {
      k, d := end, 0;
      ks := ChainStart(fs[0], w, n, end);
    } else {
      var m := |fs| - 1;
      k, d, ks := ChainRun(fs[..m], w, n, end);
      var a, b, c := LastStep(fs, w);
      ks := ChainStep(fs[m - 1], a, b, c, fs[m], end, k, d, ks);
      k, d := c, d + 1;
    }
  }

  lemma FirstIsMember(ks: seq<nat>)
    ensures |ks| > 0 ==> ks[0] in ks
  {
  }

  // However ties are broken, the tree for such counts has n levels.
  lemma FibLikeReachesDepth(w: map<nat, nat>, n: nat, end: nat, t: Tree)
    requires FibLike(w, n, end) && HuffmanTree(w, t)
    ensures t.Depths().Keys == w.Keys && t.Depths()[end] == n
  {
    HuffmanTreeShape(w, t);
    var fs :| RunFromTo(fs, w, t);
    var k, d, ks := ChainRun(fs, w, n, end);
    assert k == t.Root();
    FirstIsMember(ks);
  }

  // For every n there is an input of exactly Fib(n + 2) - 1 bytes whose tree, however
  // ties are broken, has n levels: the bound of DepthNeedsWeight is met with equality.
  lemma FibCountsReachDepth(n: nat, end: nat, t: Tree)
    requires n <= end && HuffmanTree(FibCounts(n, end), t)
    ensures t.Depths().Keys == FibCounts(n, end).Keys
    ensures t.Depths()[end] == n && Sum(FibCounts(n, end)) == 2 * (Fib(n + 2) - 1) + 1
  {
    FibCountsAreFibLike(n, end);
    FibLikeReachesDepth(FibCounts(n, end), n, end, t);
    FibCountsTotal(n, end);
  }
}
