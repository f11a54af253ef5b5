// "assign lengths to encoding for each character" in pack.c: the walk up the parent
// array, the level counts, and why the result is a list of tree lengths.
module CodeLengths {
  import opened Sums
  import opened PackFormat
  import opened Huffman
  import opened HeapTree
  import opened Canonical

  ghost function LensOf(t: Tree): (lens: LengthList)
    ensures |lens| == END + 1
    ensures forall s: nat :: s <= END ==> lens[s] == if s in t.Symbols() then t.Depth(s) else 0
  {
    seq(END + 1, s requires 0 <= s <= END => if s in t.Symbols() then t.Depth(s) else 0)
  }

  // ---- Levels of a tree ------------------------------------------------------------

  function LeavesAt(t: Tree, lev: nat): nat {
    if t.Leaf? then (if lev == 0 then 1 else 0)
    else if lev == 0 then 0 else LeavesAt(t.left, lev - 1) + LeavesAt(t.right, lev - 1)
  }

  function InnerAt(t: Tree, lev: nat): nat {
    if t.Leaf? then 0
    else if lev == 0 then 1 else InnerAt(t.left, lev - 1) + InnerAt(t.right, lev - 1)
  }

  lemma {:induction false} NextLevel(t: Tree, lev: nat)
    ensures InnerAt(t, lev + 1) + LeavesAt(t, lev + 1) == 2 * InnerAt(t, lev)
  {
    if t.Node? {
      if lev == 0 {
        TopLevel(t.left);
        TopLevel(t.right);
      } else {
        NextLevel(t.left, lev - 1);
        NextLevel(t.right, lev - 1);
      }
    }
  }

  lemma TopLevel(t: Tree)
    ensures InnerAt(t, 0) + LeavesAt(t, 0) == 1
  {
  }

  lemma {:induction false} NoInnerAtBottom(t: Tree)
    ensures forall lev :: lev >= t.Height() ==> InnerAt(t, lev) == 0
  {
    if t.Node? {
      NoInnerAtBottom(t.left);
      NoInnerAtBottom(t.right);
    }
  }

  ghost function SymbolsAt(t: Tree, lev: nat): set<nat> {
    set s | s in t.Symbols() && t.Depth(s) == lev
  }

  lemma SymbolsAtBranch(t: Tree, lev: nat)
    requires t.Node? && t.Distinct() && lev > 0
    ensures SymbolsAt(t, lev) == SymbolsAt(t.left, lev - 1) + SymbolsAt(t.right, lev - 1)
    ensures SymbolsAt(t.left, lev - 1) !! SymbolsAt(t.right, lev - 1)
  {
    BranchSymbols(t);
    assert forall s :: s in t.left.Symbols() ==> t.Depths()[s] == t.Depth(s) && t.left.Depths()[s] == t.left.Depth(s);
    assert forall s :: s in t.right.Symbols() ==>
                         t.Depths()[s] == t.Depth(s) && t.right.Depths()[s] == t.right.Depth(s);
  }

  lemma {:induction false} SymbolsPerLevel(t: Tree, lev: nat)
    requires t.Distinct()
    ensures |SymbolsAt(t, lev)| == LeavesAt(t, lev)
  {
    if t.Leaf? {
      assert SymbolsAt(t, lev) == if lev == 0 then {t.sym} else {};
    } else if lev == 0 {
      BranchSymbols(t);
      assert SymbolsAt(t, 0) == {};
    } else {
      SymbolsAtBranch(t, lev);
      SymbolsPerLevel(t.left, lev - 1);
      SymbolsPerLevel(t.right, lev - 1);
    }
  }

  lemma {:induction false} CountIsCardinality(t: Tree, lev: nat, n: nat)
    requires lev > 0 && n <= END + 1
    ensures Count(LensOf(t), lev, n) == |Below(SymbolsAt(t, lev), n)|
  {
    if n == 0 {
      assert Below(SymbolsAt(t, lev), 0) == {};
    } else {
      CountIsCardinality(t, lev, n - 1);
      OneMoreBelow(SymbolsAt(t, lev), n);
      AtLevel(t, lev, n - 1);
    }
  }

  lemma AtLevel(t: Tree, lev: nat, s: nat)
    requires lev > 0 && s <= END
    ensures LensOf(t)[s] == lev <==> s in SymbolsAt(t, lev)
  {
  }

  ghost predicate PackTree(t: Tree) {
    t.Distinct() && forall s :: s in t.Symbols() ==> s <= END
  }

  lemma LeavesPerLevel(t: Tree, lev: nat)
    requires PackTree(t) && lev > 0
    ensures Leaves(LensOf(t), lev) == LeavesAt(t, lev)
  {
    SymbolsPerLevel(t, lev);
    CountIsCardinality(t, lev, END + 1);
    assert Below(SymbolsAt(t, lev), END + 1) == SymbolsAt(t, lev);
  }

  lemma {:induction false} InnerPerLevel(t: Tree, lev: nat)
    requires PackTree(t) && lev <= t.Height()
    ensures Inner(LensOf(t), t.Height(), lev) == InnerAt(t, lev)
    decreases t.Height() - lev
  {
    if lev == t.Height() {
      NoInnerAtBottom(t);
    } else {
      InnerPerLevel(t, lev + 1);
      LeavesPerLevel(t, lev + 1);
      NextLevel(t, lev);
    }
  }

  // The lengths read off a tree fix a canonical code without gaps.
  lemma TreeLengthsOfTree(t: Tree)
    requires PackTree(t) && t.Node?
    ensures TreeLengths(LensOf(t), t.Height())
  {
    var lens, maxlev := LensOf(t), t.Height();
    forall lev | 1 <= lev <= maxlev ensures EvenLevel(lens, maxlev, lev) {
      InnerPerLevel(t, lev);
      LeavesPerLevel(t, lev);
      NextLevel(t, lev - 1);
    }
    forall c | 0 <= c <= END ensures lens[c] <= maxlev {
      if c in t.Symbols() {
        DepthAtMostHeight(t, c);
      }
    }
    InnerPerLevel(t, 0);
  }

  // ---- The walk to the root --------------------------------------------------------

  lemma {:induction false} ParentIsOneUp(t: Tree, p: seq<nat>, x: nat)
    requires Linked(t, p) && t.Distinct() && x in t.Ids() && x != t.Root()
    ensures x < |p| && p[x] in t.Ids() && p[x] > END && t.Depth(x) == t.Depth(p[x]) + 1
  {
    var b := if x in t.left.Ids() then t.left else t.right;
    if x != b.Root() {
      ParentIsOneUp(b, p, x);
    }
  }

  lemma NumberInRange(t: Tree, p: seq<nat>, x: nat)
    requires Linked(t, p) && t.Distinct() && x in t.Ids() && t.Root() < |p|
    ensures x < |p|
  {
    if x != t.Root() {
      ParentIsOneUp(t, p, x);
    }
  }

  lemma {:induction false} DeepestLeaf(t: Tree) returns (s: nat)
    requires t.Distinct()
    ensures s in t.Symbols() && t.Depth(s) == t.Height()
  {
    if t.Leaf? {
      s := t.sym;
    } else if t.left.Height() > t.right.Height() {
      s := DeepestLeaf(t.left);
      BranchSymbols(t);
      assert t.Depths()[s] == t.Depth(s) && t.left.Depths()[s] == t.left.Depth(s);
    } else {
      s := DeepestLeaf(t.right);
      BranchSymbols(t);
      assert t.Depths()[s] == t.Depth(s) && t.right.Depths()[s] == t.right.Depth(s);
    }
  }

  lemma {:induction false} HeightBelowSymbols(t: Tree)
    requires t.Distinct()
    ensures t.Height() < |t.Symbols().Keys|
  {
    if t.Node? {
      HeightBelowSymbols(t.left);
      HeightBelowSymbols(t.right);
      BranchSymbols(t);
      assert t.Symbols().Keys == t.left.Symbols().Keys + t.right.Symbols().Keys;
    }
  }

  lemma {:induction false} FewNumbers(s: set<nat>, n: nat)
    requires forall x :: x in s ==> x < n
    ensures |s| <= n
  {
    if n > 0 {
      FewNumbers(s - {n - 1}, n - 1);
    }
  }

  lemma HeightFits(t: Tree)
    requires PackTree(t)
    ensures t.Height() <= END
  {
    HeightBelowSymbols(t);
    FewNumbers(t.Symbols().Keys, END + 1);
  }

  // The bits all occurrences of one symbol take; counts are doubled.
  function BitsFor(len: nat, count: nat): nat {
    len * (count / 2)
  }

  // What bitsout adds up.
  function BitsNeeded(lens: LengthList, count: seq<nat>, n: nat): nat
    requires n <= |lens| && n <= |count|
  {
    if n == 0 then 0 else BitsNeeded(lens, count, n - 1) + BitsFor(lens[n - 1], count[n - 1])
  }

  // The tables after the first i symbols; base is what levcount and the memory behind it
  // held before.
  ghost predicate Measured(lens: LengthList, i: nat, base: seq<nat>, length: seq<nat>, levcount: seq<nat>,
                           maxlev: nat)
  {
    && i <= |lens| && |length| == |lens| && |levcount| == |base| > LEVELS
    && (forall j :: 0 <= j < i ==> length[j] == lens[j] <= maxlev)
    && (forall k :: 1 <= k < |levcount| ==> levcount[k] == base[k] + Count(lens, k, i))
  }

  lemma MeasuredNext(lens: LengthList, i: nat, base: seq<nat>, length: seq<nat>, levcount: seq<nat>, maxlev: nat)
    requires i < |lens| && Measured(lens, i, base, length, levcount, maxlev) && lens[i] < |levcount|
    ensures Measured(lens, i + 1, base, length[i := lens[i]], levcount[lens[i] := levcount[lens[i]] + 1],
                     if lens[i] > maxlev then lens[i] else maxlev)
  {
  }

  lemma {:induction false} CountZero(lens: LengthList, lev: nat, n: nat)
    requires n <= |lens|
    ensures Count(lens, lev, n) == 0 <==> forall j :: 0 <= j < n ==> lens[j] != lev
  {
    if n > 0 {
      CountZero(lens, lev, n - 1);
    }
  }

  // Does counting write behind the 25 counters?
  ghost predicate Overruns(before: seq<nat>, after: seq<nat>)
    requires |before| == |after|
  {
    exists k :: LEVELS < k < |after| && after[k] != before[k]
  }

  lemma OverrunIff(t: Tree, before: seq<nat>, after: seq<nat>)
    requires PackTree(t) && |before| == |after| == END + 1 && t.Height() <= END
    requires forall k :: LEVELS < k <= END ==> after[k] == before[k] + Leaves(LensOf(t), k)
    ensures Overruns(before, after) <==> t.Height() > LEVELS
  {
    var lens := LensOf(t);
    forall k | t.Height() < k <= END ensures Leaves(lens, k) == 0 {
      forall s | 0 <= s <= END ensures lens[s] != k {
        if s in t.Symbols() {
          DepthAtMostHeight(t, s);
        }
      }
      CountZero(lens, k, |lens|);
    }
    var s := DeepestLeaf(t);
    CountZero(lens, t.Height(), |lens|);
    if t.Height() > LEVELS {
      assert after[t.Height()] != before[t.Height()];
    }
  }

  method ResetLevels(levcount: array<nat>)
    requires levcount.Length > LEVELS
    modifies levcount
    ensures forall k :: 1 <= k <= LEVELS ==> levcount[k] == 0
    ensures forall k :: LEVELS < k < levcount.Length ==> levcount[k] == old(levcount[k])
  {
    var i := 1;
    while i <= LEVELS
      invariant 1 <= i <= LEVELS + 1
      invariant forall k :: 1 <= k < i ==> levcount[k] == 0
      invariant forall k :: LEVELS < k < levcount.Length ==> levcount[k] == old(levcount[k])
    {
      levcount[i] := 0;
      i := i + 1;
    }
  }

  // Separate arrays of the sizes the walk needs.
  ghost predicate Tables(parent: array<nat>, count: array<nat>, length: array<nat>, levcount: array<nat>) {
    && parent.Length == 2 * END + 1 && count.Length == length.Length == levcount.Length == END + 1
    && parent != length && parent != levcount && count != length && count != levcount && length != levcount
  }

  ghost predicate Rooted(t: Tree, p: seq<nat>) {
    && PackTree(t) && Linked(t, p) && t.Root() < |p| && p[t.Root()] == 0 && |p| > END
    && forall s :: 0 <= s <= END && s !in t.Symbols() ==> p[s] == 0
  }

  // The program has 25 level counters; the array here goes on with the memory behind them,
  // far enough for every level a tree of 257 leaves can have. It is written to exactly when
  // the tree has more than 24 levels, before packfile() notices. What is promised for such
  // a tree assumes that this memory is separate from parent and the other tables; in the
  // program lastnode and parent follow the counters.
  method AssignLengths(parent: array<nat>, count: array<nat>, length: array<nat>, levcount: array<nat>, ghost t: Tree)
    returns (maxlev: nat, bitsout: nat)
    requires Tables(parent, count, length, levcount) && Rooted(t, parent[..])
    modifies length, levcount
    ensures length[..] == LensOf(t) && maxlev == t.Height()
    ensures forall k :: 1 <= k <= LEVELS ==> levcount[k] == Leaves(LensOf(t), k)
    ensures Overruns(old(levcount[..]), levcount[..]) <==> maxlev > LEVELS
    ensures bitsout == BitsNeeded(LensOf(t), count[..], END + 1)
  {
    ghost var before := levcount[..];
    ResetLevels(levcount);
    maxlev, bitsout := MeasureAll(parent, count, length, levcount, t);
    assert length[..] == LensOf(t);
    OverrunIff(t, before, levcount[..]);
    var s := DeepestLeaf(t);
  }

  // The state of the loop over the symbols, i of which are done
  ghost predicate Measuring(t: Tree, base: seq<nat>, counts: seq<nat>, length: array<nat>, levcount: array<nat>,
                            i: nat, maxlev: nat, bitsout: nat)
    reads length, levcount
  {
    && Measured(LensOf(t), i, base, length[..], levcount[..], maxlev) && maxlev <= t.Height()
    && i <= |counts| && bitsout == BitsNeeded(LensOf(t), counts, i)
  }

  method MeasureAll(parent: array<nat>, count: array<nat>, length: array<nat>, levcount: array<nat>, ghost t: Tree)
    returns (maxlev: nat, bitsout: nat)
    requires Tables(parent, count, length, levcount) && Rooted(t, parent[..])
    modifies length, levcount
    ensures Measuring(t, old(levcount[..]), count[..], length, levcount, END + 1, maxlev, bitsout)
    ensures t.Height() <= END
  {
    ghost var counts, base := count[..], levcount[..];
    HeightFits(t);
    maxlev, bitsout := 0, 0;
    var i := 0;
    while i <= END
      invariant 0 <= i <= END + 1 && Measuring(t, base, counts, length, levcount, i, maxlev, bitsout)
    {
      maxlev, bitsout := Measure(parent, count, length, levcount, t, i, maxlev, bitsout, base);
      i := i + 1;
    }
  }

  method Measure(parent: array<nat>, count: array<nat>, length: array<nat>, levcount: array<nat>, ghost t: Tree,
                 i: nat, max0: nat, bits0: nat, ghost base: seq<nat>)
    returns (maxlev: nat, bitsout: nat)
    requires Tables(parent, count, length, levcount) && Rooted(t, parent[..]) && i <= END && t.Height() <= END
    requires Measuring(t, base, count[..], length, levcount, i, max0, bits0)
    modifies length, levcount
    ensures Measuring(t, base, count[..], length, levcount, i + 1, maxlev, bitsout)
  {
    var c := StepsToRoot(parent, i, t);
    maxlev := RecordLength(length, levcount, i, c, max0, LensOf(t), base);
    bitsout := bits0 + BitsFor(c, count[i]);
  }

  method RecordLength(length: array<nat>, levcount: array<nat>, i: nat, c: nat, max0: nat,
                      ghost lens: LengthList, ghost base: seq<nat>)
    returns (maxlev: nat)
    requires length != levcount && length.Length == levcount.Length == END + 1 && i <= END
    requires Measured(lens, i, base, length[..], levcount[..], max0) && c == lens[i] <= END
    modifies length, levcount
    ensures Measured(lens, i + 1, base, length[..], levcount[..], maxlev) && maxlev == if c > max0 then c else max0
  {
    ghost var l: seq<nat>, k: seq<nat> := length[..], levcount[..];
    MeasuredNext(lens, i, base, l, k, max0);
    levcount[c] := levcount[c] + 1;
    length[i] := c;
    maxlev := if c > max0 then c else max0;
    assert levcount[..] == k[c := k[c] + 1] && length[..] == l[i := c];
  }

  // for (p=parent[i]; p!=0; p=parent[p]) c++;
  method StepsToRoot(parent: array<nat>, i: nat, ghost t: Tree) returns (c: nat)
    requires i <= END && Rooted(t, parent[..])
    ensures c == LensOf(t)[i] <= t.Height()
  {
    c := 0;
    ghost var x := i;
    ghost var q := parent[..];
    if i in t.Symbols() {
      DepthAtMostHeight(t, i);
    }
    var p := parent[i];
    while p != 0
      invariant i !in t.Symbols() ==> p == 0 && c == 0
      invariant i in t.Symbols() ==> x in t.Ids() && x < parent.Length && p == parent[x] && c + t.Depth(x) == t.Depth(i)
      decreases if i in t.Symbols() then t.Depth(x) else 0
    {
      ParentIsOneUp(t, q, x);
      NumberInRange(t, q, p);
      x := p;
      c := c + 1;
      p := parent[p];
    }
    if i in t.Symbols() && x != t.Root() {
      ParentIsOneUp(t, q, x);
    }
  }
}
