// packfile() up to the code lengths: the heap is filled from the counts, the Huffman
// tree is recorded in the array parent, and each symbol's level is read off by
// walking up from its leaf.
module HeapTree {
  import opened Sums
  import opened Huffman
  import opened Heap
  import opened PackFormat

  // The symbols from lo on that occur, with their counts.
  ghost function Occurring(count: seq<nat>, lo: nat): (w: map<nat, nat>)
    ensures forall s: nat :: s in w <==> lo <= s < |count| && count[s] > 0
    ensures forall s: nat :: s in w ==> w[s] == count[s]
  {
    map s: nat | lo <= s < |count| && count[s] > 0 :: count[s]
  }

  // One heap slot for each tree of the forest.
  ghost function Slots(f: Forest): (s: set<Slot>)
    ensures forall x :: x in s <==> x.node in f && x.count == Weights(f)[x.node]
  {
    var w := Weights(f);
    set k | k in w :: Slot(w[k], k)
  }

  ghost predicate HeapHolds(h: seq<Slot>, n: nat, s: set<Slot>) {
    n < |h| && HeapFrom(h, n, 1) && Contents(h, n) == multiset(s)
  }

  // Every node of the tree below the root has its number's entry in p set to its parent,
  // and inner nodes are numbered after END, so that no parent is 0.
  ghost predicate Linked(t: Tree, p: seq<nat>) {
    t.Node? ==>
      && t.id > END
      && t.left.Root() < |p| && p[t.left.Root()] == t.id && Linked(t.left, p)
      && t.right.Root() < |p| && p[t.right.Root()] == t.id && Linked(t.right, p)
  }

  ghost predicate LinkedForest(f: Forest, p: seq<nat>) {
    forall k :: k in f ==> Linked(f[k], p)
  }

  // Nodes are numbered up to last, which is the newest tree's root.
  ghost predicate Numbered(f: Forest, last: nat) {
    last in f && forall k, x :: k in f && x in f[k].Ids() ==> x <= last
  }

  lemma {:induction false} LinkedFrame(t: Tree, p: seq<nat>, q: seq<nat>)
    requires Linked(t, p) && t.Distinct() && |p| == |q|
    requires forall x :: x in t.Ids() && x != t.Root() && x < |p| ==> q[x] == p[x]
    ensures Linked(t, q)
  {
    if t.Node? {
      LinkedFrame(t.left, p, q);
      LinkedFrame(t.right, p, q);
    }
  }

  lemma TopOfHeap(h: seq<Slot>, n: nat, s: set<Slot>)
    requires HeapHolds(h, n, s) && n >= 1
    ensures Lightest(h[1], s)
  {
    InContents(h, n, 1);
    forall x | x in s ensures h[1].count <= x.count {
      var j := FindInContents(h, n, x);
      TopIsLightest(h, n, j);
    }
  }

  // The two slots taken off the heap in turn are a lightest pair of trees.
  lemma TopsAreLightest(f: Forest, x: Slot, y: Slot)
    requires Lightest(x, Slots(f)) && Lightest(y, Slots(f) - {x})
    ensures Kraft.LightestPair(Weights(f), x.node, y.node)
  {
    var w := Weights(f);
    forall k | k in w ensures w[x.node] <= w[k] && (k != x.node ==> w[y.node] <= w[k]) {
      assert Slot(w[k], k) in Slots(f);
    }
  }

  lemma MergedSlots(f: Forest, a: nat, b: nat, c: nat, x: Slot, y: Slot)
    requires a in f && b in f && a != b && c !in f
    requires x == Slot(Weights(f)[a], a) && y == Slot(Weights(f)[b], b)
    ensures Slots(Merged(f, a, b, c)) == Slots(f) - {x} - {y} + {Slot(y.count + x.count, c)}
  {
    var g := Merged(f, a, b, c);
    var w: map<nat, nat> := Weights(f);
    assert Weights(g) == (w - {a, b})[c := w[a] + w[b]];
  }

  lemma MergedLinks(f: Forest, a: nat, b: nat, c: nat, p: seq<nat>)
    requires Disjoint(f) && LinkedForest(f, p) && a in f && b in f && a != b && a < |p| && b < |p| && c > END
    ensures LinkedForest(Merged(f, a, b, c), p[a := c][b := c])
  {
    var g, q := Merged(f, a, b, c), p[a := c][b := c];
    TreeStaysLinked(f, a, b, c, p, a);
    TreeStaysLinked(f, a, b, c, p, b);
    forall k | k in g ensures Linked(g[k], q) {
      if k != c {
        TreeStaysLinked(f, a, b, c, p, k);
      }
    }
  }

  lemma TreeStaysLinked(f: Forest, a: nat, b: nat, c: nat, p: seq<nat>, k: nat)
    requires Disjoint(f) && a in f && b in f && a < |p| && b < |p| && k in f && Linked(f[k], p)
    ensures Linked(f[k], p[a := c][b := c])
  {
    var q := p[a := c][b := c];
    forall x | x in f[k].Ids() && x != f[k].Root() && x < |p| ensures q[x] == p[x] {
      assert a in f[a].Ids() && b in f[b].Ids();
    }
    LinkedFrame(f[k], p, q);
  }

  ghost function LeafSlots(c: seq<nat>, lo: nat): (s: set<Slot>)
    ensures forall x :: x in s <==> lo <= x.node < |c| && x.count == c[x.node] > 0
  {
    set i: nat | lo <= i < |c| && c[i] > 0 :: Slot(c[i], i)
  }

  lemma LeafSlotsOfForest(c: seq<nat>)
    ensures LeafSlots(c, 0) == Slots(LeafForest(Occurring(c, 0)))
  {
    assert Weights(LeafForest(Occurring(c, 0))) == Occurring(c, 0);
  }

  // The heap array holds one slot for each occurring symbol from i on.
  ghost predicate Filled(c: seq<nat>, i: nat, h: seq<Slot>, n: nat, total: nat) {
    n < |h| && Contents(h, n) == multiset(LeafSlots(c, i)) && total == Sum(Occurring(c, i))
  }

  lemma {:induction false} SlotPerSymbol(c: seq<nat>, lo: nat)
    requires lo <= |c|
    ensures |LeafSlots(c, lo)| == |Occurring(c, lo)|
    decreases |c| - lo
  {
    if lo == |c| {
      assert LeafSlots(c, lo) == {} && Occurring(c, lo) == map[];
    } else {
      SlotPerSymbol(c, lo + 1);
      OneMoreSlot(c, lo);
      OneMoreSymbol(c, lo);
    }
  }

  lemma OneMoreSlot(c: seq<nat>, lo: nat)
    requires lo < |c|
    ensures |LeafSlots(c, lo)| == |LeafSlots(c, lo + 1)| + if c[lo] > 0 then 1 else 0
  {
    var s := LeafSlots(c, lo + 1);
    assert LeafSlots(c, lo) == if c[lo] > 0 then s + {Slot(c[lo], lo)} else s;
  }

  lemma OneMoreSymbol(c: seq<nat>, lo: nat)
    requires lo < |c|
    ensures |Occurring(c, lo)| == |Occurring(c, lo + 1)| + if c[lo] > 0 then 1 else 0
  {
    var w := Occurring(c, lo + 1);
    assert Occurring(c, lo) == if c[lo] > 0 then w[lo := c[lo]] else w;
  }

  // What FillHeap leaves behind, once all symbols are in.
  lemma AllFilled(c: seq<nat>, h: seq<Slot>, n: nat, total: nat)
    requires Filled(c, 0, h, n, total)
    ensures n == |Occurring(c, 0)| && Contents(h, n) == multiset(Slots(LeafForest(Occurring(c, 0))))
  {
    SlotPerSymbol(c, 0);
    LeafSlotsOfForest(c);
    assert n == |h[1..n + 1]| == |Contents(h, n)|;
    assert |multiset(LeafSlots(c, 0))| == |LeafSlots(c, 0)|;
  }

  // The symbols from i on have been put in.
  ghost predicate Filling(c: seq<nat>, parent: array<nat>, heap: array<Slot>, i: nat, n: nat, diffbytes: int,
                          total: nat)
    reads parent, heap
  {
    && parent.Length == 2 * END + 1 && heap.Length == END + 2 && i <= END + 1 == |c|
    && n <= END + 1 - i && diffbytes == n - 1 && Filled(c, i, heap[..], n, total)
    && forall s :: i <= s <= END ==> parent[s] == 0
  }

  // "put occurring chars in heap with their counts"
  method FillHeap(count: array<nat>, parent: array<nat>, heap: array<Slot>)
    returns (n: nat, diffbytes: int, total: nat)
    requires count.Length == END + 1 && parent.Length == 2 * END + 1 && heap.Length == END + 2
    requires parent != count
    modifies parent, heap
    ensures n <= END + 1 && Filled(count[..], 0, heap[..], n, total) && diffbytes == n - 1
    ensures forall s :: 0 <= s <= END ==> parent[s] == 0
  {
    n, diffbytes, total := 0, -1, 0;
    var i := END + 1;
    ghost var c := count[..];
    FilledNone(c, heap[..]);
    assert heap as object != count;
    while i > 0
      invariant 0 <= i <= END + 1 && c == count[..]
      invariant Filling(c, parent, heap, i, n, diffbytes, total)
    {
      i := i - 1;
      n, diffbytes, total := FillSymbol(parent, heap, i, count[i], n, diffbytes, total, c);
    }
  }

  // A count that is not 0 goes behind the others.
  method FillSymbol(parent: array<nat>, heap: array<Slot>, i: nat, count: nat, n0: nat, diffbytes0: int, total0: nat,
                    ghost c: seq<nat>)
    returns (n: nat, diffbytes: int, total: nat)
    requires i < |c| && count == c[i] && Filling(c, parent, heap, i + 1, n0, diffbytes0, total0)
    modifies parent, heap
    ensures Filling(c, parent, heap, i, n, diffbytes, total)
  {
    n, diffbytes, total := n0, diffbytes0, total0;
    ghost var h := heap[..];
    assert heap as object != parent;
    parent[i] := 0;
    if count > 0 {
      diffbytes := diffbytes + 1;
      total := total + count;
      n := n + 1;
      heap[n] := Slot(count, i);
      assert heap[..] == h[n := Slot(count, i)];
    }
    FilledOne(c, i, h, n0, total0, heap[..], n, total);
  }

  lemma FilledNone(c: seq<nat>, h: seq<Slot>)
    requires |h| > 0
    ensures Filled(c, |c|, h, 0, 0)
  {
    SumEmpty(Occurring(c, |c|));
    assert h[1..1] == [];
  }

  lemma FilledOne(c: seq<nat>, i: nat, h: seq<Slot>, n: nat, total: nat, h': seq<Slot>, n': nat, total': nat)
    requires i < |c| && Filled(c, i + 1, h, n, total)
    requires c[i] > 0 ==> n' == n + 1 < |h| && h' == h[n' := Slot(c[i], i)] && total' == total + c[i]
    requires c[i] == 0 ==> n' == n && h' == h && total' == total
    ensures Filled(c, i, h', n', total')
  {
    if c[i] > 0 {
      AddSlot(c, i, h, n');
      AddSymbol(c, i);
    } else {
      assert Occurring(c, i) == Occurring(c, i + 1);
      assert LeafSlots(c, i) == LeafSlots(c, i + 1);
    }
  }

  lemma AddSymbol(c: seq<nat>, i: nat)
    requires i < |c| && c[i] > 0
    ensures Sum(Occurring(c, i)) == Sum(Occurring(c, i + 1)) + c[i]
  {
    SumRemove(Occurring(c, i), i);
    assert Occurring(c, i) - {i} == Occurring(c, i + 1);
  }

  lemma AddSlot(c: seq<nat>, i: nat, h: seq<Slot>, n: nat)
    requires i < |c| && c[i] > 0 && 1 <= n < |h|
    requires Contents(h, n - 1) == multiset(LeafSlots(c, i + 1))
    ensures Contents(h[n := Slot(c[i], i)], n) == multiset(LeafSlots(c, i))
  {
    var x := Slot(c[i], i);
    assert h[n := x][1..n + 1] == h[1..n] + [x];
    assert LeafSlots(c, i) == LeafSlots(c, i + 1) + {x};
  }

  method BuildHeap(heap: array<Slot>, n: nat)
    requires heap.Length == END + 2 && n <= END + 1
    modifies heap
    ensures HeapFrom(heap[..], n, 1) && Contents(heap[..], n) == old(Contents(heap[..], n))
  {
    var i := n / 2;
    while i >= 1
      invariant 0 <= i <= n / 2
      invariant HeapFrom(heap[..], n, i + 1)
      invariant Contents(heap[..], n) == old(Contents(heap[..], n))
    {
      Heapify(heap, n, i);
      i := i - 1;
    }
  }

  // What holds between two rounds of the loop under "build Huffman tree".
  ghost predicate Building(f: Forest, p: seq<nat>, h: seq<Slot>, n: nat, last: nat) {
    Disjoint(f) && Numbered(f, last) && LinkedForest(f, p) && HeapHolds(h, n, Slots(f))
  }

  // The run so far, and the forest it has reached.
  ghost predicate InProgress(fs: seq<Forest>, w: map<nat, nat>, p0: seq<nat>, p: seq<nat>, h: seq<Slot>, n: nat,
                             last: nat)
  {
    && Run(fs) && fs[0] == LeafForest(w)
    && Building(fs[|fs| - 1], p, h, n, last) && last >= END
    && KeepsOthers(w, fs[|fs| - 1], p0, p)
  }

  // "build Huffman tree"
  method BuildTree(parent: array<nat>, heap: array<Slot>, n0: nat, ghost w: map<nat, nat>)
    returns (lastnode: nat, ghost t: Tree)
    requires parent.Length == 2 * END + 1 && heap.Length == END + 2 && 1 <= n0 <= END + 1
    requires END in w && forall s :: s in w ==> s <= END
    requires Contents(heap[..], n0) == multiset(Slots(LeafForest(w)))
    modifies parent, heap
    ensures HuffmanTree(w, t) && t.Root() == lastnode == END + n0 - 1
    ensures Linked(t, parent[..]) && parent[lastnode] == 0
    ensures forall s :: 0 <= s <= END && s !in w ==> parent[s] == old(parent[s])
  {
    ghost var p0: seq<nat> := parent[..];
    BuildHeap(heap, n0);
    NothingMerged(w, p0, heap[..], n0);
    ghost var fs;
    lastnode, fs := MergeAll(parent, heap, n0, w, p0);
    t := TreeBuilt(fs, w, p0, parent[..], heap[..], lastnode);
    parent[lastnode] := 0;
  }

  // The loop that merges until one tree is left
  method MergeAll(parent: array<nat>, heap: array<Slot>, n0: nat, ghost w: map<nat, nat>, ghost p0: seq<nat>)
    returns (lastnode: nat, ghost fs: seq<Forest>)
    requires parent.Length == 2 * END + 1 && heap.Length == END + 2 && 1 <= n0 <= END + 1
    requires InProgress([LeafForest(w)], w, p0, parent[..], heap[..], n0, END)
    modifies parent, heap
    ensures lastnode == END + n0 - 1 && InProgress(fs, w, p0, parent[..], heap[..], 1, lastnode)
  {
    var n := n0;
    lastnode := END;
    fs := [LeafForest(w)];
    while n > 1
      invariant 1 <= n <= n0 && lastnode == END + n0 - n
      invariant InProgress(fs, w, p0, parent[..], heap[..], n, lastnode)
    {
      lastnode, fs := MergeRound(parent, heap, n, lastnode, fs, w, p0);
      n := n - 1;
    }
  }

  lemma NothingMerged(w: map<nat, nat>, p: seq<nat>, h: seq<Slot>, n: nat)
    requires END in w && (forall s :: s in w ==> s <= END) && |p| > END
    requires n < |h| && HeapFrom(h, n, 1) && Contents(h, n) == multiset(Slots(LeafForest(w)))
    ensures InProgress([LeafForest(w)], w, p, p, h, n, END)
  {
  }

  lemma TreeBuilt(fs: seq<Forest>, w: map<nat, nat>, p0: seq<nat>, p: seq<nat>, h: seq<Slot>, last: nat)
          returns (t: Tree)
    requires InProgress(fs, w, p0, p, h, 1, last) && last < |p| && END in w
    ensures HuffmanTree(w, t) && t.Root() == last && Linked(t, p[last := 0])
    ensures forall s :: 0 <= s <= END && s !in w ==> p[last := 0][s] == p0[s]
  {
    t := OneTreeLeft(fs[|fs| - 1], p, h, last);
    assert RunFromTo(fs, w, t);
    RootCleared(t, p, last);
  }

  lemma RootCleared(t: Tree, p: seq<nat>, last: nat)
    requires Linked(t, p) && t.Distinct() && t.Root() == last < |p|
    ensures Linked(t, p[last := 0])
  {
    LinkedFrame(t, p, p[last := 0]);
  }

  // One round of the loop.
  method MergeRound(parent: array<nat>, heap: array<Slot>, n: nat, last: nat, ghost fs0: seq<Forest>,
                    ghost w: map<nat, nat>, ghost p0: seq<nat>)
    returns (lastnode: nat, ghost fs: seq<Forest>)
    requires parent.Length == 2 * END + 1 && heap.Length == END + 2 && 2 <= n <= END + 1 && last < 2 * END
    requires InProgress(fs0, w, p0, parent[..], heap[..], n, last)
    modifies parent, heap
    ensures lastnode == last + 1 && InProgress(fs, w, p0, parent[..], heap[..], n - 1, lastnode)
  {
    ghost var f := fs0[|fs0| - 1];
    ghost var p, h := parent[..], heap[..];
    SlotsBelow(f, last);
    lastnode := last + 1;
    ghost var x, y := CombineTops(parent, heap, n, lastnode, Slots(f));
    ghost var g := MergedForest(f, last, x, y);
    MergedLinks(f, x.node, y.node, lastnode, p);
    StillKeepsOthers(w, f, p0, p, x.node, y.node, lastnode);
    ExtendRun(fs0, f, x.node, y.node, lastnode, g);
    fs := fs0 + [g];
  }

  // Entries of symbols that do not occur are left alone.
  ghost predicate KeepsOthers(w: map<nat, nat>, f: Forest, p0: seq<nat>, p: seq<nat>) {
    && |p| == |p0| > END
    && (forall k :: k in f ==> k in w || k > END)
    && (forall s :: 0 <= s <= END && s !in w ==> p[s] == p0[s])
  }

  lemma StillKeepsOthers(w: map<nat, nat>, f: Forest, p0: seq<nat>, p: seq<nat>, a: nat, b: nat, c: nat)
    requires KeepsOthers(w, f, p0, p) && a in f && b in f && a < |p| && b < |p| && c > END
    ensures KeepsOthers(w, Merged(f, a, b, c), p0, p[a := c][b := c])
  {
  }

  lemma OneTreeLeft(f: Forest, p: seq<nat>, h: seq<Slot>, last: nat) returns (t: Tree)
    requires Building(f, p, h, 1, last)
    ensures f == map[last := t] && t.Root() == last && t.Distinct() && Linked(t, p)
    ensures forall x :: x in t.Ids() ==> x <= last
  {
    t := f[last];
    assert h[1..2] == [h[1]];
    forall k | k in f ensures k == last {
      assert Slot(Weights(f)[k], k) in Contents(h, 1);
      assert Slot(Weights(f)[last], last) in Contents(h, 1);
    }
  }

  ghost predicate Lightest(x: Slot, s: set<Slot>) {
    x in s && forall y :: y in s ==> x.count <= y.count
  }

  // The last slot moves to the top and sinks.
  method PopTop(heap: array<Slot>, n: nat, ghost s: set<Slot>)
    requires heap.Length == END + 2 && 2 <= n <= END + 1 && HeapHolds(heap[..], n, s)
    modifies heap
    ensures Lightest(old(heap[1]), s) && HeapHolds(heap[..], n - 1, s - {old(heap[1])})
  {
    ghost var h := heap[..];
    TopOfHeap(h, n, s);
    DropTop(h, n);
    heap[1] := heap[n];
    assert heap[..] == h[1 := h[n]];
    assert multiset(s) - multiset{h[1]} == multiset(s - {h[1]});
    Heapify(heap, n - 1, 1);
  }

  // The top slot is replaced and the new one sinks.
  method ReplaceTop(heap: array<Slot>, n: nat, z: Slot, ghost s: set<Slot>)
    requires heap.Length == END + 2 && 1 <= n <= END + 1 && HeapHolds(heap[..], n, s) && z !in s
    modifies heap
    ensures Lightest(old(heap[1]), s) && HeapHolds(heap[..], n, s - {old(heap[1])} + {z})
  {
    ghost var h := heap[..];
    TopOfHeap(h, n, s);
    UpdateContents(h, n, 1, z);
    heap[1] := z;
    assert heap[..] == h[1 := z];
    assert multiset(s) - multiset{h[1]} + multiset{z} == multiset(s - {h[1]} + {z});
    Heapify(heap, n, 1);
  }

  // One round of the loop, in terms of slots: the two lightest leave the heap and
  // their union enters it.
  method CombineTops(parent: array<nat>, heap: array<Slot>, n: nat, lastnode: nat, ghost s: set<Slot>)
    returns (ghost x: Slot, ghost y: Slot)
    requires parent.Length == 2 * END + 1 && heap.Length == END + 2 && 2 <= n <= END + 1
    requires HeapHolds(heap[..], n, s) && lastnode <= 2 * END && forall e :: e in s ==> e.node < lastnode
    modifies parent, heap
    ensures Lightest(x, s) && Lightest(y, s - {x})
    ensures HeapHolds(heap[..], n - 1, s - {x} - {y} + {Slot(y.count + x.count, lastnode)})
    ensures x.node < lastnode && y.node < lastnode
    ensures parent[..] == old(parent[..])[x.node := lastnode][y.node := lastnode]
  {
    ghost var h := heap[..];
    TopOfHeap(h, n, s);
    x := h[1];
    parent[heap[1].node] := lastnode;
    var inc := heap[1].count;
    assert heap[..] == h;
    PopTop(heap, n, s);
    h := heap[..];
    TopOfHeap(h, n - 1, s - {x});
    y := h[1];
    parent[heap[1].node] := lastnode;
    assert heap[..] == h;
    ReplaceTop(heap, n - 1, Slot(heap[1].count + inc, lastnode), s - {x});
  }

  lemma SlotsBelow(f: Forest, last: nat)
    requires Disjoint(f) && Numbered(f, last)
    ensures forall e :: e in Slots(f) ==> e.node < last + 1
  {
    forall e | e in Slots(f) ensures e.node < last + 1 {
      assert e.node in f[e.node].Ids();
    }
  }

  lemma MergedForest(f: Forest, last: nat, x: Slot, y: Slot) returns (g: Forest)
    requires Disjoint(f) && Numbered(f, last)
    requires Lightest(x, Slots(f)) && Lightest(y, Slots(f) - {x})
    ensures Step(f, x.node, y.node, last + 1, g) && Disjoint(g) && Numbered(g, last + 1)
    ensures x.node != y.node && g == Merged(f, x.node, y.node, last + 1)
    ensures Slots(g) == Slots(f) - {x} - {y} + {Slot(y.count + x.count, last + 1)}
    ensures x.node <= last && y.node <= last
  {
    var a, b, c := x.node, y.node, last + 1;
    g := Merged(f, a, b, c);
    TopsAreLightest(f, x, y);
    SlotsBelow(f, last);
    NewNumber(f, last);
    MergedSlots(f, a, b, c, x, y);
    StepKeepsDisjoint(f, a, b, c, g);
    MergedNumbered(f, last, a, b);
  }

  lemma NewNumber(f: Forest, last: nat)
    requires Disjoint(f) && Numbered(f, last)
    ensures Unused(f, last + 1) && last + 1 !in f
  {
    forall k | k in f ensures k <= last {
      assert f[k].Root() in f[k].Ids();
    }
  }

  lemma MergedNumbered(f: Forest, last: nat, a: nat, b: nat)
    requires Numbered(f, last) && a in f && b in f
    ensures Numbered(Merged(f, a, b, last + 1), last + 1)
  {
    var g := Merged(f, a, b, last + 1);
    forall k, x | k in g && x in g[k].Ids() ensures x <= last + 1 {
      if k == last + 1 {
        assert g[k].Ids() == {last + 1} + f[a].Ids() + f[b].Ids();
      }
    }
  }
}
