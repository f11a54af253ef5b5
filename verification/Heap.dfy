// The array heap of pack.c: heap[1..n] ordered by count, lightest first.
module Heap {
  import opened PackFormat

  // struct heap
  datatype Slot = Slot(count: nat, node: nat)

  predicate Child(p: nat, c: nat) {
    c == 2 * p || c == 2 * p + 1
  }

  // Every position from lo on is at most its children.
  ghost predicate HeapFrom(h: seq<Slot>, n: nat, lo: nat) {
    n < |h| && forall p: nat, c: nat {:trigger Child(p, c)} ::
                 lo <= p && Child(p, c) && c <= n ==> h[p].count <= h[c].count
  }

  // The same, except between position i and its children, where i's own parent
  // (if it is from lo on) already is at most those children.
  ghost predicate HeapExcept(h: seq<Slot>, n: nat, lo: nat, i: nat) {
    && n < |h|
    && (forall p: nat, c: nat {:trigger Child(p, c)} ::
          lo <= p && p != i && Child(p, c) && c <= n ==> h[p].count <= h[c].count)
    && (forall p: nat, c: nat {:trigger Child(p, i), Child(i, c)} ::
          lo <= p && Child(p, i) && Child(i, c) && c <= n ==> h[p].count <= h[c].count)
  }

  ghost predicate AtMostChildren(h: seq<Slot>, n: nat, i: nat, s: Slot) {
    n < |h| && forall c: nat {:trigger Child(i, c)} :: Child(i, c) && c <= n ==> s.count <= h[c].count
  }

  ghost function Contents(h: seq<Slot>, n: nat): multiset<Slot>
    requires n < |h|
  {
    multiset(h[1..n + 1])
  }

  lemma {:induction false} TopIsLightest(h: seq<Slot>, n: nat, j: nat)
    requires HeapFrom(h, n, 1) && 1 <= j <= n
    ensures h[1].count <= h[j].count
  {
    if j > 1 {
      TopIsLightest(h, n, j / 2);
      assert Child(j / 2, j);
    }
  }

  lemma UpdateContents(h: seq<Slot>, n: nat, i: nat, s: Slot)
    requires n < |h| && 1 <= i <= n
    ensures Contents(h[i := s], n) == Contents(h, n) - multiset{h[i]} + multiset{s}
  {
    assert h[i := s][1..n + 1] == h[1..n + 1][i - 1 := s];
  }

  lemma SwapContents(h: seq<Slot>, n: nat, i: nat, k: nat)
    requires n < |h| && 1 <= i <= n && 1 <= k <= n && i != k
    ensures Contents(h[i := h[k]][k := h[i]], n) == Contents(h, n)
  {
    UpdateContents(h, n, i, h[k]);
    UpdateContents(h[i := h[k]], n, k, h[i]);
    InContents(h, n, i);
    OutAndIn(Contents(h, n), h[i], h[k]);
  }

  lemma OutAndIn(c: multiset<Slot>, x: Slot, y: Slot)
    requires x in c
    ensures c - multiset{x} + multiset{y} - multiset{y} + multiset{x} == c
  {
  }

  // heap[n] moves to the top and the heap shrinks.
  lemma DropTop(h: seq<Slot>, n: nat)
    requires 2 <= n < |h|
    ensures Contents(h[1 := h[n]], n - 1) == Contents(h, n) - multiset{h[1]}
  {
    var rest := h[2..n];
    assert h[1..n + 1] == [h[1]] + rest + [h[n]];
    assert h[1 := h[n]][1..n] == [h[n]] + rest;
  }

  lemma InContents(h: seq<Slot>, n: nat, j: nat)
    requires 1 <= j <= n < |h|
    ensures h[j] in Contents(h, n)
  {
    assert h[1..n + 1][j - 1] == h[j];
  }

  lemma FindInContents(h: seq<Slot>, n: nat, s: Slot) returns (j: nat)
    requires n < |h| && s in Contents(h, n)
    ensures 1 <= j <= n && h[j] == s
  {
    assert s in h[1..n + 1];
    var x :| 0 <= x < n && h[1..n + 1][x] == s;
    j := x + 1;
  }

  // h is h0 with the slot moving sunk as far as position i.
  ghost predicate Sinking(h0: seq<Slot>, h: seq<Slot>, n: nat, lo: nat, i: nat, moving: Slot)
    requires n < |h0|
  {
    && |h| == |h0| && i <= n && h[i] == moving && HeapExcept(h, n, lo, i) && Contents(h, n) == Contents(h0, n)
    && forall j :: n < j < |h| ==> h[j] == h0[j]
  }

  lemma SinkOn(h0: seq<Slot>, h: seq<Slot>, n: nat, lo: nat, i: nat, k: nat, moving: Slot)
    requires n < |h0| && Sinking(h0, h, n, lo, i, moving) && lo <= i && 1 <= i < k <= n && Child(i, k)
    requires AtMostChildren(h, n, i, h[k]) && h[k].count <= moving.count
    ensures Sinking(h0, h[i := h[k]][k := h[i]], n, lo, k, moving)
  {
    SinkKeepsHeap(h, n, lo, i, k);
    SwapContents(h, n, i, k);
  }

  // The array holds h, but for position i.
  ghost predicate Holds(heap: array<Slot>, h: seq<Slot>, i: nat)
    reads heap
  {
    heap.Length == |h| && forall j :: 0 <= j < |h| && j != i ==> heap[j] == h[j]
  }

  // heapify(): position i sinks until neither child is lighter or equal.
  method Heapify(heap: array<Slot>, n: nat, start: nat)
    requires heap.Length == END + 2 && n <= END + 1 && 1 <= start <= n
    requires HeapFrom(heap[..], n, start + 1)
    modifies heap
    ensures HeapFrom(heap[..], n, start)
    ensures Contents(heap[..], n) == old(Contents(heap[..], n))
    ensures forall j :: n < j < heap.Length ==> heap[j] == old(heap[j])
  {
    var i := start;
    var moving := heap[i];
    var lastparent := n / 2;
    ghost var h := heap[..];
    while i <= lastparent
      invariant start <= i <= n && Holds(heap, h, i)
      invariant Sinking(old(heap[..]), h, n, start, i, moving)
    {
      var k := LighterChild(heap, n, i, h);
      if moving.count < heap[k].count {
        break;
      }
      SinkOn(old(heap[..]), h, n, start, i, k, moving);
      heap[i] := heap[k];
      i, h := k, h[i := h[k]][k := h[i]];
    }
    assert AtMostChildren(h, n, i, moving);
    SettledHeap(h, n, start, i);
    heap[i] := moving;
    assert heap[..] == h;
  }

  // k = 2*i, or the next position when that one is lighter
  method LighterChild(heap: array<Slot>, n: nat, i: nat, ghost h: seq<Slot>) returns (k: nat)
    requires heap.Length == |h| == END + 2 && n <= END + 1 && 1 <= i <= n / 2
    requires Holds(heap, h, i)
    ensures i < k <= n && Child(i, k) && heap[k] == h[k] && AtMostChildren(h, n, i, h[k])
  {
    k := 2 * i;
    if heap[k].count > heap[k + 1].count && k < n {
      k := k + 1;
    }
  }

  lemma SettledHeap(h: seq<Slot>, n: nat, lo: nat, i: nat)
    requires HeapExcept(h, n, lo, i) && i < |h| && AtMostChildren(h, n, i, h[i])
    ensures HeapFrom(h, n, lo)
  {
  }

  lemma SinkKeepsHeap(h: seq<Slot>, n: nat, lo: nat, i: nat, k: nat)
    requires HeapExcept(h, n, lo, i) && lo <= i && 1 <= i && k <= n && Child(i, k)
    requires AtMostChildren(h, n, i, h[k]) && h[k].count <= h[i].count
    ensures HeapExcept(h[i := h[k]][k := h[i]], n, lo, k)
  {
    var h' := h[i := h[k]][k := h[i]];
    forall p: nat, c: nat {:trigger Child(p, c)} | lo <= p && p != k && Child(p, c) && c <= n
      ensures h'[p].count <= h'[c].count
    {
      assert Child(i, k);
    }
    forall p: nat, c: nat {:trigger Child(p, k), Child(k, c)} | lo <= p && Child(p, k) && Child(k, c) && c <= n
      ensures h'[p].count <= h'[c].count
    {
      assert p == i;
    }
  }
}
