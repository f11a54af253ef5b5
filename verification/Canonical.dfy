// The canonical code shared by pack.c and unpack.c.  It is fixed by the list of
// codeword lengths alone: on each level the codewords are consecutive numbers, in
// symbol order, after the numbers of the inner nodes of that level.
module Canonical {
  import opened Sums
  import Kraft

  // A length of 0 marks a symbol that does not occur.
  type LengthList = seq<nat>

  // How many of the first n symbols have length lev.
  function Count(lens: LengthList, lev: nat, n: nat): (r: nat)
    requires n <= |lens|
    ensures r <= n
  {
    if n == 0 then 0 else Count(lens, lev, n - 1) + if lens[n - 1] == lev then 1 else 0
  }

  function Leaves(lens: LengthList, lev: nat): nat {
    Count(lens, lev, |lens|)
  }

  // Inner nodes on level lev, counted from the deepest level up as unpack does.
  function Inner(lens: LengthList, maxlev: nat, lev: nat): nat
    decreases maxlev - lev
  {
    if lev >= maxlev then 0 else (Inner(lens, maxlev, lev + 1) + Leaves(lens, lev + 1)) / 2
  }

  ghost predicate EvenLevel(lens: LengthList, maxlev: nat, lev: nat) {
    (Inner(lens, maxlev, lev) + Leaves(lens, lev)) % 2 == 0
  }

  // The lengths are those of the leaves of a binary tree of height maxlev.
  ghost predicate TreeLengths(lens: LengthList, maxlev: nat) {
    && maxlev >= 1
    && (forall c :: 0 <= c < |lens| ==> lens[c] <= maxlev)
    && (forall lev :: 1 <= lev <= maxlev ==> EvenLevel(lens, maxlev, lev))
    && Inner(lens, maxlev, 0) == 1
  }

  lemma {:induction false} CountMonotone(lens: LengthList, lev: nat, m: nat, n: nat)
    requires m <= n <= |lens|
    ensures Count(lens, lev, m) <= Count(lens, lev, n)
    ensures m < n && lens[m] == lev ==> Count(lens, lev, m) < Count(lens, lev, n)
  {
    if m < n {
      if m < n - 1 {
        CountMonotone(lens, lev, m, n - 1);
      }
    }
  }

  // The number that is symbol c's codeword.
  function Codeword(lens: LengthList, maxlev: nat, c: nat): nat
    requires c < |lens|
  {
    Inner(lens, maxlev, lens[c]) + Count(lens, lens[c], c)
  }

  // The codeword, most significant bit first.
  function CodeBits(lens: LengthList, maxlev: nat, c: nat): (s: seq<bool>)
    requires c < |lens|
    ensures |s| == lens[c]
  {
    NumberBits(Codeword(lens, maxlev, c), lens[c])
  }

  function NumberBits(v: nat, n: nat): (s: seq<bool>)
    ensures |s| == n
  {
    if n == 0 then [] else NumberBits(v / 2, n - 1) + [v % 2 == 1]
  }

  // The number cut off after k of its n bits.
  function Cut(v: nat, n: nat, k: nat): nat
    requires k <= n
    decreases n
  {
    if k == n then v else Cut(v / 2, n - 1, k)
  }

  lemma {:induction false} CutBit(v: nat, n: nat, k: nat)
    requires k < n
    ensures Cut(v, n, k) == Cut(v, n, k + 1) / 2
    ensures NumberBits(v, n)[k] == (Cut(v, n, k + 1) % 2 == 1)
    decreases n
  {
    if k + 1 < n {
      CutBit(v / 2, n - 1, k);
    }
  }

  lemma {:induction false} NodesFit(lens: LengthList, maxlev: nat, lev: nat)
    requires TreeLengths(lens, maxlev) && lev <= maxlev
    ensures Inner(lens, maxlev, lev) <= Pow2(lev)
    ensures lev > 0 ==> Inner(lens, maxlev, lev) + Leaves(lens, lev) <= Pow2(lev)
  {
    if lev > 0 {
      NodesFit(lens, maxlev, lev - 1);
      assert EvenLevel(lens, maxlev, lev);
    }
  }

  // A codeword fits in as many bits as its length says.
  lemma CodewordFits(lens: LengthList, maxlev: nat, c: nat)
    requires TreeLengths(lens, maxlev) && c < |lens| && lens[c] > 0
    ensures Codeword(lens, maxlev, c) < Inner(lens, maxlev, lens[c]) + Leaves(lens, lens[c]) <= Pow2(lens[c])
  {
    CountMonotone(lens, lens[c], c, |lens|);
    NodesFit(lens, maxlev, lens[c]);
  }

  // Cut above its own level, a codeword is the number of an inner node.
  lemma {:induction false} CutIsInner(lens: LengthList, maxlev: nat, v: nat, n: nat, k: nat)
    requires TreeLengths(lens, maxlev) && k < n <= maxlev
    requires v < Inner(lens, maxlev, n) + Leaves(lens, n)
    ensures Cut(v, n, k) < Inner(lens, maxlev, k)
    decreases n
  {
    assert EvenLevel(lens, maxlev, n);
    assert v / 2 < Inner(lens, maxlev, n - 1);
    if k < n - 1 {
      CutIsInner(lens, maxlev, v / 2, n - 1, k);
    }
  }

  // ---- Decoding one codeword -------------------------------------------------------

  // A leaf found on level lev, the j-th there, with the bits not yet read.
  datatype Found = Found(lev: nat, j: nat, rest: seq<bool>) | Exhausted

  // unpack's walk down the levels: v is the number read so far, lev the level the
  // next bit leads to.
  function Descend(inner: nat -> nat, bits: seq<bool>, lev: nat, v: nat): (f: Found)
    ensures f.Found? ==> |f.rest| < |bits|
  {
    if bits == [] then Exhausted
    else
      var v' := 2 * v + if bits[0] then 1 else 0;
      if v' >= inner(lev) then Found(lev, v' - inner(lev), bits[1..])
      else Descend(inner, bits[1..], lev + 1, v')
  }

  lemma {:induction false} DescendCodeword(lens: LengthList, maxlev: nat, c: nat, k: nat, rest: seq<bool>)
    requires TreeLengths(lens, maxlev) && c < |lens| && k < lens[c]
    ensures Descend(lev => Inner(lens, maxlev, lev), CodeBits(lens, maxlev, c)[k..] + rest, k + 1,
                    Cut(Codeword(lens, maxlev, c), lens[c], k))
         == Found(lens[c], Count(lens, lens[c], c), rest)
    decreases lens[c] - k
  {
    var v, n := Codeword(lens, maxlev, c), lens[c];
    var bits := CodeBits(lens, maxlev, c)[k..] + rest;
    CutBit(v, n, k);
    assert bits[0] == CodeBits(lens, maxlev, c)[k];
    if k + 1 < n {
      CountMonotone(lens, n, c, |lens|);
      CutIsInner(lens, maxlev, v, n, k + 1);
      assert bits[1..] == CodeBits(lens, maxlev, c)[k + 1..] + rest;
      DescendCodeword(lens, maxlev, c, k + 1, rest);
    } else {
      assert bits[1..] == rest;
    }
  }

  lemma {:induction false} CutToNothing(lens: LengthList, maxlev: nat, c: nat)
    requires TreeLengths(lens, maxlev) && c < |lens| && lens[c] > 0
    ensures Cut(Codeword(lens, maxlev, c), lens[c], 0) == 0
  {
    CountMonotone(lens, lens[c], c, |lens|);
    CutIsInner(lens, maxlev, Codeword(lens, maxlev, c), lens[c], 0);
  }

  // Reading a codeword and anything after it finds exactly that symbol's leaf.
  lemma ReadCodeword(lens: LengthList, maxlev: nat, c: nat, rest: seq<bool>)
    requires TreeLengths(lens, maxlev) && c < |lens| && lens[c] > 0
    ensures Descend(lev => Inner(lens, maxlev, lev), CodeBits(lens, maxlev, c) + rest, 1, 0)
         == Found(lens[c], Count(lens, lens[c], c), rest)
  {
    CutToNothing(lens, maxlev, c);
    DescendCodeword(lens, maxlev, c, 0, rest);
    assert CodeBits(lens, maxlev, c)[0..] == CodeBits(lens, maxlev, c);
  }

  // ---- The codewords as a prefix code ----------------------------------------------

  ghost function CanonicalCode(lens: LengthList, maxlev: nat): (code: Kraft.Code)
    ensures forall c: nat :: c in code <==> c < |lens| && lens[c] > 0
  {
    map c: nat | c < |lens| && lens[c] > 0 :: CodeBits(lens, maxlev, c)
  }

  lemma SameLeaf(lens: LengthList, a: nat, b: nat)
    requires a < |lens| && b < |lens| && lens[a] == lens[b]
    requires Count(lens, lens[a], a) == Count(lens, lens[b], b)
    ensures a == b
  {
    var lev := lens[a];
    if a < b {
      CountMonotone(lens, lev, a, b);
    } else if b < a {
      CountMonotone(lens, lev, b, a);
    }
  }

  lemma CanonicalPrefixFree(lens: LengthList, maxlev: nat)
    requires TreeLengths(lens, maxlev)
    ensures Kraft.PrefixFree(CanonicalCode(lens, maxlev))
  {
    var code := CanonicalCode(lens, maxlev);
    forall a, b | a in code && b in code && Kraft.IsPrefix(code[a], code[b])
      ensures a == b
    {
      var rest := code[b][|code[a]|..];
      assert code[b] == code[a] + rest && code[b] == code[b] + [];
      ReadCodeword(lens, maxlev, a, rest);
      ReadCodeword(lens, maxlev, b, []);
      SameLeaf(lens, a, b);
    }
  }
}
