// "compute bit patterns for each character" in pack.c: the codewords as 24-bit
// left-justified masks.
module CodeTable {
  import opened Sums
  import opened PackFormat
  import opened Canonical

  // The C operators on nonnegative numbers, bit by bit.
  function AndNot(a: nat, b: nat): nat {
    if a == 0 then 0
    else 2 * AndNot(a / 2, b / 2) + if a % 2 == 1 && b % 2 == 0 then 1 else 0
  }

  function Or(a: nat, b: nat): nat {
    if a == 0 then b
    else 2 * Or(a / 2, b / 2) + if a % 2 == 1 || b % 2 == 1 then 1 else 0
  }

  lemma {:induction false} AndNotZero(a: nat)
    ensures AndNot(a, 0) == a
  {
    if a > 0 {
      AndNotZero(a / 2);
    }
  }

  // Clearing the bit 2^k of an even multiple of 2^k changes nothing.
  lemma {:induction false} AndNotUnchanged(a: nat, k: nat)
    ensures AndNot(2 * a * Pow2(k), Pow2(k)) == 2 * a * Pow2(k)
  {
    if k == 0 {
      AndNotZero(a);
      assert 2 * a * Pow2(k) == 2 * a;
    } else {
      var x := 2 * a * Pow2(k - 1);
      assert 2 * a * Pow2(k) == 2 * x;
      AndNotUnchanged(a, k - 1);
    }
  }

  lemma ShiftRight(k: nat, m: nat)
    requires m <= k
    ensures Pow2(k) / Pow2(m) == Pow2(k - m)
  {
    Pow2Add(k - m, m);
    DivUnique(Pow2(k), Pow2(m), Pow2(k - m), 0);
  }

  // What the table must hold: symbol c's codeword, left-justified in 24 bits.
  ghost predicate TableEntry(lens: LengthList, maxlev: nat, bits: seq<nat>, c: nat)
    requires c < |lens| <= |bits|
  {
    0 < lens[c] <= LEVELS && bits[c] == Codeword(lens, maxlev, c) * Pow2(LEVELS - lens[c])
  }

  // Before level i: inc is the unit of that level, mask the first leaf's codeword there.
  ghost predicate AtLevel(lens: LengthList, maxlev: nat, i: nat, inc: nat, mask: nat) {
    i <= LEVELS && inc == Pow2(LEVELS - i) && mask == Inner(lens, maxlev, i) * Pow2(LEVELS - i)
  }

  method FirstLevel(ghost lens: LengthList, maxlev: nat) returns (inc: nat, mask: nat)
    requires maxlev <= LEVELS
    ensures AtLevel(lens, maxlev, maxlev, inc, mask)
  {
    inc := Pow2(LEVELS);
    inc := inc / Pow2(maxlev);
    ShiftRight(LEVELS, maxlev);
    mask := 0;
  }

  method AssignBits(length: array<nat>, maxlev: nat, bits: array<nat>)
    requires length.Length == bits.Length == END + 1 && length != bits
    requires TreeLengths(length[..], maxlev) && maxlev <= LEVELS
    modifies bits
    ensures FilledFrom(length[..], maxlev, bits[..], 0, 0)
  {
    ghost var lens := length[..];
    var inc, mask := FirstLevel(lens, maxlev);
    var i := maxlev;
    while i > 0
      invariant 0 <= i <= maxlev && lens == length[..]
      invariant AtLevel(lens, maxlev, i, inc, mask)
      invariant FilledFrom(lens, maxlev, bits[..], i, 0)
    {
      mask := AssignLevel(length, maxlev, bits, i, inc, mask);
      mask := AndNot(mask, inc);
      inc := inc * 2;
      i := i - 1;
    }
  }

  // The inner loop: consecutive codewords for the symbols of level i.
  method AssignLevel(length: array<nat>, maxlev: nat, bits: array<nat>, i: nat, inc: nat, mask0: nat)
    returns (mask: nat)
    requires length.Length == bits.Length == END + 1 && length != bits && 1 <= i <= maxlev <= LEVELS
    requires TreeLengths(length[..], maxlev) && AtLevel(length[..], maxlev, i, inc, mask0)
    requires FilledFrom(length[..], maxlev, bits[..], i, 0)
    modifies bits
    ensures AndNot(mask, inc) == mask && AtLevel(length[..], maxlev, i - 1, inc * 2, mask)
    ensures FilledFrom(length[..], maxlev, bits[..], i - 1, 0)
  {
    ghost var lens := length[..];
    mask := mask0;
    var c := 0;
    while c <= END
      invariant 0 <= c <= END + 1 && lens == length[..]
      invariant mask == (Inner(lens, maxlev, i) + Count(lens, i, c)) * inc
      invariant FilledFrom(lens, maxlev, bits[..], i, c)
    {
      if length[c] == i {
        bits[c] := mask;
        OneMore(Inner(lens, maxlev, i) + Count(lens, i, c), inc);
        mask := mask + inc;
      }
      c := c + 1;
    }
    MaskUnchanged(lens, maxlev, i, LEVELS - i, mask);
  }

  // The symbols of the levels below i, and those before c on level i, have their entry.
  ghost predicate FilledFrom(lens: LengthList, maxlev: nat, bits: seq<nat>, i: nat, c: nat)
    requires |lens| <= |bits|
  {
    forall s :: 0 <= s < |lens| && (lens[s] > i || (lens[s] == i && s < c)) ==> TableEntry(lens, maxlev, bits, s)
  }

  lemma OneMore(x: nat, inc: nat)
    ensures (x + 1) * inc == x * inc + inc
  {
  }

  // "mask &= ~inc" never changes the mask, which is already the next level's first leaf.
  lemma MaskUnchanged(lens: LengthList, maxlev: nat, i: nat, k: nat, mask: nat)
    requires TreeLengths(lens, maxlev) && 1 <= i <= maxlev
    requires mask == (Inner(lens, maxlev, i) + Leaves(lens, i)) * Pow2(k)
    ensures AndNot(mask, Pow2(k)) == mask == Inner(lens, maxlev, i - 1) * Pow2(k + 1)
  {
    var a := Inner(lens, maxlev, i - 1);
    assert EvenLevel(lens, maxlev, i);
    assert Inner(lens, maxlev, i) + Leaves(lens, i) == 2 * a;
    AndNotUnchanged(a, k);
    Doubled(a, Pow2(k));
  }

  lemma Doubled(a: nat, p: nat)
    ensures 2 * a * p == a * (2 * p)
  {
  }
}
