// Bytes as runs of eight bits, and what output() in pack.c does to them: each codeword
// is or-ed into the last byte, bitsleft bits of which are still free, and runs over
// into the bytes after it.
module BitStream {
  import opened Sums
  import opened PackFormat
  import opened Canonical
  import opened CodeTable

  function BitsOf(bytes: seq<Byte>): (s: seq<bool>)
    ensures |s| == 8 * |bytes|
  {
    if bytes == [] then [] else NumberBits(bytes[0], 8) + BitsOf(bytes[1..])
  }

  lemma {:induction false} BitsOfConcat(a: seq<Byte>, b: seq<Byte>)
    ensures BitsOf(a + b) == BitsOf(a) + BitsOf(b)
  {
    if a == [] {
      assert a + b == b;
    } else {
      BitsOfConcat(a[1..], b);
      assert (a + b)[1..] == a[1..] + b;
    }
  }

  function Zeros(n: nat): (s: seq<bool>)
    ensures |s| == n
  {
    seq(n, i => false)
  }

  lemma {:induction false} ZeroBits(n: nat)
    ensures NumberBits(0, n) == Zeros(n)
  {
    if n > 0 {
      ZeroBits(n - 1);
    }
  }

  // Cutting a number in two cuts its bits in two.
  lemma {:induction false} SplitBits(v: nat, n: nat, k: nat, high: nat, low: nat)
    requires low < Pow2(k) && v == high * Pow2(k) + low
    ensures NumberBits(v, n + k) == NumberBits(high, n) + NumberBits(low, k)
    decreases k
  {
    if k > 0 {
      HalveSplit(v, Pow2(k - 1), high, low);
      SplitBits(v / 2, n, k - 1, high, low / 2);
    }
  }

  lemma HalveSplit(v: nat, p: nat, high: nat, low: nat)
    requires low < 2 * p && v == high * (2 * p) + low
    ensures low / 2 < p && v / 2 == high * p + low / 2 && v % 2 == low % 2
  {
    var x := high * p;
    assert high * (2 * p) == 2 * x;
  }

  lemma HalveDivMod(v: nat, p: nat)
    requires p > 0
    ensures v / (2 * p) == v / 2 / p
    ensures v % (2 * p) / 2 == v / 2 % p && v % (2 * p) % 2 == v % 2
  {
    var h, q := v / 2, v / 2 / p;
    var r := 2 * (h % p) + v % 2;
    assert h == q * p + h % p;
    assert 2 * (q * p) == q * (2 * p);
    DivUnique(v, 2 * p, q, r);
  }

  // A codeword below 2^len shifted left by k, as 32 bits.
  lemma ShiftedBits(cw: nat, len: nat, k: nat, mask: nat)
    requires cw < Pow2(len) && len + k <= 32 && mask == cw * Pow2(k)
    ensures NumberBits(mask, 32) == Zeros(32 - len - k) + NumberBits(cw, len) + Zeros(k)
  {
    SplitBits(mask, 32 - k, k, cw, 0);
    ZeroBits(k);
    SplitBits(cw, 32 - k - len, len, 0, cw);
    ZeroBits(32 - k - len);
  }

  lemma {:induction false} OrBits(a: nat, b: nat, n: nat)
    ensures forall i :: 0 <= i < n ==> NumberBits(Or(a, b), n)[i] == (NumberBits(a, n)[i] || NumberBits(b, n)[i])
    decreases n
  {
    if n > 0 {
      OrHalves(a, b);
      OrBits(a / 2, b / 2, n - 1);
    }
  }

  lemma OrHalves(a: nat, b: nat)
    ensures Or(a, b) / 2 == Or(a / 2, b / 2) && (Or(a, b) % 2 == 1 <==> a % 2 == 1 || b % 2 == 1)
  {
  }

  lemma {:induction false} OrBelow(a: nat, b: nat, k: nat)
    requires a < Pow2(k) && b < Pow2(k)
    ensures Or(a, b) < Pow2(k)
    decreases k
  {
    if k > 0 {
      OrHalves(a, b);
      OrBelow(a / 2, b / 2, k - 1);
    }
  }

  // The four bytes maskshuff points at, most significant first.
  function MaskByte(mask: nat, i: nat): Byte
    requires i < 4
  {
    match i
    case 0 => mask / 256 / 256 / 256 % 256
    case 1 => mask / 256 / 256 % 256
    case 2 => mask / 256 % 256
    case _ => mask % 256
  }

  lemma MaskBits(mask: nat)
    requires mask < 0x1_0000_0000
    ensures NumberBits(mask, 32)
         == NumberBits(MaskByte(mask, 0), 8) + NumberBits(MaskByte(mask, 1), 8)
          + NumberBits(MaskByte(mask, 2), 8) + NumberBits(MaskByte(mask, 3), 8)
  {
    TopByte(mask);
    FourSplits(mask, mask / 256, mask / 256 / 256, MaskByte(mask, 0));
  }

  lemma TopByte(mask: nat)
    requires mask < 0x1_0000_0000
    ensures MaskByte(mask, 0) == mask / 256 / 256 / 256
  {
    var w2: nat := mask / 256;
    var w1: nat := w2 / 256;
    assert w2 < 0x100_0000 && w1 < 0x1_0000;
  }

  lemma FourSplits(w3: nat, w2: nat, w1: nat, w0: nat)
    requires w2 == w3 / 256 && w1 == w2 / 256 && w0 == w1 / 256
    ensures NumberBits(w3, 32)
         == NumberBits(w0, 8) + NumberBits(w1 % 256, 8) + NumberBits(w2 % 256, 8) + NumberBits(w3 % 256, 8)
  {
    SplitByte(w3, 24);
    SplitByte(w2, 16);
    SplitByte(w1, 8);
  }

  lemma SplitByte(v: nat, n: nat)
    ensures NumberBits(v, n + 8) == NumberBits(v / 256, n) + NumberBits(v % 256, 8)
  {
    assert Pow2(8) == 256;
    SplitBits(v, n, 8, v / 256, v % 256);
  }

  // bytes, then the first 8 - bitsleft bits of last, are the bits b; the rest of last is zero.
  ghost predicate Stream(bytes: seq<Byte>, last: Byte, bitsleft: nat, b: seq<bool>) {
    && bitsleft <= 8
    && BitsOf(bytes) + NumberBits(last, 8)[..8 - bitsleft] == b
    && NumberBits(last, 8)[8 - bitsleft..] == Zeros(bitsleft)
  }

  // The four bytes at outp after all of the mask has gone out.
  function Merged(last: Byte, mask: nat): seq<nat> {
    [Or(last, MaskByte(mask, 0)), MaskByte(mask, 1), MaskByte(mask, 2), MaskByte(mask, 3)]
  }

  lemma MergedAreBytes(last: Byte, mask: nat)
    ensures forall i :: 0 <= i < 4 ==> Merged(last, mask)[i] < 256
  {
    assert Pow2(8) == 256;
    OrBelow(last, MaskByte(mask, 0), 8);
  }

  lemma MergedBits(last: Byte, bitsleft: nat, cw: nat, len: nat, mask: nat, m: seq<Byte>)
    requires bitsleft <= 8 && len <= 24 && cw < Pow2(len) && mask == cw * Pow2(24 - len + bitsleft) < 0x1_0000_0000
    requires NumberBits(last, 8)[8 - bitsleft..] == Zeros(bitsleft) && m == Merged(last, mask)
    ensures BitsOf(m) == NumberBits(last, 8)[..8 - bitsleft] + NumberBits(cw, len) + Zeros(24 - len + bitsleft)
  {
    var all := NumberBits(last, 8)[..8 - bitsleft] + NumberBits(cw, len) + Zeros(24 - len + bitsleft);
    FourBytes(m);
    MaskBits(mask);
    ShiftedBits(cw, len, 24 - len + bitsleft, mask);
    OrBits(last, MaskByte(mask, 0), 8);
    var pb := NumberBits(last, 8);
    forall i | 8 - bitsleft <= i < 8 ensures !pb[i] {
      assert pb[i] == pb[8 - bitsleft..][i - (8 - bitsleft)];
    }
    forall i | 0 <= i < 32 ensures BitsOf(m)[i] == all[i] {
      assert NumberBits(mask, 32)[i] == (Zeros(8 - bitsleft) + NumberBits(cw, len) + Zeros(24 - len + bitsleft))[i];
    }
  }

  lemma FourBytes(m: seq<Byte>)
    requires |m| == 4
    ensures BitsOf(m) == NumberBits(m[0], 8) + NumberBits(m[1], 8) + NumberBits(m[2], 8) + NumberBits(m[3], 8)
  {
    assert BitsOf(m[3..]) == NumberBits(m[3], 8) + BitsOf([]);
    assert BitsOf(m[2..]) == NumberBits(m[2], 8) + BitsOf(m[3..]);
    assert BitsOf(m[1..]) == NumberBits(m[1], 8) + BitsOf(m[2..]);
  }

  // Keeping the first k of the four bytes and the free bits of the next one.
  lemma StreamStep(bytes: seq<Byte>, last: Byte, bitsleft: nat, b: seq<bool>, cw: nat, len: nat, mask: nat,
                   m: seq<Byte>, k: nat)
    requires Stream(bytes, last, bitsleft, b)
    requires len <= 24 && cw < Pow2(len) && mask == cw * Pow2(24 - len + bitsleft) < 0x1_0000_0000
    requires m == Merged(last, mask) && k < 4 && 0 <= bitsleft + 8 * k - len <= 8
    ensures Stream(bytes + m[..k], m[k], bitsleft + 8 * k - len, b + NumberBits(cw, len))
  {
    MergedBits(last, bitsleft, cw, len, mask, m);
    BitsOfConcat(bytes, m[..k]);
    TwoCuts(m, k, NumberBits(last, 8)[..8 - bitsleft] + NumberBits(cw, len), bitsleft + 8 * k - len);
    Reassociate(BitsOf(bytes), BitsOf(m[..k]), NumberBits(m[k], 8)[..8 - (bitsleft + 8 * k - len)],
                NumberBits(last, 8)[..8 - bitsleft], NumberBits(cw, len));
  }

  lemma TwoCuts(m: seq<Byte>, k: nat, used: seq<bool>, left: nat)
    requires k < |m| && left <= 8 && |used| == 8 * k + 8 - left && BitsOf(m) == used + Zeros(8 * |m| - |used|)
    ensures BitsOf(m[..k]) + NumberBits(m[k], 8)[..8 - left] == used
    ensures NumberBits(m[k], 8)[8 - left..] == Zeros(left)
  {
    BitsAround(m, k);
    CutSlices(BitsOf(m[..k]), NumberBits(m[k], 8), BitsOf(m[k + 1..]), used, left);
  }

  lemma CutSlices(front: seq<bool>, byte: seq<bool>, back: seq<bool>, used: seq<bool>, left: nat)
    requires |byte| == 8 && left <= 8 && |used| == |front| + 8 - left
    requires front + byte + back == used + Zeros(|back| + left)
    ensures front + byte[..8 - left] == used && byte[8 - left..] == Zeros(left)
  {
    var all := front + byte + back;
    assert front + byte[..8 - left] == all[..|used|] == used;
    assert byte[8 - left..] == all[|used|..|used| + left];
  }

  lemma BitsAround(m: seq<Byte>, k: nat)
    requires k < |m|
    ensures BitsOf(m) == BitsOf(m[..k]) + NumberBits(m[k], 8) + BitsOf(m[k + 1..])
  {
    BitsOfConcat(m[..k], m[k..]);
    assert m == m[..k] + m[k..];
    assert BitsOf(m[k..]) == NumberBits(m[k], 8) + BitsOf(m[k + 1..]);
  }

  lemma Reassociate(a: seq<bool>, b: seq<bool>, c: seq<bool>, d: seq<bool>, e: seq<bool>)
    requires b + c == d + e
    ensures (a + b) + c == (a + d) + e
  {
    assert (a + b) + c == a + (b + c);
  }
}
