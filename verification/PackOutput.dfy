// output() in pack.c: the header, the bit stream, and the 512-byte writes with up to
// three bytes of overhang carried to the front of the buffer.
module PackOutput {
  import opened Sums
  import opened PackFormat
  import opened Canonical
  import opened CodeTable
  import opened BitStream

  // What packfile() hands to output(): tree lengths of at most 24, END on the last level.
  ghost predicate PackableLengths(lens: LengthList, maxlev: nat) {
    |lens| == END + 1 && TreeLengths(lens, maxlev) && maxlev <= LEVELS && lens[END] == maxlev
  }

  // ---- The header ------------------------------------------------------------------

  function SizeBytes(size: nat): seq<Byte> {
    [size / 256 / 256 / 256 % 256, size / 256 / 256 % 256, size / 256 % 256, size % 256]
  }

  function LevelByte(lens: LengthList, maxlev: nat, i: nat): int {
    Leaves(lens, i) - if i == maxlev then 2 else 0
  }

  // The bytes of level lev among the first n symbols, in order.
  function CharsAt(lens: LengthList, lev: nat, n: nat): (s: seq<Byte>)
    requires n <= END < |lens|
    ensures |s| == Count(lens, lev, n)
  {
    if n == 0 then [] else CharsAt(lens, lev, n - 1) + if lens[n - 1] == lev then [n - 1] else []
  }

  // The bytes of the levels 1 to lev.
  function Chars(lens: LengthList, lev: nat): seq<Byte>
    requires END < |lens|
  {
    if lev == 0 then [] else Chars(lens, lev - 1) + CharsAt(lens, lev, END)
  }

  function LevelBytes(lens: LengthList, maxlev: nat, n: nat): seq<int> {
    if n == 0 then [] else LevelBytes(lens, maxlev, n - 1) + [LevelByte(lens, maxlev, n)]
  }

  function Header(size: nat, lens: LengthList, maxlev: nat): seq<int>
    requires END < |lens|
  {
    [US, RS] + SizeBytes(size) + [maxlev] + LevelBytes(lens, maxlev, maxlev) + Chars(lens, maxlev)
  }

  lemma {:induction false} TwoCounts(lens: LengthList, a: nat, b: nat, n: nat)
    requires n <= |lens| && a != b
    ensures Count(lens, a, n) + Count(lens, b, n) <= n
  {
    if n > 0 {
      TwoCounts(lens, a, b, n - 1);
    }
  }

  // At least two leaves lie on the last level.
  lemma LastLevelPaired(lens: LengthList, maxlev: nat)
    requires PackableLengths(lens, maxlev)
    ensures Leaves(lens, maxlev) >= 2
  {
    assert EvenLevel(lens, maxlev, maxlev);
    CountMonotone(lens, maxlev, END, END + 1);
  }

  // Every count in the header fits in its byte.
  lemma LevelBytesFit(lens: LengthList, maxlev: nat, i: nat)
    requires PackableLengths(lens, maxlev) && 1 <= i <= maxlev
    ensures 0 <= LevelByte(lens, maxlev, i) <= 255
  {
    LastLevelPaired(lens, maxlev);
    if i < maxlev {
      TwoCounts(lens, i, maxlev, END + 1);
    }
  }

  function CountUpTo(lens: LengthList, lev: nat, n: nat): (r: nat)
    requires n <= |lens|
    ensures r <= n
  {
    if n == 0 then 0 else CountUpTo(lens, lev, n - 1) + if 1 <= lens[n - 1] <= lev then 1 else 0
  }

  lemma {:induction false} NextLevelCount(lens: LengthList, lev: nat, n: nat)
    requires n <= |lens|
    ensures CountUpTo(lens, lev + 1, n) == CountUpTo(lens, lev, n) + Count(lens, lev + 1, n)
  {
    if n > 0 {
      NextLevelCount(lens, lev, n - 1);
    }
  }

  lemma {:induction false} NothingOnLevelZero(lens: LengthList, n: nat)
    requires n <= |lens|
    ensures CountUpTo(lens, 0, n) == 0
  {
    if n > 0 {
      NothingOnLevelZero(lens, n - 1);
    }
  }

  lemma {:induction false} CharsLength(lens: LengthList, lev: nat)
    requires |lens| == END + 1
    ensures |Chars(lens, lev)| == CountUpTo(lens, lev, END)
  {
    if lev == 0 {
      NothingOnLevelZero(lens, END);
    } else {
      CharsLength(lens, lev - 1);
      NextLevelCount(lens, lev - 1, END);
    }
  }

  // The integer buffer outbuff[..n] as bytes of the file.
  method WriteSize(outbuff: array<Byte>, insize: nat)
    requires outbuff.Length == BLKSIZE + 4
    modifies outbuff
    ensures outbuff[..6] == [US, RS] + SizeBytes(insize)
  {
    outbuff[0] := US;
    outbuff[1] := RS;
    var temp: nat := insize;
    outbuff[5] := temp % 256;
    temp := temp / 256;
    outbuff[4] := temp % 256;
    temp := temp / 256;
    outbuff[3] := temp % 256;
    temp := temp / 256;
    outbuff[2] := temp % 256;
  }

  method WriteCounts(outbuff: array<Byte>, maxlev: nat, levcount: array<nat>, ghost lens: LengthList)
    returns (outp: nat)
    requires outbuff.Length == BLKSIZE + 4 && levcount.Length == END + 1 && outbuff as object != levcount
    requires PackableLengths(lens, maxlev) && forall k :: 1 <= k <= LEVELS ==> levcount[k] == Leaves(lens, k)
    modifies outbuff
    ensures outp == 7 + maxlev
    ensures outbuff[..outp] == old(outbuff[..6]) + [maxlev] + LevelBytes(lens, maxlev, maxlev)
  {
    ghost var front := outbuff[..6] + [maxlev];
    outp := 6;
    outbuff[outp] := maxlev;
    outp := outp + 1;
    var i := 1;
    while i < maxlev
      invariant 1 <= i <= maxlev && outp == 6 + i
      invariant forall k :: 1 <= k <= LEVELS ==> levcount[k] == Leaves(lens, k)
      invariant outbuff[..outp] == front + LevelBytes(lens, maxlev, i - 1)
    {
      LevelBytesFit(lens, maxlev, i);
      outbuff[outp] := levcount[i];
      outp := outp + 1;
      i := i + 1;
    }
    LevelBytesFit(lens, maxlev, maxlev);
    outbuff[outp] := levcount[maxlev] - 2;
    outp := outp + 1;
  }

  method WriteChars(outbuff: array<Byte>, start: nat, maxlev: nat, length: array<nat>) returns (outp: nat)
    requires outbuff.Length == BLKSIZE + 4 && length.Length == END + 1 && outbuff as object != length && start <= 31
    modifies outbuff
    ensures outp == start + |Chars(length[..], maxlev)| <= start + END
    ensures outbuff[..outp] == old(outbuff[..start]) + Chars(length[..], maxlev)
  {
    ghost var front, lens := outbuff[..start], length[..];
    outp := start;
    var i := 1;
    while i <= maxlev
      invariant 1 <= i <= maxlev + 1 && lens == length[..] && outp <= start + END
      invariant outbuff[..outp] == front + Chars(lens, i - 1)
    {
      outp := WriteLevel(outbuff, start, outp, i, length, front);
      i := i + 1;
    }
  }

  // The characters of one level
  method WriteLevel(outbuff: array<Byte>, ghost start: nat, outp0: nat, i: nat, length: array<nat>,
                    ghost front: seq<Byte>)
    returns (outp: nat)
    requires outbuff.Length == BLKSIZE + 4 && length.Length == END + 1 && outbuff as object != length
    requires start == |front| <= 31 && 1 <= i && outp0 <= start + END
    requires outbuff[..outp0] == front + Chars(length[..], i - 1)
    modifies outbuff
    ensures outp <= start + END && outbuff[..outp] == front + Chars(length[..], i)
  {
    ghost var lens := length[..];
    outp := outp0;
    var c := 0;
    while c < END
      invariant 0 <= c <= END && lens == length[..] && outp <= start + END
      invariant outbuff[..outp] == front + Chars(lens, i - 1) + CharsAt(lens, i, c)
    {
      if length[c] == i {
        RoomForChar(lens, i, c);
        outbuff[outp] := c;
        outp := outp + 1;
      }
      c := c + 1;
    }
    assert front + Chars(lens, i) == front + Chars(lens, i - 1) + CharsAt(lens, i, END);
  }

  // "output ``PACKED'' header" and the dictionary
  method WriteHeader(outbuff: array<Byte>, length: array<nat>, levcount: array<nat>, maxlev: nat, insize: nat)
    returns (outp: nat)
    requires outbuff.Length == BLKSIZE + 4 && length.Length == levcount.Length == END + 1
    requires outbuff as object != length && outbuff as object != levcount
    requires PackableLengths(length[..], maxlev)
    requires forall k :: 1 <= k <= LEVELS ==> levcount[k] == Leaves(length[..], k)
    modifies outbuff
    ensures outp < BLKSIZE && outbuff[..outp] == Header(insize, length[..], maxlev)
  {
    WriteSize(outbuff, insize);
    outp := WriteCounts(outbuff, maxlev, levcount, length[..]);
    outp := WriteChars(outbuff, outp, maxlev, length);
  }

  lemma RoomForChar(lens: LengthList, i: nat, c: nat)
    requires |lens| == END + 1 && c < END && 1 <= i && lens[c] == i
    ensures |Chars(lens, i - 1)| + |CharsAt(lens, i, c)| < END
  {
    CharsLength(lens, i - 1);
    CharsLength(lens, i);
    CountMonotone(lens, i, c, END);
    NextLevelCount(lens, i - 1, END);
  }

  // ---- The text ---------------------------------------------------------------------

  // The codewords of the bytes, without END.
  function TextBits(lens: LengthList, maxlev: nat, text: seq<Byte>): seq<bool>
    requires |lens| == END + 1
  {
    if text == [] then []
    else TextBits(lens, maxlev, text[..|text| - 1]) + CodeBits(lens, maxlev, text[|text| - 1])
  }

  function MessageBits(lens: LengthList, maxlev: nat, text: seq<Byte>): seq<bool>
    requires |lens| == END + 1
  {
    TextBits(lens, maxlev, text) + CodeBits(lens, maxlev, END)
  }

  // The table bits is complete and every byte of the text has a codeword.
  ghost predicate Encodes(lens: LengthList, maxlev: nat, bits: seq<nat>, text: seq<Byte>) {
    && PackableLengths(lens, maxlev) && |bits| == END + 1 && FilledFrom(lens, maxlev, bits, 0, 0)
    && forall i :: 0 <= i < |text| ==> lens[text[i]] > 0
  }

  // The byte at outp as far as it has been written.
  function Partial(outbuff: seq<Byte>, outp: nat, bitsleft: nat): Byte
    requires outp < |outbuff|
  {
    if bitsleft == 8 then 0 else outbuff[outp]
  }

  lemma MaskBound(lens: LengthList, maxlev: nat, bits: seq<nat>, c: nat, bitsleft: nat) returns (mask: nat)
    requires PackableLengths(lens, maxlev) && |bits| == END + 1 && FilledFrom(lens, maxlev, bits, 0, 0)
    requires c <= END && lens[c] > 0 && bitsleft <= 8
    ensures mask == bits[c] * Pow2(bitsleft)
    ensures Codeword(lens, maxlev, c) < Pow2(lens[c]) && lens[c] <= LEVELS
    ensures mask == Codeword(lens, maxlev, c) * Pow2(LEVELS - lens[c] + bitsleft) < 0x1_0000_0000
  {
    assert TableEntry(lens, maxlev, bits, c);
    var cw, len := Codeword(lens, maxlev, c), lens[c];
    CodewordFits(lens, maxlev, c);
    var k := LEVELS - len;
    mask := ShiftedMask(cw, len, k, bitsleft);
    assert Pow2(8) == 256;
    WordBound(cw, len, k + bitsleft);
  }

  lemma ShiftedMask(cw: nat, len: nat, k: nat, bitsleft: nat) returns (mask: nat)
    ensures mask == cw * Pow2(k) * Pow2(bitsleft) == cw * Pow2(k + bitsleft)
  {
    Pow2Add(k, bitsleft);
    var p, q := Pow2(k), Pow2(bitsleft);
    mask := cw * (p * q);
    assert cw * (p * q) == cw * p * q;
  }

  lemma WordBound(cw: nat, len: nat, k: nat)
    requires cw < Pow2(len) && len + k <= 32
    ensures cw * Pow2(k) < 0x1_0000_0000
  {
    Scaled(cw, Pow2(len), Pow2(k));
    Pow2Add(len, k);
    Pow2Monotone(len + k, 32);
    Pow2Of32();
  }

  lemma Scaled(x: nat, y: nat, p: nat)
    requires x < y && p > 0
    ensures x * p < y * p
  {
  }

  lemma Pow2Of32()
    ensures Pow2(32) == 0x1_0000_0000
  {
    assert Pow2(8) == 256;
    Pow2Add(8, 8);
    Pow2Add(16, 16);
  }

  // The body of the output loop up to the write: one codeword joins the stream.
  method PutSymbol(outbuff: array<Byte>, outp0: nat, left0: nat, mask: nat, len: nat,
                   ghost bytes: seq<Byte>, ghost b: seq<bool>, ghost cw: nat)
    returns (outp: nat, bitsleft: nat, ghost more: seq<Byte>)
    requires outbuff.Length == BLKSIZE + 4 && outp0 < BLKSIZE && left0 <= 8
    requires 1 <= len <= LEVELS && cw < Pow2(len) && mask == cw * Pow2(LEVELS - len + left0) < 0x1_0000_0000
    requires Stream(bytes, Partial(outbuff[..], outp0, left0), left0, b)
    modifies outbuff
    ensures outp0 <= outp <= outp0 + 3 && bitsleft < 8 && outbuff[..outp] == old(outbuff[..outp0]) + more
    ensures Stream(bytes + more, outbuff[outp], bitsleft, b + NumberBits(cw, len))
  {
    ghost var last := Partial(outbuff[..], outp0, left0);
    ghost var m := MergedAsBytes(last, mask);
    ghost var front := outbuff[..outp0];
    if left0 == 8 {
      outbuff[outp0] := MaskByte(mask, 0);
    } else {
      assert Merged(last, mask)[0] == m[0];
      outbuff[outp0] := Or(outbuff[outp0], MaskByte(mask, 0));
    }
    assert outbuff[..outp0] == front && outbuff[outp0] == m[0];
    outp, bitsleft := CarryOver(outbuff, outp0, left0, mask, len, m);
    more := m[..outp - outp0];
    StreamStep(bytes, last, left0, b, cw, len, mask, m, outp - outp0);
  }

  // while (bitsleft < 0) { *++outp = **q++; bitsleft += 8; }
  method CarryOver(outbuff: array<Byte>, outp0: nat, left0: nat, mask: nat, len: nat, ghost m: seq<Byte>)
    returns (outp: nat, bitsleft: nat)
    requires outbuff.Length == BLKSIZE + 4 && outp0 < BLKSIZE && left0 <= 8 && 1 <= len <= LEVELS
    requires |m| == 4 && (forall i :: 1 <= i < 4 ==> m[i] == MaskByte(mask, i)) && outbuff[outp0] == m[0]
    modifies outbuff
    ensures outp0 <= outp <= outp0 + 3 && bitsleft < 8 && bitsleft == left0 + 8 * (outp - outp0) - len
    ensures outbuff[..outp] == old(outbuff[..outp0]) + m[..outp - outp0] && outbuff[outp] == m[outp - outp0]
  {
    ghost var front := outbuff[..outp0];
    outp := outp0;
    var left: int := left0 - len;
    var q := 1;
    while left < 0
      invariant 1 <= q <= 4 && outp == outp0 + q - 1 && left == left0 - len + 8 * (q - 1) < 8
      invariant outbuff[..outp] == front + m[..q - 1] && outbuff[outp] == m[q - 1]
    {
      outp := outp + 1;
      assert outbuff[..outp] == front + m[..q];
      outbuff[outp] := MaskByte(mask, q);
      q := q + 1;
      left := left + 8;
    }
    bitsleft := left;
  }

  lemma MergedAsBytes(last: Byte, mask: nat) returns (m: seq<Byte>)
    ensures m == Merged(last, mask)
  {
    MergedAreBytes(last, mask);
    assert Or(last, MaskByte(mask, 0)) == Merged(last, mask)[0];
    var first: Byte := Or(last, MaskByte(mask, 0));
    m := [first, MaskByte(mask, 1), MaskByte(mask, 2), MaskByte(mask, 3)];
  }

  // A full block goes to the file and the overhang moves to the front.
  method FlushBlock(outbuff: array<Byte>, outp0: nat, written0: seq<Byte>) returns (outp: nat, written: seq<Byte>)
    requires outbuff.Length == BLKSIZE + 4 && outp0 < BLKSIZE + 4
    modifies outbuff
    ensures outp < BLKSIZE && outp == if outp0 >= BLKSIZE then outp0 - BLKSIZE else outp0
    ensures written + outbuff[..outp] == written0 + old(outbuff[..outp0]) && outbuff[outp] == old(outbuff[outp0])
    ensures |written0| % BLKSIZE == 0 ==> |written| % BLKSIZE == 0
  {
    outp, written := outp0, written0;
    if outp >= BLKSIZE {
      ghost var whole := outbuff[..];
      written := written + outbuff[..BLKSIZE];
      outbuff[0], outbuff[1], outbuff[2], outbuff[3] :=
        outbuff[BLKSIZE], outbuff[BLKSIZE + 1], outbuff[BLKSIZE + 2], outbuff[BLKSIZE + 3];
      outp := outp - BLKSIZE;
      assert outbuff[..outp] == whole[BLKSIZE..outp0];
      assert whole[..outp0] == whole[..BLKSIZE] + whole[BLKSIZE..outp0];
    }
  }

  // s is b followed by fewer than eight zero bits.
  ghost predicate Padded(s: seq<bool>, b: seq<bool>) {
    |b| <= |s| < |b| + 8 && s == b + Zeros(|s| - |b|)
  }

  // The packed form of a text: the header, then its codewords and END's, padded.
  ghost predicate PackedAs(file: seq<Byte>, size: nat, lens: LengthList, maxlev: nat, text: seq<Byte>)
    requires |lens| == END + 1
  {
    var h := Header(size, lens, maxlev);
    |h| <= |file| && file[..|h|] == h && Padded(BitsOf(file[|h|..]), MessageBits(lens, maxlev, text))
  }

  // The input buffer: inleft bytes from inp on are still unread, and the file offset is fpos.
  ghost predicate Reading(infile: seq<Byte>, pos: nat, fpos: nat, inbuff: seq<Byte>, inp: nat, inleft: nat) {
    pos + inleft == fpos <= |infile| && inp + inleft == |inbuff| && inbuff[inp..] == infile[pos..fpos]
  }

  // c = (--inleft < 0) ? END : (*inp++ & 0377), refilling the buffer first when it is empty.
  method NextSymbol(infile: seq<Byte>, ghost pos: nat, fpos0: nat, inbuff0: seq<Byte>, inp0: nat, inleft0: nat)
    returns (c: nat, fpos: nat, inbuff: seq<Byte>, inp: nat, inleft: int)
    requires Reading(infile, pos, fpos0, inbuff0, inp0, inleft0)
    ensures pos < |infile| ==> c == infile[pos] && inleft >= 0 && Reading(infile, pos + 1, fpos, inbuff, inp, inleft)
    ensures pos == |infile| ==> c == END && inleft < 0
  {
    fpos, inbuff, inp, inleft := fpos0, inbuff0, inp0, inleft0;
    if inleft <= 0 {
      var n := if |infile| - fpos < BLKSIZE then |infile| - fpos else BLKSIZE;
      inbuff := infile[fpos..fpos + n];
      fpos, inleft, inp := fpos + n, n, 0;
    }
    inleft := inleft - 1;
    if inleft < 0 {
      c := END;
    } else {
      assert inbuff[inp] == inbuff[inp..][0];
      c := inbuff[inp];
      inp := inp + 1;
    }
  }

  lemma TextStep(lens: LengthList, maxlev: nat, text: seq<Byte>, pos: nat)
    requires |lens| == END + 1 && pos < |text|
    ensures TextBits(lens, maxlev, text[..pos + 1])
         == TextBits(lens, maxlev, text[..pos]) + CodeBits(lens, maxlev, text[pos])
  {
    assert text[..pos + 1][..pos] == text[..pos];
  }

  // One round of the output loop for symbol c.
  method OutputSymbol(outbuff: array<Byte>, bits: array<nat>, length: array<nat>, c: nat, outp0: nat, left0: nat,
                      written0: seq<Byte>, ghost maxlev: nat, ghost h: seq<Byte>, ghost body0: seq<Byte>,
                      ghost b: seq<bool>)
    returns (outp: nat, bitsleft: nat, written: seq<Byte>, ghost body: seq<Byte>)
    requires outbuff.Length == BLKSIZE + 4 && bits.Length == length.Length == END + 1 && c <= END
    requires outbuff as object != bits && outbuff as object != length
    requires PackableLengths(length[..], maxlev) && FilledFrom(length[..], maxlev, bits[..], 0, 0) && length[c] > 0
    requires outp0 < BLKSIZE && left0 <= 8 && written0 + outbuff[..outp0] == h + body0
    requires Stream(body0, Partial(outbuff[..], outp0, left0), left0, b)
    modifies outbuff
    ensures outp < BLKSIZE && bitsleft < 8 && written + outbuff[..outp] == h + body
    ensures Stream(body, outbuff[outp], bitsleft, b + CodeBits(length[..], maxlev, c))
  {
    ghost var mask0 := MaskBound(length[..], maxlev, bits[..], c, left0);
    var mask := bits[c] * Pow2(left0);
    ghost var front, more := outbuff[..outp0], [];
    outp, bitsleft, more := PutSymbol(outbuff, outp0, left0, mask, length[c], body0, b,
            Codeword(length[..], maxlev, c));
    body := body0 + more;
    Appended(written0, front, h, body0, more);
    outp, written := FlushBlock(outbuff, outp, written0);
  }

  lemma Appended(w: seq<Byte>, front: seq<Byte>, h: seq<Byte>, body: seq<Byte>, more: seq<Byte>)
    requires w + front == h + body
    ensures w + (front + more) == h + (body + more)
  {
    assert w + (front + more) == (w + front) + more;
  }

  lemma NothingYet(lens: LengthList, maxlev: nat, infile: seq<Byte>)
    requires |lens| == END + 1
    ensures Stream([], 0, 8, TextBits(lens, maxlev, infile[..0]))
  {
    assert infile[..0] == [];
    ZeroBits(8);
  }

  method Output(infile: seq<Byte>, outbuff: array<Byte>, bits: array<nat>, length: array<nat>, levcount: array<nat>,
                maxlev: nat, insize: nat)
    returns (outfile: seq<Byte>, dictsize: nat)
    requires outbuff.Length == BLKSIZE + 4 && bits.Length == length.Length == levcount.Length == END + 1
    requires outbuff as object != bits && outbuff as object != length && outbuff as object != levcount
    requires Encodes(length[..], maxlev, bits[..], infile)
    requires forall k :: 1 <= k <= LEVELS ==> levcount[k] == Leaves(length[..], k)
    modifies outbuff
    ensures PackedAs(outfile, insize, length[..], maxlev, infile)
    ensures dictsize == |Header(insize, length[..], maxlev)|
  {
    ghost var lens := length[..];
    var outp: nat := WriteHeader(outbuff, length, levcount, maxlev, insize);
    dictsize := outp;
    ghost var h := outbuff[..outp];

    outfile := [];
    var bitsleft: nat := 8;
    var fpos: nat, inbuff: seq<Byte>, inp: nat, inleft: int := 0, [], 0, 0;
    ghost var pos: nat, body: seq<Byte> := 0, [];
    var c: nat := 0;
    NothingYet(lens, maxlev, infile);
    assert outfile + outbuff[..outp] == h + body;
    while c != END
      invariant lens == length[..] && outp < BLKSIZE && bitsleft <= 8 && pos <= |infile|
      invariant outfile + outbuff[..outp] == h + body
      invariant c != END ==> inleft >= 0 && Reading(infile, pos, fpos, inbuff, inp, inleft)
      invariant c != END
                ==> Stream(body, Partial(outbuff[..], outp, bitsleft), bitsleft, TextBits(lens, maxlev, infile[..pos]))
      invariant c == END ==> bitsleft < 8 && Stream(body, outbuff[outp], bitsleft, MessageBits(lens, maxlev, infile))
      decreases c != END, |infile| - pos
    {
      ghost var b := TextBits(lens, maxlev, infile[..pos]);
      c, fpos, inbuff, inp, inleft := NextSymbol(infile, pos, fpos, inbuff, inp, inleft);
      outp, bitsleft, outfile, body :=
        OutputSymbol(outbuff, bits, length, c, outp, bitsleft, outfile, maxlev, h, body, b);
      if pos < |infile| {
        TextStep(lens, maxlev, infile, pos);
        pos := pos + 1;
      } else {
        assert infile[..pos] == infile;
      }
    }
    Appended(outfile, outbuff[..outp], h, body, [outbuff[outp]]);
    assert outbuff[..outp + 1] == outbuff[..outp] + [outbuff[outp]];
    Finished(body, outbuff[outp], bitsleft, MessageBits(lens, maxlev, infile));
    outp := outp + 1;
    outfile := outfile + outbuff[..outp];
  }

  lemma Finished(body: seq<Byte>, last: Byte, bitsleft: nat, b: seq<bool>)
    requires Stream(body, last, bitsleft, b) && bitsleft < 8
    ensures Padded(BitsOf(body + [last]), b)
  {
    BitsOfConcat(body, [last]);
    assert BitsOf([last]) == NumberBits(last, 8) + BitsOf([]);
    assert NumberBits(last, 8) == NumberBits(last, 8)[..8 - bitsleft] + Zeros(bitsleft);
  }
}
