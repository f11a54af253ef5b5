// What pack.c writes, unpack.c reads back.
module RoundTrip {
  import opened PackFormat
  import opened Canonical
  import opened BitStream
  import opened PackOutput
  import UnpackDict
  import opened Unpack

  function LeafCounts(lens: LengthList, maxlev: nat): (c: seq<nat>)
    ensures |c| == maxlev && forall i :: 0 <= i < maxlev ==> c[i] == Leaves(lens, i + 1)
  {
    seq(maxlev, i requires i >= 0 => Leaves(lens, i + 1))
  }

  // The dictionary pack writes for a list of lengths.
  function DictOf(size: nat, lens: LengthList, maxlev: nat): UnpackDict.Dict
    requires END < |lens|
  {
    UnpackDict.Dict(size, LeafCounts(lens, maxlev), Chars(lens, maxlev), |Header(size, lens, maxlev)|)
  }

  // ---- The dictionary --------------------------------------------------------------

  lemma {:induction false} SameInner(lens: LengthList, maxlev: nat, lev: nat)
    requires lev <= maxlev
    ensures UnpackDict.InnerNodes(LeafCounts(lens, maxlev), lev) == Inner(lens, maxlev, lev)
    decreases maxlev - lev
  {
    if lev < maxlev {
      SameInner(lens, maxlev, lev + 1);
    }
  }

  // Below the last level every symbol is a byte, so the leaves before a level are the
  // characters before it.
  lemma {:induction false} TotalIsChars(lens: LengthList, maxlev: nat, lev: nat)
    requires PackableLengths(lens, maxlev) && lev <= maxlev
    ensures UnpackDict.Total(LeafCounts(lens, maxlev)[..lev]) == |Chars(lens, lev)| + if lev == maxlev then 1 else 0
  {
    if lev > 0 {
      TotalIsChars(lens, maxlev, lev - 1);
      var c := LeafCounts(lens, maxlev);
      assert c[..lev][..lev - 1] == c[..lev - 1];
      assert Leaves(lens, lev) == Count(lens, lev, END) + if lens[END] == lev then 1 else 0;
    }
  }

  lemma DictComplete(size: nat, lens: LengthList, maxlev: nat)
    requires PackableLengths(lens, maxlev)
    ensures UnpackDict.CompleteDict(DictOf(size, lens, maxlev))
  {
    var d := DictOf(size, lens, maxlev);
    SameInner(lens, maxlev, 0);
    forall lev | 1 <= lev <= maxlev ensures UnpackDict.EvenNodes(d.counts, lev) {
      SameInner(lens, maxlev, lev);
      assert EvenLevel(lens, maxlev, lev);
    }
    TotalIsChars(lens, maxlev, maxlev);
    assert d.counts[..maxlev] == d.counts;
    CharsLength(lens, maxlev);
  }

  lemma SizeRead(size: nat)
    requires size < 0x1_0000_0000
    ensures UnpackDict.BigEndian(SizeBytes(size)) == size
  {
    var b := SizeBytes(size);
    var s1: nat := size / 256;
    var s2: nat := s1 / 256;
    assert s1 < 0x100_0000 && s2 < 0x1_0000;
    assert b == [s2 / 256, s2 % 256, s1 % 256, size % 256];
    FourDigits(b, s2 / 256, s2 % 256, s1 % 256, size % 256);
  }

  lemma FourDigits(b: seq<Byte>, w: nat, x: nat, y: nat, z: nat)
    requires b == [w, x, y, z]
    ensures UnpackDict.BigEndian(b) == ((w * 256 + x) * 256 + y) * 256 + z
  {
    assert b[..1][..0] == [] && b[..2][..1] == b[..1] && b[..3][..2] == b[..2] && b[..4] == b;
    assert UnpackDict.BigEndian(b[..1]) == w;
    assert UnpackDict.BigEndian(b[..2]) == w * 256 + x;
    assert UnpackDict.BigEndian(b[..3]) == (w * 256 + x) * 256 + y;
  }

  lemma {:induction false} LevelBytesAt(lens: LengthList, maxlev: nat, n: nat)
    ensures |LevelBytes(lens, maxlev, n)| == n
    ensures forall i :: 0 <= i < n ==> LevelBytes(lens, maxlev, n)[i] == LevelByte(lens, maxlev, i + 1)
  {
    if n > 0 {
      LevelBytesAt(lens, maxlev, n - 1);
    }
  }

  // The count bytes as unpack sees them, before it adds two to the last.
  function RawCounts(lens: LengthList, maxlev: nat): (raw: seq<nat>)
    requires PackableLengths(lens, maxlev)
    ensures |raw| == maxlev && forall i :: 0 <= i < maxlev ==> raw[i] == LevelByte(lens, maxlev, i + 1)
  {
    LastLevelPaired(lens, maxlev);
    LeafCounts(lens, maxlev)[maxlev - 1 := Leaves(lens, maxlev) - 2]
  }

  lemma RawTotal(lens: LengthList, maxlev: nat)
    requires PackableLengths(lens, maxlev)
    ensures UnpackDict.PlusTwo(RawCounts(lens, maxlev)) == LeafCounts(lens, maxlev)
    ensures UnpackDict.Total(RawCounts(lens, maxlev)) + 1 == |Chars(lens, maxlev)| <= END
  {
    var raw, c := RawCounts(lens, maxlev), LeafCounts(lens, maxlev);
    assert raw[..maxlev - 1] == c[..maxlev - 1];
    assert c[..maxlev] == c;
    TotalIsChars(lens, maxlev, maxlev);
    CharsLength(lens, maxlev);
  }

  lemma SameCounts(b: seq<Byte>, lens: LengthList, maxlev: nat)
    requires PackableLengths(lens, maxlev) && b == LevelBytes(lens, maxlev, maxlev)
    ensures b == RawCounts(lens, maxlev)
  {
    LevelBytesAt(lens, maxlev, maxlev);
  }

  // A buffer starting with pack's header parses to pack's dictionary.
  lemma HeaderParsed(buf: seq<Byte>, n: nat, size: nat, lens: LengthList, maxlev: nat)
    requires PackableLengths(lens, maxlev) && |buf| == BUFSIZ && size < 0x1_0000_0000
    requires |Header(size, lens, maxlev)| <= n <= BUFSIZ
            && buf[..|Header(size, lens, maxlev)|] == Header(size, lens, maxlev)
    ensures UnpackDict.Parse(buf, n) == UnpackDict.Parsed(DictOf(size, lens, maxlev))
  {
    var h := Header(size, lens, maxlev);
    var raw := RawCounts(lens, maxlev);
    LevelBytesAt(lens, maxlev, maxlev);
    RawTotal(lens, maxlev);
    SizeRead(size);
    HeaderParts(buf, size, lens, maxlev);
    SameCounts(buf[7..7 + maxlev], lens, maxlev);
  }

  lemma HeaderParts(buf: seq<Byte>, size: nat, lens: LengthList, maxlev: nat)
    requires PackableLengths(lens, maxlev) && |LevelBytes(lens, maxlev, maxlev)| == maxlev
    requires var h := Header(size, lens, maxlev); |h| <= |buf| && buf[..|h|] == h
    ensures var h := Header(size, lens, maxlev);
      && |h| == 7 + maxlev + |Chars(lens, maxlev)|
      && buf[0] == US && buf[1] == RS && buf[2..6] == SizeBytes(size) && buf[6] == maxlev
      && buf[7..7 + maxlev] == LevelBytes(lens, maxlev, maxlev) && buf[7 + maxlev..|h|] == Chars(lens, maxlev)
  {
    FiveParts(buf, SizeBytes(size), maxlev, LevelBytes(lens, maxlev, maxlev), Chars(lens, maxlev));
  }

  lemma FiveParts(buf: seq<Byte>, size: seq<Byte>, maxlev: Byte, levels: seq<int>, chars: seq<Byte>)
    requires |size| == 4 && |levels| == maxlev
    requires var h := [US, RS] + size + [maxlev] + levels + chars; |h| <= |buf| && buf[..|h|] == h
    ensures var n := 7 + maxlev + |chars|;
      && buf[0] == US && buf[1] == RS && buf[2..6] == size && buf[6] == maxlev
      && buf[7..7 + maxlev] == levels && buf[7 + maxlev..n] == chars
  {
    var h := [US, RS] + size + [maxlev] + levels + chars;
    assert forall i :: 0 <= i < |h| ==> buf[i] == h[i];
  }

  // ---- The bit stream --------------------------------------------------------------

  // Decoding by whole leaves.
  ghost function AfterLeaf(d: UnpackDict.Dict, f: Found): Decoded
    requires UnpackDict.CompleteDict(d)
    requires f.Found? ==> 1 <= f.lev <= |d.counts|
  {
    match f
    case Exhausted => Decoded([], false)
    case Found(lev, j, rest) =>
      var p := UnpackDict.Start(d.counts, lev) + j;
      if p >= |d.chars| then Decoded([], true)
      else Prepend([d.chars[p]], Decode(d, rest, 1, 0))
  }

  lemma {:induction false} DecodeDescends(d: UnpackDict.Dict, inner: nat -> nat, bits: seq<bool>, lev: nat, v: nat)
    requires UnpackDict.CompleteDict(d) && 1 <= lev <= |d.counts| && v < UnpackDict.InnerNodes(d.counts, lev - 1)
    requires forall k: nat {:trigger inner(k)} :: k <= |d.counts| ==> inner(k) == UnpackDict.InnerNodes(d.counts, k)
    ensures var f := Descend(inner, bits, lev, v); f.Found? ==> 1 <= f.lev <= |d.counts|
    ensures Decode(d, bits, lev, v) == AfterLeaf(d, Descend(inner, bits, lev, v))
    decreases |bits|
  {
    if bits != [] {
      var v' := 2 * v + if bits[0] then 1 else 0;
      DecodeStep(d, bits, lev, v);
      LeafInRange(d, lev, v, v');
      if v' < inner(lev) {
        DecodeDescends(d, inner, bits[1..], lev + 1, v');
      }
    }
  }

  lemma {:induction false} CharAtRank(lens: LengthList, lev: nat, c: nat, n: nat)
    requires c < n <= END < |lens| && lens[c] == lev
    ensures Count(lens, lev, c) < |CharsAt(lens, lev, n)| && CharsAt(lens, lev, n)[Count(lens, lev, c)] == c
  {
    if c < n - 1 {
      CharAtRank(lens, lev, c, n - 1);
    }
  }

  lemma {:induction false} CharsGrow(lens: LengthList, lev: nat, maxlev: nat)
    requires lev <= maxlev && END < |lens|
    ensures Chars(lens, lev) <= Chars(lens, maxlev)
  {
    if lev < maxlev {
      CharsGrow(lens, lev, maxlev - 1);
    }
  }

  // The leaf of symbol c is the character c, or for END the one past the characters.
  lemma LeafIsSymbol(lens: LengthList, maxlev: nat, c: nat)
    requires PackableLengths(lens, maxlev) && c <= END && lens[c] > 0
    ensures var p := UnpackDict.Start(LeafCounts(lens, maxlev), lens[c]) + Count(lens, lens[c], c);
            if c == END then p == |Chars(lens, maxlev)|
            else p < |Chars(lens, maxlev)| && Chars(lens, maxlev)[p] == c
  {
    var lev := lens[c];
    TotalIsChars(lens, maxlev, lev - 1);
    if c < END {
      CharAtRank(lens, lev, c, END);
      CharsGrow(lens, lev, maxlev);
    }
  }

  lemma SymbolAfterLeaf(d: UnpackDict.Dict, lev: nat, j: nat, c: nat, rest: seq<bool>)
    requires UnpackDict.CompleteDict(d) && 1 <= lev <= |d.counts| && c <= END
    requires var p := UnpackDict.Start(d.counts, lev) + j;
             if c == END then p == |d.chars| else p < |d.chars| && d.chars[p] == c
    ensures AfterLeaf(d, Found(lev, j, rest))
         == if c == END then Decoded([], true) else Prepend([c], Decode(d, rest, 1, 0))
  {
  }

  // Bits that lead to the leaf of symbol c
  lemma DecodeFound(d: UnpackDict.Dict, inner: nat -> nat, bits: seq<bool>, lev: nat, j: nat, c: nat, rest: seq<bool>)
    requires UnpackDict.CompleteDict(d) && 1 <= lev <= |d.counts| && c <= END
    requires forall k: nat {:trigger inner(k)} :: k <= |d.counts| ==> inner(k) == UnpackDict.InnerNodes(d.counts, k)
    requires Descend(inner, bits, 1, 0) == Found(lev, j, rest)
    requires var p := UnpackDict.Start(d.counts, lev) + j;
             if c == END then p == |d.chars| else p < |d.chars| && d.chars[p] == c
    ensures Decode(d, bits, 1, 0)
         == if c == END then Decoded([], true) else Prepend([c], Decode(d, rest, 1, 0))
  {
    DecodeDescends(d, inner, bits, 1, 0);
    SymbolAfterLeaf(d, lev, j, c, rest);
  }

  lemma SameInnerAll(d: UnpackDict.Dict, lens: LengthList, maxlev: nat)
    requires d.counts == LeafCounts(lens, maxlev)
    ensures forall k: nat :: k <= maxlev ==> Inner(lens, maxlev, k) == UnpackDict.InnerNodes(d.counts, k)
  {
    forall k: nat | k <= maxlev ensures Inner(lens, maxlev, k) == UnpackDict.InnerNodes(d.counts, k) {
      SameInner(lens, maxlev, k);
    }
  }

  lemma DecodeSymbol(size: nat, lens: LengthList, maxlev: nat, c: nat, rest: seq<bool>)
    requires PackableLengths(lens, maxlev) && c <= END && lens[c] > 0
    requires UnpackDict.CompleteDict(DictOf(size, lens, maxlev))
    ensures Decode(DictOf(size, lens, maxlev), CodeBits(lens, maxlev, c) + rest, 1, 0)
         == if c == END then Decoded([], true) else Prepend([c], Decode(DictOf(size, lens, maxlev), rest, 1, 0))
  {
    var d := DictOf(size, lens, maxlev);
    LeafIsSymbol(lens, maxlev, c);
    SameInnerAll(d, lens, maxlev);
    ReadCodeword(lens, maxlev, c, rest);
    DecodeFound(d, lev => Inner(lens, maxlev, lev), CodeBits(lens, maxlev, c) + rest,
                lens[c], Count(lens, lens[c], c), c, rest);
  }

  lemma {:induction false} DecodeText(size: nat, lens: LengthList, maxlev: nat, text: seq<Byte>, rest: seq<bool>)
    requires PackableLengths(lens, maxlev) && UnpackDict.CompleteDict(DictOf(size, lens, maxlev))
    requires forall i :: 0 <= i < |text| ==> lens[text[i]] > 0
    ensures Decode(DictOf(size, lens, maxlev), TextBits(lens, maxlev, text) + rest, 1, 0)
         == Prepend(text, Decode(DictOf(size, lens, maxlev), rest, 1, 0))
    decreases |text|
  {
    var d := DictOf(size, lens, maxlev);
    if text == [] {
      assert TextBits(lens, maxlev, text) + rest == rest;
    } else {
      var n := |text| - 1;
      var bits, code := TextBits(lens, maxlev, text[..n]), CodeBits(lens, maxlev, text[n]);
      assert TextBits(lens, maxlev, text) + rest == bits + (code + rest);
      DecodeText(size, lens, maxlev, text[..n], code + rest);
      DecodeSymbol(size, lens, maxlev, text[n], rest);
      PrependTwice(text[..n], text[n], Decode(d, rest, 1, 0));
      assert text == text[..n] + [text[n]];
    }
  }

  lemma DecodeMessage(size: nat, lens: LengthList, maxlev: nat, text: seq<Byte>, pad: seq<bool>)
    requires PackableLengths(lens, maxlev) && UnpackDict.CompleteDict(DictOf(size, lens, maxlev))
    requires forall i :: 0 <= i < |text| ==> lens[text[i]] > 0
    ensures Decode(DictOf(size, lens, maxlev), MessageBits(lens, maxlev, text) + pad, 1, 0) == Decoded(text, true)
  {
    var bits, code := TextBits(lens, maxlev, text), CodeBits(lens, maxlev, END);
    assert MessageBits(lens, maxlev, text) + pad == bits + (code + pad);
    DecodeText(size, lens, maxlev, text, code + pad);
    DecodeSymbol(size, lens, maxlev, END, pad);
  }

  // The header of a packed file, whatever the buffer held before
  lemma HeaderOfFile(file: seq<Byte>, lens: LengthList, maxlev: nat, size: nat, stale: seq<Byte>)
    requires PackableLengths(lens, maxlev) && size < 0x1_0000_0000 && |stale| == BUFSIZ
    requires var h := Header(size, lens, maxlev); |h| <= |file| && file[..|h|] == h
    ensures UnpackDict.Parse(UnpackDict.Filled(file, stale), if |file| < BUFSIZ then |file| else BUFSIZ)
         == UnpackDict.Parsed(DictOf(size, lens, maxlev))
  {
    var h := Header(size, lens, maxlev);
    RawTotal(lens, maxlev);
    LevelBytesAt(lens, maxlev, maxlev);
    assert |h| == 7 + maxlev + |Chars(lens, maxlev)|;
    assert UnpackDict.Filled(file, stale)[..|h|] == h;
    HeaderParsed(UnpackDict.Filled(file, stale), if |file| < BUFSIZ then |file| else BUFSIZ, size, lens, maxlev);
  }

  // Unpacking what was packed gives the text back, whatever unpack's buffer held before.
  lemma UnpackAfterPack(file: seq<Byte>, lens: LengthList, maxlev: nat, text: seq<Byte>, stale: seq<Byte>)
    requires PackableLengths(lens, maxlev) && PackedAs(file, |text|, lens, maxlev, text)
    requires forall i :: 0 <= i < |text| ==> lens[text[i]] > 0
    requires |text| < 0x1_0000_0000 && |stale| == BUFSIZ
    ensures Decodable(file, stale) && ResultFor(file, stale) == Unpacked(text)
  {
    var size := |text|;
    HeaderOfFile(file, lens, maxlev, size, stale);
    DictComplete(size, lens, maxlev);
    var bits := BitsOf(file[|Header(size, lens, maxlev)|..]);
    DecodeMessage(size, lens, maxlev, text, Zeros(|bits| - |MessageBits(lens, maxlev, text)|));
  }
}
