// cpio.c: the two forms of an archive header, and an archive as a string of bytes.
module CpioFormat {
  import opened Common

  const MAGIC := 29127
  const HDRSIZE := 26
  const CHARS := 76

  // "TRAILER!!!"
  const TRAILER: seq<Byte> := [84, 82, 65, 73, 76, 69, 82, 33, 33, 33]

  // -c or not, and in the binary form the byte order of the machine
  datatype Format = Binary(big: bool) | Ascii

  datatype Info = Info(dev: int, ino: int, mode: int, uid: int, gid: int, nlink: int, rdev: int, mtime: int)

  datatype Header = Header(info: Info, namesize: int, filesize: int)

  // A member of an archive
  datatype Entry = Entry(name: seq<Byte>, info: Info, contents: seq<Byte>)

  predicate Is16(v: int) { 0 <= v < 65536 }

  predicate Is32(v: int) { 0 <= v < 0x1_0000_0000 }

  predicate InfoFits(i: Info) {
    Is16(i.dev) && Is16(i.ino) && Is16(i.mode) && Is16(i.uid) && Is16(i.gid) && Is16(i.nlink) && Is16(i.rdev)
    && Is32(i.mtime)
  }

  predicate HeaderFits(h: Header) {
    InfoFits(h.info) && Is16(h.namesize) && Is32(h.filesize)
  }

  // ---- Numbers -----------------------------------------------------------------------

  function Short(big: bool, v: int): (s: seq<Byte>)
    requires Is16(v)
    ensures |s| == 2
  {
    if big then [v / 256, v % 256] else [v % 256, v / 256]
  }

  function FromShort(big: bool, s: seq<Byte>): (v: int)
    requires |s| == 2
    ensures Is16(v)
  {
    var first: int, second: int := s[0], s[1];
    if big then 256 * first + second else 256 * second + first
  }

  // MKSHORT: the high half comes first on every machine.
  function Long(big: bool, v: int): (s: seq<Byte>)
    requires Is32(v)
    ensures |s| == 4
  {
    Short(big, v / 65536) + Short(big, v % 65536)
  }

  // mklong
  function FromLong(big: bool, s: seq<Byte>): (v: int)
    requires |s| == 4
    ensures Is32(v)
  {
    65536 * FromShort(big, s[..2]) + FromShort(big, s[2..])
  }

  lemma ShortBack(big: bool, v: int)
    requires Is16(v)
    ensures FromShort(big, Short(big, v)) == v
  {
  }

  lemma LongBack(big: bool, v: int)
    requires Is32(v)
    ensures FromLong(big, Long(big, v)) == v
  {
    var s := Long(big, v);
    assert s[..2] == Short(big, v / 65536) && s[2..] == Short(big, v % 65536);
  }

  // %.6o and the like
  function Octal(v: nat, n: nat): (s: seq<Byte>)
    ensures |s| == n
  {
    if n == 0 then [] else Octal(v / 8, n - 1) + [48 + v % 8]
  }

  predicate IsOctal(s: seq<Byte>) {
    forall i :: 0 <= i < |s| ==> 48 <= s[i] < 56
  }

  function FromOctal(s: seq<Byte>): (v: nat)
    requires IsOctal(s)
  {
    if s == [] then 0 else 8 * FromOctal(s[..|s| - 1]) + (s[|s| - 1] - 48)
  }

  function Pow8(n: nat): nat {
    if n == 0 then 1 else 8 * Pow8(n - 1)
  }

  lemma {:induction false} OctalBack(v: nat, n: nat)
    requires v < Pow8(n)
    ensures IsOctal(Octal(v, n)) && FromOctal(Octal(v, n)) == v
  {
    if n > 0 {
      OctalBack(v / 8, n - 1);
      var s := Octal(v, n);
      assert s[..n - 1] == Octal(v / 8, n - 1);
    }
  }

  // ---- Fields one after the other ---------------------------------------------------------

  // s is found in b at p.
  predicate At(b: seq<Byte>, p: nat, s: seq<Byte>) {
    p + |s| <= |b| && b[p..p + |s|] == s
  }

  lemma AtBoth(b: seq<Byte>, p: nat, s: seq<Byte>, t: seq<Byte>)
    requires At(b, p, s + t)
    ensures At(b, p, s) && At(b, p + |s|, t)
  {
    assert b[p..p + |s|] == (s + t)[..|s|];
    assert b[p + |s|..p + |s| + |t|] == (s + t)[|s|..];
  }

  // The numbers of a header in their order, with the width of each in shorts or digits
  function Fields(h: Header): (f: seq<int>)
    ensures |f| == 11
  {
    [MAGIC, h.info.dev, h.info.ino, h.info.mode, h.info.uid, h.info.gid, h.info.nlink, h.info.rdev,
     h.info.mtime, h.namesize, h.filesize]
  }

  function FromFields(f: seq<int>): (h: Header)
    requires |f| == 11
  {
    Header(Info(f[1], f[2], f[3], f[4], f[5], f[6], f[7], f[8]), f[9], f[10])
  }

  predicate IsWide(k: nat) { k == 8 || k == 10 }

  function Width(fmt: Format, k: nat): nat {
    match fmt
    case Binary(_) => if IsWide(k) then 4 else 2
    case Ascii => if IsWide(k) then 11 else 6
  }

  predicate FieldFits(k: nat, v: int) {
    if IsWide(k) then Is32(v) else Is16(v)
  }

  function FieldImage(fmt: Format, k: nat, v: int): (s: seq<Byte>)
    requires FieldFits(k, v)
    ensures |s| == Width(fmt, k)
  {
    match fmt
    case Binary(big) => if IsWide(k) then Long(big, v) else Short(big, v)
    case Ascii => Octal(v, Width(fmt, k))
  }

  // sscanf stores what it read in a short or a long.
  function FieldValue(fmt: Format, k: nat, s: seq<Byte>): (v: Option<int>)
    requires |s| == Width(fmt, k)
    ensures v.Some? ==> FieldFits(k, v.value)
  {
    match fmt
    case Binary(big) => Some(if IsWide(k) then FromLong(big, s) else FromShort(big, s))
    case Ascii =>
      if !IsOctal(s) then None
      else Some(if IsWide(k) then FromOctal(s) % 0x1_0000_0000 else FromOctal(s) % 65536)
  }

  lemma PowersOf8()
    ensures Pow8(6) == 262144 && Pow8(11) == 8589934592
  {
    assert Pow8(3) == 512;
    assert Pow8(6) == 262144;
  }

  lemma AsciiBack(k: nat, v: int)
    requires FieldFits(k, v)
    ensures FieldValue(Ascii, k, FieldImage(Ascii, k, v)) == Some(v)
  {
    PowersOf8();
    var n := Width(Ascii, k);
    OctalBack(v, n);
    Narrow(FromOctal(Octal(v, n)), k);
  }

  lemma Narrow(v: nat, k: nat)
    requires FieldFits(k, v)
    ensures (if IsWide(k) then v % 0x1_0000_0000 else v % 65536) == v
  {
  }

  lemma FieldBack(fmt: Format, k: nat, v: int)
    requires FieldFits(k, v)
    ensures FieldValue(fmt, k, FieldImage(fmt, k, v)) == Some(v)
  {
    match fmt
    case Binary(big) =>
      if IsWide(k) {
        LongBack(big, v);
      } else {
        ShortBack(big, v);
      }
    case Ascii => AsciiBack(k, v);
  }

  function Images(fmt: Format, f: seq<int>, k: nat): (s: seq<Byte>)
    requires k <= |f| && forall j :: k <= j < |f| ==> FieldFits(j, f[j])
    decreases |f| - k
  {
    if k == |f| then [] else FieldImage(fmt, k, f[k]) + Images(fmt, f, k + 1)
  }

  // The values of the fields from k on, read at p
  function Values(fmt: Format, b: seq<Byte>, p: nat, k: nat): (f: Option<seq<int>>)
    requires k <= 11
    ensures f.Some? ==> |f.value| == 11 - k
    decreases 11 - k
  {
    if k == 11 then Some([])
    else if p + Width(fmt, k) > |b| then None
    else
      var v := FieldValue(fmt, k, b[p..p + Width(fmt, k)]);
      var rest := Values(fmt, b, p + Width(fmt, k), k + 1);
      if v.Some? && rest.Some? then Some([v.value] + rest.value) else None
  }

  lemma {:induction false} ValuesBack(fmt: Format, f: seq<int>, b: seq<Byte>, p: nat, k: nat)
    requires |f| == 11 && k <= 11 && forall j :: 0 <= j < 11 ==> FieldFits(j, f[j])
    requires At(b, p, Images(fmt, f, k))
    ensures Values(fmt, b, p, k) == Some(f[k..])
    decreases 11 - k
  {
    if k < 11 {
      AtBoth(b, p, FieldImage(fmt, k, f[k]), Images(fmt, f, k + 1));
      FieldBack(fmt, k, f[k]);
      ValuesBack(fmt, f, b, p + Width(fmt, k), k + 1);
      assert f[k..] == [f[k]] + f[k + 1..];
    }
  }

  function HeaderSize(fmt: Format): nat {
    if fmt.Ascii? then CHARS else HDRSIZE
  }

  lemma {:induction false} ImagesLength(fmt: Format, f: seq<int>, k: nat)
    requires |f| == 11 && k <= 11 && forall j :: 0 <= j < 11 ==> FieldFits(j, f[j])
    ensures |Images(fmt, f, k)| == WidthFrom(fmt, k)
    decreases 11 - k
  {
    if k < 11 {
      ImagesLength(fmt, f, k + 1);
    }
  }

  function WidthFrom(fmt: Format, k: nat): nat
    requires k <= 11
    decreases 11 - k
  {
    if k == 11 then 0 else Width(fmt, k) + WidthFrom(fmt, k + 1)
  }

  lemma WidthOfAll(fmt: Format)
    ensures WidthFrom(fmt, 0) == HeaderSize(fmt)
  {
    assert WidthFrom(fmt, 8) == Width(fmt, 8) + Width(fmt, 9) + Width(fmt, 10);
    assert WidthFrom(fmt, 4) == 4 * Width(fmt, 0) + WidthFrom(fmt, 8);
    assert WidthFrom(fmt, 0) == 4 * Width(fmt, 0) + WidthFrom(fmt, 4);
  }

  // ---- Headers -----------------------------------------------------------------------------

  // bintochar, or the header as it lies in memory
  function Encode(fmt: Format, h: Header): (s: seq<Byte>)
    requires HeaderFits(h)
    ensures |s| == HeaderSize(fmt)
  {
    ImagesLength(fmt, Fields(h), 0);
    WidthOfAll(fmt);
    Images(fmt, Fields(h), 0)
  }

  // chartobin and the test of the magic number
  function Decode(fmt: Format, s: seq<Byte>): (h: Option<Header>)
  {
    var f := Values(fmt, s, 0, 0);
    if f.Some? && f.value[0] == MAGIC then Some(FromFields(f.value)) else None
  }

  lemma DecodeEncode(fmt: Format, h: Header)
    requires HeaderFits(h)
    ensures Decode(fmt, Encode(fmt, h)) == Some(h)
  {
    var f, s := Fields(h), Encode(fmt, h);
    assert s[0..|s|] == s;
    ValuesBack(fmt, f, s, 0, 0);
    assert f[0..] == f;
  }

  lemma {:induction false} ValuesFit(fmt: Format, b: seq<Byte>, p: nat, k: nat)
    requires k <= 11
    ensures Values(fmt, b, p, k).Some?
            ==> forall i :: 0 <= i < 11 - k ==> FieldFits(k + i, Values(fmt, b, p, k).value[i])
    decreases 11 - k
  {
    if k < 11 && p + Width(fmt, k) <= |b| {
      ValuesFit(fmt, b, p + Width(fmt, k), k + 1);
      var f, rest := Values(fmt, b, p, k), Values(fmt, b, p + Width(fmt, k), k + 1);
      if f.Some? {
        forall i | 0 <= i < 11 - k ensures FieldFits(k + i, f.value[i]) {
          if i > 0 {
            assert f.value[i] == rest.value[i - 1];
            assert FieldFits(k + 1 + (i - 1), rest.value[i - 1]);
          }
        }
      }
    }
  }

  lemma DecodeFits(fmt: Format, s: seq<Byte>)
    ensures Decode(fmt, s).Some? ==> HeaderFits(Decode(fmt, s).value)
  {
    var f := Values(fmt, s, 0, 0);
    ValuesFit(fmt, s, 0, 0);
    if f.Some? {
      assert forall i :: 0 <= i < 11 ==> FieldFits(0 + i, f.value[i]);
    }
  }

  // ---- Where the numbers are ---------------------------------------------------------------

  function FieldOffset(fmt: Format, k: nat): nat {
    if k == 0 then 0 else FieldOffset(fmt, k - 1) + Width(fmt, k - 1)
  }

  lemma {:induction false} ImagesFrom(fmt: Format, f: seq<int>, k: nat)
    requires |f| == 11 && k <= 11 && forall j :: 0 <= j < 11 ==> FieldFits(j, f[j])
    ensures At(Images(fmt, f, 0), FieldOffset(fmt, k), Images(fmt, f, k))
  {
    var s := Images(fmt, f, 0);
    if k == 0 {
      assert s[0..|s|] == s;
    } else {
      ImagesFrom(fmt, f, k - 1);
      AtBoth(s, FieldOffset(fmt, k - 1), FieldImage(fmt, k - 1, f[k - 1]), Images(fmt, f, k));
    }
  }

  lemma FieldAt(fmt: Format, h: Header, k: nat)
    requires HeaderFits(h) && k < 11
    ensures FieldFits(k, Fields(h)[k]) && At(Encode(fmt, h), FieldOffset(fmt, k), FieldImage(fmt, k, Fields(h)[k]))
  {
    ImagesFrom(fmt, Fields(h), k);
    AtBoth(Encode(fmt, h), FieldOffset(fmt, k), FieldImage(fmt, k, Fields(h)[k]), Images(fmt, Fields(h), k + 1));
  }

  // The short at p
  function ShortAt(big: bool, s: seq<Byte>, p: nat): int
    requires p + 2 <= |s|
  {
    var first: int, second: int := s[p], s[p + 1];
    if big then 256 * first + second else 256 * second + first
  }

  // The long at p, its high half first
  function LongAt(big: bool, s: seq<Byte>, p: nat): int
    requires p + 4 <= |s|
  {
    65536 * ShortAt(big, s, p) + ShortAt(big, s, p + 2)
  }

  // The number is at p in the binary header, as a short or a long.
  predicate HasAt(big: bool, s: seq<Byte>, p: nat, wide: bool, v: int) {
    if wide then p + 4 <= |s| && LongAt(big, s, p) == v else p + 2 <= |s| && ShortAt(big, s, p) == v
  }

  // Number k of a header is where its width and those before say.
  ghost predicate BinaryHas(big: bool, h: Header, k: nat)
    requires HeaderFits(h) && k < 11
  {
    HasAt(big, Encode(Binary(big), h), FieldOffset(Binary(big), k), k == 8 || k == 10, Fields(h)[k])
  }

  lemma BinaryField(big: bool, h: Header, k: nat)
    requires HeaderFits(h) && k < 11
    ensures BinaryHas(big, h, k)
  {
    FieldAt(Binary(big), h, k);
    if IsWide(k) {
      LongIsAt(big, Encode(Binary(big), h), FieldOffset(Binary(big), k), Fields(h)[k]);
    } else {
      ShortIsAt(big, Encode(Binary(big), h), FieldOffset(Binary(big), k), Fields(h)[k]);
    }
  }

  lemma ShortIsAt(big: bool, s: seq<Byte>, p: nat, v: int)
    requires Is16(v) && At(s, p, Short(big, v))
    ensures HasAt(big, s, p, false, v)
  {
    var t := s[p..p + 2];
    assert s[p] == t[0] && s[p + 1] == t[1];
  }

  lemma LongIsAt(big: bool, s: seq<Byte>, p: nat, v: int)
    requires Is32(v) && At(s, p, Long(big, v))
    ensures HasAt(big, s, p, true, v)
  {
    AtBoth(s, p, Short(big, v / 65536), Short(big, v % 65536));
    ShortIsAt(big, s, p, v / 65536);
    ShortIsAt(big, s, p + 2, v % 65536);
  }

  // The binary header as it lies in memory
  lemma BinaryLayout(big: bool, h: Header)
    requires HeaderFits(h)
    ensures var s, i := Encode(Binary(big), h), h.info;
            && |s| == 26 && HasAt(big, s, 0, false, 29127) && HasAt(big, s, 2, false, i.dev)
            && HasAt(big, s, 4, false, i.ino) && HasAt(big, s, 6, false, i.mode) && HasAt(big, s, 8, false, i.uid)
            && HasAt(big, s, 10, false, i.gid) && HasAt(big, s, 12, false, i.nlink) && HasAt(big, s, 14, false, i.rdev)
            && HasAt(big, s, 16, true, i.mtime) && HasAt(big, s, 20, false, h.namesize)
            && HasAt(big, s, 22, true, h.filesize)
  {
    Offsets(Binary(big), 2, 4);
    forall k: nat | k < 11 ensures BinaryHas(big, h, k) {
      BinaryField(big, h, k);
    }
    assert BinaryHas(big, h, 0) && BinaryHas(big, h, 1) && BinaryHas(big, h, 2) && BinaryHas(big, h, 3);
    assert BinaryHas(big, h, 4) && BinaryHas(big, h, 5) && BinaryHas(big, h, 6) && BinaryHas(big, h, 7);
    assert BinaryHas(big, h, 8) && BinaryHas(big, h, 9) && BinaryHas(big, h, 10);
  }

  lemma Offsets(fmt: Format, short: nat, long: nat)
    requires forall k :: 0 <= k < 11 ==> Width(fmt, k) == if k == 8 || k == 10 then long else short
    ensures forall k :: 0 <= k <= 8 ==> FieldOffset(fmt, k) == k * short
    ensures FieldOffset(fmt, 9) == 8 * short + long && FieldOffset(fmt, 10) == 9 * short + long
  {
    forall k | 0 <= k <= 8 ensures FieldOffset(fmt, k) == k * short {
      ShortOffset(fmt, short, k);
    }
  }

  lemma {:induction false} ShortOffset(fmt: Format, short: nat, k: nat)
    requires k <= 8 && forall j :: 0 <= j < 8 ==> Width(fmt, j) == short
    ensures FieldOffset(fmt, k) == k * short
  {
    if k > 0 {
      ShortOffset(fmt, short, k - 1);
    }
  }

  // The number is written at p in n octal digits.
  predicate WrittenAt(s: seq<Byte>, p: nat, n: nat, v: int) {
    p + n <= |s| && IsOctal(s[p..p + n]) && FromOctal(s[p..p + n]) == v
  }

  lemma AsciiField(h: Header, k: nat)
    requires HeaderFits(h) && k < 11
    ensures WrittenAt(Encode(Ascii, h), FieldOffset(Ascii, k), if k == 8 || k == 10 then 11 else 6, Fields(h)[k])
  {
    FieldAt(Ascii, h, k);
    PowersOf8();
    OctalBack(Fields(h)[k], Width(Ascii, k));
  }

  // The header of characters
  lemma AsciiLayout(h: Header)
    requires HeaderFits(h)
    ensures var s, i := Encode(Ascii, h), h.info;
            && |s| == 76 && WrittenAt(s, 0, 6, 29127) && WrittenAt(s, 6, 6, i.dev) && WrittenAt(s, 12, 6, i.ino)
            && WrittenAt(s, 18, 6, i.mode) && WrittenAt(s, 24, 6, i.uid) && WrittenAt(s, 30, 6, i.gid)
            && WrittenAt(s, 36, 6, i.nlink) && WrittenAt(s, 42, 6, i.rdev) && WrittenAt(s, 48, 11, i.mtime)
            && WrittenAt(s, 59, 6, h.namesize) && WrittenAt(s, 65, 11, h.filesize)
  {
    Offsets(Ascii, 6, 11);
    forall k: nat | k < 11
      ensures WrittenAt(Encode(Ascii, h), FieldOffset(Ascii, k), if k == 8 || k == 10 then 11 else 6, Fields(h)[k])
    {
      AsciiField(h, k);
    }
  }

  // ---- Either form, as the rest of the program sees it ---------------------------------------

  // A header takes size bytes; pairs says that bytes are moved two by two; trailer is the
  // name that ends an archive.
  datatype Codec = Codec(size: nat, pairs: bool, trailer: seq<Byte>,
                         encode: Header -> seq<Byte>, decode: seq<Byte> -> Option<Header>)
  {
    ghost predicate Good() {
      && size > 0 && (pairs ==> size % 2 == 0) && |trailer| < 256 && 0 !in trailer
      && (forall h :: HeaderFits(h) ==> |encode(h)| == size && decode(encode(h)) == Some(h))
      && (forall s :: decode(s).Some? ==> HeaderFits(decode(s).value))
    }
  }

  function CodecOf(fmt: Format): Codec {
    Codec(HeaderSize(fmt), fmt.Binary?, TRAILER, h => if HeaderFits(h) then Encode(fmt, h) else [], s => Decode(fmt, s))
  }

  // Both forms give back every header that fits them.
  lemma CodecGood(fmt: Format)
    ensures CodecOf(fmt).Good()
  {
    forall h | HeaderFits(h)
      ensures |CodecOf(fmt).encode(h)| == HeaderSize(fmt) && CodecOf(fmt).decode(CodecOf(fmt).encode(h)) == Some(h)
    {
      DecodeEncode(fmt, h);
    }
    forall s | CodecOf(fmt).decode(s).Some? ensures HeaderFits(CodecOf(fmt).decode(s).value) {
      DecodeFits(fmt, s);
    }
  }
}
