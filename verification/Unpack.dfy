// unpack.c: getdict() and decode() together, and the round trip with pack.c.
module Unpack {
  import opened Sums
  import opened PackFormat
  import opened Canonical
  import opened BitStream
  import opened UnpackDict

  datatype Result = Unpacked(text: seq<Byte>) | UnpackingError | NotPacked | OldStyle

  // What the bit stream decodes to: the characters before the end mark, and whether the
  // end mark was reached.
  datatype Decoded = Decoded(out: seq<Byte>, ended: bool)

  function Prepend(s: seq<Byte>, d: Decoded): Decoded {
    Decoded(s + d.out, d.ended)
  }

  // decode() bit by bit: v is the number read since the last leaf, lev the level the
  // next bit leads to.
  function Decode(d: Dict, bits: seq<bool>, lev: nat, v: nat): Decoded
    requires CompleteDict(d) && 1 <= lev <= |d.counts| && v < InnerNodes(d.counts, lev - 1)
    decreases |bits|
  {
    if bits == [] then Decoded([], false)
    else
      var v' := 2 * v + if bits[0] then 1 else 0;
      if v' < InnerNodes(d.counts, lev) then Decode(d, bits[1..], lev + 1, v')
      else
        var p := Start(d.counts, lev) + v' - InnerNodes(d.counts, lev);
        LeafInRange(d, lev, v, v');
        if p == |d.chars| then Decoded([], true)
        else Prepend([d.chars[p]], Decode(d, bits[1..], 1, 0))
  }

  lemma LeafInRange(d: Dict, lev: nat, v: nat, v': nat)
    requires CompleteDict(d) && 1 <= lev <= |d.counts| && v < InnerNodes(d.counts, lev - 1) && v' <= 2 * v + 1
    ensures v' < InnerNodes(d.counts, lev) + d.counts[lev - 1]
    ensures v' >= InnerNodes(d.counts, lev) ==> Start(d.counts, lev) + v' - InnerNodes(d.counts, lev) <= |d.chars|
    ensures lev == |d.counts| ==> v' >= InnerNodes(d.counts, lev)
  {
    assert EvenNodes(d.counts, lev);
    TotalPrefix(d.counts, lev - 1);
    TotalPrefix(d.counts, lev);
  }

  // Full buffers are written as they fill; the rest only when the end mark is found.
  function Verdict(size: nat, r: Decoded): Result {
    var out := if r.ended then r.out else r.out[..|r.out| / BUFSIZ * BUFSIZ];
    if size == |out| then Unpacked(out) else UnpackingError
  }

  // What unpack answers for a file, given what the input buffer held before.
  ghost function ResultFor(infile: seq<Byte>, stale: seq<Byte>): Result
    requires |stale| == BUFSIZ && Decodable(infile, stale)
  {
    match Parse(Filled(infile, stale), if |infile| < BUFSIZ then |infile| else BUFSIZ)
    case NotPacked => Result.NotPacked
    case OldStyle => Result.OldStyle
    case Parsed(d) => Verdict(d.size, Decode(d, BitsOf(infile[d.length..]), 1, 0))
  }

  // A dictionary, if there is one, describes a tree.
  ghost predicate Decodable(infile: seq<Byte>, stale: seq<Byte>)
    requires |stale| == BUFSIZ
  {
    var p := Parse(Filled(infile, stale), if |infile| < BUFSIZ then |infile| else BUFSIZ);
    p.Parsed? ==> CompleteDict(p.dict) && p.dict.length <= |infile|
  }

  // The output buffer and the count of bytes still expected.
  class Sink {
    const outbuff: array<Byte>
    var outp: nat
    var written: seq<Byte>
    var origsize: int

    ghost predicate Valid()
      reads this
    {
      outbuff.Length == BUFSIZ && outp < BUFSIZ && |written| % BUFSIZ == 0
    }

    // Everything decoded so far.
    ghost function Out(): seq<Byte>
      reads this, outbuff
      requires Valid()
    {
      written + outbuff[..outp]
    }

    ghost function Expected(): int
      reads this
    {
      origsize + |written|
    }

    constructor (size: int)
      ensures Valid() && Out() == [] && Expected() == size && fresh(outbuff)
    {
      outbuff := new Byte[BUFSIZ];
      outp, written, origsize := 0, [], size;
    }

    // *outp++ = *p, writing the buffer when it is full
    method Put(b: Byte)
      requires Valid()
      modifies this, outbuff
      ensures Valid() && Out() == old(Out()) + [b] && Expected() == old(Expected())
    {
      ghost var front := outbuff[..outp];
      outbuff[outp] := b;
      outp := outp + 1;
      assert outbuff[..outp] == front + [b];
      if outp == BUFSIZ {
        written := written + outbuff[..];
        origsize := origsize - BUFSIZ;
        outp := 0;
      }
    }

    // The end mark was found.
    method Finish() returns (r: Result)
      requires Valid() && Expected() >= 0
      modifies this
      ensures r == Verdict(old(Expected()), Decoded(old(Out()), true))
    {
      written := written + outbuff[..outp];
      origsize := origsize - outp;
      r := if origsize != 0 then UnpackingError else Unpacked(written);
    }

    // The input ran out.
    method RanOut() returns (r: Result)
      requires Valid() && Expected() >= 0
      ensures r == Verdict(Expected(), Decoded(Out(), false))
    {
      WholeBuffers(written, outbuff[..outp]);
      r := if origsize == 0 then Unpacked(written) else UnpackingError;
    }
  }

  lemma WholeBuffers(w: seq<Byte>, b: seq<Byte>)
    requires |w| % BUFSIZ == 0 && |b| < BUFSIZ
    ensures var out := w + b; out[..|out| / BUFSIZ * BUFSIZ] == w
  {
  }

  // ---- Bits of a byte --------------------------------------------------------------

  lemma {:induction false} BitAt(v: nat, n: nat, k: nat)
    requires k < n
    ensures NumberBits(v, n)[k] == (v / Pow2(n - 1 - k) % 2 == 1)
    decreases n
  {
    if k < n - 1 {
      BitAt(v / 2, n - 1, k);
      HalveDivMod(v, Pow2(n - 2 - k));
    }
  }

  lemma ShiftOne(b: nat, k: nat)
    ensures b * Pow2(k) * 2 == b * Pow2(k + 1)
  {
  }

  // c & 0200 after k shifts to the left.
  lemma TestBit(b: Byte, k: nat)
    requires k < 8
    ensures NumberBits(b, 8)[k] == (b * Pow2(k) / 128 % 2 == 1)
  {
    BitAt(b, 8, k);
    var p, q := Pow2(k), Pow2(7 - k);
    Pow2Add(k, 7 - k);
    assert Pow2(7) == 128;
    DivCancel(b, p, q);
  }

  lemma DivCancel(b: nat, p: nat, q: nat)
    requires p > 0 && q > 0
    ensures p * q > 0 && b * p / (p * q) == b / q
  {
    var d, r := b / q, b % q;
    assert b == d * q + r;
    assert b * p == d * (p * q) + r * p;
    Smaller(r, q, p);
    DivUnique(b * p, p * q, d, r * p);
  }

  lemma Smaller(r: nat, q: nat, p: nat)
    requires r < q && p > 0
    ensures 0 < p * q && r * p < p * q
  {
  }

  // ---- decode() --------------------------------------------------------------------

  // One leaf, or one level down.
  lemma DecodeStep(d: Dict, bits: seq<bool>, lev: nat, v: nat)
    requires CompleteDict(d) && 1 <= lev <= |d.counts| && v < InnerNodes(d.counts, lev - 1) && bits != []
    ensures var v' := 2 * v + if bits[0] then 1 else 0;
            var p := Start(d.counts, lev) + v' - InnerNodes(d.counts, lev);
            && (v' < InnerNodes(d.counts, lev)
                ==> lev < |d.counts| && Decode(d, bits, lev, v) == Decode(d, bits[1..], lev + 1, v'))
            && (v' >= InnerNodes(d.counts, lev) && p == |d.chars| ==> Decode(d, bits, lev, v) == Decoded([], true))
            && (v' >= InnerNodes(d.counts, lev) && p != |d.chars| ==>
                  p < |d.chars| && Decode(d, bits, lev, v) == Prepend([d.chars[p]], Decode(d, bits[1..], 1, 0)))
  {
    LeafInRange(d, lev, v, 2 * v + if bits[0] then 1 else 0);
  }

  // The state of decode(): what has come out so far, and the rest, make up the whole.
  ghost predicate Midway(d: Dict, whole: Decoded, out: seq<Byte>, bits: seq<bool>, lev: nat, v: nat) {
    && CompleteDict(d) && 1 <= lev <= |d.counts| && v < InnerNodes(d.counts, lev - 1)
    && whole == Prepend(out, Decode(d, bits, lev, v))
  }

  lemma PrependTwice(out: seq<Byte>, b: Byte, r: Decoded)
    ensures Prepend(out, Prepend([b], r)) == Prepend(out + [b], r)
  {
    assert out + ([b] + r.out) == (out + [b]) + r.out;
  }

  // The tables of getdict(), which decode() only reads.
  ghost predicate Loaded(d: Dict, intnodes: array<nat>, tree: array<nat>, characters: array<Byte>, eof: nat)
    reads intnodes, tree, characters
  {
    Tables(d, intnodes[..], tree[..], characters[..], eof)
  }

  ghost predicate Apart(sink: Sink, intnodes: array<nat>, tree: array<nat>, characters: array<Byte>) {
    sink.outbuff != characters && sink.outbuff as object != intnodes && sink.outbuff as object != tree
  }

  // One bit of the input.
  method TakeBit(intnodes: array<nat>, tree: array<nat>, characters: array<Byte>, eof: nat, lev0: nat, i0: nat,
                 bit: bool, sink: Sink, ghost d: Dict, ghost whole: Decoded, ghost bits: seq<bool>)
    returns (ended: bool, lev: nat, i: nat)
    requires Loaded(d, intnodes, tree, characters, eof) && Apart(sink, intnodes, tree, characters)
    requires sink.Valid() && bits != [] && bit == bits[0] && Midway(d, whole, sink.Out(), bits, lev0, i0)
    modifies sink, sink.outbuff
    ensures sink.Valid() && sink.Expected() == old(sink.Expected())
    ensures !ended ==> Midway(d, whole, sink.Out(), bits[1..], lev, i)
    ensures ended ==> whole == Decoded(sink.Out(), true)
  {
    DecodeStep(d, bits, lev0, i0);
    ended, lev, i := false, lev0, 2 * i0;
    if bit {
      i := i + 1;
    }
    var j, p := LookUp(intnodes, tree, eof, characters, lev, i, d);
    if j >= 0 {
      if p == eof {
        ended := true;
      } else {
        PutChar(characters[p], sink, d, whole, bits[1..]);
        lev, i := 1, 0;
      }
    } else {
      lev := lev + 1;
    }
  }

  method PutChar(c: Byte, sink: Sink, ghost d: Dict, ghost whole: Decoded, ghost rest: seq<bool>)
    requires sink.Valid() && CompleteDict(d)
    requires whole == Prepend(sink.Out(), Prepend([c], Decode(d, rest, 1, 0)))
    modifies sink, sink.outbuff
    ensures sink.Valid() && sink.Expected() == old(sink.Expected()) && Midway(d, whole, sink.Out(), rest, 1, 0)
  {
    PrependTwice(sink.Out(), c, Decode(d, rest, 1, 0));
    sink.Put(c);
  }

  // j = i - intnodes[lev], and p = &tree[lev][j] for a leaf
  method LookUp(intnodes: array<nat>, tree: array<nat>, eof: nat, characters: array<Byte>, lev: nat, i: nat,
                ghost d: Dict)
    returns (j: int, p: nat)
    requires Loaded(d, intnodes, tree, characters, eof) && 1 <= lev <= |d.counts|
    ensures j == i - InnerNodes(d.counts, lev) && eof == |d.chars|
    ensures j >= 0 ==> p == Start(d.counts, lev) + j
    ensures j >= 0 && p < |d.chars| ==> p < characters.Length && characters[p] == d.chars[p]
  {
    j, p := i - intnodes[lev], 0;
    if j >= 0 {
      p := tree[lev] + j;
      assert p < |d.chars| ==> characters[p] == characters[..eof][p];
    }
  }

  // One byte of the input: while (--bitsleft >= 0) ...
  method TakeByte(intnodes: array<nat>, tree: array<nat>, characters: array<Byte>, eof: nat, lev0: nat, i0: nat,
                  byte: Byte, sink: Sink, ghost d: Dict, ghost whole: Decoded, ghost rest: seq<bool>)
    returns (ended: bool, lev: nat, i: nat)
    requires Loaded(d, intnodes, tree, characters, eof) && Apart(sink, intnodes, tree, characters)
    requires sink.Valid() && Midway(d, whole, sink.Out(), NumberBits(byte, 8) + rest, lev0, i0)
    modifies sink, sink.outbuff
    ensures sink.Valid() && sink.Expected() == old(sink.Expected())
    ensures !ended ==> Midway(d, whole, sink.Out(), rest, lev, i)
    ensures ended ==> whole == Decoded(sink.Out(), true)
  {
    ended, lev, i := false, lev0, i0;
    var c: nat := byte;
    var bitsleft: int := 8;
    while bitsleft > 0 && !ended
      invariant 0 <= bitsleft <= 8 && c == byte * Pow2(8 - bitsleft)
      invariant Loaded(d, intnodes, tree, characters, eof)
      invariant sink.Valid() && sink.Expected() == old(sink.Expected())
      invariant !ended ==> Midway(d, whole, sink.Out(), NumberBits(byte, 8)[8 - bitsleft..] + rest, lev, i)
      invariant ended ==> whole == Decoded(sink.Out(), true)
      decreases bitsleft
    {
      ghost var k := 8 - bitsleft;
      ghost var bits := NumberBits(byte, 8)[k..] + rest;
      TestBit(byte, k);
      assert bits[1..] == NumberBits(byte, 8)[k + 1..] + rest;
      bitsleft := bitsleft - 1;
      ended, lev, i := TakeBit(intnodes, tree, characters, eof, lev, i, c / 128 % 2 == 1, sink, d, whole, bits);
      ShiftOne(byte, k);
      c := c * 2;
    }
    assert NumberBits(byte, 8)[8..] + rest == rest;
  }

  // The input buffer: inleft bytes from inp on are still unread.
  ghost predicate Buffered(infile: seq<Byte>, pos: nat, fpos: nat, inbuff: seq<Byte>, inp: nat, inleft: nat) {
    pos + inleft == fpos <= |infile| && inp + inleft <= |inbuff| == BUFSIZ
    && inbuff[inp..inp + inleft] == infile[pos..fpos]
  }

  // The next byte of the file, refilling the buffer when it is empty.
  method NextByte(infile: seq<Byte>, ghost pos: nat, fpos0: nat, inbuff: array<Byte>, inp0: nat, inleft0: nat)
    returns (c: Byte, fpos: nat, inp: nat, inleft: int)
    requires inbuff.Length == BUFSIZ && Buffered(infile, pos, fpos0, inbuff[..], inp0, inleft0)
    modifies inbuff
    ensures pos < |infile|
            ==> c == infile[pos] && inleft >= 0 && Buffered(infile, pos + 1, fpos, inbuff[..], inp, inleft)
    ensures pos == |infile| ==> inleft < 0
  {
    fpos, inp, inleft := fpos0, inp0, inleft0;
    c := 0;
    if inleft <= 0 {
      var n;
      n, fpos := Read(infile, fpos, inbuff);
      inp, inleft := 0, n;
      assert inbuff[inp..inp + inleft] == infile[pos..fpos];
    }
    inleft := inleft - 1;
    if inleft >= 0 {
      assert inbuff[inp] == inbuff[inp..inp + inleft + 1][0];
      c := inbuff[inp];
      inp := inp + 1;
      assert inbuff[inp..inp + inleft] == inbuff[inp - 1..inp + inleft][1..];
    }
  }

  lemma FirstByteBits(s: seq<Byte>)
    requires s != []
    ensures BitsOf(s) == NumberBits(s[0], 8) + BitsOf(s[1..])
  {
  }

  method DecodeFile(infile: seq<Byte>, fpos0: nat, inbuff: array<Byte>, inp0: nat, inleft0: nat,
                    intnodes: array<nat>, tree: array<nat>, characters: array<Byte>, eof: nat, origsize: nat,
                    ghost d: Dict)
    returns (r: Result)
    requires CompleteDict(d) && Loaded(d, intnodes, tree, characters, eof) && d.length <= |infile|
    requires inbuff.Length == BUFSIZ && Buffered(infile, d.length, fpos0, inbuff[..], inp0, inleft0)
    requires inbuff != characters && inbuff as object != intnodes && inbuff as object != tree
    modifies inbuff
    ensures r == Verdict(origsize, Decode(d, BitsOf(infile[d.length..]), 1, 0))
  {
    var sink := new Sink(origsize);
    ghost var pos := d.length;
    ghost var whole := Decode(d, BitsOf(infile[pos..]), 1, 0);
    var fpos, inp, inleft: int := fpos0, inp0, inleft0;
    var lev, i, ended := 1, 0, false;
    while !ended && inleft >= 0
      invariant pos <= |infile| && fresh(sink) && fresh(sink.outbuff) && (inleft < 0 ==> pos == |infile|)
      invariant Loaded(d, intnodes, tree, characters, eof) && sink.Valid() && sink.Expected() == origsize
      invariant ended ==> whole == Decoded(sink.Out(), true)
      invariant !ended ==> Midway(d, whole, sink.Out(), BitsOf(infile[pos..]), lev, i)
      invariant !ended && inleft >= 0 ==> Buffered(infile, pos, fpos, inbuff[..], inp, inleft)
      decreases |infile| - pos, inleft >= 0, !ended
    {
      var c;
      c, fpos, inp, inleft := NextByte(infile, pos, fpos, inbuff, inp, inleft);
      if inleft >= 0 {
        FirstByteBits(infile[pos..]);
        assert infile[pos..][1..] == infile[pos + 1..];
        pos := pos + 1;
        ended, lev, i := TakeByte(intnodes, tree, characters, eof, lev, i, c, sink, d, whole, BitsOf(infile[pos..]));
      }
    }
    assert !ended ==> infile[pos..] == [];
    r := Conclude(sink, ended, d, whole, lev, i);
  }

  method Conclude(sink: Sink, ended: bool, ghost d: Dict, ghost whole: Decoded, ghost lev: nat, ghost i: nat)
    returns (r: Result)
    requires sink.Valid() && sink.Expected() >= 0
    requires ended ==> whole == Decoded(sink.Out(), true)
    requires !ended ==> Midway(d, whole, sink.Out(), [], lev, i)
    modifies sink
    ensures r == Verdict(old(sink.Expected()), whole)
  {
    if ended {
      r := sink.Finish();
    } else {
      r := sink.RanOut();
    }
  }

  // The program's global tables.
  class Unpacker {
    const inbuff: array<Byte>
    const intnodes: array<nat>
    const tree: array<nat>
    const characters: array<Byte>

    ghost predicate Valid() {
      && inbuff.Length == BUFSIZ && intnodes.Length == tree.Length == LEVELS + 1 && characters.Length == END
      && inbuff != characters && intnodes != tree
      && inbuff as object != intnodes && inbuff as object != tree
      && characters as object != intnodes && characters as object != tree
    }

    constructor ()
      ensures Valid()
    {
      inbuff := new Byte[BUFSIZ];
      intnodes := new nat[LEVELS + 1];
      tree := new nat[LEVELS + 1];
      characters := new Byte[END];
    }

    // getdict() without the call of decode()
    method GetDict(infile: seq<Byte>)
      returns (h: Kind, origsize: nat, eof: nat, inp: nat, inleft: int, fpos: nat, ghost p: Parsed)
      requires Valid()
      modifies inbuff, intnodes, tree, characters
      ensures p == Parse(Filled(infile, old(inbuff[..])), if |infile| < BUFSIZ then |infile| else BUFSIZ)
      ensures h == KindOf(p)
      ensures p.Parsed? ==> origsize == p.dict.size && p.dict.length <= |infile| && inleft >= 0
      ensures p.Parsed? ==> Buffered(infile, p.dict.length, fpos, inbuff[..], inp, inleft)
      ensures p.Parsed? && CompleteDict(p.dict) ==> Loaded(p.dict, intnodes, tree, characters, eof)
    {
      origsize, eof, inp := 0, 0, 0;
      inbuff[6] := 25;
      var n;
      n, fpos := Read(infile, 0, inbuff);
      inleft := n;
      p := Parse(inbuff[..], n);
      if inbuff[0] != US {
        h := Bad;
      } else if inbuff[1] == US {
        h := Old;
      } else if inbuff[1] != RS || inbuff[6] > LEVELS {
        h := Bad;
      } else {
        h, origsize, eof, inp, inleft := LoadTables(n, p);
        if p.Parsed? {
          assert inbuff[inp..inp + inleft] == infile[p.dict.length..fpos];
        }
      }
    }

    // The rest of getdict(), after the checks of the first seven bytes.
    method LoadTables(n: nat, ghost p: Parsed)
      returns (h: Kind, origsize: nat, eof: nat, inp: nat, inleft: int)
      requires Valid() && n <= BUFSIZ && p == Parse(inbuff[..], n)
      requires inbuff[0] == US && inbuff[1] == RS && inbuff[6] <= LEVELS
      modifies intnodes, tree, characters
      ensures h == KindOf(p)
      ensures p.Parsed? ==> origsize == p.dict.size && inp == p.dict.length && inp + inleft == n && inleft >= 0
      ensures p.Parsed? && CompleteDict(p.dict) ==> Loaded(p.dict, intnodes, tree, characters, eof)
    {
      var maxlev := inbuff[6];
      origsize, inp := ReadCounts(inbuff, intnodes, maxlev);
      ghost var raw: seq<nat> := intnodes[1..maxlev + 1];
      assert raw == inbuff[..][7..7 + maxlev];
      h, eof, inp, inleft := LoadChars(n, maxlev, inp, raw);
      if p.Parsed? && CompleteDict(p.dict) {
        TablesReady(p.dict, raw, intnodes[..], tree[..], characters[..], eof);
      }
    }

    // The characters, and the tables once all of them are in the buffer.
    method LoadChars(n: nat, maxlev: nat, inp0: nat, ghost raw: seq<nat>)
      returns (h: Kind, eof: nat, inp: nat, inleft: int)
      requires Valid() && maxlev <= LEVELS && inp0 == 7 + maxlev && raw == intnodes[1..maxlev + 1]
      requires forall i :: 1 <= i <= maxlev ==> intnodes[i] < 256
      modifies intnodes, tree, characters
      ensures h == if Total(raw) <= 255 && inp0 + Total(raw) + 1 <= n then Good else Bad
      ensures h == Good ==> inp == inp0 + Total(raw) + 1 && inleft == n - inp
      ensures h == Good ==> eof == Total(raw) + 1 && characters[..eof] == inbuff[inp0..inp]
      ensures h == Good ==> forall lev :: 1 <= lev <= maxlev ==>
                tree[lev] == Start(raw, lev) && intnodes[lev] == InnerNodes(PlusTwo(raw), lev)
    {
      assert forall i :: 1 <= i <= maxlev ==> intnodes[i] == raw[i - 1];
      var ok;
      ok, eof, inp := ReadChars(inbuff, intnodes, tree, characters, maxlev, inp0);
      inleft, h := 0, Bad;
      if ok {
        AddLast(maxlev, eof, inp, raw);
        eof, inp := eof + 1, inp + 1;
        inleft := n - inp;
        if inleft >= 0 {
          h := Good;
        }
      }
    }

    // *eof++ = *inp++; intnodes[maxlev] += 2; and the counts of inner nodes
    method AddLast(maxlev: nat, eof: nat, inp: nat, ghost raw: seq<nat>)
      requires Valid()
      requires maxlev == |raw| <= LEVELS && eof <= 255 && inp < BUFSIZ
      requires forall i :: 1 <= i <= maxlev ==> intnodes[i] == raw[i - 1]
      modifies intnodes, characters
      ensures characters[..eof + 1] == old(characters[..eof]) + [inbuff[inp]]
      ensures forall i :: 1 <= i <= maxlev ==> intnodes[i] == InnerNodes(PlusTwo(raw), i)
    {
      characters[eof] := inbuff[inp];
      intnodes[maxlev] := intnodes[maxlev] + 2;
      CountInner(intnodes, maxlev, PlusTwo(raw));
    }

    method Unpack(infile: seq<Byte>) returns (r: Result)
      requires Valid() && Decodable(infile, inbuff[..])
      modifies inbuff, intnodes, tree, characters
      ensures r == ResultFor(infile, old(inbuff[..]))
    {
      var h, origsize, eof, inp, inleft, fpos;
      ghost var p;
      h, origsize, eof, inp, inleft, fpos, p := GetDict(infile);
      match h
      case Bad => r := Result.NotPacked;
      case Old => r := Result.OldStyle;
      case Good =>
        r := DecodeFile(infile, fpos, inbuff, inp, inleft, intnodes, tree, characters, eof, origsize, p.dict);
    }
  }

  // What getdict() found at the front of the file.
  datatype Kind = Good | Bad | Old

  function KindOf(p: Parsed): Kind {
    match p
    case Parsed(_) => Good
    case NotPacked => Bad
    case OldStyle => Old
  }

  lemma TablesReady(d: Dict, raw: seq<nat>, nodes: seq<nat>, starts: seq<nat>, chars: seq<Byte>, eof: nat)
    requires CompleteDict(d) && d.counts == PlusTwo(raw) && |raw| <= LEVELS && |nodes| == |starts| == LEVELS + 1
    requires |chars| == END && eof == |d.chars| <= END && chars[..eof] == d.chars
    requires forall lev :: 1 <= lev <= |raw| ==>
               starts[lev] == Start(raw, lev) && nodes[lev] == InnerNodes(d.counts, lev)
    ensures Tables(d, nodes, starts, chars, eof)
  {
    StartsAgree(raw);
  }

  // Adding two leaves to the last level moves no level's first leaf.
  lemma StartsAgree(raw: seq<nat>)
    ensures forall lev :: 1 <= lev <= |raw| ==> Start(PlusTwo(raw), lev) == Start(raw, lev)
  {
    forall lev | 1 <= lev <= |raw| ensures Start(PlusTwo(raw), lev) == Start(raw, lev) {
      assert PlusTwo(raw)[..lev - 1] == raw[..lev - 1];
    }
  }
}
