// cpio.c: the loops of -o and -i over buffers of whole blocks.
module CpioBlocks {
  import opened Common
  import opened CpioFormat
  import opened Cpio

  // Bytes move one by one, or two by two.
  function Unit(c: Codec): nat {
    if c.pairs then 2 else 1
  }

  predicate Units(c: Codec, n: nat) {
    c.pairs ==> n % 2 == 0
  }

  // ---- Writing -------------------------------------------------------------------------------

  // bwrite and writehdr: a block goes out when the next byte would not fit any more.
  class Writer {
    const c: Codec
    const block: array<Byte>
    var left: nat
    var out: seq<seq<Byte>>

    ghost predicate Valid()
      reads this, block
    {
      && c.Good() && block.Length > 0 && block.Length % 2 == 0 && left <= block.Length && Units(c, left)
      && AllFull(out, block.Length)
    }

    // All that was written so far
    ghost function Stream(): seq<Byte>
      requires left <= block.Length
      reads this, block
    {
      Flat(out) + block[..block.Length - left]
    }

    constructor (c: Codec, size: nat)
      requires c.Good() && size > 0 && size % 2 == 0
      ensures Valid() && fresh(block) && Stream() == [] && this.c == c && block.Length == size
    {
      this.c := c;
      block := new Byte[size](i => 0);
      left, out := size, [];
    }

    method WriteBlock()
      requires Valid() && left == 0
      modifies `left, `out
      ensures Valid() && left == block.Length && Stream() == old(Stream())
    {
      FlatMore(out, block[..]);
      out := out + [block[..]];
      left := block.Length;
      assert block[..0] == [];
    }

    method PutUnit(s: seq<Byte>)
      requires Valid() && |s| == Unit(c)
      modifies this, block
      ensures Valid() && Stream() == old(Stream()) + s
    {
      if left == 0 {
        WriteBlock();
      }
      ghost var was := block[..block.Length - left];
      var p := block.Length - left;
      block[p] := s[0];
      if c.pairs {
        block[p + 1] := s[1];
      }
      left := left - |s|;
      assert block[..p + |s|] == was + s;
    }

    method Put(s: seq<Byte>)
      requires Valid() && Units(c, |s|)
      modifies this, block
      ensures Valid() && Stream() == old(Stream()) + s
    {
      var i := 0;
      while i < |s|
        invariant 0 <= i <= |s| && Units(c, i)
        invariant Valid() && Stream() == old(Stream()) + s[..i]
      {
        var u := s[i..i + Unit(c)];
        PutUnit(u);
        assert s[..i + Unit(c)] == s[..i] + u;
        i := i + Unit(c);
      }
      assert s[..i] == s;
    }

    // A block's worth of the buffer is written from itself, which pushes out all there was
    // before.
    method Flush()
      requires Valid()
      modifies this, block
      ensures Valid() && old(Stream()) <= Flat(out)
    {
      var i := 0;
      ghost var tail: seq<Byte> := [];
      while i < block.Length
        invariant 0 <= i <= block.Length && Units(c, i)
        invariant Valid() && Stream() == old(Stream()) + tail && |tail| == i
      {
        var u := block[i..i + Unit(c)];
        PutUnit(u);
        tail := tail + u;
        i := i + Unit(c);
      }
      PushedOut(Flat(out), block[..block.Length - left], old(Stream()), tail);
    }

    // The contents of a file, CPIOBSZ bytes at a time
    method PutContents(contents: seq<Byte>, junk: Byte)
      requires Valid()
      modifies this, block
      ensures Valid() && Stream() == old(Stream()) + Padded(c, contents, junk)
    {
      ghost var before := Stream();
      var done := 0;
      while done < |contents|
        invariant 0 <= done <= |contents| && (done < |contents| ==> done % CPIOBSZ == 0)
        invariant Valid() && Stream() == before + Upto(c, contents, junk, done)
      {
        done := PutChunk(contents, junk, done, before);
      }
    }

    method PutChunk(contents: seq<Byte>, junk: Byte, done0: nat, ghost before: seq<Byte>) returns (done: nat)
      requires Valid() && done0 < |contents| && done0 % CPIOBSZ == 0
      requires Stream() == before + Upto(c, contents, junk, done0)
      modifies this, block
      ensures Valid() && done0 < done <= |contents| && (done < |contents| ==> done % CPIOBSZ == 0)
      ensures Stream() == before + Upto(c, contents, junk, done)
    {
      var ct := if |contents| - done0 > CPIOBSZ then CPIOBSZ else |contents| - done0;
      var chunk := Padded(c, contents[done0..done0 + ct], junk);
      Put(chunk);
      done := done0 + ct;
      ChunkPadded(c, contents, done0, ct, junk);
      Longer(before, Upto(c, contents, junk, done0), chunk, Upto(c, contents, junk, done));
    }
  }

  lemma PushedOut(written: seq<Byte>, rest: seq<Byte>, before: seq<Byte>, tail: seq<Byte>)
    requires written + rest == before + tail && |rest| <= |tail|
    ensures before <= written
  {
    assert written == (written + rest)[..|written|];
  }

  lemma Longer(a: seq<Byte>, s: seq<Byte>, t: seq<Byte>, u: seq<Byte>)
    requires s + t == u
    ensures a + s + t == a + u
  {
    assert a + s + t == a + (s + t);
  }

  // What is written once done bytes are: the last of them are filled up to a pair.
  function Upto(c: Codec, s: seq<Byte>, junk: Byte, done: nat): seq<Byte>
    requires done <= |s|
  {
    if done < |s| then s[..done] else Padded(c, s, junk)
  }

  lemma ChunkPadded(c: Codec, s: seq<Byte>, done: nat, ct: nat, junk: Byte)
    requires done + ct <= |s| && done % CPIOBSZ == 0 && (ct == CPIOBSZ || done + ct == |s|)
    ensures s[..done] + Padded(c, s[done..done + ct], junk) == Upto(c, s, junk, done + ct)
  {
    assert s[..done] + s[done..done + ct] == s[..done + ct];
    if done + ct == |s| {
      assert s[..done + ct] == s;
      assert s[..done] + (s[done..done + ct] + [junk]) == s[..done + ct] + [junk];
    }
  }

  // ---- What is written stays ----------------------------------------------------------------

  lemma AtStays(b: seq<Byte>, t: seq<Byte>, p: nat, s: seq<Byte>)
    requires At(b, p, s) && b <= t
    ensures At(t, p, s)
  {
    assert t[p..p + |s|] == b[p..p + |s|];
  }

  lemma AtEnd(b: seq<Byte>, h: seq<Byte>, s: seq<Byte>)
    ensures At(b + h + s, |b|, h) && At(b + h + s, |b| + |h|, s)
  {
    assert (b + h + s)[|b|..|b| + |h|] == h;
    assert (b + h + s)[|b| + |h|..] == s;
  }

  lemma ImageStays(c: Codec, b: seq<Byte>, t: seq<Byte>, p: nat, item: Item)
    requires c.Good() && EntryFits(item.entry) && ImageAt(c, b, p, item) && b <= t
    ensures ImageAt(c, t, p, item)
  {
    AtStays(b, t, p, Head(c, item.entry, item.junk0));
    AtStays(b, t, p + HeadSize(c, item.entry), Padded(c, item.entry.contents, item.junk1));
  }

  lemma HoldsStays(c: Codec, b: seq<Byte>, t: seq<Byte>, items: seq<Item>, n: nat)
    requires c.Good() && n <= |items| && Fits(items) && Holds(c, b, items, n) && b <= t
    ensures Holds(c, t, items, n)
  {
    forall k: nat | k < n ensures ImageAt(c, t, Offset(c, items, k), items[k]) {
      ImageStays(c, b, t, Offset(c, items, k), items[k]);
    }
  }

  lemma HoldsOneMore(c: Codec, b: seq<Byte>, t: seq<Byte>, items: seq<Item>, n: nat)
    requires c.Good() && n < |items| && Fits(items) && Holds(c, b, items, n) && |b| == Offset(c, items, n) && b <= t
    requires ImageAt(c, t, |b|, items[n]) && |t| == |b| + Size(c, items[n])
    ensures Holds(c, t, items, n + 1) && |t| == Offset(c, items, n + 1)
  {
    forall k: nat | k < n + 1 ensures ImageAt(c, t, Offset(c, items, k), items[k]) {
      if k < n {
        ImageStays(c, b, t, Offset(c, items, k), items[k]);
      } else {
        assert k == n;
      }
    }
  }

  lemma ImageEnd(c: Codec, b: seq<Byte>, item: Item)
    requires c.Good() && EntryFits(item.entry)
    ensures var t := b + Head(c, item.entry, item.junk0) + Padded(c, item.entry.contents, item.junk1);
            ImageAt(c, t, |b|, item) && |t| == |b| + Size(c, item) && b <= t
  {
    AtEnd(b, Head(c, item.entry, item.junk0), Padded(c, item.entry.contents, item.junk1));
  }

  // The loop of -o: every member, then the trailer, then enough to push the trailer out; the
  // file is made of whole blocks and holds the archive.
  method CopyOut(c: Codec, size: nat, items: seq<Item>, info: Info, junk: Byte) returns (blocks: seq<seq<Byte>>)
    requires c.Good() && size > 0 && size % 2 == 0 && Fits(items) && InfoFits(info)
    ensures Archive(c, Flat(blocks), items, info, junk) && AllFull(blocks, size)
  {
    var w := new Writer(c, size);
    for i := 0 to |items|
      invariant w.Valid() && fresh(w) && fresh(w.block) && w.c == c && w.block.Length == size
      invariant Holds(c, w.Stream(), items, i) && |w.Stream()| == Offset(c, items, i)
    {
      ghost var was := w.Stream();
      PutMember(w, items[i]);
      HoldsOneMore(c, was, w.Stream(), items, i);
    }
    ghost var members := w.Stream();
    w.Put(Head(c, TrailerEntry(c, info), junk));
    ghost var all := w.Stream();
    AtTail(members, Head(c, TrailerEntry(c, info), junk));
    w.Flush();
    blocks := w.out;
    HoldsStays(c, members, Flat(blocks), items, |items|);
    AtStays(all, Flat(blocks), |members|, Head(c, TrailerEntry(c, info), junk));
  }

  lemma AtTail(b: seq<Byte>, s: seq<Byte>)
    ensures At(b + s, |b|, s) && b <= b + s
  {
  }

  method PutMember(w: Writer, item: Item)
    requires w.Valid() && EntryFits(item.entry)
    modifies w, w.block
    ensures w.Valid() && ImageAt(w.c, w.Stream(), |old(w.Stream())|, item)
    ensures |w.Stream()| == |old(w.Stream())| + Size(w.c, item) && old(w.Stream()) <= w.Stream()
  {
    ImageEnd(w.c, w.Stream(), item);
    w.Put(Head(w.c, item.entry, item.junk0));
    w.PutContents(item.entry.contents, item.junk1);
  }

  // ---- Reading ----------------------------------------------------------------------------------

  // bread and readhdr: the next block is read when the last is used up.
  class Input {
    const c: Codec
    const size: nat
    // the blocks of the file, and how many have been read
    const blocks: seq<seq<Byte>>
    var taken: nat
    var block: seq<Byte>
    var left: nat

    ghost predicate Valid()
      reads this
    {
      && c.Good() && size > 0 && size % 2 == 0 && AllFull(blocks, size)
      && taken <= |blocks| && left <= |block| && Units(c, left)
      && if taken == 0 then block == [] else block == blocks[taken - 1]
    }

    // Where in the whole file the next byte comes from
    ghost function Pos(): nat
      requires left <= |block|
      reads this
    {
      if taken == 0 || taken > |blocks| then 0 else |Flat(blocks[..taken - 1])| + |block| - left
    }

    constructor (c: Codec, size: nat, blocks: seq<seq<Byte>>)
      requires c.Good() && size > 0 && size % 2 == 0 && AllFull(blocks, size)
      ensures Valid() && Pos() == 0 && this.c == c && this.blocks == blocks
    {
      this.c, this.size, this.blocks := c, size, blocks;
      taken, block, left := 0, [], 0;
    }

    // What was read from position start on is s.
    ghost predicate Read(start: nat, s: seq<Byte>)
      reads this
    {
      Valid() && Pos() == start + |s| <= |Flat(blocks)| && At(Flat(blocks), start, s)
    }

    // The next block, if there is one
    method NextBlock() returns (ok: bool)
      requires Valid() && left == 0
      modifies `taken, `block, `left
      ensures Valid() && Pos() == old(Pos()) && (ok ==> left > 0) && (!ok ==> Pos() == |Flat(blocks)|)
    {
      PositionAtEnd();
      if taken == |blocks| {
        return false;
      }
      block := blocks[taken];
      taken := taken + 1;
      left := |block|;
      return true;
    }

    // The next byte, or pair, of the file, unless the file is at its end
    method GetUnit() returns (ok: bool, u: seq<Byte>)
      requires Valid() && Pos() <= |Flat(blocks)|
      modifies `taken, `block, `left
      ensures Valid() && Pos() <= |Flat(blocks)| && (ok <==> old(Pos()) + Unit(c) <= |Flat(blocks)|)
      ensures ok ==> |u| == Unit(c) && Read(old(Pos()), u)
    {
      ok, u := true, [];
      if left == 0 {
        ok := NextBlock();
        if !ok {
          return;
        }
      }
      var p := |block| - left;
      u := block[p..p + Unit(c)];
      BlockWithin(blocks, taken - 1, p, Unit(c));
      left := left - Unit(c);
    }

    // n bytes, and one more where they are moved in pairs and n is odd
    method Get(n: nat) returns (ok: bool, s: seq<Byte>)
      requires Valid() && Pos() <= |Flat(blocks)|
      modifies `taken, `block, `left
      ensures Valid() && Pos() <= |Flat(blocks)| && (ok <==> old(Pos()) + Room(c, n) <= |Flat(blocks)|)
      ensures ok ==> |s| == Room(c, n) && Read(old(Pos()), s)
    {
      s := [];
      while |s| < n
        invariant |s| <= Room(c, n) && Units(c, |s|) && Read(old(Pos()), s)
      {
        ok, s := GetMore(s, old(Pos()));
        if !ok {
          return;
        }
      }
      ok := true;
    }

    // One byte, or pair, more
    method GetMore(s0: seq<Byte>, ghost start: nat) returns (ok: bool, s: seq<Byte>)
      requires Read(start, s0)
      modifies `taken, `block, `left
      ensures Valid() && Pos() <= |Flat(blocks)| && (ok <==> start + |s0| + Unit(c) <= |Flat(blocks)|)
      ensures ok ==> |s| == |s0| + Unit(c) && Read(start, s)
    {
      var u;
      ok, u := GetUnit();
      s := s0 + u;
      if ok {
        AtJoin(Flat(blocks), start, s0, u);
      }
    }

    // Of n bytes of contents from position start on, s has been read, by whole pieces.
    ghost predicate Reading(start: nat, n: nat, s: seq<Byte>)
      reads this
    {
      && Valid() && |s| <= n && (|s| < n ==> |s| % CPIOBSZ == 0)
      && Pos() == start + (if |s| < n then |s| else Room(c, n)) <= |Flat(blocks)| && At(Flat(blocks), start, s)
    }

    // The contents of a member, CPIOBSZ bytes at a time
    method GetContents(n: nat) returns (ok: bool, s: seq<Byte>)
      requires Valid() && Pos() <= |Flat(blocks)|
      modifies `taken, `block, `left
      ensures Valid() && Pos() <= |Flat(blocks)| && (ok <==> old(Pos()) + Room(c, n) <= |Flat(blocks)|)
      ensures ok ==> Pos() == old(Pos()) + Room(c, n) && |s| == n && At(Flat(blocks), old(Pos()), s)
    {
      s := [];
      while |s| < n
        invariant Reading(old(Pos()), n, s)
      {
        ok, s := GetChunk(n, s, old(Pos()));
        if !ok {
          return;
        }
      }
      ok := true;
    }

    method GetChunk(n: nat, s0: seq<Byte>, ghost start: nat) returns (ok: bool, s: seq<Byte>)
      requires Reading(start, n, s0) && |s0| < n
      modifies `taken, `block, `left
      ensures if ok then Reading(start, n, s) && |s| > |s0|
              else Valid() && Pos() <= |Flat(blocks)| && start + Room(c, n) > |Flat(blocks)|
    {
      var ct := if n - |s0| > CPIOBSZ then CPIOBSZ else n - |s0|;
      var chunk;
      ok, chunk := Get(ct);
      s := s0;
      ChunkRoom(c, n, |s0|, ct);
      if ok {
        AtTake(Flat(blocks), start + |s0|, chunk, ct);
        AtJoin(Flat(blocks), start, s0, chunk[..ct]);
        s := s0 + chunk[..ct];
      }
    }

    // gethdr() and the copying of one member
    method GetMember() returns (entry: Option<Entry>, end: End)
      requires Valid() && Pos() <= |Flat(blocks)|
      modifies `taken, `block, `left
      ensures Valid() && Pos() <= |Flat(blocks)|
      ensures Next(c, Flat(blocks), old(Pos())) == if entry.Some? then Member(entry.value, Pos()) else Stop(end)
    {
      var ok, s := Get(c.size);
      if !ok {
        return None, OutOfInput;
      }
      var h := c.decode(s);
      if h.None? {
        return None, OutOfPhase;
      }
      entry, end := GetBody(h.value);
    }

    method GetName(named: nat) returns (ok: bool, name: seq<Byte>)
      requires Valid() && Pos() <= |Flat(blocks)|
      modifies `taken, `block, `left
      ensures Valid() && Pos() <= |Flat(blocks)| && (ok <==> old(Pos()) + Room(c, named) <= |Flat(blocks)|)
      ensures ok ==> Pos() == old(Pos()) + Room(c, named)
      ensures ok ==> name == CString(Flat(blocks)[old(Pos())..old(Pos()) + named])
    {
      var s;
      ok, s := Get(named);
      name := [];
      if ok {
        AtTake(Flat(blocks), old(Pos()), s, named);
        name := CString(s[..named]);
      }
    }

    method GetBody(h: Header) returns (entry: Option<Entry>, end: End)
      requires Valid() && Pos() <= |Flat(blocks)|
      modifies `taken, `block, `left
      ensures Valid() && Pos() <= |Flat(blocks)|
      ensures Body(c, Flat(blocks), old(Pos()), h) == if entry.Some? then Member(entry.value, Pos()) else Stop(end)
    {
      entry, end := None, OutOfInput;
      var named, got, name, s := false, false, [], [];
      named, name := GetName(NameSize(h));
      if named {
        end := AtTrailer;
        if name != c.trailer {
          got, s := GetContents(SizeOf(h));
          if got {
            entry := Some(Entry(name, h.info, s));
          } else {
            end := OutOfInput;
          }
        }
      }
      BodyParts(c, Flat(blocks), old(Pos()), h, named, name, got, s);
    }

    lemma PositionAtEnd()
      requires Valid() && left == 0
      ensures Pos() == |Flat(blocks[..taken])|
    {
      if taken > 0 {
        assert blocks[..taken][..taken - 1] == blocks[..taken - 1];
      } else {
        assert blocks[..0] == [];
      }
      if taken == |blocks| {
        assert blocks[..taken] == blocks;
      }
    }
  }

  // What is behind a header, from whether there was a name, and contents
  lemma BodyParts(c: Codec, b: seq<Byte>, p: nat, h: Header, named: bool, name: seq<Byte>, got: bool, s: seq<Byte>)
    requires var q := p + Room(c, NameSize(h));
             && (named <==> q <= |b|) && (named ==> name == CString(b[p..p + NameSize(h)]))
             && (named && name != c.trailer ==> (got <==> q + Room(c, SizeOf(h)) <= |b|))
             && (named && name != c.trailer && got ==> |s| == SizeOf(h) && At(b, q, s))
    ensures Body(c, b, p, h)
         == if !named then Stop(OutOfInput)
            else if name == c.trailer then Stop(AtTrailer)
            else if !got then Stop(OutOfInput)
            else Member(Entry(name, h.info, s), p + Room(c, NameSize(h)) + Room(c, SizeOf(h)))
  {
  }

  // Only the last piece takes more room than it has bytes.
  lemma ChunkRoom(c: Codec, n: nat, done: nat, ct: nat)
    requires done % CPIOBSZ == 0 && 0 < ct && done + ct <= n && (ct == CPIOBSZ || done + ct == n)
    ensures done + Room(c, ct) <= Room(c, n)
    ensures done + Room(c, ct) == if done + ct < n then done + ct else Room(c, n)
  {
  }

  lemma {:induction false} FlatPrefix(blocks: seq<seq<Byte>>, n: nat)
    requires n <= |blocks|
    ensures Flat(blocks[..n]) <= Flat(blocks)
    decreases |blocks| - n
  {
    if n == |blocks| {
      assert blocks[..n] == blocks;
    } else {
      FlatPrefix(blocks, n + 1);
      assert blocks[..n + 1][..n] == blocks[..n];
    }
  }

  lemma BlockWithin(blocks: seq<seq<Byte>>, k: nat, p: nat, n: nat)
    requires k < |blocks| && p + n <= |blocks[k]|
    ensures At(Flat(blocks), |Flat(blocks[..k])| + p, blocks[k][p..p + n])
  {
    var a := Flat(blocks[..k]);
    assert blocks[..k + 1][..k] == blocks[..k];
    assert Flat(blocks[..k + 1]) == a + blocks[k];
    FlatPrefix(blocks, k + 1);
    assert (a + blocks[k])[|a| + p..|a| + p + n] == blocks[k][p..p + n];
    AtStays(Flat(blocks[..k + 1]), Flat(blocks), |a| + p, blocks[k][p..p + n]);
  }

  lemma AtJoin(b: seq<Byte>, p: nat, s: seq<Byte>, t: seq<Byte>)
    requires At(b, p, s) && At(b, p + |s|, t)
    ensures At(b, p, s + t)
  {
    assert b[p..p + |s| + |t|] == b[p..p + |s|] + b[p + |s|..p + |s| + |t|];
  }

  lemma AtTake(b: seq<Byte>, p: nat, s: seq<Byte>, n: nat)
    requires At(b, p, s) && n <= |s|
    ensures At(b, p, s[..n])
  {
    assert b[p..p + n] == b[p..p + |s|][..n];
  }

  // The loop of -i: every member up to the trailer, or to where the input goes wrong
  method CopyIn(c: Codec, size: nat, blocks: seq<seq<Byte>>) returns (listing: Listing)
    requires c.Good() && size > 0 && size % 2 == 0 && AllFull(blocks, size)
    ensures listing == ListFile(c, Flat(blocks))
  {
    var r := new Input(c, size, blocks);
    ghost var b := Flat(blocks);
    var entries: seq<Entry> := [];
    while true
      invariant r.Valid() && fresh(r) && r.c == c && r.blocks == blocks && r.Pos() <= |b|
      invariant ListFile(c, b) == Then(entries, List(Reader(c, b), |b|, r.Pos()))
      decreases |b| - r.Pos()
    {
      ghost var p := r.Pos();
      var entry, end := r.GetMember();
      if entry.None? {
        return Listing(entries, end);
      }
      NextAdvances(c, b, p);
      ThenOneMore(entries, entry.value, List(Reader(c, b), |b|, r.Pos()));
      entries := entries + [entry.value];
    }
  }

  ghost function Then(entries: seq<Entry>, rest: Listing): Listing {
    Listing(entries + rest.entries, rest.end)
  }

  lemma ThenOneMore(entries: seq<Entry>, e: Entry, rest: Listing)
    ensures Then(entries, Listing([e] + rest.entries, rest.end)) == Then(entries + [e], rest)
  {
    assert entries + ([e] + rest.entries) == entries + [e] + rest.entries;
  }

  lemma NextAdvances(c: Codec, b: seq<Byte>, p: nat)
    requires c.Good()
    ensures Next(c, b, p).Member? ==> p < Next(c, b, p).next <= |b|
  {
  }

  // What -o writes, -i reads: the same members in the same order, in either form of header,
  // as long as none has the name of the trailer.
  method WriteAndRead(fmt: Format, size: nat, items: seq<Item>, info: Info, junk: Byte) returns (listing: Listing)
    requires size == 512 || size == 5120
    requires Fits(items) && InfoFits(info) && forall i :: 0 <= i < |items| ==> items[i].entry.name != TRAILER
    ensures listing == Listing(Entries(items), AtTrailer)
  {
    var c := CodecOf(fmt);
    CodecGood(fmt);
    var blocks := CopyOut(c, size, items, info, junk);
    RoundTripIff(c, items, info, junk, Flat(blocks));
    listing := CopyIn(c, size, blocks);
  }
}
