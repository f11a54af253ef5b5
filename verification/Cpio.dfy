// cpio.c: -o writes a collection of files as an archive in blocks, -i reads it back.
module Cpio {
  import opened Common
  import opened CpioFormat

  const CPIOBSZ := 4096

  // ---- The archive as a string of bytes ----------------------------------------------------

  // The bytes that n bytes take up: the binary form moves shorts.
  function Room(c: Codec, n: nat): (r: nat)
    ensures n <= r <= n + 1 && (c.pairs ==> r % 2 == 0)
  {
    if c.pairs then (n + 1) / 2 * 2 else n
  }

  // s, and the byte of memory that comes along after it where the count is odd
  function Padded(c: Codec, s: seq<Byte>, junk: Byte): (r: seq<Byte>)
    ensures |r| == Room(c, |s|) && r[..|s|] == s
  {
    if c.pairs && |s| % 2 == 1 then s + [junk] else s
  }

  // A member that fits the fields of a header; its name is a C string.
  predicate EntryFits(e: Entry) {
    InfoFits(e.info) && |e.name| < 256 && 0 !in e.name && |e.contents| < 0x8000_0000
  }

  function HeaderOf(e: Entry): (h: Header)
    requires EntryFits(e)
    ensures HeaderFits(h)
  {
    Header(e.info, |e.name| + 1, |e.contents|)
  }

  function Head(c: Codec, e: Entry, junk: Byte): (s: seq<Byte>)
    requires c.Good() && EntryFits(e)
    ensures |s| == c.size + Room(c, |e.name| + 1)
  {
    Padded(c, c.encode(HeaderOf(e)) + e.name + [0], junk)
  }

  // A member and the stray bytes written with it
  datatype Item = Item(entry: Entry, junk0: Byte, junk1: Byte)

  predicate Fits(items: seq<Item>) {
    forall i :: 0 <= i < |items| ==> EntryFits(items[i].entry)
  }

  function HeadSize(c: Codec, e: Entry): nat {
    c.size + Room(c, |e.name| + 1)
  }

  function Size(c: Codec, item: Item): nat {
    HeadSize(c, item.entry) + Room(c, |item.entry.contents|)
  }

  // A member is found in b at p.
  predicate ImageAt(c: Codec, b: seq<Byte>, p: nat, item: Item)
    requires c.Good() && EntryFits(item.entry)
  {
    && At(b, p, Head(c, item.entry, item.junk0))
    && At(b, p + HeadSize(c, item.entry), Padded(c, item.entry.contents, item.junk1))
  }

  // Where member k begins
  function Offset(c: Codec, items: seq<Item>, k: nat): nat
    requires k <= |items|
  {
    if k == 0 then 0 else Offset(c, items, k - 1) + Size(c, items[k - 1])
  }

  // b begins with the images of the first n members.
  ghost predicate Holds(c: Codec, b: seq<Byte>, items: seq<Item>, n: nat)
    requires c.Good() && n <= |items| && Fits(items)
  {
    forall k: nat :: k < n ==> ImageAt(c, b, Offset(c, items, k), items[k])
  }

  // The trailer carries whatever the last member left in the header.
  function TrailerEntry(c: Codec, info: Info): (e: Entry)
    requires c.Good() && InfoFits(info)
    ensures EntryFits(e)
  {
    Entry(c.trailer, info, [])
  }

  ghost predicate Archive(c: Codec, b: seq<Byte>, items: seq<Item>, info: Info, junk: Byte)
    requires c.Good() && Fits(items) && InfoFits(info)
  {
    && Holds(c, b, items, |items|)
    && At(b, Offset(c, items, |items|), Head(c, TrailerEntry(c, info), junk))
  }

  // ---- Reading ---------------------------------------------------------------------------------

  datatype End = AtTrailer | OutOfPhase | OutOfInput

  datatype Listing = Listing(entries: seq<Entry>, end: End)

  function FirstNul(s: seq<Byte>, k: nat): (i: nat)
    requires k <= |s|
    ensures k <= i <= |s|
    ensures forall j :: k <= j < i ==> s[j] != 0
    ensures i < |s| ==> s[i] == 0
    decreases |s| - k
  {
    if k == |s| || s[k] == 0 then k else FirstNul(s, k + 1)
  }

  function CString(s: seq<Byte>): seq<Byte> {
    s[..FirstNul(s, 0)]
  }

  function NameSize(h: Header): nat {
    if h.namesize < 0 then 0 else h.namesize
  }

  // The file size as a signed long; a negative one has no contents.
  function SizeOf(h: Header): nat
  {
    if 0 <= h.filesize < 0x8000_0000 then h.filesize else 0
  }

  datatype Step = Member(entry: Entry, next: nat) | Stop(end: End)

  // A member is found, unless it has the name of the trailer.
  function Found(c: Codec, e: Entry, next: nat): Step {
    if e.name == c.trailer then Stop(AtTrailer) else Member(e, next)
  }

  // What gethdr() and the copying of the contents find at position p
  function Next(c: Codec, b: seq<Byte>, p: nat): Step {
    if p + c.size > |b| then Stop(OutOfInput)
    else
      var h := c.decode(b[p..p + c.size]);
      if h.None? then Stop(OutOfPhase) else Body(c, b, p + c.size, h.value)
  }

  // What they find behind header h, from position p on
  function Body(c: Codec, b: seq<Byte>, p: nat, h: Header): Step {
    var named, size := NameSize(h), SizeOf(h);
    var q := p + Room(c, named);
    if q > |b| then Stop(OutOfInput)
    else
      var name := CString(b[p..p + named]);
      if name == c.trailer then Stop(AtTrailer)
      else
        var r := q + Room(c, size);
        if r > |b| then Stop(OutOfInput) else Member(Entry(name, h.info, b[q..q + size]), r)
  }

  // All that is read from position p on, next being what is found at a position
  function List(next: nat -> Step, len: nat, p: nat): Listing
    requires p <= len
    decreases len - p
  {
    match next(p)
    case Stop(end) => Listing([], end)
    case Member(entry, q) =>
      if p < q <= len then
        var rest := List(next, len, q);
        Listing([entry] + rest.entries, rest.end)
      else Listing([], OutOfInput)
  }

  function Reader(c: Codec, b: seq<Byte>): nat -> Step {
    (p: nat) => Next(c, b, p)
  }

  function ListFile(c: Codec, b: seq<Byte>): Listing {
    List(Reader(c, b), |b|, 0)
  }

  // ---- What was written is read back -------------------------------------------------------

  lemma NameBack(name: seq<Byte>)
    requires 0 !in name
    ensures CString(name + [0]) == name
  {
    var s := name + [0];
    var i := FirstNul(s, 0);
    forall j | 0 <= j < |name| ensures s[j] != 0 {
      assert s[j] in name;
    }
    assert s[|name|] == 0;
    assert i == |name|;
  }

  lemma PaddedAt(c: Codec, b: seq<Byte>, p: nat, s: seq<Byte>, junk: Byte)
    requires At(b, p, Padded(c, s, junk))
    ensures At(b, p, s)
  {
    assert b[p..p + |s|] == b[p..p + Room(c, |s|)][..|s|];
  }

  // The head of a member, found at p, is understood.
  lemma HeadBack(c: Codec, e: Entry, junk: Byte, b: seq<Byte>, p: nat)
    requires c.Good() && EntryFits(e) && At(b, p, Head(c, e, junk))
    ensures var p1 := p + c.size;
            p1 + Room(c, |e.name| + 1) <= |b| && c.decode(b[p..p1]) == Some(HeaderOf(e))
            && CString(b[p1..p1 + |e.name| + 1]) == e.name
  {
    var h := c.encode(HeaderOf(e));
    PaddedAt(c, b, p, h + e.name + [0], junk);
    assert h + e.name + [0] == h + (e.name + [0]);
    AtBoth(b, p, h, e.name + [0]);
    NameBack(e.name);
  }

  // Behind the header a member's name and contents are found.
  lemma BodyBack(c: Codec, e: Entry, b: seq<Byte>, p: nat)
    requires c.Good() && EntryFits(e)
    requires var q := p + Room(c, |e.name| + 1); At(b, q, e.contents) && q + Room(c, |e.contents|) <= |b|
    requires CString(b[p..p + |e.name| + 1]) == e.name
    ensures var q := p + Room(c, |e.name| + 1);
            Body(c, b, p, HeaderOf(e)) == Found(c, e, q + Room(c, |e.contents|))
  {
  }

  lemma MemberBack(c: Codec, e: Entry, junk: Byte, b: seq<Byte>, p: nat)
    requires c.Good() && EntryFits(e) && At(b, p, Head(c, e, junk))
    requires var q := p + HeadSize(c, e); At(b, q, e.contents) && q + Room(c, |e.contents|) <= |b|
    ensures Next(c, b, p) == Found(c, e, p + HeadSize(c, e) + Room(c, |e.contents|))
  {
    HeadBack(c, e, junk, b, p);
    BodyBack(c, e, b, p + c.size);
  }

  // The image of a member at p is read as that member.
  lemma ImageBack(c: Codec, item: Item, b: seq<Byte>, p: nat)
    requires c.Good() && EntryFits(item.entry) && ImageAt(c, b, p, item)
    ensures p + Size(c, item) <= |b| && Next(c, b, p) == Found(c, item.entry, p + Size(c, item))
  {
    PaddedAt(c, b, p + HeadSize(c, item.entry), item.entry.contents, item.junk1);
    MemberBack(c, item.entry, item.junk0, b, p);
  }

  lemma TrailerBack(c: Codec, info: Info, junk: Byte, b: seq<Byte>, p: nat)
    requires c.Good() && InfoFits(info) && At(b, p, Head(c, TrailerEntry(c, info), junk))
    ensures Next(c, b, p) == Stop(AtTrailer)
  {
    HeadBack(c, TrailerEntry(c, info), junk, b, p);
  }

  // The members before the first one that has the name of the trailer
  function UpToTrailer(c: Codec, items: seq<Item>, k: nat): seq<Entry>
    requires k <= |items|
    decreases |items| - k
  {
    if k == |items| || items[k].entry.name == c.trailer then []
    else [items[k].entry] + UpToTrailer(c, items, k + 1)
  }

  // A list of members that begin at the positions offs
  lemma {:induction false} ListFrom(c: Codec, next: nat -> Step, len: nat, items: seq<Item>, offs: seq<nat>, k: nat)
    requires |offs| == |items| + 1 && k <= |items| && forall j :: 0 <= j < |offs| ==> offs[j] <= len
    requires forall j: nat :: j < |items| ==> StepOk(c, next, len, items, offs, j)
    requires next(offs[|items|]) == Stop(AtTrailer)
    ensures List(next, len, offs[k]) == Listing(UpToTrailer(c, items, k), AtTrailer)
    decreases |items| - k
  {
    if k < |items| {
      assert StepOk(c, next, len, items, offs, k);
      if items[k].entry.name != c.trailer {
        ListFrom(c, next, len, items, offs, k + 1);
      }
    }
  }

  ghost predicate StepOk(c: Codec, next: nat -> Step, len: nat, items: seq<Item>, offs: seq<nat>, k: nat)
    requires k < |items| && |offs| == |items| + 1
  {
    offs[k] < offs[k + 1] <= len && next(offs[k]) == Found(c, items[k].entry, offs[k + 1])
  }

  ghost function Offsets(c: Codec, items: seq<Item>): (offs: seq<nat>)
    ensures |offs| == |items| + 1 && forall k: nat :: k <= |items| ==> offs[k] == Offset(c, items, k)
  {
    seq(|items| + 1, k requires 0 <= k <= |items| => Offset(c, items, k))
  }

  lemma MemberStep(c: Codec, items: seq<Item>, b: seq<Byte>, k: nat)
    requires c.Good() && Fits(items) && k < |items| && ImageAt(c, b, Offset(c, items, k), items[k])
    ensures StepOk(c, Reader(c, b), |b|, items, Offsets(c, items), k)
    ensures Offsets(c, items)[k] <= |b|
  {
    var p := Offset(c, items, k);
    ImageBack(c, items[k], b, p);
    assert Offset(c, items, k + 1) == p + Size(c, items[k]);
  }

  lemma LastStep(c: Codec, items: seq<Item>, info: Info, junk: Byte, b: seq<Byte>)
    requires c.Good() && Fits(items) && InfoFits(info)
    requires At(b, Offset(c, items, |items|), Head(c, TrailerEntry(c, info), junk))
    ensures Reader(c, b)(Offsets(c, items)[|items|]) == Stop(AtTrailer)
    ensures Offsets(c, items)[|items|] <= |b|
  {
    TrailerBack(c, info, junk, b, Offset(c, items, |items|));
  }

  // An archive, whatever follows it, gives back its members in order, up to the first that
  // has the name of the trailer.
  lemma ListArchive(c: Codec, items: seq<Item>, info: Info, junk: Byte, b: seq<Byte>)
    requires c.Good() && Fits(items) && InfoFits(info) && Archive(c, b, items, info, junk)
    ensures ListFile(c, b) == Listing(UpToTrailer(c, items, 0), AtTrailer)
  {
    forall k: nat | k < |items|
      ensures StepOk(c, Reader(c, b), |b|, items, Offsets(c, items), k) && Offsets(c, items)[k] <= |b|
    {
      MemberStep(c, items, b, k);
    }
    LastStep(c, items, info, junk, b);
    ListFrom(c, Reader(c, b), |b|, items, Offsets(c, items), 0);
  }

  function Entries(items: seq<Item>): seq<Entry> {
    seq(|items|, i requires 0 <= i < |items| => items[i].entry)
  }

  lemma {:induction false} UpToTrailerAll(c: Codec, items: seq<Item>, k: nat)
    requires k <= |items|
    ensures UpToTrailer(c, items, k) == Entries(items)[k..]
            <==> forall i :: k <= i < |items| ==> items[i].entry.name != c.trailer
    ensures |UpToTrailer(c, items, k)| <= |items| - k
    decreases |items| - k
  {
    if k < |items| {
      UpToTrailerAll(c, items, k + 1);
      var all := Entries(items);
      assert all[k..] == [items[k].entry] + all[k + 1..];
      if items[k].entry.name != c.trailer && UpToTrailer(c, items, k) == all[k..] {
        assert UpToTrailer(c, items, k + 1) == UpToTrailer(c, items, k)[1..] == all[k + 1..];
      }
    }
  }

  // So the round trip is exact for just the collections without such a member.
  lemma RoundTripIff(c: Codec, items: seq<Item>, info: Info, junk: Byte, b: seq<Byte>)
    requires c.Good() && Fits(items) && InfoFits(info) && Archive(c, b, items, info, junk)
    ensures ListFile(c, b) == Listing(Entries(items), AtTrailer)
            <==> forall i :: 0 <= i < |items| ==> items[i].entry.name != c.trailer
  {
    ListArchive(c, items, info, junk, b);
    UpToTrailerAll(c, items, 0);
    assert Entries(items)[0..] == Entries(items);
  }
}
