// getdict() in unpack.c: the dictionary at the front of a packed file, and the tables
// decode() works with.
module UnpackDict {
  import opened PackFormat

  // Level i has counts[i - 1] leaves; the last leaf of the last level is the end mark,
  // and the characters of all other leaves follow in order.
  datatype Dict = Dict(size: nat, counts: seq<nat>, chars: seq<Byte>, length: nat)

  datatype Parsed = Parsed(dict: Dict) | NotPacked | OldStyle

  function Total(counts: seq<nat>): nat {
    if counts == [] then 0 else Total(counts[..|counts| - 1]) + counts[|counts| - 1]
  }

  function BigEndian(b: seq<Byte>): nat {
    if b == [] then 0 else BigEndian(b[..|b| - 1]) * 256 + b[|b| - 1]
  }

  // The first leaf of level lev among the characters.
  function Start(counts: seq<nat>, lev: nat): nat
    requires 1 <= lev <= |counts| + 1
  {
    Total(counts[..lev - 1])
  }

  // What the program makes of a buffer whose first n bytes come from the file.
  function Parse(buf: seq<Byte>, n: nat): Parsed
    requires |buf| == BUFSIZ
  {
    if buf[0] != US then NotPacked
    else if buf[1] == US then OldStyle
    else if buf[1] != RS || buf[6] > LEVELS then NotPacked
    else
      var maxlev := buf[6];
      var raw := buf[7..7 + maxlev];
      var total := Total(raw);
      var length := 7 + maxlev + total + 1;
      if total > 255 || n < length then NotPacked
      else Parsed(Dict(BigEndian(buf[2..6]), PlusTwo(raw), buf[7 + maxlev..length], length))
  }

  // The header gives the number of leaves on the last level less two.
  function PlusTwo(raw: seq<nat>): (counts: seq<nat>)
    ensures |counts| == |raw|
  {
    if raw == [] then [] else raw[..|raw| - 1] + [raw[|raw| - 1] + 2]
  }

  // Inner nodes on level lev.
  function InnerNodes(counts: seq<nat>, lev: nat): nat
    decreases |counts| - lev
  {
    if lev >= |counts| then 0 else (InnerNodes(counts, lev + 1) + counts[lev]) / 2
  }

  ghost predicate EvenNodes(counts: seq<nat>, lev: nat)
    requires 1 <= lev <= |counts|
  {
    (InnerNodes(counts, lev) + counts[lev - 1]) % 2 == 0
  }

  // The leaf counts are those of a binary tree, and there is a character for each leaf
  // but the last.  The program does not check this.
  ghost predicate CompleteDict(d: Dict) {
    && 1 <= |d.counts| <= LEVELS && InnerNodes(d.counts, 0) == 1
    && (forall lev :: 1 <= lev <= |d.counts| ==> EvenNodes(d.counts, lev))
    && |d.chars| + 1 == Total(d.counts) && |d.chars| <= END
  }

  // decode()'s tables hold the dictionary.
  ghost predicate Tables(d: Dict, intnodes: seq<nat>, tree: seq<nat>, characters: seq<Byte>, eof: nat) {
    && |d.counts| <= LEVELS && |intnodes| == |tree| == LEVELS + 1 && |characters| == END
    && (forall lev :: 1 <= lev <= |d.counts| ==>
          intnodes[lev] == InnerNodes(d.counts, lev) && tree[lev] == Start(d.counts, lev))
    && eof == |d.chars| <= END && characters[..eof] == d.chars
  }

  // read() of at most BUFSIZ bytes.
  method Read(infile: seq<Byte>, fpos0: nat, inbuff: array<Byte>) returns (n: nat, fpos: nat)
    requires inbuff.Length == BUFSIZ && fpos0 <= |infile|
    modifies inbuff
    ensures n == (if |infile| - fpos0 < BUFSIZ then |infile| - fpos0 else BUFSIZ) && fpos == fpos0 + n
    ensures inbuff[..] == infile[fpos0..fpos] + old(inbuff[n..])
  {
    n := if |infile| - fpos0 < BUFSIZ then |infile| - fpos0 else BUFSIZ;
    fpos := fpos0 + n;
    ghost var before := inbuff[..];
    for i := 0 to n
      invariant forall k :: 0 <= k < i ==> inbuff[k] == infile[fpos0 + k]
      invariant forall k :: i <= k < BUFSIZ ==> inbuff[k] == before[k]
    {
      inbuff[i] := infile[fpos0 + i];
    }
    assert inbuff[..] == infile[fpos0..fpos] + before[n..];
  }

  // The buffer getdict() looks at: byte 6 is preset so that a short file is refused.
  function Filled(infile: seq<Byte>, stale: seq<Byte>): (buf: seq<Byte>)
    requires |stale| == BUFSIZ
    ensures |buf| == BUFSIZ
  {
    var n := if |infile| < BUFSIZ then |infile| else BUFSIZ;
    infile[..n] + stale[6 := 25][n..]
  }

  lemma {:induction false} TotalSplit(a: seq<nat>, b: seq<nat>)
    ensures Total(a + b) == Total(a) + Total(b)
  {
    if b == [] {
      assert a + b == a;
    } else {
      var n := |b| - 1;
      TotalSplit(a, b[..n]);
      assert (a + b)[..|a + b| - 1] == a + b[..n];
    }
  }

  lemma TotalPrefix(s: seq<nat>, k: nat)
    requires k <= |s|
    ensures Total(s[..k]) <= Total(s)
    ensures k < |s| ==> Total(s[..k + 1]) == Total(s[..k]) + s[k]
  {
    TotalSplit(s[..k], s[k..]);
    assert s == s[..k] + s[k..];
    if k < |s| {
      assert s[..k + 1][..k] == s[..k];
    }
  }

  // "get size of original file, number of levels, number of leaves on each level"
  method ReadCounts(inbuff: array<Byte>, intnodes: array<nat>, maxlev: nat) returns (origsize: nat, inp: nat)
    requires inbuff.Length == BUFSIZ && intnodes.Length == LEVELS + 1 && maxlev <= LEVELS
    requires inbuff as object != intnodes
    modifies intnodes
    ensures origsize == BigEndian(inbuff[2..6]) && inp == 7 + maxlev
    ensures intnodes[1..maxlev + 1] == inbuff[7..7 + maxlev]
    ensures forall i :: 1 <= i <= maxlev ==> intnodes[i] == inbuff[6 + i]
  {
    inp, origsize := 2, 0;
    for i := 0 to 4
      invariant inp == 2 + i && origsize == BigEndian(inbuff[2..inp])
    {
      assert inbuff[2..inp + 1][..i] == inbuff[2..inp];
      origsize := origsize * 256 + inbuff[inp];
      inp := inp + 1;
    }
    inp := inp + 1;
    var i := 1;
    while i <= maxlev
      invariant 1 <= i <= maxlev + 1 && inp == 6 + i
      invariant forall k :: 1 <= k < i ==> intnodes[k] == inbuff[6 + k]
    {
      intnodes[i] := inbuff[inp];
      inp := inp + 1;
      i := i + 1;
    }
  }

  // "set tree[i] to point to leaves for level i"
  method ReadChars(inbuff: array<Byte>, intnodes: array<nat>, tree: array<nat>, characters: array<Byte>,
                   maxlev: nat, inp0: nat)
    returns (ok: bool, eof: nat, inp: nat)
    requires inbuff.Length == BUFSIZ && intnodes.Length == tree.Length == LEVELS + 1 && characters.Length == END
    requires inbuff != characters && intnodes != tree && maxlev <= LEVELS && inp0 == 7 + maxlev
    requires inbuff as object != tree && characters as object != intnodes && characters as object != tree
    requires forall i :: 1 <= i <= maxlev ==> intnodes[i] < 256
    modifies tree, characters
    ensures ok <==> Total(intnodes[1..maxlev + 1]) <= 255
    ensures ok ==> eof == Total(intnodes[1..maxlev + 1]) && inp == inp0 + eof
    ensures ok ==> characters[..eof] == inbuff[inp0..inp]
    ensures ok ==> forall lev :: 1 <= lev <= maxlev ==> tree[lev] == Start(intnodes[1..maxlev + 1], lev)
  {
    ghost var raw: seq<nat> := intnodes[1..maxlev + 1];
    eof, inp, ok := 0, inp0, true;
    var i := 1;
    while i <= maxlev
      invariant 1 <= i <= maxlev + 1 && raw == intnodes[1..maxlev + 1]
      invariant eof == Total(raw[..i - 1]) <= 255 && inp == inp0 + eof
      invariant characters[..eof] == inbuff[inp0..inp]
      invariant forall lev :: 1 <= lev < i ==> tree[lev] == Start(raw, lev)
    {
      tree[i] := eof;
      var c: nat := intnodes[i];
      assert c == raw[i - 1];
      TotalPrefix(raw, i - 1);
      TotalPrefix(raw, i);
      while c > 0
        invariant 0 <= c <= raw[i - 1] && raw == intnodes[1..maxlev + 1]
        invariant eof == Total(raw[..i - 1]) + raw[i - 1] - c <= 255 && inp == inp0 + eof
        invariant characters[..eof] == inbuff[inp0..inp]
        invariant forall lev :: 1 <= lev <= i ==> tree[lev] == Start(raw, lev)
      {
        if eof >= 255 {
          ok := false;
          return;
        }
        characters[eof] := inbuff[inp];
        eof := eof + 1;
        inp := inp + 1;
        c := c - 1;
      }
      i := i + 1;
    }
    assert raw[..maxlev] == raw;
  }

  // "convert intnodes[i] to be number of internal nodes possessed by level i"
  method CountInner(intnodes: array<nat>, maxlev: nat, ghost counts: seq<nat>)
    requires intnodes.Length == LEVELS + 1 && maxlev == |counts| <= LEVELS
    requires forall i :: 1 <= i <= maxlev ==> intnodes[i] == counts[i - 1]
    modifies intnodes
    ensures forall i :: 1 <= i <= maxlev ==> intnodes[i] == InnerNodes(counts, i)
  {
    var nchildren: nat := 0;
    var i := maxlev;
    while i >= 1
      invariant 0 <= i <= maxlev
      invariant nchildren / 2 == InnerNodes(counts, i)
      invariant forall k :: i < k <= maxlev ==> intnodes[k] == InnerNodes(counts, k)
      invariant forall k :: 1 <= k <= i ==> intnodes[k] == counts[k - 1]
    {
      var c := intnodes[i];
      nchildren := nchildren / 2;
      intnodes[i] := nchildren;
      nchildren := nchildren + c;
      i := i - 1;
    }
  }
}
