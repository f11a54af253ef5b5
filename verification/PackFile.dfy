// packfile() in pack.c: from the bytes of a file to its packed form, or the reason why
// it is left alone.  The arrays of the class are the program's global tables, which keep
// whatever an earlier file left in them.
module PackFile {
  import opened Kraft
  import opened PackFormat
  import opened Huffman
  import opened DepthBound
  import opened Heap
  import opened HeapTree
  import opened Canonical
  import opened CodeLengths
  import opened CodeTable
  import opened PackOutput
  import opened TextCost
  import PackOptimal

  datatype Outcome = Packed(file: seq<Byte>) | TrivialFile | TooManyLevels | NoSaving

  // k blocks of 512 bytes hold so many bytes.
  predicate Hold(k: nat, size: nat) {
    size <= 512 * k
  }

  // Some number of blocks holds the one and not the other.
  ghost predicate Saves(packed: nat, size: nat) {
    exists k: nat :: Hold(k, packed) && !Hold(k, size)
  }

  function Blocks(size: nat): nat {
    (size + BLKSIZE - 1) / BLKSIZE
  }

  lemma BlocksAreFewest(size: nat)
    ensures Hold(Blocks(size), size) && forall k: nat :: Hold(k, size) ==> Blocks(size) <= k
  {
  }

  // Comparing the numbers of blocks decides whether packing saves one.
  lemma FewerBlocksSave(packed: nat, size: nat)
    ensures Blocks(packed) < Blocks(size) <==> Saves(packed, size)
  {
    BlocksAreFewest(packed);
    BlocksAreFewest(size);
    if Saves(packed, size) {
      var k: nat :| Hold(k, packed) && !Hold(k, size);
      assert Blocks(packed) <= k;
      assert k < Blocks(size);
    }
    assert Blocks(packed) < Blocks(size) ==> !Hold(Blocks(packed), size);
  }

  // The size packfile() expects the packed file to have.
  ghost function Estimate(text: seq<Byte>, t: Tree): nat
    requires Covers(t.Depths(), text)
  {
    (TextLength(t.Depths(), text) + 7) / 8 + 6 + t.Height() + |TextCounts(text)| - 1
  }

  // The packed form of a text coded with the leaf depths of t.
  ghost predicate PackedWith(file: seq<Byte>, text: seq<Byte>, t: Tree) {
    PackableLengths(LensOf(t), t.Height()) && PackedAs(file, |text|, LensOf(t), t.Height(), text)
  }

  // packfile() as a relation: t is a Huffman tree for the text, and decides the outcome.
  ghost predicate Outcomes(text: seq<Byte>, force: bool, t: Tree, r: Outcome) {
    var w := TextCounts(text);
    if |w| == 2 then r == TrivialFile
    else
      && HuffmanTree(w, t) && Covers(t.Depths(), text)
      && var saves := Saves(Estimate(text, t), |text|);
         match r
         case TrivialFile => false
         case TooManyLevels => t.Height() > LEVELS
         case NoSaving => t.Height() <= LEVELS && !force && !saves
         case Packed(file) => t.Height() <= LEVELS && (force || saves) && PackedWith(file, text, t)
  }

  // ---- The counts ------------------------------------------------------------------

  function CountList(text: seq<Byte>): (c: seq<nat>)
    ensures |c| == END + 1
    ensures forall s: nat :: s <= END ==> c[s] == if s == END then 1 else 2 * Occurrences(text, s)
  {
    seq(END + 1, s requires 0 <= s <= END => if s == END then 1 else 2 * Occurrences(text, s))
  }

  lemma OccurringInText(text: seq<Byte>)
    ensures Occurring(CountList(text), 0) == TextCounts(text)
  {
  }

  // Adding up length times count over the symbols counts the bits of the text.
  lemma {:induction false} BitsOfOneMore(lens: LengthList, c: seq<nat>, c': seq<nat>, b: nat, n: nat)
    requires n <= |lens| && n <= |c| == |c'| && b < |c| && c' == c[b := c[b] + 2] && c[b] % 2 == 0
    ensures BitsNeeded(lens, c', n) == BitsNeeded(lens, c, n) + if b < n then lens[b] else 0
  {
    if n > 0 {
      BitsOfOneMore(lens, c, c', b, n - 1);
      if n - 1 == b {
        OneOccurrenceMore(lens[b], c[b]);
      }
    }
  }

  lemma OneOccurrenceMore(len: nat, count: nat)
    ensures BitsFor(len, count + 2) == BitsFor(len, count) + len
  {
    assert (count + 2) / 2 == count / 2 + 1;
    assert len * (count / 2 + 1) == len * (count / 2) + len;
  }

  lemma {:induction false} NoBits(lens: LengthList, c: seq<nat>, n: nat)
    requires n <= |lens| && n <= |c| && forall i :: 0 <= i < n ==> c[i] < 2
    ensures BitsNeeded(lens, c, n) == 0
  {
    if n > 0 {
      NoBits(lens, c, n - 1);
      assert BitsFor(lens[n - 1], c[n - 1]) == lens[n - 1] * 0;
    }
  }

  lemma {:induction false} BitsNeededForText(lens: LengthList, l: Kraft.Lengths, text: seq<Byte>)
    requires |lens| == END + 1 && Covers(l, text) && forall i :: 0 <= i < |text| ==> lens[text[i]] == l[text[i]]
    ensures BitsNeeded(lens, CountList(text), END + 1) == TextLength(l, text)
    decreases |text|
  {
    if text == [] {
      NoBits(lens, CountList(text), END + 1);
    } else {
      var n := |text| - 1;
      BitsNeededForText(lens, l, text[..n]);
      assert text == text[..n] + [text[n]];
      var c := CountList(text[..n]);
      assert CountList(text) == c[text[n] := c[text[n]] + 2];
      BitsOfOneMore(lens, c, CountList(text), text[n], END + 1);
    }
  }

  // ---- The tree --------------------------------------------------------------------

  lemma LeafBelowRoot(t: Tree, s: nat)
    requires t.Node? && t.Distinct() && s in t.Symbols()
    ensures t.Depth(s) > 0
  {
    BranchSymbols(t);
  }

  // END is on the last level, and every byte of the text has a codeword.
  lemma TreeIsPackable(text: seq<Byte>, t: Tree)
    requires HuffmanTree(TextCounts(text), t) && t.Node? && t.Height() <= LEVELS
    ensures PackableLengths(LensOf(t), t.Height())
    ensures forall i :: 0 <= i < |text| ==> LensOf(t)[text[i]] > 0
  {
    var w := TextCounts(text);
    HuffmanTreeShape(w, t);
    TreeLengthsOfTree(t);
    PackOptimal.TextCountsArePackCounts(text);
    var s := DeepestLeaf(t);
    EndIsDeepest(w, t, END, s);
    DepthAtMostHeight(t, END);
    assert t.Depths()[s] == t.Depth(s) && t.Depths()[END] == t.Depth(END);
    forall i | 0 <= i < |text| ensures LensOf(t)[text[i]] > 0 {
      assert text[i] in multiset(text);
      LeafBelowRoot(t, text[i]);
    }
  }

  class Packer {
    const count: array<nat>
    const parent: array<nat>
    const heap: array<Slot>
    const levcount: array<nat>
    const length: array<nat>
    const bits: array<nat>
    const outbuff: array<Byte>

    ghost predicate Valid() {
      && count.Length == levcount.Length == length.Length == bits.Length == END + 1
      && parent.Length == 2 * END + 1 && heap.Length == END + 2 && outbuff.Length == BLKSIZE + 4
      && count != parent && count != levcount && count != length && count != bits
      && parent != levcount && parent != length && parent != bits
      && levcount != length && levcount != bits && length != bits
      && heap as object != count && heap as object != parent && heap as object != levcount
      && heap as object != length && heap as object != bits
      && outbuff as object != count && outbuff as object != parent && outbuff as object != levcount
      && outbuff as object != length && outbuff as object != bits && outbuff as object != heap
    }

    constructor ()
      ensures Valid()
    {
      count := new nat[END + 1];
      parent := new nat[2 * END + 1];
      heap := new Slot[END + 2](_ => Slot(0, 0));
      levcount := new nat[END + 1];
      length := new nat[END + 1];
      bits := new nat[END + 1];
      outbuff := new Byte[BLKSIZE + 4];
    }

    // count has two for each byte in m.
    ghost predicate Counted(m: multiset<Byte>)
      requires Valid()
      reads count
    {
      forall b: Byte :: count[b] == 2 * m[b]
    }

    // "gather character frequency statistics": each block is scanned from its end.
    method Input(infile: seq<Byte>)
      requires Valid()
      modifies count
      ensures forall b: Byte :: count[b] == 2 * multiset(infile)[b]
    {
      for i := 0 to END
        invariant forall b :: 0 <= b < i ==> count[b] == 0
      {
        count[i] := 0;
      }
      var pos := 0;
      while pos < |infile|
        invariant 0 <= pos <= |infile| && Counted(multiset(infile[..pos]))
      {
        var n := if |infile| - pos < BLKSIZE then |infile| - pos else BLKSIZE;
        CountBlock(infile[pos..pos + n], multiset(infile[..pos]));
        assert infile[..pos + n] == infile[..pos] + infile[pos..pos + n];
        pos := pos + n;
      }
      assert infile[..pos] == infile;
    }

    method CountBlock(inbuff: seq<Byte>, ghost before: multiset<Byte>)
      requires Valid() && Counted(before)
      modifies count
      ensures Counted(before + multiset(inbuff))
    {
      var i := |inbuff|;
      while i > 0
        invariant 0 <= i <= |inbuff| && Counted(before + multiset(inbuff[i..]))
      {
        i := i - 1;
        assert inbuff[i..] == [inbuff[i]] + inbuff[i + 1..];
        count[inbuff[i]] := count[inbuff[i]] + 2;
      }
      assert inbuff[0..] == inbuff;
    }

    // Counts, heap and tree; no tree is built for a file of one distinct byte.
    method BuildCode(infile: seq<Byte>) returns (diffbytes: int, insize: nat, ghost t: Tree)
      requires Valid()
      modifies count, parent, heap
      ensures diffbytes == |TextCounts(infile)| - 1 && insize == |infile|
      ensures count[..] == CountList(infile)
      ensures diffbytes != 1 ==> HuffmanTree(TextCounts(infile), t) && Rooted(t, parent[..])
      ensures diffbytes > 1 ==> t.Node?
    {
      ghost var w := TextCounts(infile);
      t := Leaf(END, 1);
      Input(infile);
      count[END] := 1;
      assert count[..] == CountList(infile);
      OccurringInText(infile);
      CountsTotal(infile);
      var n, total;
      n, diffbytes, total := FillHeap(count, parent, heap);
      AllFilled(count[..], heap[..], n, total);
      insize := total / 2;
      if diffbytes != 1 {
        var lastnode;
        lastnode, t := BuildTree(parent, heap, n, w);
        HuffmanTreeShape(w, t);
      }
    }

    method PackFile(infile: seq<Byte>, force: bool) returns (r: Outcome, ghost t: Tree)
      requires Valid() && (force ==> infile != [])
      modifies count, parent, heap, levcount, length, bits, outbuff
      ensures Outcomes(infile, force, t, r)
    {
      var diffbytes, insize;
      diffbytes, insize, t := BuildCode(infile);
      if diffbytes == 1 {
        return TrivialFile, t;
      }
      TextCovered(infile, t);
      var maxlev, bitsout := AssignLengths(parent, count, length, levcount, t);
      if maxlev > LEVELS {
        return TooManyLevels, t;
      }
      BitsNeededForText(LensOf(t), t.Depths(), infile);
      var outsize := (bitsout + 7) / 8 + 6 + maxlev + diffbytes;
      FewerBlocksSave(outsize, insize);
      if Blocks(insize) <= Blocks(outsize) && !force {
        return NoSaving, t;
      }
      MoreThanOneByte(infile);
      TreeIsPackable(infile, t);
      AssignBits(length, maxlev, bits);
      var file, dictsize := Output(infile, outbuff, bits, length, levcount, maxlev, insize);
      r := Packed(file);
    }
  }

  lemma MoreThanOneByte(text: seq<Byte>)
    requires text != [] && |TextCounts(text)| != 2
    ensures |TextCounts(text)| > 2
  {
    var w := TextCounts(text);
    assert text[0] in multiset(text);
    assert {text[0] as nat, END} <= w.Keys;
    SubsetSize({text[0] as nat, END}, w.Keys);
  }

  lemma SubsetSize(a: set<nat>, b: set<nat>)
    requires a <= b
    ensures |a| <= |b|
  {
    assert b == a + (b - a);
  }

  lemma TextCovered(text: seq<Byte>, t: Tree)
    requires HuffmanTree(TextCounts(text), t)
    ensures Covers(t.Depths(), text) && forall i :: 0 <= i < |text| ==> LensOf(t)[text[i]] == t.Depths()[text[i]]
  {
    HuffmanTreeShape(TextCounts(text), t);
    forall i | 0 <= i < |text| ensures text[i] in t.Symbols() {
      assert text[i] in multiset(text);
    }
  }
}
