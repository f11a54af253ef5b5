// What packfile()'s outcome means, for every text and every way of breaking ties.
module PackTheorems {
  import opened Sums
  import opened PackFormat
  import opened Huffman
  import opened DepthBound
  import opened Canonical
  import opened CodeLengths
  import opened BitStream
  import opened PackOutput
  import opened TextCost
  import PackOptimal
  import opened PackFile
  import Unpack
  import RoundTrip

  lemma {:induction false} TextBitsLength(lens: LengthList, maxlev: nat, l: Kraft.Lengths, text: seq<Byte>)
    requires |lens| == END + 1 && Covers(l, text) && forall i :: 0 <= i < |text| ==> lens[text[i]] == l[text[i]]
    ensures |TextBits(lens, maxlev, text)| == TextLength(l, text)
    decreases |text|
  {
    if text != [] {
      TextBitsLength(lens, maxlev, l, text[..|text| - 1]);
    }
  }

  lemma PackedTree(text: seq<Byte>, force: bool, t: Tree, file: seq<Byte>)
    requires Outcomes(text, force, t, Packed(file)) && text != []
    ensures HuffmanTree(TextCounts(text), t) && t.Node? && t.Height() <= LEVELS && PackedWith(file, text, t)
    ensures forall i :: 0 <= i < |text| ==> LensOf(t)[text[i]] > 0
    ensures Covers(t.Depths(), text)
            && |MessageBits(LensOf(t), t.Height(), text)| == TextLength(t.Depths(), text) + t.Height()
  {
    var w := TextCounts(text);
    HuffmanTreeShape(w, t);
    MoreThanOneByte(text);
    assert t.Leaf? ==> |t.Symbols()| == 1;
    TreeIsPackable(text, t);
    TextCovered(text, t);
    TextBitsLength(LensOf(t), t.Height(), t.Depths(), text);
  }

  // unpack gives back the text packfile() packed.
  lemma PackedTextComesBack(text: seq<Byte>, force: bool, t: Tree, file: seq<Byte>, stale: seq<Byte>)
    requires Outcomes(text, force, t, Packed(file)) && text != []
    requires |text| < 0x1_0000_0000 && |stale| == BUFSIZ
    ensures Unpack.Decodable(file, stale) && Unpack.ResultFor(file, stale) == Unpack.Unpacked(text)
  {
    PackedTree(text, force, t, file);
    RoundTrip.UnpackAfterPack(file, LensOf(t), t.Height(), text, stale);
  }

  // No prefix code for the text's bytes and an end mark needs fewer bits than packfile() writes.
  lemma PackedMessageIsShortest(text: seq<Byte>, force: bool, t: Tree, file: seq<Byte>, code: Kraft.Code)
    requires Outcomes(text, force, t, Packed(file)) && text != []
    requires code.Keys == TextCounts(text).Keys && Kraft.PrefixFree(code)
    ensures Covers(Kraft.LengthsOf(code), text)
    ensures |MessageBits(LensOf(t), t.Height(), text)| <= TextLength(Kraft.LengthsOf(code), text) + |code[END]|
  {
    PackedTree(text, force, t, file);
    PackOptimal.NoShorterMessage(text, t, code);
    assert t.Depths()[END] == t.Depth(END) == LensOf(t)[END];
  }

  // A text refused for its tree has at least 196417 bytes.
  lemma RefusedTextIsLong(text: seq<Byte>, force: bool, t: Tree)
    requires Outcomes(text, force, t, TooManyLevels)
    ensures |text| >= 196417
  {
    var w := TextCounts(text);
    HuffmanTreeShape(w, t);
    PackOptimal.TextCountsArePackCounts(text);
    CountsTotal(text);
    if |text| < 196417 {
      var s := DeepestLeaf(t);
      assert t.Depths()[s] == t.Depth(s);
      ShortInputsFit(w, t, END, |text|, s);
    }
  }

  // ---- A text that is refused ------------------------------------------------------

  function Copies(b: Byte, k: nat): seq<Byte> {
    seq(k, i => b)
  }

  // Byte i occurs Fib(i + 1) times, for each i below n.
  function FibText(n: nat): seq<Byte>
    requires n <= END
  {
    if n == 0 then [] else FibText(n - 1) + Copies(n - 1, Fib(n))
  }

  lemma {:induction false} CopiesCount(b: Byte, k: nat)
    ensures multiset(Copies(b, k)) == multiset{}[b := k]
  {
    if k > 0 {
      CopiesCount(b, k - 1);
      assert Copies(b, k) == Copies(b, k - 1) + [b];
    }
  }

  lemma CopiesMore(text: seq<Byte>, b: Byte, k: nat, s: nat)
    ensures Occurrences(text + Copies(b, k), s) == Occurrences(text, s) + if s == b then k else 0
  {
    CopiesCount(b, k);
    assert multiset(text + Copies(b, k)) == multiset(text) + multiset(Copies(b, k));
  }

  lemma {:induction false} FibTextCounts(n: nat, s: nat)
    requires n <= END
    ensures Occurrences(FibText(n), s) == if s < n then Fib(s + 1) else 0
  {
    if n > 0 {
      FibTextCounts(n - 1, s);
      CopiesMore(FibText(n - 1), n - 1, Fib(n), s);
    }
  }

  lemma {:induction false} FibTextLength(n: nat)
    requires n <= END
    ensures |FibText(n)| == Fib(n + 2) - 1
  {
    if n > 0 {
      FibTextLength(n - 1);
    }
  }

  // Such a text with further copies of its most frequent byte
  lemma FibTextIsFibLike(n: nat, k: nat)
    requires 0 < n <= END
    ensures FibLike(TextCounts(FibText(n) + Copies(n - 1, k)), n, END)
  {
    var text := FibText(n) + Copies(n - 1, k);
    forall s: nat ensures Occurrences(text, s) == FibOccurrences(n, k, s) {
      FibTextCounts(n, s);
      CopiesMore(FibText(n), n - 1, k, s);
    }
    CountsAreFibLike(text, n, k);
  }

  lemma CountsAreFibLike(text: seq<Byte>, n: nat, k: nat)
    requires 0 < n <= END && forall s: nat :: Occurrences(text, s) == FibOccurrences(n, k, s)
    ensures FibLike(TextCounts(text), n, END)
  {
    var w := TextCounts(text);
    forall s: nat | s < n ensures s in w && FibWeight(w[s], s, s + 1 == n) {
      FibPositive(s);
      assert Occurrences(text, s) == FibOccurrences(n, k, s);
    }
    forall s: nat ensures s in w <==> s < n || s == END {
      assert Occurrences(text, s) == FibOccurrences(n, k, s);
    }
  }

  function FibOccurrences(n: nat, k: nat, s: nat): nat {
    if s < n then Fib(s + 1) + if s + 1 == n then k else 0 else 0
  }

  // However ties are broken, the tree of such a text has n levels, so it is refused from
  // n == 25 on, long before the 2^24 bytes the program's comment expects.
  lemma FibTextRefused(n: nat, k: nat, force: bool, t: Tree, r: Outcome)
    requires LEVELS < n <= END && Outcomes(FibText(n) + Copies(n - 1, k), force, t, r)
    ensures r == TooManyLevels && |FibText(n) + Copies(n - 1, k)| == Fib(n + 2) - 1 + k
  {
    var w := TextCounts(FibText(n) + Copies(n - 1, k));
    FibTextIsFibLike(n, k);
    FibTextLength(n);
    ManySymbols(w);
    FibLikeReachesDepth(w, n, END, t);
    HuffmanTreeShape(w, t);
    DepthAtMostHeight(t, END);
  }

  // A text of this size can be refused.
  ghost predicate Refusable(size: nat) {
    exists text: seq<Byte>, force, t :: |text| == size && Outcomes(text, force, t, TooManyLevels)
  }

  // From 196417 bytes on some text of every size is refused, and no text below.
  lemma RefusableIff(size: nat)
    ensures Refusable(size) <==> size >= 196417
  {
    if Refusable(size) {
      var text: seq<Byte>, force, t :| |text| == size && Outcomes(text, force, t, TooManyLevels);
      RefusedTextIsLong(text, force, t);
    }
    if size >= 196417 {
      var text, t := RefusedText(size);
    }
  }

  lemma RefusedText(size: nat) returns (text: seq<Byte>, t: Tree)
    requires size >= 196417
    ensures |text| == size && Outcomes(text, false, t, TooManyLevels)
  {
    var n, k := LEVELS + 1, size - 196417;
    text := FibText(n) + Copies(n - 1, k);
    FibTextLength(n);
    Fib27();
    FibTextIsFibLike(n, k);
    t := RefusedTree(text, n);
  }

  lemma RefusedTree(text: seq<Byte>, n: nat) returns (t: Tree)
    requires LEVELS < n && FibLike(TextCounts(text), n, END)
    ensures Outcomes(text, false, t, TooManyLevels)
  {
    var w := TextCounts(text);
    ManySymbols(w);
    t := HuffmanTreeExists(w);
    FibLikeReachesDepth(w, n, END, t);
    HuffmanTreeShape(w, t);
    DepthAtMostHeight(t, END);
    TextCovered(text, t);
  }

  lemma ManySymbols(w: map<nat, nat>)
    requires 0 in w && 1 in w && END in w
    ensures |w| != 2
  {
    SubsetSize({0, 1, END}, w.Keys);
  }

  // ---- The size estimate -----------------------------------------------------------

  lemma {:induction false} CharsPerByte(text: seq<Byte>, t: Tree, n: nat)
    requires HuffmanTree(TextCounts(text), t) && t.Node? && n <= END
    ensures CountUpTo(LensOf(t), t.Height(), n) == |Below(TextCounts(text).Keys, n)|
  {
    if n == 0 {
      assert Below(TextCounts(text).Keys, 0) == {};
    } else {
      CharsPerByte(text, t, n - 1);
      CodewordIffOccurs(text, t, n - 1);
      OneMoreBelow(TextCounts(text).Keys, n);
    }
  }

  lemma CodewordIffOccurs(text: seq<Byte>, t: Tree, s: nat)
    requires HuffmanTree(TextCounts(text), t) && t.Node? && s <= END
    ensures 1 <= LensOf(t)[s] <= t.Height() <==> s in TextCounts(text)
  {
    HuffmanTreeShape(TextCounts(text), t);
    if s in t.Symbols() {
      LeafBelowRoot(t, s);
      DepthAtMostHeight(t, s);
    }
  }

  lemma DictionaryLength(text: seq<Byte>, t: Tree)
    requires HuffmanTree(TextCounts(text), t) && t.Node? && PackableLengths(LensOf(t), t.Height())
    ensures |Header(|text|, LensOf(t), t.Height())| == 7 + t.Height() + |TextCounts(text)| - 1
  {
    CharsPerByte(text, t, END);
    CharsLength(LensOf(t), t.Height());
    RoundTrip.LevelBytesAt(LensOf(t), t.Height(), t.Height());
    var w := TextCounts(text);
    assert w.Keys == Below(w.Keys, END) + {END};
  }

  // packfile() expects one to four bytes fewer than it writes: it leaves out the byte
  // that holds the number of levels, and END's codeword.
  lemma EstimateFallsShort(text: seq<Byte>, force: bool, t: Tree, file: seq<Byte>)
    requires Outcomes(text, force, t, Packed(file)) && text != []
    ensures Covers(t.Depths(), text) && 1 <= |file| - Estimate(text, t) <= 4
  {
    PackedTree(text, force, t, file);
    DictionaryLength(text, t);
    var h := Header(|text|, LensOf(t), t.Height());
    assert |BitsOf(file[|h|..])| == 8 * (|file| - |h|);
  }
}
