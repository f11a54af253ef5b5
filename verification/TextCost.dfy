// Counting the bytes of a text, and what a code spends on it.
module TextCost {
  import opened Sums
  import opened Kraft
  import opened PackFormat

  // How often byte s occurs; no byte is END.
  function Occurrences(text: seq<Byte>, s: nat): nat {
    if s < END then multiset(text)[s as Byte] else 0
  }

  // The counts packfile() works with: two for each occurrence of a byte, one for END.
  ghost function TextCounts(text: seq<Byte>): (w: map<nat, nat>)
    ensures forall s: nat :: s in w <==> s == END || Occurrences(text, s) > 0
    ensures forall s: nat :: s in w ==> w[s] == if s == END then 1 else 2 * Occurrences(text, s)
  {
    map s: nat | s <= END && (s == END || Occurrences(text, s) > 0) ::
      if s == END then 1 else 2 * Occurrences(text, s)
  }

  // The same for a given set of symbols, without END's share.
  ghost function TextWeights(text: seq<Byte>, symbols: set<nat>): (w: map<nat, nat>)
    ensures w.Keys == symbols && forall s :: s in w ==> w[s] == 2 * Occurrences(text, s)
  {
    map s | s in symbols :: 2 * Occurrences(text, s)
  }

  ghost predicate Covers(l: Lengths, text: seq<Byte>) {
    forall i :: 0 <= i < |text| ==> text[i] in l
  }

  // The number of bits the text takes.
  ghost function TextLength(l: Lengths, text: seq<Byte>): nat
    requires Covers(l, text)
  {
    if text == [] then 0 else TextLength(l, text[..|text| - 1]) + l[text[|text| - 1]]
  }

  lemma OneByteMore(text: seq<Byte>, symbols: set<nat>)
    requires text != []
    ensures TextWeights(text, symbols) == (map s | s in symbols ::
              TextWeights(text[..|text| - 1], symbols)[s] + if s == text[|text| - 1] then 2 else 0)
  {
    var n := |text| - 1;
    assert text == text[..n] + [text[n]];
  }

  lemma {:induction false} TextSpent(text: seq<Byte>, l: Lengths)
    requires Covers(l, text)
    ensures Spent(TextWeights(text, l.Keys), l) == 2 * TextLength(l, text)
    decreases |text|
  {
    if text == [] {
      var p := Products(TextWeights(text, l.Keys), l);
      SumScale(p, p, 0);
    } else {
      var n := |text| - 1;
      var b: nat := text[n];
      TextSpent(text[..n], l);
      OneByteMore(text, l.Keys);
      HeavierByTwo(TextWeights(text, l.Keys), TextWeights(text[..n], l.Keys), l, b);
    }
  }

  lemma HeavierByTwo(w: map<nat, nat>, w0: map<nat, nat>, l: Lengths, b: nat)
    requires w.Keys == w0.Keys == l.Keys && b in w
    requires forall s :: s in w ==> w[s] == w0[s] + if s == b then 2 else 0
    ensures Spent(w, l) == Spent(w0, l) + 2 * l[b]
  {
    RestOfProducts(w, l, b);
    RestOfProducts(w0, l, b);
    assert w - {b} == w0 - {b};
    TwoMore(w0[b], l[b]);
  }

  lemma TwoMore(a: nat, l: nat)
    ensures (a + 2) * l == a * l + 2 * l
  {
  }

  // END weighing end, everything else as in the text.
  ghost function WithEnd(text: seq<Byte>, end: nat): map<nat, nat> {
    TextCounts(text)[END := end]
  }

  lemma CountsSpent(text: seq<Byte>, l: Lengths, end: nat)
    requires l.Keys == TextCounts(text).Keys
    ensures Covers(l, text) && Spent(WithEnd(text, end), l) == 2 * TextLength(l, text) + end * l[END]
  {
    forall i | 0 <= i < |text| ensures text[i] in l {
      assert text[i] in multiset(text);
    }
    TextSpent(text, l);
    WeighEnd(TextWeights(text, l.Keys), WithEnd(text, end), l, end);
  }

  lemma WeighEnd(w: map<nat, nat>, w': map<nat, nat>, l: Lengths, end: nat)
    requires w.Keys == w'.Keys == l.Keys && END in l && w[END] == 0 && w'[END] == end
    requires forall s :: s in w && s != END ==> w'[s] == w[s]
    ensures Spent(w', l) == Spent(w, l) + end * l[END]
  {
    RestOfProducts(w, l, END);
    RestOfProducts(w', l, END);
    assert w - {END} == w' - {END};
  }

  ghost function Ones(symbols: set<nat>): Lengths {
    map s | s in symbols :: 1
  }

  lemma {:induction false} TextLengthOnes(text: seq<Byte>, symbols: set<nat>)
    requires Covers(Ones(symbols), text)
    ensures TextLength(Ones(symbols), text) == |text|
    decreases |text|
  {
    if text != [] {
      TextLengthOnes(text[..|text| - 1], symbols);
    }
  }

  // insize is half the total count.
  lemma CountsTotal(text: seq<Byte>)
    ensures Sum(TextCounts(text)) == 2 * |text| + 1
  {
    var w := TextCounts(text);
    var l := Ones(w.Keys);
    CountsSpent(text, l, 1);
    TextLengthOnes(text, w.Keys);
    TimesOne(w);
    assert WithEnd(text, 1) == w;
  }

  lemma TimesOne(w: map<nat, nat>)
    ensures Products(w, Ones(w.Keys)) == w
  {
    var p := Products(w, Ones(w.Keys));
    assert forall s :: s in w ==> p[s] == w[s] * 1;
  }
}
