// crypt.c: a one-rotor machine; how its tables are drawn from a stream of random numbers,
// and the cipher they make.
module Crypt {
  import opened Common

  const ROTORSZ := 256

  // ---- Tables ------------------------------------------------------------------------

  ghost predicate IsTable(t: seq<int>) {
    |t| == ROTORSZ && forall i :: 0 <= i < ROTORSZ ==> 0 <= t[i] < ROTORSZ
  }

  // t undoes s.
  ghost predicate Undoes(s: seq<int>, t: seq<int>) {
    IsTable(s) && IsTable(t) && forall i :: 0 <= i < ROTORSZ ==> t[s[i]] == i
  }

  ghost predicate Inverse(s: seq<int>, t: seq<int>) {
    Undoes(s, t) && Undoes(t, s)
  }

  // Every index is paired with another.
  ghost predicate Pairing(t: seq<int>) {
    IsTable(t) && forall i :: 0 <= i < ROTORSZ ==> t[i] != i && t[t[i]] == i
  }

  ghost predicate Rotor(t1: seq<int>, t2: seq<int>, t3: seq<int>) {
    Inverse(t1, t2) && Pairing(t3)
  }

  function Swapped(t: seq<int>, a: nat, b: nat): seq<int>
    requires a < |t| && b < |t|
  {
    t[a := t[b]][b := t[a]]
  }

  // A swap in a permutation is undone by a swap of values in its inverse.
  lemma SwapKeepsInverse(s: seq<int>, t: seq<int>, a: nat, b: nat)
    requires Inverse(s, t) && a < ROTORSZ && b < ROTORSZ
    ensures Inverse(Swapped(s, a, b), t[s[a] := b][s[b] := a])
  {
    var s', t' := Swapped(s, a, b), t[s[a] := b][s[b] := a];
    forall i | 0 <= i < ROTORSZ ensures t'[s'[i]] == i && s'[t'[i]] == i {
      assert t[s[i]] == i && s[t[i]] == i;
    }
  }

  // ---- The reflector, half drawn ---------------------------------------------------------

  // The number of indices below n that are still free
  function Free(t: seq<int>, n: nat): nat
    requires n <= |t|
  {
    if n == 0 then 0 else Free(t, n - 1) + if t[n - 1] == 0 then 1 else 0
  }

  lemma {:induction false} FreeChange(t: seq<int>, n: nat, i: nat, v: int)
    requires n <= |t| && i < |t| && t[i] == 0 && v != 0
    ensures Free(t[i := v], n) == if i < n then Free(t, n) - 1 else Free(t, n)
  {
    if n > 0 {
      FreeChange(t, n - 1, i, v);
    }
  }

  lemma {:induction false} SomeFree(t: seq<int>, n: nat)
    requires n <= |t| && Free(t, n) > 0
    ensures exists i :: 0 <= i < n && t[i] == 0
  {
    if t[n - 1] != 0 {
      SomeFree(t, n - 1);
    }
  }

  // Indices from n on are paired; one below n is free, which a 0 says, or paired with one
  // from n on. The free ones are even in number.
  ghost predicate Half(t: seq<int>, n: nat) {
    && n <= ROTORSZ && IsTable(t) && Free(t, n) % 2 == 0
    && (forall i :: 0 <= i < n ==> t[i] == 0 || (n <= t[i] && t[t[i]] == i))
    && (forall i :: n <= i < ROTORSZ ==> t[i] != i && t[t[i]] == i)
  }

  lemma {:induction false} AllFree(t: seq<int>, n: nat)
    requires n <= |t| && forall i :: 0 <= i < |t| ==> t[i] == 0
    ensures Free(t, n) == n
  {
    if n > 0 {
      AllFree(t, n - 1);
    }
  }

  // The parity argument: while index k is free another one below it is, so k is not 0 and
  // the search for a partner has something to find.
  lemma PartnerExists(t: seq<int>, k: nat)
    requires Half(t, k + 1) && t[k] == 0
    ensures k > 0 && exists i :: 0 <= i < k && t[i] == 0
  {
    assert Free(t, k + 1) == Free(t, k) + 1;
    SomeFree(t, k);
  }

  lemma PairUp(t: seq<int>, k: nat, i: nat)
    requires Half(t, k + 1) && i < k && t[k] == 0 && t[i] == 0
    ensures Half(t[k := i][i := k], k)
  {
    var t' := t[k := i][i := k];
    assert Free(t, k + 1) == Free(t, k) + 1;
    FreeChange(t, k, i, k);
    FreeBelow(t[i := k], k, k, i);
    assert t' == t[i := k][k := i];
    assert Free(t', k) == Free(t, k) - 1;
    forall j | 0 <= j < k ensures t'[j] == 0 || (k <= t'[j] && t'[t'[j]] == j) {
      if j != i && t[j] != 0 {
        assert t[t[j]] == j && k + 1 <= t[j];
      }
    }
    forall j | k <= j < ROTORSZ ensures t'[j] != j && t'[t'[j]] == j {
      if j != k {
        assert t[t[j]] == j;
      }
    }
  }

  lemma {:induction false} FreeBelow(t: seq<int>, n: nat, i: nat, v: int)
    requires n <= i < |t|
    ensures Free(t[i := v], n) == Free(t, n)
  {
    if n > 0 {
      FreeBelow(t, n - 1, i, v);
    }
  }

  lemma SkipPaired(t: seq<int>, k: nat)
    requires Half(t, k + 1) && t[k] != 0
    ensures Half(t, k)
  {
    assert Free(t, k + 1) == Free(t, k);
    assert t[t[k]] == k && k + 1 <= t[k];
    forall j | 0 <= j < k ensures t[j] == 0 || (k <= t[j] && t[t[j]] == j) {
      assert t[j] == 0 || (t[t[j]] == j && k + 1 <= t[j]);
    }
  }

  // ---- The stream of random numbers -------------------------------------------------------

  // Two positions are exchanged, and no other changes.
  ghost predicate Exchanged(s: seq<int>, s': seq<int>, a: nat, b: nat) {
    && a < |s| == |s'| && b < |s| && s'[a] == s[b] && s'[b] == s[a]
    && forall j :: 0 <= j < |s| && j != a && j != b ==> s'[j] == s[j]
  }

  // The index after i, around k of them
  function After(i: nat, k: nat): (r: nat)
    requires i < k
    ensures r == if i + 1 == k then 0 else i + 1
  {
    (i + 1) % k
  }

  // The place n places on from start, around k of them
  function Place(start: nat, n: nat, k: nat): (r: nat)
    requires start < k
    ensures r < k
  {
    if n == 0 then start
    else
      var p := Place(start, n - 1, k);
      if p + 1 == k then 0 else p + 1
  }

  // i is the first free place from start on, around k of them.
  ghost predicate FirstFree(u: seq<int>, start: nat, k: nat, i: nat) {
    start < k <= |u| && exists n: nat :: FreeAfter(u, start, k, n, i)
  }

  ghost predicate FreeAfter(u: seq<int>, start: nat, k: nat, n: nat, i: nat)
    requires start < k <= |u|
  {
    i == Place(start, n, k) && u[i] == 0 && forall m: nat :: m < n ==> u[Place(start, m, k)] != 0
  }

  // Index k, if it is free, is paired with the first free index from start on.
  ghost predicate Partnered(u: seq<int>, u': seq<int>, k: nat, byte: nat) {
    k < |u| == |u'|
    && if u[k] != 0 then u' == u
       else k > 0 && exists i: nat :: FirstFree(u, byte % k, k, i) && u' == u[k := i][i := k]
  }

  // One round of the drawing: the low byte of the random number decides the exchange in the
  // rotor, the next one the partner in the reflector.
  ghost predicate Round(random: nat, i: nat, s: seq<int>, s': seq<int>, u: seq<int>, u': seq<int>)
    requires i < ROTORSZ
  {
    var k := 255 - i;
    Exchanged(s, s', k, random % 256 % (k + 1)) && Partnered(u, u', k, random / 256 % 256)
  }

  // ss and us are the tables after 0, 1, 2, … rounds.
  ghost predicate Rounds(random: seq<nat>, ss: seq<seq<int>>, us: seq<seq<int>>) {
    && |ss| == |us| && 1 <= |ss| <= |random| + 1 <= ROTORSZ + 1
    && ss[0] == seq(256, j => j) && us[0] == seq(256, j => 0)
    && forall i: nat :: i + 1 < |ss| ==> Round(random[i], i, ss[i], ss[i + 1], us[i], us[i + 1])
  }

  // All 256 rounds end in these tables.
  ghost predicate Drawn(random: seq<nat>, t1: seq<int>, t3: seq<int>) {
    |random| == 256 && exists ss, us :: DrawnBy(random, ss, us, t1, t3)
  }

  ghost predicate DrawnBy(random: seq<nat>, ss: seq<seq<int>>, us: seq<seq<int>>, t1: seq<int>, t3: seq<int>) {
    Rounds(random, ss, us) && |ss| == 257 && ss[256] == t1 && us[256] == t3
  }

  lemma OneRoundMore(random: seq<nat>, ss: seq<seq<int>>, us: seq<seq<int>>, s': seq<int>, u': seq<int>)
    requires Rounds(random, ss, us) && |ss| <= |random|
    requires var i := |ss| - 1; Round(random[i], i, ss[i], s', us[i], u')
    ensures Rounds(random, ss + [s'], us + [u'])
  {
  }

  // ---- Every machine can be drawn ---------------------------------------------------------

  // After i rounds the upper positions are final, and an index below is paired just if its
  // partner is above.
  ghost predicate Towards(t1: seq<int>, t3: seq<int>, s: seq<int>, u: seq<int>, i: nat) {
    && i <= ROTORSZ && |u| == |s| == ROTORSZ && IsTable(t1) && IsTable(t3)
    && (forall j :: ROTORSZ - i <= j < ROTORSZ ==> s[j] == t1[j])
    && KnownFrom(t3, u, ROTORSZ - i)
  }

  ghost predicate KnownFrom(t3: seq<int>, u: seq<int>, n: nat) {
    |t3| == |u| == ROTORSZ && forall j: nat :: j < ROTORSZ ==> KnownAt(t3, u, n, j)
  }

  predicate KnownAt(t3: seq<int>, u: seq<int>, n: nat, j: nat)
    requires |t3| == |u| == ROTORSZ && j < ROTORSZ
  {
    u[j] == if j >= n || t3[j] >= n then t3[j] else 0
  }

  // The random number that takes the next round the right way
  ghost function Wish(t1: seq<int>, t3: seq<int>, inv: seq<int>, i: nat): nat
    requires i < ROTORSZ && IsTable(t1) && IsTable(t3) && IsTable(inv)
  {
    var k := ROTORSZ - 1 - i;
    inv[t1[k]] + 256 * t3[k]
  }

  lemma WishedPlace(t1: seq<int>, t2: seq<int>, t3: seq<int>, s: seq<int>, inv: seq<int>, u: seq<int>, i: nat)
    requires Rotor(t1, t2, t3) && i < ROTORSZ && Inverse(s, inv) && Towards(t1, t3, s, u, i)
    ensures inv[t1[ROTORSZ - 1 - i]] <= ROTORSZ - 1 - i
  {
    var k := ROTORSZ - 1 - i;
    var ic := inv[t1[k]];
    assert s[ic] == t1[k];
    assert t2[t1[ic]] == ic && t2[t1[k]] == k;
  }

  lemma WishedExchange(t1: seq<int>, t2: seq<int>, t3: seq<int>, s: seq<int>, inv: seq<int>, u: seq<int>, i: nat)
    requires Rotor(t1, t2, t3) && i < ROTORSZ && Inverse(s, inv) && Towards(t1, t3, s, u, i)
    ensures var k, ic := ROTORSZ - 1 - i, inv[t1[ROTORSZ - 1 - i]];
            var s' := Swapped(s, k, ic);
            Exchanged(s, s', k, ic) && s'[k] == t1[k] && forall j :: k < j < ROTORSZ ==> s'[j] == t1[j]
  {
    WishedPlace(t1, t2, t3, s, inv, u, i);
  }

  ghost function NextReflector(t3: seq<int>, u: seq<int>, k: nat): seq<int>
    requires IsTable(t3) && |u| == ROTORSZ && k < ROTORSZ
  {
    if u[k] != 0 then u else u[k := t3[k]][t3[k] := k]
  }

  lemma FreeAtOnce(u: seq<int>, k: nat, p: nat)
    requires p < k < |u| && u[k] == 0 && u[p] == 0
    ensures Partnered(u, u[k := p][p := k], k, p)
  {
    assert Place(p, 0, k) == p && FreeAfter(u, p, k, 0, p);
    assert FirstFree(u, p % k, k, p);
  }

  lemma WishedPartner(t3: seq<int>, u: seq<int>, k: nat)
    requires Pairing(t3) && k < ROTORSZ && KnownFrom(t3, u, k + 1)
    ensures Partnered(u, NextReflector(t3, u, k), k, t3[k]) && KnownFrom(t3, NextReflector(t3, u, k), k)
  {
    var p := t3[k];
    assert t3[p] == k && p != k;
    assert KnownAt(t3, u, k + 1, k) && KnownAt(t3, u, k + 1, p);
    if u[k] == 0 {
      FreeAtOnce(u, k, p);
    }
    forall j: nat | j < ROTORSZ ensures KnownAt(t3, NextReflector(t3, u, k), k, j) {
      WishedAt(t3, u, k, j);
    }
  }

  lemma WishedAt(t3: seq<int>, u: seq<int>, k: nat, j: nat)
    requires Pairing(t3) && k < ROTORSZ && j < ROTORSZ && KnownFrom(t3, u, k + 1)
    ensures KnownAt(t3, NextReflector(t3, u, k), k, j)
  {
    assert t3[t3[k]] == k && t3[t3[j]] == j && t3[k] != k;
    assert KnownAt(t3, u, k + 1, j) && KnownAt(t3, u, k + 1, k);
  }

  // The rotor after the round that is wished for, and its inverse
  ghost function WishedRotor(t1: seq<int>, s: seq<int>, inv: seq<int>, k: nat): (seq<int>, seq<int>)
    requires IsTable(t1) && IsTable(inv) && IsTable(s) && k < ROTORSZ
  {
    var ic := inv[t1[k]];
    (Swapped(s, k, ic), inv[s[k] := ic][s[ic] := k])
  }

  lemma WishedRound(t1: seq<int>, t2: seq<int>, t3: seq<int>, s: seq<int>, inv: seq<int>, u: seq<int>, i: nat)
    requires Rotor(t1, t2, t3) && i < ROTORSZ && Inverse(s, inv) && Towards(t1, t3, s, u, i)
    ensures var k := ROTORSZ - 1 - i;
            var (s', inv') := WishedRotor(t1, s, inv, k);
            var u' := NextReflector(t3, u, k);
            Round(Wish(t1, t3, inv, i), i, s, s', u, u') && Inverse(s', inv') && Towards(t1, t3, s', u', i + 1)
  {
    var k := ROTORSZ - 1 - i;
    var ic := inv[t1[k]];
    WishedExchange(t1, t2, t3, s, inv, u, i);
    WishedPartner(t3, u, k);
    SwapKeepsInverse(s, inv, k, ic);
    WishedPlace(t1, t2, t3, s, inv, u, i);
    WishIs(t1, t3, inv, i);
  }

  lemma WishIs(t1: seq<int>, t3: seq<int>, inv: seq<int>, i: nat)
    requires i < ROTORSZ && IsTable(t1) && IsTable(t3) && IsTable(inv)
    requires inv[t1[ROTORSZ - 1 - i]] <= ROTORSZ - 1 - i
    ensures var r, k := Wish(t1, t3, inv, i), 255 - i;
            r % 256 % (k + 1) == inv[t1[k]] && r / 256 % 256 == t3[k]
  {
    var k := 255 - i;
    TwoBytes(inv[t1[k]], t3[k], k + 1);
  }

  lemma TwoBytes(a: nat, b: nat, n: nat)
    requires a < 256 && b < 256 && a < n
    ensures (a + 256 * b) % 256 % n == a && (a + 256 * b) / 256 % 256 == b
  {
    assert (a + 256 * b) % 256 == a && (a + 256 * b) / 256 == b;
  }

  lemma Arrived(t1: seq<int>, t3: seq<int>, s: seq<int>, u: seq<int>)
    requires Towards(t1, t3, s, u, ROTORSZ)
    ensures s == t1 && u == t3
  {
    forall j: nat | j < ROTORSZ ensures u[j] == t3[j] {
      assert KnownAt(t3, u, 0, j);
    }
  }

  lemma {:induction false} DrawOn(t1: seq<int>, t2: seq<int>, t3: seq<int>, random: seq<nat>, ss: seq<seq<int>>,
                                  us: seq<seq<int>>, inv: seq<int>)
    returns (all: seq<nat>)
    requires Rotor(t1, t2, t3) && Rounds(random, ss, us) && |ss| == |random| + 1
    requires Inverse(ss[|random|], inv) && Towards(t1, t3, ss[|random|], us[|random|], |random|)
    ensures Drawn(all, t1, t3)
    decreases ROTORSZ - |random|
  {
    var i := |random|;
    if i == ROTORSZ {
      all := random;
      Arrived(t1, t3, ss[i], us[i]);
      assert DrawnBy(random, ss, us, t1, t3);
    } else {
      var k, more := ROTORSZ - 1 - i, random + [Wish(t1, t3, inv, i)];
      var (s', inv') := WishedRotor(t1, ss[i], inv, k);
      var u' := NextReflector(t3, us[i], k);
      WishedRound(t1, t2, t3, ss[i], inv, us[i], i);
      assert Rounds(more, ss, us);
      OneRoundMore(more, ss, us, s', u');
      all := DrawOn(t1, t2, t3, more, ss + [s'], us + [u'], inv');
    }
  }

  // Every permutation of the bytes comes out of some stream as the rotor, with every pairing as
  // the reflector.
  lemma EveryMachineIsDrawn(t1: seq<int>, t2: seq<int>, t3: seq<int>)
    requires Rotor(t1, t2, t3)
    ensures exists random :: Drawn(random, t1, t3)
  {
    var s, u := seq(256, j => j), seq(256, j => 0);
    assert Inverse(s, s);
    var random := DrawOn(t1, t2, t3, [], [s], [u], s);
  }

  // ---- The cipher --------------------------------------------------------------------------

  function Mask(n: int): Byte { n % 256 }

  // One byte through the rotor, the reflector and back, with the rotor n1 and the reflector
  // n2 positions on
  function Cipher(t1: seq<int>, t2: seq<int>, t3: seq<int>, n1: int, n2: int, b: Byte): Byte
    requires |t1| == |t2| == |t3| == ROTORSZ
  {
    Mask(t2[Mask(t3[Mask(t1[Mask(b + n1)] + n2)] - n2)] - n1)
  }

  // The cipher is its own inverse, and no byte stands for itself.
  lemma CipherTwice(t1: seq<int>, t2: seq<int>, t3: seq<int>, n1: int, n2: int, b: Byte)
    requires Rotor(t1, t2, t3)
    ensures Cipher(t1, t2, t3, n1, n2, Cipher(t1, t2, t3, n1, n2, b)) == b
    ensures Cipher(t1, t2, t3, n1, n2, b) != b
  {
    var a := Mask(b + n1);
    var u := t1[a];
    var v := Mask(u + n2);
    var w := t3[v];
    var x := Mask(w - n2);
    var y := t2[x];
    var c := Mask(y - n1);
    MaskBack(y, n1);
    assert Mask(c + n1) == y;
    assert t1[y] == x;
    MaskBack(w, n2);
    assert Mask(x + n2) == w;
    assert t3[w] == v;
    MaskForth(u, n2);
    assert Mask(v - n2) == u;
    MaskForth(b, n1);
    assert t2[u] == a;
    assert w != v;
    assert x != u;
    assert y != a;
  }

  lemma MaskBack(y: Byte, n: int)
    ensures Mask(Mask(y - n) + n) == y
  {
  }

  lemma MaskForth(y: Byte, n: int)
    ensures Mask(Mask(y + n) - n) == y
  {
  }

  // How far the rotor and the reflector have turned after k bytes
  function RotorAt(k: nat): int { k % 256 }

  function ReflectorAt(k: nat): int { k / 256 % 256 }

  lemma NextPosition(k: nat)
    ensures RotorAt(k + 1) == if RotorAt(k) + 1 == ROTORSZ then 0 else RotorAt(k) + 1
    ensures ReflectorAt(k + 1) == if RotorAt(k) + 1 < ROTORSZ then ReflectorAt(k)
                                  else if ReflectorAt(k) + 1 == ROTORSZ then 0 else ReflectorAt(k) + 1
  {
    if k % 256 == 255 {
      assert (k + 1) / 256 == k / 256 + 1;
    } else {
      assert (k + 1) / 256 == k / 256;
    }
  }

  // The whole stream: the rotor turns with every byte, the reflector with every turn of the
  // rotor.
  function Stream(t1: seq<int>, t2: seq<int>, t3: seq<int>, s: seq<Byte>): (r: seq<Byte>)
    requires |t1| == |t2| == |t3| == ROTORSZ
    ensures |r| == |s|
  {
    seq(|s|, k requires 0 <= k < |s| => Cipher(t1, t2, t3, RotorAt(k), ReflectorAt(k), s[k]))
  }

  // Running a stream of any length through the machine twice restores it, and no byte comes
  // out as it went in.
  lemma StreamTwice(t1: seq<int>, t2: seq<int>, t3: seq<int>, s: seq<Byte>)
    requires Rotor(t1, t2, t3)
    ensures Stream(t1, t2, t3, Stream(t1, t2, t3, s)) == s
    ensures forall k :: 0 <= k < |s| ==> Stream(t1, t2, t3, s)[k] != s[k]
  {
    var c := Stream(t1, t2, t3, s);
    forall k | 0 <= k < |s| ensures Stream(t1, t2, t3, c)[k] == s[k] && c[k] != s[k] {
      CipherTwice(t1, t2, t3, RotorAt(k), ReflectorAt(k), s[k]);
    }
  }

  // ---- The program -------------------------------------------------------------------------

  class Machine {
    const t1: array<int>
    const t2: array<int>
    const t3: array<int>

    ghost predicate Ready()
      reads t1, t2, t3
    {
      Rotor(t1[..], t2[..], t3[..])
    }

    // setup(), the random numbers being given; any will do.
    constructor (random: seq<nat>)
      requires |random| == ROTORSZ
      ensures fresh(t1) && fresh(t2) && fresh(t3) && Ready() && Drawn(random, t1[..], t3[..])
    {
      t1, t2, t3 := new int[ROTORSZ](i => i), new int[ROTORSZ](i => 0), new int[ROTORSZ](i => 0);
      new;
      DrawTables(random);
      InvertRotor();
    }

    method DrawTables(random: seq<nat>)
      requires |random| == ROTORSZ && t1.Length == t3.Length == ROTORSZ && t1 != t3
      requires forall i :: 0 <= i < ROTORSZ ==> t1[i] == i && t3[i] == 0
      modifies t1, t3
      ensures Pairing(t3[..]) && exists t :: Inverse(t1[..], t)
      ensures Drawn(random, t1[..], t3[..])
    {
      ghost var t: seq<int> := t1[..];
      ghost var ss, us := [t1[..]], [t3[..]];
      AllFree(t3[..], ROTORSZ);
      for i := 0 to ROTORSZ
        invariant Inverse(t1[..], t) && Half(t3[..], ROTORSZ - i)
        invariant |ss| == i + 1 && Rounds(random, ss, us) && ss[i] == t1[..] && us[i] == t3[..]
      {
        t := DrawRound(random[i], i, t);
        OneRoundMore(random, ss, us, t1[..], t3[..]);
        ss, us := ss + [t1[..]], us + [t3[..]];
      }
      assert DrawnBy(random, ss, us, t1[..], t3[..]);
    }

    method DrawRound(random: nat, i: nat, ghost t0: seq<int>) returns (ghost t: seq<int>)
      requires i < ROTORSZ && t1.Length == t3.Length == ROTORSZ && t1 != t3
      requires Inverse(t1[..], t0) && Half(t3[..], ROTORSZ - i)
      modifies t1, t3
      ensures Inverse(t1[..], t) && Half(t3[..], ROTORSZ - 1 - i)
      ensures Round(random, i, old(t1[..]), t1[..], old(t3[..]), t3[..])
    {
      var k := ROTORSZ - 1 - i;
      var ic := random % 256 % (k + 1);
      var rest := random / 256;
      SwapKeepsInverse(t1[..], t0, k, ic);
      t := t0[t1[k] := ic][t1[ic] := k];
      SwapInPlace(k, ic);
      if t3[k] != 0 {
        SkipPaired(t3[..], k);
      } else {
        Reflect(k, rest);
      }
    }

    method SwapInPlace(k: nat, ic: nat)
      requires t1.Length == ROTORSZ && k < ROTORSZ && ic < ROTORSZ
      modifies t1
      ensures t1[..] == Swapped(old(t1[..]), k, ic)
    {
      var temp := t1[k];
      t1[k] := t1[ic];
      t1[ic] := temp;
    }

    // Index k gets the first free partner from a random place on.
    method Reflect(k: nat, rest: nat)
      requires t3.Length == ROTORSZ && Half(t3[..], k + 1) && t3[k] == 0
      modifies t3
      ensures Half(t3[..], k) && Partnered(old(t3[..]), t3[..], k, rest % 256)
    {
      PartnerExists(t3[..], k);
      var ic := FindFree(k, rest % 256 % k);
      PairUp(t3[..], k, ic);
      t3[k] := ic;
      t3[ic] := k;
      assert t3[..] == old(t3[..])[k := ic][ic := k];
    }

    // The first free index from start on, around k of them
    method FindFree(k: nat, start: nat) returns (ic: nat)
      requires start < k <= t3.Length && exists i :: 0 <= i < k && t3[..][i] == 0
      ensures ic < k && FirstFree(t3[..], start, k, ic)
    {
      ghost var target :| 0 <= target < k && t3[..][target] == 0;
      ghost var n: nat := 0;
      ic := start;
      while t3[ic] != 0
        invariant 0 <= ic < k && ic == Place(start, n, k)
        invariant forall m: nat :: m < n ==> t3[..][Place(start, m, k)] != 0
        decreases if ic <= target then target - ic else target - ic + k
      {
        ic := After(ic, k);
        n := n + 1;
      }
      assert FreeAfter(t3[..], start, k, n, ic);
    }

    method InvertRotor()
      requires t1.Length == t2.Length == ROTORSZ && t1 != t2 && t2 != t3
      requires exists t :: Inverse(t1[..], t)
      modifies t2
      ensures Inverse(t1[..], t2[..])
    {
      ghost var t :| Inverse(t1[..], t);
      for i := 0 to ROTORSZ
        invariant t1[..] == old(t1[..])
        invariant forall j :: 0 <= j < i ==> t2[t1[j]] == j
      {
        assert forall j :: 0 <= j < i ==> t[t1[..][j]] == j;
        assert t[t1[..][i]] == i;
        t2[t1[i] % 256] := i;
      }
      assert forall v :: 0 <= v < ROTORSZ ==> t1[..][t[v]] == v;
      assert t2[..] == t;
    }

    // The loop of main()
    method Run(input: seq<Byte>) returns (output: seq<Byte>)
      requires Ready()
      ensures output == Stream(t1[..], t2[..], t3[..], input)
    {
      output := [];
      var n1: int, n2: int := 0, 0;
      for k := 0 to |input|
        invariant |output| == k && n1 == RotorAt(k) && n2 == ReflectorAt(k)
        invariant output == Stream(t1[..], t2[..], t3[..], input)[..k]
      {
        var i := Mask(t2[Mask(t3[Mask(t1[Mask(input[k] + n1)] + n2)] - n2)] - n1);
        assert i == Cipher(t1[..], t2[..], t3[..], RotorAt(k), ReflectorAt(k), input[k]);
        output := output + [i];
        NextPosition(k);
        n1 := n1 + 1;
        if n1 == ROTORSZ {
          n1 := 0;
          n2 := n2 + 1;
          if n2 == ROTORSZ {
            n2 := 0;
          }
        }
      }
    }
  }
}
