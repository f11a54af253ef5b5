// dd.c: the converted characters collected into blocks of obs bytes.
module Dd {
  import opened Common
  import opened DdTables
  import opened DdConvert

  lemma OneMore(a: Bytes, b: Bytes, c: Byte)
    ensures a + (b + [c]) == a + b + [c]
  {
  }

  lemma NothingMore(a: Bytes, b: Bytes)
    requires b == []
    ensures a + b == a
  {
  }

  // How many are of full size
  function Full(records: seq<Bytes>, size: nat): (n: nat)
    ensures n <= |records|
  {
    if records == [] then 0
    else Full(records[..|records| - 1], size) + if |records[|records| - 1]| == size then 1 else 0
  }

  lemma FullMore(records: seq<Bytes>, r: Bytes, size: nat)
    ensures Full(records + [r], size) == Full(records, size) + if |r| == size then 1 else 0
  {
    assert (records + [r])[..|records|] == records;
  }

  // Does the input end after k reads: with an empty one, or because count have been done?
  predicate Ends(inputs: seq<Bytes>, count: nat, k: nat)
    requires k <= |inputs|
  {
    k == |inputs| || inputs[k] == [] || (count != 0 && k == count)
  }

  function Taken(inputs: seq<Bytes>, count: nat, k: nat): (n: nat)
    requires k <= |inputs|
    ensures k <= n <= |inputs| && Ends(inputs, count, n)
    ensures forall j :: k <= j < n ==> !Ends(inputs, count, j)
    decreases |inputs| - k
  {
    if Ends(inputs, count, k) then k else Taken(inputs, count, k + 1)
  }

  lemma OneReadMore(inputs: seq<Bytes>, ibs: nat, r: nat)
    requires r < |inputs|
    ensures Flat(inputs[..r + 1]) == Flat(inputs[..r]) + inputs[r]
    ensures Full(inputs[..r + 1], ibs) == Full(inputs[..r], ibs) + if |inputs[r]| == ibs then 1 else 0
  {
    assert inputs[..r + 1] == inputs[..r] + [inputs[r]];
    FlatMore(inputs[..r], inputs[r]);
    FullMore(inputs[..r], inputs[r], ibs);
  }

  // All are of full size but the last, which may be shorter, though not empty.
  ghost predicate LastShort(records: seq<Bytes>, size: nat) {
    && (forall i :: 0 <= i < |records| ==> 0 < |records[i]| <= size)
    && (forall i :: 0 <= i < |records| - 1 ==> |records[i]| == size)
  }

  lemma RecordWritten(records: seq<Bytes>, r: Bytes, size: nat)
    requires 0 < |r| <= size
    ensures Flat(records + [r]) == Flat(records) + r
    ensures Full(records + [r], size) == Full(records, size) + if |r| == size then 1 else 0
    ensures AllFull(records, size) ==> LastShort(records + [r], size)
    ensures AllFull(records, size) && |r| == size ==> AllFull(records + [r], size)
  {
    FlatMore(records, r);
    FullMore(records, r, size);
  }

  class Copier {
    const conv: Conversion
    const m: Mode
    const obuf: array<Byte>
    var obc: nat
    // the place of op in obuf
    var op: nat
    var cbc: nat
    var nspace: nat
    var ntrunc: nat
    // records read, full and partial, and records written
    var nifr: nat
    var nipr: nat
    var nofr: nat
    var nopr: nat
    var writes: seq<Bytes>

    ghost predicate Counted()
      reads this
    {
      nofr == Full(writes, obuf.Length) && nofr + nopr == |writes|
    }

    ghost predicate Valid()
      reads this
    {
      obuf.Length > 0 && op == obc < obuf.Length && AllFull(writes, obuf.Length) && Counted()
    }

    ghost function Stream(): Bytes
      requires obc <= obuf.Length
      reads this, obuf
    {
      Flat(writes) + obuf[..obc]
    }

    ghost function Now(): State
      requires obc <= obuf.Length
      reads this, obuf
    {
      State(cbc, nspace, Stream())
    }

    constructor (conv: Conversion, m: Mode, obs: nat)
      requires obs > 0
      ensures Valid() && fresh(obuf) && Now() == State(0, 0, []) && ntrunc == 0 && writes == []
      ensures nifr == nipr == 0
      ensures this.conv == conv && this.m == m && obuf.Length == obs
    {
      this.conv, this.m := conv, m;
      obuf := new Byte[obs](i => 0);
      obc, op, cbc, nspace, ntrunc, writes := 0, 0, 0, 0, 0, [];
      nifr, nipr, nofr, nopr := 0, 0, 0, 0;
    }

    // flsh()
    method Flush()
      requires 0 < obuf.Length && obc <= obuf.Length && Counted()
      modifies `obc, `writes, `nofr, `nopr
      ensures obc == 0 && Flat(writes) == old(Stream()) && Counted()
      ensures AllFull(old(writes), obuf.Length) ==> LastShort(writes, obuf.Length)
      ensures AllFull(old(writes), obuf.Length) && old(obc) == obuf.Length ==> AllFull(writes, obuf.Length)
    {
      if obc != 0 {
        if obc == obuf.Length {
          nofr := nofr + 1;
        } else {
          nopr := nopr + 1;
        }
        RecordWritten(writes, obuf[..obc], obuf.Length);
        writes := writes + [obuf[..obc]];
        obc := 0;
      }
    }

    // null()
    method Put(c: Byte)
      requires Valid()
      modifies `obc, `op, `writes, `nofr, `nopr, obuf
      ensures Valid() && Stream() == old(Stream()) + [c]
    {
      ghost var was := obuf[..obc];
      obuf[op] := c;
      op := op + 1;
      obc := obc + 1;
      assert obuf[..obc] == was + [c];
      OneMore(Flat(writes), was, c);
      if obc >= obuf.Length {
        Flush();
        op := 0;
        NothingMore(Flat(writes), obuf[..0]);
      }
    }

    // n times null(c)
    method PutBlanks(c: Byte, n: nat)
      requires Valid()
      modifies `obc, `op, `writes, `nofr, `nopr, obuf
      ensures Valid() && Stream() == Filled(old(Stream()), c, n)
    {
      for i := 0 to n
        invariant Valid() && Stream() == Filled(old(Stream()), c, i)
      {
        Put(c);
      }
    }

    // ebcdic() and ibm()
    method PutEbcdic(table: Table, cc: Byte)
      requires Valid()
      modifies `obc, `op, `writes, `nofr, `nopr, `cbc, `ntrunc, obuf
      ensures Valid() && Now() == FromAscii(m, table, old(Now()), cc)
      ensures ntrunc == if m.cbs > 0 && cc != NEWLINE && old(cbc) == m.cbs then old(ntrunc) + 1 else old(ntrunc)
    {
      var c := table[Fold(m, cc)];
      if m.cbs == 0 {
        Put(c);
        return;
      }
      if cc == NEWLINE {
        if cbc < m.cbs {
          PutBlanks(table[BLANK], m.cbs - cbc);
        }
        cbc := 0;
        return;
      }
      if cbc == m.cbs {
        ntrunc := ntrunc + 1;
      }
      cbc := cbc + 1;
      if cbc <= m.cbs {
        Put(c);
      }
    }

    // ascii()
    method PutAscii(table: Table, cc: Byte)
      requires Valid()
      modifies `obc, `op, `writes, `nofr, `nopr, `cbc, `nspace, obuf
      ensures Valid() && Now() == ToAscii(m, table, old(Now()), cc)
    {
      var c := table[cc];
      if m.cbs == 0 {
        Put(Fold(m, c));
        return;
      }
      if c == BLANK {
        nspace := nspace + 1;
      } else {
        PutBlanks(BLANK, nspace);
        nspace := 0;
        Put(Fold(m, c));
      }
      cbc := cbc + 1;
      if cbc >= m.cbs {
        Put(NEWLINE);
        cbc, nspace := 0, 0;
      }
    }

    method PutChar(cc: Byte)
      requires Valid()
      modifies `obc, `op, `writes, `nofr, `nopr, `cbc, `nspace, `ntrunc, obuf
      ensures Valid() && Now() == Step(conv, m, old(Now()), cc)
    {
      match conv
      case Null => Put(Fold(m, cc));
      case Ebcdic(table) => PutEbcdic(table, cc);
      case Ascii(table) => PutAscii(table, cc);
    }

    // The input loop, over what each read(2) brings, and the last flush: up to the first empty
    // read, or to count of them, the writes make up the converted input, and only the last may
    // be short.
    method Copy(inputs: seq<Bytes>, ibs: nat, count: nat)
      requires Valid() && Now() == State(0, 0, []) && writes == [] && nifr == nipr == 0
      modifies this, obuf
      ensures var taken := inputs[..Taken(inputs, count, 0)];
              Flat(writes) == Converted(conv, m, Flat(taken)) && nifr == Full(taken, ibs) && nifr + nipr == |taken|
      ensures LastShort(writes, obuf.Length)
      ensures nofr == Full(writes, obuf.Length) && nofr + nopr == |writes|
    {
      var r := 0;
      while true
        invariant r <= Taken(inputs, count, 0) == Taken(inputs, count, r) && Copied(inputs, ibs, r)
        decreases |inputs| - r
      {
        var ibuf := [];
        if (count == 0 || nifr + nipr != count) && r < |inputs| {
          ibuf := inputs[r];
        }
        if ibuf == [] {
          Flush();
          return;
        }
        CopyNext(inputs, ibs, r, ibuf);
        r := r + 1;
      }
    }

    // r reads have been counted and converted.
    ghost predicate Copied(inputs: seq<Bytes>, ibs: nat, r: nat)
      reads this, obuf
    {
      && Valid() && r <= |inputs| && Now() == Run(conv, m, State(0, 0, []), Flat(inputs[..r]))
      && nifr == Full(inputs[..r], ibs) && nifr + nipr == r
    }

    method CopyNext(ghost inputs: seq<Bytes>, ibs: nat, ghost r: nat, ibuf: Bytes)
      requires r < |inputs| && ibuf == inputs[r] && Copied(inputs, ibs, r)
      modifies `obc, `op, `writes, `nofr, `nopr, `nifr, `nipr, `cbc, `nspace, `ntrunc, obuf
      ensures Copied(inputs, ibs, r + 1)
    {
      OneReadMore(inputs, ibs, r);
      CountRead(ibs, |ibuf|);
      CopyRead(Flat(inputs[..r]), ibuf);
    }

    method CountRead(ibs: nat, ibc: nat)
      modifies `nifr, `nipr
      ensures nifr == old(nifr) + (if ibc == ibs then 1 else 0) && nifr + nipr == old(nifr + nipr) + 1
    {
      if ibc != ibs {
        nipr := nipr + 1;
      } else {
        nifr := nifr + 1;
      }
    }

    method CopyRead(ghost before: Bytes, ibuf: Bytes)
      requires Valid() && Now() == Run(conv, m, State(0, 0, []), before)
      modifies `obc, `op, `writes, `nofr, `nopr, `cbc, `nspace, `ntrunc, obuf
      ensures Valid() && Now() == Run(conv, m, State(0, 0, []), before + ibuf)
    {
      assert before + ibuf[..0] == before;
      for i := 0 to |ibuf|
        invariant Valid() && Now() == Run(conv, m, State(0, 0, []), before + ibuf[..i])
      {
        RunMore(conv, m, State(0, 0, []), before + ibuf[..i], ibuf[i]);
        assert before + ibuf[..i + 1] == before + ibuf[..i] + [ibuf[i]];
        PutChar(ibuf[i]);
      }
      assert ibuf[..|ibuf|] == ibuf;
    }
  }
}
