// dd.c: what the conversions make of a text, character by character and line by line.
module DdConvert {
  import opened Common
  import opened DdTables

  type Bytes = seq<Byte>

  type Table = t: seq<Byte> | |t| == 256 witness seq(256, i => 0)

  // cbs, and the ucase and lcase flags
  datatype Mode = Mode(cbs: nat, upper: bool, lower: bool)

  function Fold(m: Mode, c: Byte): Byte {
    var u := if m.upper && 97 <= c <= 122 then c - 32 else c;
    if m.lower && 65 <= u <= 90 then u + 32 else u
  }

  // "abcdefghijklmnopqrstuvwxyz" and "ABCDEFGHIJKLMNOPQRSTUVWXYZ"
  const SMALL: Bytes := [97, 98, 99, 100, 101, 102, 103, 104, 105, 106, 107, 108, 109, 110, 111, 112, 113, 114, 115,
          116,
                         117, 118, 119, 120, 121, 122]
  const CAPITAL: Bytes := [65, 66, 67, 68, 69, 70, 71, 72, 73, 74, 75, 76, 77, 78, 79, 80, 81, 82, 83, 84, 85, 86, 87,
          88,
                           89, 90]

  // With ucase small letters become capitals, with lcase capitals small letters, and with both all are
  // small; nothing else changes.
  lemma FoldsLetters(m: Mode, c: Byte)
    ensures c in SMALL || c in CAPITAL || Fold(m, c) == c
    ensures forall i :: 0 <= i < 26 && c in {SMALL[i], CAPITAL[i]}
              ==> Fold(m, c) == if m.lower then SMALL[i] else if m.upper then CAPITAL[i] else c
  {
    assert forall i :: 0 <= i < 26 ==> SMALL[i] == 97 + i && CAPITAL[i] == 65 + i;
    if 97 <= c <= 122 {
      assert SMALL[c - 97] == c;
    } else if 65 <= c <= 90 {
      assert CAPITAL[c - 65] == c;
    }
  }

  // cbc and nspace, and all that was put out
  datatype State = State(cbc: nat, nspace: nat, out: Bytes)

  // out and n times b
  function Filled(out: Bytes, b: Byte, n: nat): (r: Bytes)
    ensures |r| == |out| + n
  {
    if n == 0 then out else Filled(out, b, n - 1) + [b]
  }

  // ebcdic(), and ibm() with its table
  function FromAscii(m: Mode, table: Table, s: State, cc: Byte): State {
    var c := table[Fold(m, cc)];
    if m.cbs == 0 then s.(out := s.out + [c])
    else if cc == NEWLINE then
      State(0, s.nspace, if s.cbc < m.cbs then Filled(s.out, table[BLANK], m.cbs - s.cbc) else s.out)
    else State(s.cbc + 1, s.nspace, if s.cbc + 1 <= m.cbs then s.out + [c] else s.out)
  }

  // ascii()
  function ToAscii(m: Mode, table: Table, s: State, cc: Byte): State {
    var c := table[cc];
    if m.cbs == 0 then s.(out := s.out + [Fold(m, c)])
    else
      var t := if c == BLANK then s.(nspace := s.nspace + 1)
               else State(s.cbc, 0, Filled(s.out, BLANK, s.nspace) + [Fold(m, c)]);
      if t.cbc + 1 >= m.cbs then State(0, 0, t.out + [NEWLINE]) else t.(cbc := t.cbc + 1)
  }

  // cnull(), and null() if there are no flags
  function Plain(m: Mode, s: State, cc: Byte): State {
    s.(out := s.out + [Fold(m, cc)])
  }

  datatype Conversion = Null | Ebcdic(table: Table) | Ascii(table: Table)

  function Step(conv: Conversion, m: Mode, s: State, cc: Byte): State {
    match conv
    case Null => Plain(m, s, cc)
    case Ebcdic(table) => FromAscii(m, table, s, cc)
    case Ascii(table) => ToAscii(m, table, s, cc)
  }

  function Run(conv: Conversion, m: Mode, s: State, input: Bytes): State {
    if input == [] then s
    else Step(conv, m, Run(conv, m, s, input[..|input| - 1]), input[|input| - 1])
  }

  function Converted(conv: Conversion, m: Mode, input: Bytes): Bytes {
    Run(conv, m, State(0, 0, []), input).out
  }

  lemma RunMore(conv: Conversion, m: Mode, s: State, input: Bytes, c: Byte)
    ensures Run(conv, m, s, input + [c]) == Step(conv, m, Run(conv, m, s, input), c)
  {
    assert (input + [c])[..|input|] == input;
  }

  lemma {:induction false} RunBoth(conv: Conversion, m: Mode, s: State, a: Bytes, b: Bytes)
    ensures Run(conv, m, s, a + b) == Run(conv, m, Run(conv, m, s, a), b)
  {
    if b == [] {
      assert a + b == a;
    } else {
      var b1 := b[..|b| - 1];
      RunBoth(conv, m, s, a, b1);
      assert (a + b)[..|a + b| - 1] == a + b1;
    }
  }

  // ---- Lines -----------------------------------------------------------------------------

  // A line of 7-bit characters
  predicate IsLine(line: Bytes) {
    forall i :: 0 <= i < |line| ==> line[i] < 128 && line[i] != NEWLINE
  }

  predicate AreLines(lines: seq<Bytes>) {
    forall i :: 0 <= i < |lines| ==> IsLine(lines[i])
  }

  function TextOf(lines: seq<Bytes>): Bytes {
    if lines == [] then [] else TextOf(lines[..|lines| - 1]) + (lines[|lines| - 1] + [NEWLINE])
  }

  // What a record of cbs characters has room for
  function Cut(line: Bytes, cbs: nat): Bytes {
    if |line| <= cbs then line else line[..cbs]
  }

  function Record(line: Bytes, cbs: nat): (r: Bytes)
    ensures |r| == cbs
  {
    Filled(Cut(line, cbs), BLANK, cbs - |Cut(line, cbs)|)
  }

  // Without its blanks at the end
  function Strip(s: Bytes): (r: Bytes)
    ensures |r| <= |s|
  {
    if s == [] || s[|s| - 1] != BLANK then s else Strip(s[..|s| - 1])
  }

  // The records, in the other code
  function Mapped(table: Table, s: Bytes): (r: Bytes)
    ensures |r| == |s|
  {
    if s == [] then [] else Mapped(table, s[..|s| - 1]) + [table[s[|s| - 1]]]
  }

  function Records(table: Table, lines: seq<Bytes>, cbs: nat): Bytes {
    if lines == [] then []
    else Records(table, lines[..|lines| - 1], cbs) + Mapped(table, Record(lines[|lines| - 1], cbs))
  }

  function Shown(lines: seq<Bytes>, cbs: nat): seq<Bytes> {
    seq(|lines|, i requires 0 <= i < |lines| => Strip(Cut(lines[i], cbs)))
  }

  // ---- Into records ------------------------------------------------------------------------

  lemma MappedMore(table: Table, s: Bytes, c: Byte)
    ensures Mapped(table, s + [c]) == Mapped(table, s) + [table[c]]
  {
    assert (s + [c])[..|s|] == s;
  }

  lemma {:induction false} MappedFilled(table: Table, s: Bytes, b: Byte, n: nat)
    ensures Mapped(table, Filled(s, b, n)) == Filled(Mapped(table, s), table[b], n)
  {
    if n > 0 {
      MappedFilled(table, s, b, n - 1);
      MappedMore(table, Filled(s, b, n - 1), b);
    }
  }

  lemma {:induction false} FilledOnto(a: Bytes, s: Bytes, b: Byte, n: nat)
    ensures Filled(a + s, b, n) == a + Filled(s, b, n)
  {
    if n > 0 {
      FilledOnto(a, s, b, n - 1);
      assert a + Filled(s, b, n - 1) + [b] == a + (Filled(s, b, n - 1) + [b]);
    }
  }

  // The characters of a line, as far as they fit
  lemma {:induction false} CharsRecorded(m: Mode, table: Table, out: Bytes, line: Bytes, ns: nat)
    requires m.cbs > 0 && !m.upper && !m.lower && IsLine(line)
    ensures Run(Ebcdic(table), m, State(0, ns, out), line) == State(|line|, ns, out + Mapped(table, Cut(line, m.cbs)))
  {
    if line == [] {
      assert out + Mapped(table, []) == out;
    } else {
      var k := |line| - 1;
      var l := line[..k];
      CharsRecorded(m, table, out, l, ns);
      if k < m.cbs {
        assert line == l + [line[k]];
        MappedMore(table, l, line[k]);
        assert out + Mapped(table, l) + [table[line[k]]] == out + (Mapped(table, l) + [table[line[k]]]);
      } else {
        assert Cut(line, m.cbs) == Cut(l, m.cbs);
      }
    }
  }

  lemma LineRecorded(m: Mode, table: Table, out: Bytes, line: Bytes, ns: nat)
    requires m.cbs > 0 && !m.upper && !m.lower && IsLine(line)
    ensures Run(Ebcdic(table), m, State(0, ns, out), line + [NEWLINE])
         == State(0, ns, out + Mapped(table, Record(line, m.cbs)))
  {
    CharsRecorded(m, table, out, line, ns);
    RunMore(Ebcdic(table), m, State(0, ns, out), line, NEWLINE);
    var c := Cut(line, m.cbs);
    MappedFilled(table, c, BLANK, m.cbs - |c|);
    FilledOnto(out, Mapped(table, c), table[BLANK], m.cbs - |c|);
  }

  // A text of lines becomes a sequence of records of cbs characters, one for each line, cut
  // or filled up with blanks.
  lemma {:induction false} TextRecorded(m: Mode, table: Table, lines: seq<Bytes>)
    requires m.cbs > 0 && !m.upper && !m.lower && AreLines(lines)
    ensures Run(Ebcdic(table), m, State(0, 0, []), TextOf(lines)) == State(0, 0, Records(table, lines, m.cbs))
  {
    if lines != [] {
      var n := |lines| - 1;
      TextRecorded(m, table, lines[..n]);
      RunBoth(Ebcdic(table), m, State(0, 0, []), TextOf(lines[..n]), lines[n] + [NEWLINE]);
      LineRecorded(m, table, Records(table, lines[..n], m.cbs), lines[n], 0);
    }
  }

  // ---- Out of records ------------------------------------------------------------------------

  // table takes every character of s back.
  predicate Restores(table: Table, codes: Table, s: Bytes) {
    forall i :: 0 <= i < |s| ==> table[codes[s[i]]] == s[i]
  }

  function Joined(a: Bytes, b: Bytes): Bytes {
    if b == [] then a else a + b
  }

  lemma StripMore(s: Bytes, c: Byte)
    ensures Strip(s + [c]) == if c == BLANK then Strip(s) else s + [c]
  {
    assert (s + [c])[..|s|] == s;
  }

  // The blanks held back are those at the end.
  lemma {:induction false} StripFilled(s: Bytes)
    ensures Filled(Strip(s), BLANK, |s| - |Strip(s)|) == s
  {
    if s != [] && s[|s| - 1] == BLANK {
      StripFilled(s[..|s| - 1]);
      assert s == s[..|s| - 1] + [BLANK];
    }
  }

  lemma FilledJoined(a: Bytes, s: Bytes, n: nat)
    ensures Filled(Joined(a, s), BLANK, n) == Joined(a, Filled(s, BLANK, n))
  {
    if s != [] {
      FilledOnto(a, s, BLANK, n);
    } else if n > 0 {
      FilledOnto(a, [], BLANK, n);
      assert a + [] == a;
    }
  }

  // Before a record is full, what it begins with is put out without its last blanks.
  lemma {:induction false} RecordRead(m: Mode, table: Table, codes: Table, out: Bytes, s: Bytes)
    requires |s| < m.cbs && !m.upper && !m.lower && Restores(table, codes, s)
    ensures Run(Ascii(table), m, State(0, 0, out), Mapped(codes, s))
         == State(|s|, |s| - |Strip(s)|, Joined(out, Strip(s)))
  {
    if s != [] {
      var k := |s| - 1;
      var r := s[..k];
      RecordRead(m, table, codes, out, r);
      assert s == r + [s[k]];
      MappedMore(codes, r, s[k]);
      RunMore(Ascii(table), m, State(0, 0, out), Mapped(codes, r), codes[s[k]]);
      NextRead(m, out, r, s[k]);
    }
  }

  // One more character c after those of r
  lemma NextRead(m: Mode, out: Bytes, r: Bytes, c: Byte)
    ensures Strip(r + [c]) == if c == BLANK then Strip(r) else r + [c]
    ensures Filled(Joined(out, Strip(r)), BLANK, |r| - |Strip(r)|) + [c] == Joined(out, r + [c])
  {
    StripMore(r, c);
    StripFilled(r);
    FilledJoined(out, Strip(r), |r| - |Strip(r)|);
    assert Joined(out, r) + [c] == out + (r + [c]);
  }

  // A whole record becomes a line.
  lemma LineRead(m: Mode, table: Table, codes: Table, out: Bytes, s: Bytes)
    requires |s| == m.cbs > 0 && !m.upper && !m.lower && Restores(table, codes, s)
    ensures Run(Ascii(table), m, State(0, 0, out), Mapped(codes, s)) == State(0, 0, Joined(out, Strip(s)) + [NEWLINE])
  {
    var k := |s| - 1;
    var r := s[..k];
    RecordRead(m, table, codes, out, r);
    assert s == r + [s[k]];
    MappedMore(codes, r, s[k]);
    RunMore(Ascii(table), m, State(0, 0, out), Mapped(codes, r), codes[s[k]]);
    NextRead(m, out, r, s[k]);
  }

  // Blanks that fill up a record are not shown.
  lemma {:induction false} StripOfFilled(s: Bytes, n: nat)
    ensures Strip(Filled(s, BLANK, n)) == Strip(s)
  {
    if n > 0 {
      StripOfFilled(s, n - 1);
      StripMore(Filled(s, BLANK, n - 1), BLANK);
    }
  }

  lemma {:induction false} FilledRestores(table: Table, codes: Table, s: Bytes, n: nat)
    requires Restores(table, codes, s) && table[codes[BLANK]] == BLANK
    ensures Restores(table, codes, Filled(s, BLANK, n))
  {
    if n > 0 {
      FilledRestores(table, codes, s, n - 1);
    }
  }

  ghost predicate RestoresAll(table: Table, codes: Table, lines: seq<Bytes>) {
    table[codes[BLANK]] == BLANK && forall i :: 0 <= i < |lines| ==> Restores(table, codes, lines[i])
  }

  // The records of a text give its lines again, cut to cbs characters and without blanks at
  // the end.
  lemma {:induction false} RecordsRead(m: Mode, table: Table, codes: Table, lines: seq<Bytes>)
    requires m.cbs > 0 && !m.upper && !m.lower && RestoresAll(table, codes, lines)
    ensures Run(Ascii(table), m, State(0, 0, []), Records(codes, lines, m.cbs))
         == State(0, 0, TextOf(Shown(lines, m.cbs)))
  {
    if lines != [] {
      var n := |lines| - 1;
      RecordsRead(m, table, codes, lines[..n]);
      RunBoth(Ascii(table), m, State(0, 0, []), Records(codes, lines[..n], m.cbs),
              Mapped(codes, Record(lines[n], m.cbs)));
      LastRecordRead(m, table, codes, TextOf(Shown(lines[..n], m.cbs)), lines[n]);
      ShownMore(lines, m.cbs);
    }
  }

  lemma LastRecordRead(m: Mode, table: Table, codes: Table, out: Bytes, line: Bytes)
    requires m.cbs > 0 && !m.upper && !m.lower && Restores(table, codes, line) && table[codes[BLANK]] == BLANK
    ensures Run(Ascii(table), m, State(0, 0, out), Mapped(codes, Record(line, m.cbs)))
         == State(0, 0, out + (Strip(Cut(line, m.cbs)) + [NEWLINE]))
  {
    RecordRestored(table, codes, line, m.cbs);
    RecordShown(m, table, codes, out, Record(line, m.cbs), Strip(Cut(line, m.cbs)));
  }

  lemma RecordRestored(table: Table, codes: Table, line: Bytes, cbs: nat)
    requires Restores(table, codes, line) && table[codes[BLANK]] == BLANK
    ensures Restores(table, codes, Record(line, cbs)) && Strip(Record(line, cbs)) == Strip(Cut(line, cbs))
  {
    var c := Cut(line, cbs);
    FilledRestores(table, codes, c, cbs - |c|);
    StripOfFilled(c, cbs - |c|);
  }

  lemma RecordShown(m: Mode, table: Table, codes: Table, out: Bytes, record: Bytes, s: Bytes)
    requires m.cbs > 0 && !m.upper && !m.lower && |record| == m.cbs && Restores(table, codes, record)
    requires Strip(record) == s
    ensures Run(Ascii(table), m, State(0, 0, out), Mapped(codes, record)) == State(0, 0, out + (s + [NEWLINE]))
  {
    LineRead(m, table, codes, out, record);
    JoinedLine(out, s);
  }

  lemma JoinedLine(a: Bytes, s: Bytes)
    ensures Joined(a, s) + [NEWLINE] == a + (s + [NEWLINE])
  {
  }

  lemma ShownMore(lines: seq<Bytes>, cbs: nat)
    requires lines != []
    ensures var n := |lines| - 1;
            TextOf(Shown(lines, cbs)) == TextOf(Shown(lines[..n], cbs)) + (Strip(Cut(lines[n], cbs)) + [NEWLINE])
  {
    var n := |lines| - 1;
    assert Shown(lines, cbs)[..n] == Shown(lines[..n], cbs);
  }

  // ---- There and back ---------------------------------------------------------------------------

  lemma ThereAndBack(m: Mode, table: Table, codes: Table, lines: seq<Bytes>)
    requires m.cbs > 0 && !m.upper && !m.lower && AreLines(lines) && RestoresAll(table, codes, lines)
    ensures Converted(Ascii(table), m, Converted(Ebcdic(codes), m, TextOf(lines))) == TextOf(Shown(lines, m.cbs))
  {
    TextRecorded(m, codes, lines);
    RecordsRead(m, table, codes, lines);
  }

  // A line that comes back as it was
  predicate Survives(line: Bytes, cbs: nat) {
    |line| <= cbs && (line == [] || line[|line| - 1] != BLANK)
  }

  lemma StripCut(line: Bytes, cbs: nat)
    ensures Strip(Cut(line, cbs)) == line <==> Survives(line, cbs)
  {
    var c := Cut(line, cbs);
    if c != [] && c[|c| - 1] == BLANK {
      assert |Strip(c)| < |c|;
    }
  }

  // Texts of lines are the same only if their lines are.
  lemma {:induction false} TextsDiffer(a: seq<Bytes>, b: seq<Bytes>)
    requires |a| == |b| && TextOf(a) == TextOf(b)
    requires forall i :: 0 <= i < |a| ==> NEWLINE !in a[i] && NEWLINE !in b[i]
    ensures a == b
  {
    if a != [] {
      var n := |a| - 1;
      LastLineShorter(a, b);
      LastLineShorter(b, a);
      var t := TextOf(a);
      var p, q := TextOf(a[..n]), TextOf(b[..n]);
      assert |p| == |q|;
      assert p == t[..|p|] && q == t[..|p|];
      assert a[n] == t[|p|..|t| - 1] && b[n] == t[|p|..|t| - 1];
      TextsDiffer(a[..n], b[..n]);
      assert a == a[..n] + [a[n]] && b == b[..n] + [b[n]];
    }
  }

  lemma LastLineShorter(a: seq<Bytes>, b: seq<Bytes>)
    requires |a| == |b| > 0 && TextOf(a) == TextOf(b)
    ensures |a[|a| - 1]| <= |b[|b| - 1]| || NEWLINE in a[|a| - 1]
  {
    var n := |a| - 1;
    var p, q := TextOf(a[..n]), TextOf(b[..n]);
    if |a[n]| > |b[n]| {
      assert |q| > |p|;
      EndsInNewline(b[..n]);
      assert TextOf(b)[|q| - 1] == NEWLINE;
      assert TextOf(a)[|q| - 1] == a[n][|q| - 1 - |p|];
    }
  }

  lemma EndsInNewline(lines: seq<Bytes>)
    ensures TextOf(lines) != [] ==> TextOf(lines)[|TextOf(lines)| - 1] == NEWLINE
  {
  }

  lemma TablesRestore(lines: seq<Bytes>)
    requires AreLines(lines)
    ensures RestoresAll(Etoa(), Atoe(), lines)
  {
    SevenBitBack(BLANK);
    forall i | 0 <= i < |lines| ensures Restores(Etoa(), Atoe(), lines[i]) {
      LineRestored(lines[i]);
    }
  }

  lemma LineRestored(line: Bytes)
    requires IsLine(line)
    ensures Restores(Etoa(), Atoe(), line)
  {
    forall j | 0 <= j < |line| ensures Etoa()[Atoe()[line[j]]] == line[j] {
      SevenBitBack(line[j]);
    }
  }

  // conv=ebcdic and then conv=ascii give the text back.
  predicate ComesBack(m: Mode, table: Table, codes: Table, lines: seq<Bytes>) {
    Converted(Ascii(table), m, Converted(Ebcdic(codes), m, TextOf(lines))) == TextOf(lines)
  }

  predicate AllSurvive(lines: seq<Bytes>, cbs: nat) {
    forall i :: 0 <= i < |lines| ==> Survives(lines[i], cbs)
  }

  lemma BackIff(m: Mode, table: Table, codes: Table, lines: seq<Bytes>)
    requires m.cbs > 0 && !m.upper && !m.lower && AreLines(lines) && RestoresAll(table, codes, lines)
    ensures ComesBack(m, table, codes, lines) == AllSurvive(lines, m.cbs)
  {
    ThereAndBack(m, table, codes, lines);
    ShownIff(lines, m.cbs);
  }

  // With the tables of the program a text of 7-bit lines comes back exactly when every line
  // fits a record and none ends in a blank.
  lemma RoundTripIff(m: Mode, lines: seq<Bytes>)
    requires m.cbs > 0 && !m.upper && !m.lower && AreLines(lines)
    ensures ComesBack(m, Etoa(), Atoe(), lines) == AllSurvive(lines, m.cbs)
  {
    TablesRestore(lines);
    BackIff(m, Etoa(), Atoe(), lines);
  }

  lemma ShownIff(lines: seq<Bytes>, cbs: nat)
    requires AreLines(lines)
    ensures TextOf(Shown(lines, cbs)) == TextOf(lines) <==> forall i :: 0 <= i < |lines| ==> Survives(lines[i], cbs)
  {
    var s := Shown(lines, cbs);
    forall i | 0 <= i < |lines|
      ensures NEWLINE !in s[i] && NEWLINE !in lines[i] && (s[i] == lines[i] <==> Survives(lines[i], cbs))
    {
      StripCut(lines[i], cbs);
      StripPrefix(Cut(lines[i], cbs));
      assert IsLine(lines[i]);
    }
    if forall i :: 0 <= i < |lines| ==> Survives(lines[i], cbs) {
      assert s == lines;
    }
    if TextOf(s) == TextOf(lines) {
      TextsDiffer(s, lines);
    }
  }

  lemma {:induction false} StripPrefix(s: Bytes)
    ensures Strip(s) == s[..|Strip(s)|]
  {
    if s != [] && s[|s| - 1] == BLANK {
      StripPrefix(s[..|s| - 1]);
    }
  }
}
