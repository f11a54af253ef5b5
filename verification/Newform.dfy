// newform.c: tabs contracted and expanded in place in the work area.
module Newform {

  const NCOLS := 512
  const MAXLINE := 512
  const WORKSIZE := 3 * NCOLS + 1
  const BACKSPACE: char := '\U{0008}'

  // A tab specification in memory: the stops from 1 upward, and a 0 after them; what lies
  // behind the 0 may be anything.
  datatype Spec = Spec(tab: nat -> int, n: nat) {
    predicate Rising(i: nat, j: nat) {
      tab(i) < tab(j)
    }

    ghost predicate Valid() {
      && n >= 1 && tab(0) == 1 && tab(n) == 0
      && forall i: nat, j: nat :: i < j < n ==> Rising(i, j)
    }

    // The first stop behind a column, n if there is none
    function Next(col: int, k: nat): (i: nat)
      requires k <= n
      ensures k <= i <= n
      decreases n - k
    {
      if k == n || tab(k) > col then k else Next(col, k + 1)
    }

    lemma NextIsFirst(col: int, k: nat)
      requires k <= n
      ensures Next(col, k) < n ==> tab(Next(col, k)) > col
      ensures forall j: nat :: k <= j < Next(col, k) ==> tab(j) <= col
      decreases n - k
    {
      if k < n && tab(k) <= col {
        NextIsFirst(col, k + 1);
      }
    }

    lemma FirstIsNext(col: int, k: nat, i: nat)
      requires k <= i <= n && (i < n ==> tab(i) > col) && forall j: nat :: k <= j < i ==> tab(j) <= col
      ensures Next(col, k) == i
      decreases n - k
    {
      if k < i {
        FirstIsNext(col, k + 1, i);
      }
    }

    function Stop(col: int): (i: nat)
      ensures i <= n
    {
      Next(col, 0)
    }
  }

  function Spaces(n: int): (s: string)
    ensures |s| == if n < 0 then 0 else n
    ensures forall i :: 0 <= i < |s| ==> s[i] == ' '
  {
    if n <= 0 then [] else Spaces(n - 1) + [' ']
  }

  // One more character behind the text e: a tab stands for the blanks up to the next stop,
  // and behind the last stop for nothing.
  function Extended(t: Spec, e: string, ch: char): string {
    if ch != '\t' then e + [ch]
    else
      var i := t.Stop(|e| + 1);
      if i < t.n then e + Spaces(t.tab(i) - (|e| + 1)) else e
  }

  // What a text with tabs stands for
  function Expanded(t: Spec, c: string): string {
    if c == [] then [] else Extended(t, Expanded(t, c[..|c| - 1]), c[|c| - 1])
  }

  // No tab lies behind the last stop.
  ghost predicate TabsWithin(t: Spec, c: string) {
    forall k: nat :: k < |c| ==> TabOk(t, c, k)
  }

  predicate TabOk(t: Spec, c: string, k: nat)
    requires k < |c|
  {
    c[k] == '\t' ==> StopAhead(t, c[..k])
  }

  predicate StopAhead(t: Spec, c: string) {
    t.Stop(|Expanded(t, c)| + 1) < t.n
  }

  // Read from the middle of the work area and written at its beginning, the text is nowhere
  // overwritten before it is read.
  ghost predicate StaysBehind(t: Spec, c: string) {
    forall k: nat :: k <= |c| ==> BehindAt(t, c, k)
  }

  predicate BehindAt(t: Spec, c: string, k: nat)
    requires k <= |c|
  {
    |Expanded(t, c[..k])| <= NCOLS + k
  }

  // It is enough that the whole expansion fits in front of the middle.
  lemma ShortStaysBehind(t: Spec, c: string)
    requires |Expanded(t, c)| <= NCOLS
    ensures StaysBehind(t, c)
  {
    forall k: nat | k <= |c| ensures BehindAt(t, c, k) {
      ExpandedGrows(t, c, k);
    }
  }

  // The column behind this one is a stop.
  predicate BeforeStop(t: Spec, col: int) {
    t.Stop(col) < t.n && t.tab(t.Stop(col)) == col + 1
  }

  ghost predicate IsStop(t: Spec, col: int) {
    exists j: nat :: j < t.n && t.tab(j) == col
  }

  predicate NoBlankLast(out: string) {
    out == [] || out[|out| - 1] != ' '
  }

  // No blank of c is where a tab could have been: none reaches a stop, and none comes before
  // a tab.
  ghost predicate Tight(t: Spec, c: string) {
    forall k: nat :: k < |c| ==> BlankOk(t, c, k)
  }

  predicate BlankOk(t: Spec, c: string, k: nat)
    requires k < |c|
  {
    TightLast(t, c[..k], c[k])
  }

  predicate TightLast(t: Spec, c: string, last: char) {
    && (last == ' ' ==> !BeforeStop(t, |Expanded(t, c)| + 1))
    && (last == '\t' ==> NoBlankLast(c))
  }

  predicate Plain(s: string) {
    '\t' !in s && BACKSPACE !in s && '\n' !in s
  }

  lemma ExpandedMore(t: Spec, c: string, ch: char)
    ensures Expanded(t, c + [ch]) == Extended(t, Expanded(t, c), ch)
  {
    var d := c + [ch];
    assert d[..|d| - 1] == c;
  }

  lemma {:induction false} ExpandedGrows(t: Spec, c: string, k: nat)
    requires k <= |c|
    ensures Expanded(t, c[..k]) <= Expanded(t, c)
    decreases |c| - k
  {
    if k == |c| {
      assert c[..k] == c;
    } else {
      ExpandedGrows(t, c, k + 1);
      assert c[..k + 1] == c[..k] + [c[k]];
      ExpandedMore(t, c[..k], c[k]);
    }
  }

  // The stop ahead stays the same from one column to the next, or moves on by one.
  lemma NextStop(t: Spec, col: int)
    requires t.Valid() && col >= 1
    ensures var i := t.Stop(col - 1);
            t.Stop(col) == if i < t.n && t.tab(i) == col then i + 1 else i
  {
    var i := t.Stop(col - 1);
    t.NextIsFirst(col - 1, 0);
    if i < t.n && t.tab(i) == col {
      if i + 1 < t.n {
        assert t.Rising(i, i + 1);
      }
      t.FirstIsNext(col, 0, i + 1);
    } else {
      t.FirstIsNext(col, 0, i);
    }
  }

  lemma StopsAhead(t: Spec, col: int)
    requires t.Valid() && col >= 1 && t.Stop(col) == t.n
    ensures t.Stop(col + 1) == t.n
  {
    NextStop(t, col + 1);
  }

  lemma BeforeStopMeans(t: Spec, col: int)
    requires t.Valid() && col >= 1
    ensures BeforeStop(t, col) <==> IsStop(t, col + 1)
  {
    var i := t.Stop(col);
    t.NextIsFirst(col, 0);
    forall j: nat | i < j < t.n ensures t.tab(j) > t.tab(i) {
      assert t.Rising(i, j);
    }
  }

  lemma Append(t: Spec, c: string, ch: char)
    requires Tight(t, c) && TabsWithin(t, c) && TightLast(t, c, ch) && (ch == '\t' ==> StopAhead(t, c))
    ensures Tight(t, c + [ch]) && TabsWithin(t, c + [ch])
  {
    var d := c + [ch];
    forall k: nat | k < |d| ensures BlankOk(t, d, k) && TabOk(t, d, k) {
      if k < |c| {
        assert d[..k] == c[..k];
        assert BlankOk(t, c, k) && TabOk(t, c, k);
      } else {
        assert d[..k] == c;
      }
    }
  }

  // Both hold of a text without its last character too.
  lemma Split(t: Spec, c: string)
    requires c != []
    ensures var d := c[..|c| - 1];
            (Tight(t, c) ==> Tight(t, d) && TightLast(t, d, c[|c| - 1]))
            && (TabsWithin(t, c) ==> TabsWithin(t, d) && (c[|c| - 1] == '\t' ==> StopAhead(t, d)))
  {
    var d := c[..|c| - 1];
    if Tight(t, c) {
      assert BlankOk(t, c, |d|);
      forall k: nat | k < |d| ensures BlankOk(t, d, k) {
        assert d[..k] == c[..k] && BlankOk(t, c, k);
      }
    }
    if TabsWithin(t, c) {
      assert TabOk(t, c, |d|);
      forall k: nat | k < |d| ensures TabOk(t, d, k) {
        assert d[..k] == c[..k] && TabOk(t, c, k);
      }
    }
  }

  lemma LastTight(t: Spec, c: string)
    requires c != [] && Tight(t, c)
    ensures TightLast(t, c[..|c| - 1], c[|c| - 1])
  {
    assert BlankOk(t, c, |c| - 1);
  }

  // What a tab at the end of c stands for
  lemma LastTab(t: Spec, c: string)
    requires t.Valid() && c != [] && c[|c| - 1] == '\t' && TabsWithin(t, c)
    ensures var e, i := Expanded(t, c[..|c| - 1]), t.Stop(|Expanded(t, c[..|c| - 1])| + 1);
            i < t.n && t.tab(i) > |e| + 1 && |Expanded(t, c)| == t.tab(i) - 1 && e <= Expanded(t, c)
            && forall k :: |e| <= k < t.tab(i) - 1 ==> Expanded(t, c)[k] == ' '
  {
    Split(t, c);
    t.NextIsFirst(|Expanded(t, c[..|c| - 1])| + 1, 0);
  }

  lemma NoStopBetween(t: Spec, col: int, stop: int)
    requires t.Valid() && t.Stop(col) < t.n && col < stop < t.tab(t.Stop(col))
    ensures !IsStop(t, stop)
  {
    var i := t.Stop(col);
    t.NextIsFirst(col, 0);
    forall j: nat | j < t.n ensures t.tab(j) != stop {
      if j > i {
        assert t.Rising(i, j);
      }
    }
  }

  lemma NotEmpty(t: Spec, c: string)
    requires t.Valid() && c != [] && TabsWithin(t, c)
    ensures Expanded(t, c) != []
  {
    if c[|c| - 1] == '\t' {
      LastTab(t, c);
    }
  }

  // In front of a tab a tight text ends in what is no blank, or at a stop.
  lemma BeforeTab(t: Spec, d: string)
    requires t.Valid() && d != [] && NoBlankLast(d) && TabsWithin(t, d)
    ensures var f := Expanded(t, d); f != [] && (f[|f| - 1] != ' ' || IsStop(t, |f| + 1))
  {
    NotEmpty(t, d);
    if d[|d| - 1] == '\t' {
      LastTab(t, d);
    }
  }

  // The tabs at the ends of two texts for the same line start at the same column.
  lemma TabsAgree(t: Spec, c: string, d: string)
    requires t.Valid() && TabsWithin(t, c) && TabsWithin(t, d) && Tight(t, d) && Expanded(t, c) == Expanded(t, d)
    requires c != [] && d != [] && c[|c| - 1] == d[|d| - 1] == '\t'
    ensures |Expanded(t, d[..|d| - 1])| <= |Expanded(t, c[..|c| - 1])|
  {
    LastTab(t, c);
    LastTab(t, d);
    Split(t, d);
    var d1 := d[..|d| - 1];
    var e, f := Expanded(t, c[..|c| - 1]), Expanded(t, d1);
    if |e| < |f| && d1 != [] {
      BeforeTab(t, d1);
      NoStopBetween(t, |e| + 1, |f| + 1);
    }
  }

  // A text that ends in a tab ends in a blank that reaches a stop.
  lemma EndsAtStop(t: Spec, d: string)
    requires t.Valid() && TabsWithin(t, d) && d != [] && d[|d| - 1] == '\t'
    ensures var s := Expanded(t, d); s != [] && s[|s| - 1] == ' ' && BeforeStop(t, |s|)
  {
    LastTab(t, d);
    BeforeStopMeans(t, |Expanded(t, d)|);
  }

  // A tight text does not end in a blank where another ends in a tab.
  lemma SameLast(t: Spec, c: string, d: string)
    requires t.Valid() && Tight(t, c) && TabsWithin(t, d) && Expanded(t, c) == Expanded(t, d)
    requires c != [] && d != [] && c[|c| - 1] != '\t'
    ensures d[|d| - 1] == c[|c| - 1]
  {
    LastChar(t, c);
    if d[|d| - 1] == '\t' {
      EndsAtStop(t, d);
      LastTight(t, c);
    } else {
      LastChar(t, d);
    }
  }

  lemma LastChar(t: Spec, c: string)
    requires c != [] && c[|c| - 1] != '\t'
    ensures var s := Expanded(t, c);
            |s| == |Expanded(t, c[..|c| - 1])| + 1 && s[|s| - 1] == c[|c| - 1]
  {
  }

  // A line has one tight text only.
  lemma {:induction false} TightUnique(t: Spec, c: string, d: string)
    requires t.Valid() && Tight(t, c) && Tight(t, d) && TabsWithin(t, c) && TabsWithin(t, d)
    requires Expanded(t, c) == Expanded(t, d)
    ensures c == d
    decreases |c|
  {
    if c == [] {
      if d != [] {
        NotEmpty(t, d);
      }
    } else {
      NotEmpty(t, c);
      var c1, d1 := c[..|c| - 1], d[..|d| - 1];
      if c[|c| - 1] != '\t' {
        SameLast(t, c, d);
      } else if d[|d| - 1] != '\t' {
        SameLast(t, d, c);
      }
      PrefixesAgree(t, c, d);
      Split(t, c);
      Split(t, d);
      TightUnique(t, c1, d1);
      assert c == c1 + [c[|c| - 1]] && d == d1 + [d[|d| - 1]];
    }
  }

  lemma PrefixesAgree(t: Spec, c: string, d: string)
    requires t.Valid() && TabsWithin(t, c) && TabsWithin(t, d) && Tight(t, c) && Tight(t, d)
    requires Expanded(t, c) == Expanded(t, d) && c != [] && d != [] && c[|c| - 1] == d[|d| - 1]
    ensures Expanded(t, c[..|c| - 1]) == Expanded(t, d[..|d| - 1])
  {
    if c[|c| - 1] == '\t' {
      TabsAgree(t, c, d);
      TabsAgree(t, d, c);
      LastTab(t, c);
      LastTab(t, d);
    } else {
      assert Expanded(t, c[..|c| - 1]) == Expanded(t, c)[..|Expanded(t, c)| - 1];
    }
  }

  // ---- What the loops keep --------------------------------------------------------------------

  // The pointer into the stops, before it is adjusted at the top of a loop
  predicate Near(t: Spec, idx: nat, col: int) {
    idx == t.Stop(col) || idx == t.Stop(col - 1)
  }

  // out stands for the first k characters of s.
  ghost predicate Stands(t: Spec, out: string, s: string, k: nat)
    requires k <= |s|
  {
    Expanded(t, out) == s[..k] && Tight(t, out) && TabsWithin(t, out)
  }

  lemma StandsMore(t: Spec, out: string, s: string, k: nat)
    requires k < |s| && Stands(t, out, s, k) && s[k] != '\t' && (s[k] == ' ' ==> !BeforeStop(t, k + 1))
    ensures Stands(t, out + [s[k]], s, k + 1)
  {
    ExpandedMore(t, out, s[k]);
    Append(t, out, s[k]);
    assert s[..k + 1] == s[..k] + [s[k]];
  }

  // A run of blanks up to a stop becomes a tab.
  lemma StandsTab(t: Spec, mark: string, s: string, m: nat, k: nat)
    requires t.Valid() && m <= k < |s| && Stands(t, mark, s, m) && (forall j :: m <= j <= k ==> s[j] == ' ')
    requires t.Stop(m + 1) < t.n && t.tab(t.Stop(m + 1)) == k + 2 && NoBlankLast(mark)
    ensures Stands(t, mark + ['\t'], s, k + 1)
  {
    ExpandedMore(t, mark, '\t');
    Append(t, mark, '\t');
    assert s[..k + 1] == s[..m] + Spaces(k + 1 - m);
  }

  // Within a run of blanks, before the one in column col: m was written before the run or up
  // to its last tab, and b blanks after it.
  ghost predicate Run(t: Spec, s: string, out: string, m: string, b: nat, idx: nat, col: nat) {
    && 0 < col <= |s| && b < col && out == m + Spaces(b) && NoBlankLast(m) && idx == t.Stop(col)
        && idx == t.Stop(col - b)
    && Stands(t, out, s, col - 1) && Stands(t, m, s, col - 1 - b)
    && forall j :: col - 1 - b <= j < col ==> s[j] == ' '
  }

  lemma RunBegins(t: Spec, s: string, out: string, idx: nat, col: nat)
    requires 0 < col <= |s| && s[col - 1] == ' ' && idx == t.Stop(col)
    requires Stands(t, out, s, col - 1) && NoBlankLast(out)
    ensures Run(t, s, out, out, 0, idx, col)
  {
    assert out + Spaces(0) == out;
  }

  lemma RunTab(t: Spec, s: string, out: string, m: string, b: nat, idx: nat, col: nat)
    requires t.Valid() && Run(t, s, out, m, b, idx, col) && t.tab(idx) == col + 1
    ensures Stands(t, m + ['\t'], s, col) && t.Stop(col + 1) == idx + 1 && idx < t.n
    ensures col < |s| && s[col] == ' ' ==> Run(t, s, m + ['\t'], m + ['\t'], 0, idx + 1, col + 1)
  {
    NextStop(t, col + 1);
    StandsTab(t, m, s, col - 1 - b, col - 1);
    assert m + ['\t'] + Spaces(0) == m + ['\t'];
  }

  lemma RunBlank(t: Spec, s: string, out: string, m: string, b: nat, idx: nat, col: nat)
    requires t.Valid() && Run(t, s, out, m, b, idx, col) && t.tab(idx) != col + 1
    ensures Stands(t, out + [' '], s, col) && t.Stop(col + 1) == idx
    ensures col < |s| && s[col] == ' ' ==> Run(t, s, out + [' '], m, b + 1, idx, col + 1)
  {
    NextStop(t, col + 1);
    StandsMore(t, out, s, col - 1);
    assert out + [' '] == m + Spaces(b + 1);
  }

  // The pointer moves on when the column has reached its stop.
  lemma Adjusted(t: Spec, idx: nat, col: nat)
    requires t.Valid() && col >= 1 && Near(t, idx, col)
    ensures t.Stop(col) == if t.tab(idx) == col then idx + 1 else idx
  {
    NextStop(t, col);
    t.NextIsFirst(col, 0);
  }

  // The pointer into the stops while tabs are expanded: behind the last stop it runs on
  // through memory, which matters no more.
  predicate NearOrPast(t: Spec, idx: nat, col: int) {
    t.Stop(col) == t.n || Near(t, idx, col)
  }

  lemma AdjustedOrPast(t: Spec, idx: nat, col: nat)
    requires t.Valid() && col >= 1 && NearOrPast(t, idx, col)
    ensures t.Stop(col) == t.n || t.Stop(col) == if col >= t.tab(idx) then idx + 1 else idx
  {
    if t.Stop(col) < t.n {
      Adjusted(t, idx, col);
      t.NextIsFirst(col, 0);
    }
  }

  lemma StaysNear(t: Spec, idx: nat, col: nat)
    requires t.Valid() && col >= 1 && (t.Stop(col) == t.n || t.Stop(col) == idx)
    ensures NearOrPast(t, idx, col + 1)
  {
    if t.Stop(col) == t.n {
      StopsAhead(t, col);
    }
  }

  lemma AfterTab(t: Spec, idx: nat, col: nat)
    requires t.Valid() && col >= 1 && t.Stop(col) == idx < t.n
    ensures t.tab(idx) > col && t.Stop(t.tab(idx)) == idx + 1
  {
    t.NextIsFirst(col, 0);
    forall j: nat | j < idx + 1 ensures t.tab(j) <= t.tab(idx) {
      if j < idx {
        assert t.Rising(j, idx);
      }
    }
    if idx + 1 < t.n {
      assert t.Rising(idx, idx + 1);
    }
    t.FirstIsNext(t.tab(idx), 0, idx + 1);
  }

  // One more character, a tab only before the last stop, extends e to e'.
  predicate Adds(t: Spec, e: string, e': string, c: char) {
    e' == Extended(t, e, c) && (c == '\t' ==> t.Stop(|e| + 1) < t.n)
  }

  lemma ExpandNext(t: Spec, s: string, k: nat)
    requires k < |s| && TabsWithin(t, s)
    ensures Expanded(t, s[..k + 1]) <= Expanded(t, s)
    ensures Adds(t, Expanded(t, s[..k]), Expanded(t, s[..k + 1]), s[k])
  {
    assert TabOk(t, s, k);
    assert s[..k + 1] == s[..k] + [s[k]];
    ExpandedMore(t, s[..k], s[k]);
    ExpandedGrows(t, s, k + 1);
  }

  // If the next character is a blank it is the first of its run.
  predicate RunStarts(out: string, s: string, k: nat) {
    k < |s| && s[k] == ' ' ==> NoBlankLast(out)
  }

  // ---- The line in the work area ------------------------------------------------------------

  class Line {
    const work: array<char>
    var pfirst: nat
    var plast: nat

    // The text from pfirst on, up to the newline at plast
    ghost predicate Valid()
      reads this, work
    {
      work.Length == WORKSIZE && pfirst <= plast < WORKSIZE && work[plast] == '\n'
    }

    ghost function Text(): string
      requires pfirst <= plast <= work.Length
      reads this, work
    {
      work[pfirst..plast]
    }

    constructor (text: string)
      requires |text| <= MAXLINE
      ensures Valid() && fresh(work) && Text() == text && pfirst == NCOLS
    {
      work := new char[WORKSIZE](i requires 0 <= i < WORKSIZE =>
        if NCOLS <= i < NCOLS + |text| then text[i - NCOLS] else '\n');
      pfirst, plast := NCOLS, NCOLS + |text|;
      new;
      assert work[NCOLS..NCOLS + |text|] == text;
    }

    // The text moves to the middle of the work area, whichever way it has to go.
    method Center() returns (ok: bool)
      requires Valid()
      modifies this, work
      ensures ok <==> old(plast - pfirst) <= MAXLINE
      ensures ok ==> Valid() && pfirst == NCOLS && Text() == old(Text())
    {
      if plast - pfirst > MAXLINE {
        return false;
      }
      ghost var line := work[pfirst..plast + 1];
      if pfirst < NCOLS {
        MoveUp(line);
      } else {
        MoveDown(line);
      }
      assert work[plast] == line[|line| - 1];
      assert Text() == line[..|line| - 1];
      return true;
    }

    // Characters lo to hi of line lie where they are if line begins at p.
    ghost predicate Lies(line: string, p: nat, lo: nat, hi: nat)
      reads work
    {
      work.Length == WORKSIZE && lo <= hi <= |line| && p + |line| <= WORKSIZE
      && forall q :: p + lo <= q < p + hi ==> work[q] == line[q - p]
    }

    method MoveUp(ghost line: string)
      requires pfirst < NCOLS && |line| == plast + 1 - pfirst <= MAXLINE + 1 && Lies(line, pfirst, 0, |line|)
      modifies this, work
      ensures pfirst == NCOLS && plast + 1 == NCOLS + |line| && Lies(line, NCOLS, 0, |line|)
    {
      var first, n := pfirst, plast - pfirst;
      var i := n + 1;
      while i > 0
        invariant 0 <= i <= n + 1 && pfirst == first
        invariant Lies(line, first, 0, i) && Lies(line, NCOLS, i, |line|)
      {
        i := i - 1;
        work[NCOLS + i] := work[first + i];
      }
      pfirst, plast := NCOLS, NCOLS + n;
    }

    method MoveDown(ghost line: string)
      requires NCOLS <= pfirst && |line| == plast + 1 - pfirst && Lies(line, pfirst, 0, |line|)
      modifies this, work
      ensures pfirst == NCOLS && plast + 1 == NCOLS + |line| && Lies(line, NCOLS, 0, |line|)
    {
      var first, n := pfirst, plast - pfirst;
      var i := 0;
      while i <= n
        invariant 0 <= i <= n + 1 && pfirst == first
        invariant Lies(line, first, i, |line|) && Lies(line, NCOLS, 0, i)
      {
        work[NCOLS + i] := work[first + i];
        i := i + 1;
      }
      pfirst, plast := NCOLS, NCOLS + n;
    }

    // ---- Contraction ----------------------------------------------------------------------

    // What has not been read yet of line s, its newline included
    ghost predicate Unread(start: nat, s: string)
      reads this, work
    {
      work.Length == WORKSIZE && start <= pfirst <= start + |s| <= WORKSIZE
      && forall i :: pfirst <= i < start + |s| ==> work[i] == s[i - start]
    }

    method CopyChar(start: nat, tlast: nat, c: char, ghost s: string, ghost out: string)
      returns (tlast': nat, ghost out': string)
      requires Unread(start, s) && start <= tlast < pfirst && work[start..tlast] == out
      modifies work
      ensures Unread(start, s) && tlast' == tlast + 1 && out' == out + [c] && work[start..tlast'] == out'
    {
      work[tlast] := c;
      tlast', out' := tlast + 1, out + [c];
      assert work[start..tlast'] == work[start..tlast] + [c];
    }

    // One blank of a run is written, and the run becomes a tab if it reaches a stop.
    method Blank(t: Spec, start: nat, idx: nat, col: nat, tlast: nat, mark: nat, ghost s: string, ghost out: string,
                 ghost m: string, ghost b: nat)
      returns (idx': nat, tlast': nat, mark': nat, ghost out': string, ghost m': string, ghost b': nat)
      requires t.Valid() && Run(t, s, out, m, b, idx, col) && Unread(start, s) && pfirst < start + |s|
      requires start <= mark <= tlast < pfirst && work[start..tlast] == out && |m| == mark - start
      modifies work
      ensures start <= mark' <= tlast' <= pfirst && work[start..tlast'] == out' && |m'| == mark' - start
      ensures Stands(t, out', s, col) && idx' == t.Stop(col + 1)
      ensures col < |s| && s[col] == ' ' ==> Run(t, s, out', m', b', idx', col + 1)
      ensures Unread(start, s)
    {
      idx', mark', m', b' := idx, mark, m, b + 1;
      assert m == out[..|m|];
      tlast', out' := CopyChar(start, tlast, ' ', s, out);
      if col + 1 == t.tab(idx) {
        RunTab(t, s, out, m, b, idx, col);
        assert work[start..tlast'][..|m|] == work[start..mark] && out'[..|m|] == m;
        tlast', out' := CopyChar(start, mark, '\t', s, m);
        mark', m', b' := tlast', out', 0;
        idx' := idx + 1;
      } else {
        RunBlank(t, s, out, m, b, idx, col);
      }
    }

    // What is written from start on stands for the first k characters of the line.
    ghost predicate Done(t: Spec, start: nat, tlast: nat, s: string, out: string, k: nat)
      reads this, work
    {
      && Unread(start, s) && start <= tlast <= pfirst && work[start..tlast] == out
      && k <= |s| && Stands(t, out, s, k)
    }

    // The blank at pfirst - 1 has been read, and what was written is behind it.
    ghost predicate InRun(t: Spec, start: nat, idx: nat, col: nat, tlast: nat, mark: nat, s: string, out: string,
                          m: string, b: nat)
      reads this, work
    {
      && start <= mark <= tlast < pfirst < start + |s| && Unread(start, s) && col == pfirst - start
      && Run(t, s, out, m, b, idx, col) && work[start..tlast] == out && |m| == mark - start
    }

    // One blank of a run, and whether another follows
    method NextBlank(t: Spec, start: nat, idx: nat, col: nat, tlast: nat, mark: nat, ghost s: string,
                     ghost out: string, ghost m: string, ghost b: nat)
      returns (more: bool, idx': nat, tlast': nat, mark': nat, ghost out': string, ghost m': string, ghost b': nat)
      requires t.Valid() && InRun(t, start, idx, col, tlast, mark, s, out, m, b) && s[|s| - 1] != ' '
      modifies `pfirst, work
      ensures more <==> s[col] == ' '
      ensures if more then pfirst == old(pfirst) + 1 && InRun(t, start, idx', col + 1, tlast', mark', s, out', m', b')
              else pfirst == old(pfirst) && Done(t, start, tlast', s, out', col) && idx' == t.Stop(col + 1)
    {
      idx', tlast', mark', out', m', b' := Blank(t, start, idx, col, tlast, mark, s, out, m, b);
      more := work[pfirst] == ' ';
      if more {
        pfirst := pfirst + 1;
      }
    }

    // A run of blanks, of which the one at pfirst - 1 has been read; what is written never
    // gets ahead of what is read.
    method Blanks(t: Spec, start: nat, idx0: nat, col0: nat, tlast0: nat, ghost s: string, ghost out0: string)
      returns (idx: nat, col: nat, tlast: nat, ghost out: string)
      requires t.Valid() && start <= tlast0 < pfirst < start + |s| && s[|s| - 1] != ' '
      requires col0 == pfirst - start && col0 > 0 && idx0 == t.Stop(col0) && s[col0 - 1] == ' '
      requires Done(t, start, tlast0, s, out0, col0 - 1) && NoBlankLast(out0)
      modifies `pfirst, work
      ensures old(pfirst) <= pfirst < start + |s| && col == pfirst + 1 - start && idx == t.Stop(col)
      ensures s[col - 1] != ' ' && Done(t, start, tlast, s, out, col - 1)
    {
      RunBegins(t, s, out0, idx0, col0);
      idx, col, tlast, out := BlanksFrom(t, start, idx0, col0, tlast0, s, out0);
    }

    method BlanksFrom(t: Spec, start: nat, idx0: nat, col0: nat, tlast0: nat, ghost s: string, ghost out0: string)
      returns (idx: nat, col: nat, tlast: nat, ghost out: string)
      requires t.Valid() && InRun(t, start, idx0, col0, tlast0, tlast0, s, out0, out0, 0) && s[|s| - 1] != ' '
      modifies `pfirst, work
      ensures old(pfirst) <= pfirst < start + |s| && col == pfirst + 1 - start && idx == t.Stop(col)
      ensures s[col - 1] != ' ' && Done(t, start, tlast, s, out, col - 1)
    {
      idx, col, tlast, out := idx0, col0, tlast0, out0;
      var mark := tlast;
      ghost var m, b := out0, 0;
      while true
        invariant InRun(t, start, idx, col, tlast, mark, s, out, m, b) && old(pfirst) <= pfirst
        decreases start + |s| - pfirst
      {
        var more;
        more, idx, tlast, mark, out, m, b := NextBlank(t, start, idx, col, tlast, mark, s, out, m, b);
        col := col + 1;
        if !more {
          break;
        }
      }
    }

    // One character of the line, or a run of blanks
    method Contract(t: Spec, start: nat, idx0: nat, col0: int, tlast0: nat, ghost s: string, ghost out0: string)
      returns (idx: nat, col: int, tlast: nat, ghost out: string)
      requires t.Valid() && start <= tlast0 <= pfirst < start + |s| && Unread(start, s)
      requires '\t' !in s && s[|s| - 1] != ' ' && col0 == pfirst + 1 - start && Near(t, idx0, col0)
      requires work[start..tlast0] == out0 && Stands(t, out0, s, col0 - 1) && RunStarts(out0, s, col0 - 1)
      modifies `pfirst, work
      ensures start <= tlast <= pfirst <= start + |s| && col == pfirst + 1 - start && Near(t, idx, col)
      ensures Unread(start, s) && old(pfirst) < pfirst
      ensures work[start..tlast] == out && Stands(t, out, s, col - 1) && RunStarts(out, s, col - 1)
      ensures pfirst == start + |s| ==> out == out0 + [s[|s| - 1]] && Stands(t, out0, s, |s| - 1)
    {
      idx, col, tlast, out := idx0, col0, tlast0, out0;
      Adjusted(t, idx, col);
      if col == t.tab(idx) {
        idx := idx + 1;
      }
      var c := work[pfirst];
      pfirst := pfirst + 1;
      if c == ' ' {
        idx, col, tlast, out := Blanks(t, start, idx, col, tlast, s, out);
      } else {
        assert s[col - 1] in s;
        StandsMore(t, out, s, col - 1);
        tlast, out := CopyChar(start, tlast, c, s, out);
        col := col + 1;
      }
    }

    // The loop over the line, whose characters and newline are s
    method ContractLine(t: Spec, ghost s: string) returns (tlast: nat, ghost out: string)
      requires t.Valid() && pfirst <= plast && |s| == plast + 1 - pfirst && Unread(pfirst, s)
      requires '\t' !in s && s[|s| - 1] == '\n'
      modifies `pfirst, work
      ensures old(pfirst) < tlast <= plast + 1 <= work.Length == WORKSIZE
      ensures work[old(pfirst)..tlast] == out + ['\n'] && Stands(t, out, s, |s| - 1)
    {
      var start, idx, col := pfirst, 0, 1;
      tlast := start;
      ghost var next := "";
      out := "";
      assert s[..0] == "";
      while pfirst <= plast
        invariant plast + 1 == start + |s| && start <= tlast <= pfirst <= plast + 1 && col == pfirst + 1 - start
        invariant Near(t, idx, col) && Unread(start, s) && work[start..tlast] == next && Stands(t, next, s, col - 1)
        invariant RunStarts(next, s, col - 1)
        invariant pfirst == plast + 1 ==> next == out + ['\n'] && Stands(t, out, s, |s| - 1)
        decreases plast + 1 - pfirst
      {
        out := next;
        idx, col, tlast, next := Contract(t, start, idx, col, tlast, s, out);
      }
    }

    // The text is contracted in place: it stands for what it stood for, and no blank is left
    // where a tab could be, which TightUnique says only one text can claim.
    method OutputTabs(t: Spec)
      requires t.Valid() && Valid() && Plain(Text())
      modifies this, work
      ensures Valid() && Expanded(t, Text()) == old(Text()) && Tight(t, Text()) && TabsWithin(t, Text())
      ensures pfirst == old(pfirst) && plast <= old(plast)
    {
      var start := pfirst;
      ghost var text, s := Text(), work[pfirst..plast + 1];
      assert s == text + ['\n'];
      var tlast, out := ContractLine(t, s);
      pfirst, plast := start, tlast - 1;
      assert work[start..tlast][..|out|] == work[start..tlast - 1];
      assert work[plast] == work[start..tlast][|out|];
      assert s[..|s| - 1] == text;
    }

    // ---- Expansion ------------------------------------------------------------------------

    // Blanks up to the next stop
    method Pad(t: Spec, idx: nat, col0: int, tlast0: nat, ghost s: string) returns (col: int, tlast: nat)
      requires Unread(NCOLS, s) && tlast0 == col0 - 1 < t.tab(idx) <= pfirst + 1 && NCOLS < pfirst
      modifies work
      ensures Unread(NCOLS, s) && col == t.tab(idx) && tlast == col - 1
      ensures work[..tlast] == old(work[..tlast0]) + Spaces(col - col0)
    {
      col, tlast := col0, tlast0;
      ghost var done := work[..tlast0];
      assert done + Spaces(0) == done;
      while col < t.tab(idx)
        invariant tlast == col - 1 && col0 <= col <= t.tab(idx)
        invariant Unread(NCOLS, s) && work[..tlast] == done + Spaces(col - col0)
      {
        work[tlast] := ' ';
        tlast := tlast + 1;
        col := col + 1;
        assert work[..tlast] == work[..tlast - 1] + [' '];
      }
    }

    // One character of the line, which takes the text written from e to e'
    method Expand(t: Spec, idx0: nat, col0: int, tlast0: nat, ghost s: string, ghost e: string, ghost e': string)
      returns (idx: nat, col: int, tlast: nat)
      requires t.Valid() && pfirst < NCOLS + |s| && Unread(NCOLS, s)
      requires Adds(t, e, e', s[pfirst - NCOLS]) && |e'| <= pfirst + 1
      requires col0 == tlast0 + 1 && NearOrPast(t, idx0, col0) && tlast0 <= pfirst && work[..tlast0] == e
      modifies `pfirst, work
      ensures Unread(NCOLS, s) && pfirst == old(pfirst) + 1
      ensures col == tlast + 1 && NearOrPast(t, idx, col) && tlast <= pfirst && work[..tlast] == e'
    {
      idx, col, tlast := idx0, col0, tlast0;
      AdjustedOrPast(t, idx, col);
      if col >= t.tab(idx) {
        idx := idx + 1;
      }
      var c := work[pfirst];
      pfirst := pfirst + 1;
      if c == '\t' {
        AfterTab(t, idx, col);
        col, tlast := Pad(t, idx, col, tlast, s);
        idx := idx + 1;
      } else {
        StaysNear(t, idx, col);
        PutChar(tlast, c, s);
        tlast := tlast + 1;
        col := col + 1;
      }
    }

    method PutChar(tlast: nat, c: char, ghost s: string)
      requires Unread(NCOLS, s) && tlast < pfirst
      modifies work
      ensures Unread(NCOLS, s) && work[..tlast + 1] == old(work[..tlast]) + [c]
    {
      work[tlast] := c;
    }

    // The loop over the line, which lies in the middle of the work area
    method ExpandLine(t: Spec, ghost s: string) returns (tlast: nat)
      requires t.Valid() && pfirst == NCOLS && plast + 1 == NCOLS + |s| && Unread(NCOLS, s)
      requires TabsWithin(t, s) && StaysBehind(t, s)
      modifies `pfirst, work
      ensures work.Length == WORKSIZE && tlast <= plast + 1 && work[..tlast] == Expanded(t, s)
    {
      var idx: nat, col: int := 0, 1;
      tlast := 0;
      ghost var e := Expanded(t, s[..0]);
      while pfirst <= plast
        invariant NCOLS <= pfirst <= plast + 1 && Unread(NCOLS, s) && tlast <= pfirst
        invariant col == tlast + 1 && NearOrPast(t, idx, col) && work[..tlast] == e
        invariant e == Expanded(t, s[..pfirst - NCOLS])
        decreases plast + 1 - pfirst
      {
        ghost var k := pfirst - NCOLS;
        ExpandNext(t, s, k);
        assert BehindAt(t, s, k + 1);
        idx, col, tlast := Expand(t, idx, col, tlast, s, e, Expanded(t, s[..k + 1]));
        e := Expanded(t, s[..k + 1]);
      }
      assert s[..|s|] == s;
    }

    // The text becomes what it stands for, unless it is too long for the work area. What is
    // written must not overtake what is read, which begins in the middle of the work area.
    method InputTabs(t: Spec) returns (ok: bool)
      requires t.Valid() && Valid() && BACKSPACE !in Text()
      requires TabsWithin(t, Text()) && StaysBehind(t, Text())
      modifies this, work
      ensures ok <==> |old(Text())| <= MAXLINE
      ensures ok ==> Valid() && Text() == Expanded(t, old(Text())) && pfirst == 0
    {
      ghost var text := Text();
      ok := Center();
      if !ok {
        return;
      }
      ghost var s := text + ['\n'];
      LineExpanded(t, text);
      assert forall i :: NCOLS <= i < plast ==> work[i] == Text()[i - NCOLS];
      var tlast := ExpandLine(t, s);
      pfirst, plast := 0, tlast - 1;
      assert work[..tlast][..tlast - 1] == work[0..tlast - 1];
      assert work[plast] == work[..tlast][tlast - 1];
    }
  }

  lemma LineExpanded(t: Spec, text: string)
    requires TabsWithin(t, text) && StaysBehind(t, text)
    ensures Expanded(t, text + ['\n']) == Expanded(t, text) + ['\n'] && TabsWithin(t, text + ['\n'])
    ensures StaysBehind(t, text + ['\n'])
  {
    ExpandedMore(t, text, '\n');
    var s := text + ['\n'];
    forall k: nat | k <= |s| ensures BehindAt(t, s, k) {
      if k <= |text| {
        assert s[..k] == text[..k];
        assert BehindAt(t, text, k);
      } else {
        assert s[..k] == s && text[..|text|] == text;
        assert BehindAt(t, text, |text|);
      }
    }
    forall k: nat | k < |s| ensures TabOk(t, s, k) {
      if k < |text| {
        assert s[..k] == text[..k];
        assert TabOk(t, text, k);
      }
    }
  }

  lemma {:induction false} KeepsChars(t: Spec, c: string, ch: char)
    requires ch in c && ch != '\t'
    ensures ch in Expanded(t, c)
  {
    var d := c[..|c| - 1];
    assert c == d + [c[|c| - 1]];
    ExpandedMore(t, d, c[|c| - 1]);
    if ch in d {
      KeepsChars(t, d, ch);
    }
  }

  // A line without tabs or backspaces, and no longer than the work area allows, survives -o
  // and then -i with the same stops.
  method ThereAndBack(t: Spec, text: string) returns (line: Line)
    requires t.Valid() && Plain(text) && |text| <= MAXLINE
    ensures fresh(line) && line.Valid() && line.Text() == text
  {
    line := new Line(text);
    line.OutputTabs(t);
    if BACKSPACE in line.Text() {
      KeepsChars(t, line.Text(), BACKSPACE);
    }
    ShortStaysBehind(t, line.Text());
    var ok := line.InputTabs(t);
  }
}
