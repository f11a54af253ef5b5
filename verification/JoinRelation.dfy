// What a merge join over two sorted files has to print, and how each step of the merge
// brings it closer.
module JoinRelation {

  // A line as input() splits it, field by field.
  type Line = seq<string>

  // What output() prints: a joined pair, or an unpairable line of one file.
  datatype Row = Both(left: Line, right: Line) | Left(left: Line) | Right(right: Line)

  // ---- strcmp ----------------------------------------------------------------------

  // strcmp from the k-th character on.
  function CompareFrom(a: string, b: string, k: nat): int
    requires k <= |a| && k <= |b|
    decreases |a| - k
  {
    if k == |a| then (if k == |b| then 0 else -1)
    else if k == |b| then 1
    else if a[k] < b[k] then -1
    else if a[k] > b[k] then 1
    else CompareFrom(a, b, k + 1)
  }

  function Compare(a: string, b: string): int {
    CompareFrom(a, b, 0)
  }

  lemma {:induction false} EqualFrom(a: string, b: string, k: nat)
    requires k <= |a| && k <= |b|
    ensures CompareFrom(a, b, k) == 0 <==> |a| == |b| && forall i :: k <= i < |a| ==> a[i] == b[i]
    decreases |a| - k
  {
    if k < |a| && k < |b| && a[k] == b[k] {
      EqualFrom(a, b, k + 1);
    }
  }

  lemma CompareEqual(a: string, b: string)
    ensures Compare(a, b) == 0 <==> a == b
  {
    EqualFrom(a, b, 0);
  }

  lemma {:induction false} SwappedFrom(a: string, b: string, k: nat)
    requires k <= |a| && k <= |b|
    ensures CompareFrom(a, b, k) == -CompareFrom(b, a, k)
    decreases |a| - k
  {
    if k < |a| && k < |b| && a[k] == b[k] {
      SwappedFrom(a, b, k + 1);
    }
  }

  lemma CompareSwapped(a: string, b: string)
    ensures Compare(a, b) == -Compare(b, a)
  {
    SwappedFrom(a, b, 0);
  }

  // a comes before b at place k: up to there they are the same, and then a ends first or has the smaller
  // character.
  predicate Before(a: string, b: string, k: nat) {
    && k <= |a| && k < |b| && (forall i :: 0 <= i < k ==> a[i] == b[i])
    && (k == |a| || a[k] < b[k])
  }

  lemma {:induction false} LessFrom(a: string, b: string, k: nat)
    requires k <= |a| && k <= |b| && forall i :: 0 <= i < k ==> a[i] == b[i]
    ensures CompareFrom(a, b, k) < 0 <==> exists j: nat :: k <= j && Before(a, b, j)
    decreases |a| - k
  {
    if k < |a| && k < |b| && a[k] == b[k] {
      LessFrom(a, b, k + 1);
      assert !Before(a, b, k);
    } else if k < |b| && (k == |a| || a[k] < b[k]) {
      assert Before(a, b, k);
    } else {
      assert forall j: nat :: k < j && Before(a, b, j) ==> a[k] == b[k];
    }
  }

  // The first character in which they differ decides, or else which is the beginning of the other.
  lemma CompareDecides(a: string, b: string)
    ensures Compare(a, b) < 0 <==> exists k: nat :: Before(a, b, k)
  {
    LessFrom(a, b, 0);
  }

  lemma {:induction false} TransitiveFrom(a: string, b: string, c: string, k: nat)
    requires k <= |a| && k <= |b| && k <= |c|
    requires CompareFrom(a, b, k) <= 0 && CompareFrom(b, c, k) <= 0
    ensures CompareFrom(a, c, k) <= 0
    ensures CompareFrom(a, b, k) < 0 || CompareFrom(b, c, k) < 0 ==> CompareFrom(a, c, k) < 0
    decreases |a| - k
  {
    if k < |a| && k < |b| && k < |c| && a[k] == b[k] == c[k] {
      TransitiveFrom(a, b, c, k + 1);
    }
  }

  lemma CompareTransitive(a: string, b: string, c: string)
    requires Compare(a, b) <= 0 && Compare(b, c) <= 0
    ensures Compare(a, c) <= 0
    ensures Compare(a, b) < 0 || Compare(b, c) < 0 ==> Compare(a, c) < 0
  {
    TransitiveFrom(a, b, c, 0);
  }

  // ---- The relation between the files ------------------------------------------------

  // The program leaves an absent join field undefined; Files.Valid keeps it out.
  function Field(l: Line, j: nat): string {
    if j < |l| then l[j] else ""
  }

  ghost predicate HasField(f: seq<Line>, j: nat) {
    forall i :: 0 <= i < |f| ==> j < |f[i]|
  }

  ghost predicate NotAbove(f: seq<Line>, j: nat, a: nat, b: nat)
    requires a < |f| && b < |f|
  {
    Compare(Field(f[a], j), Field(f[b], j)) <= 0
  }

  ghost predicate Sorted(f: seq<Line>, j: nat) {
    forall a: nat, b: nat :: a <= b < |f| ==> NotAbove(f, j, a, b)
  }

  // The two files and the fields they are joined on.
  datatype Files = Files(f1: seq<Line>, j1: nat, f2: seq<Line>, j2: nat) {
    ghost predicate Valid() {
      HasField(f1, j1) && HasField(f2, j2)
    }

    ghost predicate InOrder() {
      Sorted(f1, j1) && Sorted(f2, j2)
    }

    function Key1(a: nat): string
      requires a < |f1|
    {
      Field(f1[a], j1)
    }

    function Key2(b: nat): string
      requires b < |f2|
    {
      Field(f2[b], j2)
    }

    // The nested-loop join: the pairs of the lines before a with the whole second file, then
    // those of line a with its first b lines.
    ghost function Pairs(a: nat, b: nat): seq<Row>
      requires a <= |f1| && b <= |f2| && (0 < b ==> a < |f1|)
      decreases a, b
    {
      if 0 < b then
        var rows := Pairs(a, b - 1);
        if Key1(a) == Key2(b - 1) then rows + [Both(f1[a], f2[b - 1])] else rows
      else if 0 < a then Pairs(a - 1, |f2|)
      else []
    }

    ghost predicate Unpaired1(a: nat)
      requires a < |f1|
    {
      forall b :: 0 <= b < |f2| ==> Key2(b) != Key1(a)
    }

    ghost predicate Unpaired2(b: nat)
      requires b < |f2|
    {
      forall a :: 0 <= a < |f1| ==> Key1(a) != Key2(b)
    }

    // The unpairable lines among the first n, for a file whose -a bit is set.
    ghost function Lonely1(n: nat, wanted: bool): seq<Row>
      requires n <= |f1|
    {
      if n == 0 then []
      else
        var rows := Lonely1(n - 1, wanted);
        if wanted && Unpaired1(n - 1) then rows + [Left(f1[n - 1])] else rows
    }

    ghost function Lonely2(n: nat, wanted: bool): seq<Row>
      requires n <= |f2|
    {
      if n == 0 then []
      else
        var rows := Lonely2(n - 1, wanted);
        if wanted && Unpaired2(n - 1) then rows + [Right(f2[n - 1])] else rows
    }
  }

  function BothsOf(rows: seq<Row>): seq<Row> {
    if rows == [] then []
    else
      var earlier := BothsOf(rows[..|rows| - 1]);
      if rows[|rows| - 1].Both? then earlier + [rows[|rows| - 1]] else earlier
  }

  function LeftsOf(rows: seq<Row>): seq<Row> {
    if rows == [] then []
    else
      var earlier := LeftsOf(rows[..|rows| - 1]);
      if rows[|rows| - 1].Left? then earlier + [rows[|rows| - 1]] else earlier
  }

  function RightsOf(rows: seq<Row>): seq<Row> {
    if rows == [] then []
    else
      var earlier := RightsOf(rows[..|rows| - 1]);
      if rows[|rows| - 1].Right? then earlier + [rows[|rows| - 1]] else earlier
  }

  function WantsLeft(aflg: nat): bool { aflg % 2 == 1 }

  function WantsRight(aflg: nat): bool { aflg / 2 % 2 == 1 }

  // ---- The order of the rows ---------------------------------------------------------

  // The join field a row is about.
  function RowKey(fs: Files, r: Row): string {
    if r.Right? then Field(r.right, fs.j2) else Field(r.left, fs.j1)
  }

  ghost predicate RowsInOrder(fs: Files, rows: seq<Row>) {
    forall a, b :: 0 <= a <= b < |rows| ==> Compare(RowKey(fs, rows[a]), RowKey(fs, rows[b])) <= 0
  }

  ghost predicate Capped(fs: Files, rows: seq<Row>, key: string) {
    rows == [] || Compare(RowKey(fs, rows[|rows| - 1]), key) <= 0
  }

  // The same order, row by row.
  ghost predicate Chained(fs: Files, rows: seq<Row>) {
    |rows| < 2
    || (Chained(fs, rows[..|rows| - 1]) && Capped(fs, rows[..|rows| - 1], RowKey(fs, rows[|rows| - 1])))
  }

  lemma {:induction false} ChainedInOrder(fs: Files, rows: seq<Row>)
    requires Chained(fs, rows)
    ensures RowsInOrder(fs, rows)
  {
    var n := |rows| - 1;
    if n == 0 {
      CompareEqual(RowKey(fs, rows[0]), RowKey(fs, rows[0]));
    } else if n > 0 {
      ChainedInOrder(fs, rows[..n]);
      CompareEqual(RowKey(fs, rows[n]), RowKey(fs, rows[n]));
      forall a | 0 <= a < n ensures Compare(RowKey(fs, rows[a]), RowKey(fs, rows[n])) <= 0 {
        assert rows[a] == rows[..n][a] && rows[n - 1] == rows[..n][n - 1];
        CompareTransitive(RowKey(fs, rows[a]), RowKey(fs, rows[n - 1]), RowKey(fs, rows[n]));
      }
      assert forall a :: 0 <= a < n ==> rows[a] == rows[..n][a];
    }
  }

  lemma AppendRow(rows: seq<Row>, r: Row)
    ensures BothsOf(rows + [r]) == if r.Both? then BothsOf(rows) + [r] else BothsOf(rows)
    ensures LeftsOf(rows + [r]) == if r.Left? then LeftsOf(rows) + [r] else LeftsOf(rows)
    ensures RightsOf(rows + [r]) == if r.Right? then RightsOf(rows) + [r] else RightsOf(rows)
  {
    assert (rows + [r])[..|rows|] == rows;
  }

  lemma AppendInOrder(fs: Files, rows: seq<Row>, r: Row)
    requires Chained(fs, rows) && Capped(fs, rows, RowKey(fs, r))
    ensures Chained(fs, rows + [r]) && Capped(fs, rows + [r], RowKey(fs, r))
  {
    assert (rows + [r])[..|rows|] == rows;
    CompareEqual(RowKey(fs, r), RowKey(fs, r));
  }

  lemma RaiseCap(fs: Files, rows: seq<Row>, key: string, higher: string)
    requires Capped(fs, rows, key) && Compare(key, higher) <= 0
    ensures Capped(fs, rows, higher)
  {
    if rows != [] {
      CompareTransitive(RowKey(fs, rows[|rows| - 1]), key, higher);
    }
  }

  // ---- What holds while the files are merged ------------------------------------------

  // What was printed once the first file has i lines behind it and the second has j.
  ghost predicate Printed(fs: Files, aflg: nat, rows: seq<Row>, i: nat, j: nat)
    requires i <= |fs.f1| && j <= |fs.f2|
  {
    && BothsOf(rows) == fs.Pairs(i, 0)
    && LeftsOf(rows) == fs.Lonely1(i, WantsLeft(aflg))
    && RightsOf(rows) == fs.Lonely2(j, WantsRight(aflg))
    && Chained(fs, rows)
  }

  // The lines behind are below the lines ahead in the other file.
  ghost predicate Apart(fs: Files, i: nat, j: nat)
    requires i <= |fs.f1| && j <= |fs.f2|
  {
    && (0 < i && j < |fs.f2| ==> Compare(fs.Key1(i - 1), fs.Key2(j)) < 0)
    && (0 < j && i < |fs.f1| ==> Compare(fs.Key2(j - 1), fs.Key1(i)) < 0)
  }

  ghost predicate Merging(fs: Files, aflg: nat, rows: seq<Row>, i: nat, j: nat)
    requires i <= |fs.f1| && j <= |fs.f2|
  {
    && Printed(fs, aflg, rows, i, j) && Apart(fs, i, j)
    && (i < |fs.f1| ==> Capped(fs, rows, fs.Key1(i)))
    && (j < |fs.f2| ==> Capped(fs, rows, fs.Key2(j)))
  }

  lemma Order1(fs: Files, a: nat, b: nat)
    requires fs.InOrder() && a <= b < |fs.f1|
    ensures Compare(fs.Key1(a), fs.Key1(b)) <= 0
  {
    assert NotAbove(fs.f1, fs.j1, a, b);
  }

  lemma Order2(fs: Files, a: nat, b: nat)
    requires fs.InOrder() && a <= b < |fs.f2|
    ensures Compare(fs.Key2(a), fs.Key2(b)) <= 0
  {
    assert NotAbove(fs.f2, fs.j2, a, b);
  }

  // No line behind in the second file pairs with line i, nor with any later one.
  lemma BelowFirst(fs: Files, i: nat, j: nat)
    requires fs.InOrder() && i < |fs.f1| && j <= |fs.f2|
    requires 0 < j ==> Compare(fs.Key2(j - 1), fs.Key1(i)) < 0
    ensures forall a, b :: i <= a < |fs.f1| && 0 <= b < j ==> fs.Key1(a) != fs.Key2(b)
  {
    forall a, b | i <= a < |fs.f1| && 0 <= b < j ensures fs.Key1(a) != fs.Key2(b) {
      Order2(fs, b, j - 1);
      Order1(fs, i, a);
      CompareTransitive(fs.Key2(b), fs.Key2(j - 1), fs.Key1(i));
      CompareTransitive(fs.Key2(b), fs.Key1(i), fs.Key1(a));
      CompareEqual(fs.Key2(b), fs.Key1(a));
    }
  }

  lemma BelowSecond(fs: Files, i: nat, j: nat)
    requires fs.InOrder() && i <= |fs.f1| && j < |fs.f2|
    requires 0 < i ==> Compare(fs.Key1(i - 1), fs.Key2(j)) < 0
    ensures forall a, b :: 0 <= a < i && j <= b < |fs.f2| ==> fs.Key1(a) != fs.Key2(b)
  {
    forall a, b | 0 <= a < i && j <= b < |fs.f2| ensures fs.Key1(a) != fs.Key2(b) {
      Order1(fs, a, i - 1);
      Order2(fs, j, b);
      CompareTransitive(fs.Key1(a), fs.Key1(i - 1), fs.Key2(j));
      CompareTransitive(fs.Key1(a), fs.Key2(j), fs.Key2(b));
      CompareEqual(fs.Key1(a), fs.Key2(b));
    }
  }

  lemma {:induction false} NoPairs(fs: Files, a: nat, lo: nat, hi: nat)
    requires a < |fs.f1| && lo <= hi <= |fs.f2|
    requires forall b :: lo <= b < hi ==> fs.Key1(a) != fs.Key2(b)
    ensures fs.Pairs(a, hi) == fs.Pairs(a, lo)
  {
    if lo < hi {
      NoPairs(fs, a, lo, hi - 1);
    }
  }

  // Case one: the second file's line is passed over, printed if its -a bit is set.
  lemma PassSecond(fs: Files, aflg: nat, rows: seq<Row>, i: nat, j: nat)
    requires fs.InOrder() && i <= |fs.f1| && j < |fs.f2| && Merging(fs, aflg, rows, i, j)
    requires i < |fs.f1| ==> Compare(fs.Key1(i), fs.Key2(j)) > 0
    ensures Merging(fs, aflg, if WantsRight(aflg) then rows + [Right(fs.f2[j])] else rows, i, j + 1)
  {
    if i < |fs.f1| {
      CompareSwapped(fs.Key1(i), fs.Key2(j));
    }
    SecondUnpaired(fs, i, j);
    if WantsRight(aflg) {
      AppendRow(rows, Right(fs.f2[j]));
      AppendInOrder(fs, rows, Right(fs.f2[j]));
      SecondBehind(fs, rows + [Right(fs.f2[j])], i, j);
    } else {
      SecondBehind(fs, rows, i, j);
    }
  }

  lemma SecondUnpaired(fs: Files, i: nat, j: nat)
    requires fs.InOrder() && i <= |fs.f1| && j < |fs.f2| && Apart(fs, i, j)
    requires i < |fs.f1| ==> Compare(fs.Key2(j), fs.Key1(i)) < 0
    ensures fs.Unpaired2(j)
  {
    BelowSecond(fs, i, j);
    if i < |fs.f1| {
      BelowFirst(fs, i, j + 1);
    }
  }

  lemma SecondBehind(fs: Files, rows: seq<Row>, i: nat, j: nat)
    requires fs.InOrder() && i <= |fs.f1| && j < |fs.f2| && Apart(fs, i, j) && Capped(fs, rows, fs.Key2(j))
    requires i < |fs.f1| ==> Compare(fs.Key2(j), fs.Key1(i)) < 0
    ensures Apart(fs, i, j + 1)
    ensures i < |fs.f1| ==> Capped(fs, rows, fs.Key1(i))
    ensures j + 1 < |fs.f2| ==> Capped(fs, rows, fs.Key2(j + 1))
  {
    if i < |fs.f1| {
      RaiseCap(fs, rows, fs.Key2(j), fs.Key1(i));
    }
    if j + 1 < |fs.f2| {
      Order2(fs, j, j + 1);
      RaiseCap(fs, rows, fs.Key2(j), fs.Key2(j + 1));
      if 0 < i {
        CompareTransitive(fs.Key1(i - 1), fs.Key2(j), fs.Key2(j + 1));
      }
    }
  }

  // Case two: the first file's line is passed over.
  lemma PassFirst(fs: Files, aflg: nat, rows: seq<Row>, i: nat, j: nat)
    requires fs.InOrder() && i < |fs.f1| && j <= |fs.f2| && Merging(fs, aflg, rows, i, j)
    requires j < |fs.f2| ==> Compare(fs.Key1(i), fs.Key2(j)) < 0
    ensures Merging(fs, aflg, if WantsLeft(aflg) then rows + [Left(fs.f1[i])] else rows, i + 1, j)
  {
    FirstUnpaired(fs, i, j);
    NoPairs(fs, i, 0, |fs.f2|);
    if WantsLeft(aflg) {
      AppendRow(rows, Left(fs.f1[i]));
      AppendInOrder(fs, rows, Left(fs.f1[i]));
      FirstBehind(fs, rows + [Left(fs.f1[i])], i, j);
    } else {
      FirstBehind(fs, rows, i, j);
    }
  }

  lemma FirstUnpaired(fs: Files, i: nat, j: nat)
    requires fs.InOrder() && i < |fs.f1| && j <= |fs.f2| && Apart(fs, i, j)
    requires j < |fs.f2| ==> Compare(fs.Key1(i), fs.Key2(j)) < 0
    ensures fs.Unpaired1(i)
  {
    BelowFirst(fs, i, j);
    if j < |fs.f2| {
      BelowSecond(fs, i + 1, j);
    }
  }

  lemma FirstBehind(fs: Files, rows: seq<Row>, i: nat, j: nat)
    requires fs.InOrder() && i < |fs.f1| && j <= |fs.f2| && Apart(fs, i, j) && Capped(fs, rows, fs.Key1(i))
    requires j < |fs.f2| ==> Compare(fs.Key1(i), fs.Key2(j)) < 0
    ensures Apart(fs, i + 1, j)
    ensures i + 1 < |fs.f1| ==> Capped(fs, rows, fs.Key1(i + 1))
    ensures j < |fs.f2| ==> Capped(fs, rows, fs.Key2(j))
  {
    if j < |fs.f2| {
      RaiseCap(fs, rows, fs.Key1(i), fs.Key2(j));
    }
    if i + 1 < |fs.f1| {
      Order1(fs, i, i + 1);
      RaiseCap(fs, rows, fs.Key1(i), fs.Key1(i + 1));
      if 0 < j {
        CompareTransitive(fs.Key2(j - 1), fs.Key1(i), fs.Key1(i + 1));
      }
    }
  }

  // ---- Groups of equal keys ------------------------------------------------------------

  // Lines j.. of the second file up to x carry the key of line a of the first, whose pairs
  // with them are printed, on top of everything due for the lines behind a and j.
  ghost predicate Pairing(fs: Files, aflg: nat, rows: seq<Row>, a: nat, j: nat, x: nat, key: string)
    requires a <= |fs.f1| && j <= x <= |fs.f2|
  {
    && BothsOf(rows) == fs.Pairs(a, if a < |fs.f1| then x else 0)
    && LeftsOf(rows) == fs.Lonely1(a, WantsLeft(aflg))
    && RightsOf(rows) == fs.Lonely2(j, WantsRight(aflg))
    && Chained(fs, rows) && Capped(fs, rows, key)
    && (forall b :: j <= b < x ==> fs.Key2(b) == key)
  }

  lemma StartPairing(fs: Files, aflg: nat, rows: seq<Row>, i: nat, j: nat)
    requires fs.InOrder() && i < |fs.f1| && j < |fs.f2| && Merging(fs, aflg, rows, i, j)
    ensures Pairing(fs, aflg, rows, i, j, j, fs.Key1(i))
  {
    BelowFirst(fs, i, j);
    NoPairs(fs, i, 0, j);
  }

  lemma PairPrinted(fs: Files, aflg: nat, rows: seq<Row>, a: nat, j: nat, x: nat)
    requires a < |fs.f1| && j <= x < |fs.f2| && fs.Key1(a) == fs.Key2(x)
    requires Pairing(fs, aflg, rows, a, j, x, fs.Key1(a))
    ensures Pairing(fs, aflg, rows + [Both(fs.f1[a], fs.f2[x])], a, j, x + 1, fs.Key1(a))
  {
    var r := Both(fs.f1[a], fs.f2[x]);
    AppendRow(rows, r);
    AppendInOrder(fs, rows, r);
  }

  // Line j of the second file starts the group [j, g), the lines behind j being lower and
  // line g higher; line a of the first file is behind, and was paired with the group.
  ghost predicate Group(fs: Files, a: nat, j: nat, g: nat) {
    && 0 < a <= |fs.f1| && j < g <= |fs.f2|
    && fs.Key1(a - 1) == fs.Key2(j)
    && (forall b :: j <= b < g ==> fs.Key2(b) == fs.Key2(j))
    && (0 < j ==> Compare(fs.Key2(j - 1), fs.Key2(j)) < 0)
    && (g < |fs.f2| ==> Compare(fs.Key2(j), fs.Key2(g)) < 0)
  }

  lemma NoPairsBeyond(fs: Files, a: nat, j: nat, g: nat)
    requires fs.InOrder() && a < |fs.f1| && j < g <= |fs.f2| && fs.Key1(a) == fs.Key2(j)
    requires g < |fs.f2| ==> Compare(fs.Key2(j), fs.Key2(g)) < 0
    ensures fs.Pairs(a + 1, 0) == fs.Pairs(a, g)
  {
    forall b | g <= b < |fs.f2| ensures fs.Key1(a) != fs.Key2(b) {
      Order2(fs, g, b);
      CompareTransitive(fs.Key2(j), fs.Key2(g), fs.Key2(b));
      CompareEqual(fs.Key2(j), fs.Key2(b));
    }
    NoPairs(fs, a, g, |fs.f2|);
  }

  lemma NoPairsBefore(fs: Files, a: nat, j: nat, g: nat)
    requires fs.InOrder() && Group(fs, a, j, g) && a < |fs.f1|
    ensures fs.Pairs(a, j) == fs.Pairs(a, 0)
  {
    if 0 < j {
      Order1(fs, a - 1, a);
      CompareTransitive(fs.Key2(j - 1), fs.Key1(a - 1), fs.Key1(a));
      BelowFirst(fs, a, j);
    }
    NoPairs(fs, a, 0, j);
  }

  // The first pass over the group ends at g: the group is known, and line i is done.
  lemma FirstLineDone(fs: Files, aflg: nat, rows: seq<Row>, i: nat, j: nat, g: nat)
    requires fs.InOrder() && i < |fs.f1| && j < g <= |fs.f2| && Apart(fs, i, j) && fs.Key1(i) == fs.Key2(j)
    requires Pairing(fs, aflg, rows, i, j, g, fs.Key1(i))
    requires g < |fs.f2| ==> fs.Key2(g) != fs.Key1(i)
    ensures Group(fs, i + 1, j, g)
    ensures Pairing(fs, aflg, rows, i + 1, j, j, fs.Key2(j))
  {
    if g < |fs.f2| {
      Order2(fs, j, g);
      CompareEqual(fs.Key2(j), fs.Key2(g));
    }
    assert Group(fs, i + 1, j, g);
    LineDone(fs, aflg, rows, i, j, g);
  }

  // A line of the first file was paired with the whole group.
  lemma LineDone(fs: Files, aflg: nat, rows: seq<Row>, a: nat, j: nat, g: nat)
    requires fs.InOrder() && a < |fs.f1| && Group(fs, a + 1, j, g)
    requires Pairing(fs, aflg, rows, a, j, g, fs.Key2(j))
    ensures Pairing(fs, aflg, rows, a + 1, j, j, fs.Key2(j))
  {
    NoPairsBeyond(fs, a, j, g);
    assert !fs.Unpaired1(a) by {
      assert fs.Key2(j) == fs.Key1(a);
    }
    assert fs.Lonely1(a + 1, WantsLeft(aflg)) == fs.Lonely1(a, WantsLeft(aflg));
    if a + 1 < |fs.f1| {
      NoPairsBefore(fs, a + 1, j, g);
    }
  }

  lemma NextOfGroup(fs: Files, a: nat, j: nat, g: nat)
    requires Group(fs, a, j, g) && a < |fs.f1| && fs.Key1(a) == fs.Key2(j)
    ensures Group(fs, a + 1, j, g)
  {
    assert fs.Key1((a + 1) - 1) == fs.Key2(j);
  }

  lemma {:induction false} GroupPaired(fs: Files, wanted: bool, a: nat, j: nat, g: nat, x: nat)
    requires Group(fs, a, j, g) && j <= x <= g
    ensures fs.Lonely2(x, wanted) == fs.Lonely2(j, wanted)
  {
    if j < x {
      GroupPaired(fs, wanted, a, j, g, x - 1);
      assert fs.Key1(a - 1) == fs.Key2(x - 1);
    }
  }

  // The first line above the group ends it.
  lemma GroupDone(fs: Files, aflg: nat, rows: seq<Row>, a: nat, j: nat, g: nat)
    requires fs.InOrder() && Group(fs, a, j, g) && Pairing(fs, aflg, rows, a, j, j, fs.Key2(j))
    requires a < |fs.f1| ==> Compare(fs.Key1(a), fs.Key2(j)) > 0
    ensures Merging(fs, aflg, rows, a, g)
  {
    GroupPaired(fs, WantsRight(aflg), a, j, g, g);
    if a < |fs.f1| {
      NoPairsBefore(fs, a, j, g);
      CompareSwapped(fs.Key1(a), fs.Key2(j));
      RaiseCap(fs, rows, fs.Key2(j), fs.Key1(a));
    }
    if g < |fs.f2| {
      RaiseCap(fs, rows, fs.Key2(j), fs.Key2(g));
    }
    assert fs.Key2(g - 1) == fs.Key2(j);
  }

  // How far line a has come within the group.
  ghost predicate Within(fs: Files, aflg: nat, rows: seq<Row>, a: nat, j: nat, g: nat, x: nat) {
    && Group(fs, a, j, g) && j <= x <= g && Pairing(fs, aflg, rows, a, j, x, fs.Key2(j))
    && (j < x ==> a < |fs.f1| && fs.Key1(a) == fs.Key2(j))
  }

  // What each of the three cases of the inner loop means for a sorted file.
  lemma WithinEqual(fs: Files, aflg: nat, rows: seq<Row>, a: nat, j: nat, g: nat, x: nat)
    requires Within(fs, aflg, rows, a, j, g, x) && a < |fs.f1| && x < |fs.f2| && fs.Key1(a) == fs.Key2(x)
    ensures Within(fs, aflg, rows + [Both(fs.f1[a], fs.f2[x])], a, j, g, x + 1)
  {
    CompareEqual(fs.Key2(j), fs.Key2(x));
    PairPrinted(fs, aflg, rows, a, j, x);
  }

  lemma WithinLess(fs: Files, aflg: nat, rows: seq<Row>, a: nat, j: nat, g: nat, x: nat)
    requires fs.InOrder() && Within(fs, aflg, rows, a, j, g, x) && a < |fs.f1|
    requires x < |fs.f2| ==> Compare(fs.Key1(a), fs.Key2(x)) < 0
    ensures Within(fs, aflg, rows, a + 1, j, g, j)
  {
    Order1(fs, a - 1, a);
    CompareSwapped(fs.Key1(a - 1), fs.Key1(a));
    assert x == g;
    NextOfGroup(fs, a, j, g);
    LineDone(fs, aflg, rows, a, j, g);
  }

  lemma WithinGreater(fs: Files, aflg: nat, rows: seq<Row>, a: nat, j: nat, g: nat, x: nat)
    requires fs.InOrder() && Within(fs, aflg, rows, a, j, g, x) && x < |fs.f2|
    requires a < |fs.f1| ==> Compare(fs.Key1(a), fs.Key2(x)) > 0
    ensures Merging(fs, aflg, rows, a, g)
  {
    CompareEqual(fs.Key2(j), fs.Key2(j));
    if a < |fs.f1| {
      CompareSwapped(fs.Key1(a), fs.Key2(x));
      CompareSwapped(fs.Key2(j), fs.Key2(x));
    }
    assert x == j;
    GroupDone(fs, aflg, rows, a, j, g);
  }

  // ---- The end of the run ----------------------------------------------------------------

  lemma {:induction false} NoMorePairs(fs: Files, a: nat)
    requires a <= |fs.f1| && forall k :: a <= k < |fs.f1| ==> fs.Unpaired1(k)
    ensures fs.Pairs(|fs.f1|, 0) == fs.Pairs(a, 0)
    decreases |fs.f1| - a
  {
    if a < |fs.f1| {
      assert fs.Unpaired1(a);
      NoPairs(fs, a, 0, |fs.f2|);
      NoMorePairs(fs, a + 1);
    }
  }

  lemma {:induction false} NoneWanted(fs: Files, a: nat, b: nat)
    requires a <= |fs.f1| && b <= |fs.f2|
    ensures fs.Lonely1(a, false) == [] && fs.Lonely2(b, false) == []
  {
    if 0 < a {
      NoneWanted(fs, a - 1, b);
    }
    if 0 < b {
      NoneWanted(fs, a, b - 1);
    }
  }

  // Once a file is at its end the other has no more pairs; its unpairable lines are
  // passed over one by one only if there is a -a bit at all.
  lemma RestIsSilent(fs: Files, aflg: nat, rows: seq<Row>, i: nat, j: nat)
    requires fs.InOrder() && i <= |fs.f1| && j <= |fs.f2| && Merging(fs, aflg, rows, i, j)
    requires i == |fs.f1| || j == |fs.f2|
    requires aflg != 0 ==> i == |fs.f1| && j == |fs.f2|
    ensures Printed(fs, aflg, rows, |fs.f1|, |fs.f2|)
  {
    if aflg == 0 {
      NoneWanted(fs, i, j);
      NoneWanted(fs, |fs.f1|, |fs.f2|);
    }
    if i < |fs.f1| {
      BelowFirst(fs, i, j);
      forall k | i <= k < |fs.f1| ensures fs.Unpaired1(k) {
        assert forall b :: 0 <= b < j ==> fs.Key1(k) != fs.Key2(b);
      }
      NoMorePairs(fs, i);
    }
  }
}
