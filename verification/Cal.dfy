// cal.c: the weekday of the first of January in closed form, and the page of a month.
module Cal {

  // ---- The calendar --------------------------------------------------------------------

  // Julian until 1752, in which eleven days were left out, and Gregorian from then on
  predicate IsLeap(y: nat) {
    y % 4 == 0 && (y <= 1752 || y % 100 != 0 || y % 400 == 0)
  }

  function YearLength(y: nat): nat {
    if y == 1752 then 355 else if IsLeap(y) then 366 else 365
  }

  function MonthLength(y: nat, m: nat): (n: nat)
    ensures n <= 31
    ensures 1 <= m <= 12 ==> n >= 19
  {
    if m == 2 then if IsLeap(y) then 29 else 28
    else if m == 9 && y == 1752 then 19
    else if m == 4 || m == 6 || m == 9 || m == 11 then 30
    else if 1 <= m <= 12 then 31
    else 0
  }

  // The days of a month; the third day of September 1752 was called the fourteenth.
  function DateAt(y: nat, m: nat, j: nat): nat {
    if y == 1752 && m == 9 && j >= 2 then j + 12 else j + 1
  }

  // Days from the first day of year 1
  function DaysBeforeYear(y: nat): nat {
    if y <= 1 then 0 else DaysBeforeYear(y - 1) + YearLength(y - 1)
  }

  function DaysBeforeMonth(y: nat, m: nat): nat {
    if m <= 1 then 0 else DaysBeforeMonth(y, m - 1) + MonthLength(y, m - 1)
  }

  // 0 is Sunday; the calendar starts on a Saturday, and every day is followed by the next day
  // of the week.
  function Weekday(y: nat, m: nat, j: nat): nat {
    (6 + DaysBeforeYear(y) + DaysBeforeMonth(y, m) + j) % 7
  }

  // The twelve months make up the year.
  lemma YearOfMonths(y: nat)
    ensures DaysBeforeMonth(y, 13) == YearLength(y)
  {
    assert IsLeap(1752);
    assert DaysBeforeMonth(y, 1) == 0;
    MonthSteps(y, 1);
    MonthSteps(y, 4);
    MonthSteps(y, 7);
    MonthSteps(y, 10);
  }

  lemma MonthSteps(y: nat, m: nat)
    requires m >= 1
    ensures DaysBeforeMonth(y, m + 3)
         == DaysBeforeMonth(y, m) + MonthLength(y, m) + MonthLength(y, m + 1) + MonthLength(y, m + 2)
  {
    assert DaysBeforeMonth(y, m + 1) == DaysBeforeMonth(y, m) + MonthLength(y, m);
    assert DaysBeforeMonth(y, m + 2) == DaysBeforeMonth(y, m + 1) + MonthLength(y, m + 1);
  }

  // From the last day of a month or a year to the first of the next the week goes on.
  lemma WeekGoesOn(y: nat, m: nat)
    requires y >= 1 && 1 <= m <= 12
    ensures Weekday(y, m, MonthLength(y, m)) == if m < 12 then Weekday(y, m + 1, 0) else Weekday(y + 1, 1, 0)
  {
    YearOfMonths(y);
  }

  // ---- The first of January ---------------------------------------------------------------

  function Sum(yr: nat): int
    requires yr >= 1
  {
    var d := 4 + yr + (yr + 3) / 4;
    var e := if yr > 1800 then d - (yr - 1701) / 100 + (yr - 1601) / 400 else d;
    if yr > 1752 then e + 3 else e
  }

  // jan1()
  function Jan1(yr: nat): int
    requires yr >= 1
  {
    Sum(yr) % 7
  }

  // From one year to the next the sum grows by the length of the year, but for whole weeks.
  lemma SumNext(y: nat)
    requires y >= 1
    ensures Sum(y + 1) == Sum(y) + YearLength(y) - if y == 1752 then 350 else 364
  {
    if y >= 1800 {
      LateSumNext(y);
    } else {
      EarlySumNext(y);
    }
  }

  lemma LateSumNext(y: nat)
    requires y >= 1800
    ensures Sum(y + 1) == Sum(y) + YearLength(y) - 364
  {
    QuarterStep(y);
    CenturyStep(y);
    QuadCenturyStep(y);
    LeapDays(y);
  }

  lemma LeapDays(y: nat)
    requires y > 1752
    ensures YearLength(y) == 365 + (if y % 4 == 0 then 1 else 0) - (if y % 100 == 0 then 1 else 0)
                             + (if y % 400 == 0 then 1 else 0)
  {
  }

  lemma EarlySumNext(y: nat)
    requires 1 <= y < 1800
    ensures Sum(y + 1) == Sum(y) + YearLength(y) - if y == 1752 then 350 else 364
  {
    QuarterStep(y);
    assert y > 1752 ==> y % 100 != 0;
  }

  // One year further the formula moves on by the length of the year.
  lemma Jan1Next(y: nat)
    requires y >= 1
    ensures Jan1(y + 1) == (Jan1(y) + YearLength(y)) % 7
  {
    SumNext(y);
    AddMod(Sum(y), YearLength(y));
    if y == 1752 {
      WholeWeeks(Sum(y) + YearLength(y), 50);
    } else {
      WholeWeeks(Sum(y) + YearLength(y), 52);
    }
  }

  lemma WholeWeeks(a: int, k: int)
    ensures (a - 7 * k) % 7 == a % 7
  {
  }

  lemma QuarterStep(y: nat)
    ensures (y + 4) / 4 == (y + 3) / 4 + if y % 4 == 0 then 1 else 0
  {
  }

  lemma CenturyStep(y: nat)
    requires y >= 1800
    ensures (y - 1700) / 100 == (y - 1701) / 100 + if y % 100 == 0 then 1 else 0
  {
  }

  lemma QuadCenturyStep(y: nat)
    requires y >= 1800
    ensures (y - 1600) / 400 == (y - 1601) / 400 + if y % 400 == 0 then 1 else 0
  {
  }

  // For every year the formula names the weekday that counting days gives.
  lemma {:induction false} Jan1Right(y: nat)
    requires y >= 1
    ensures Jan1(y) == Weekday(y, 1, 0)
  {
    if y > 1 {
      Jan1Right(y - 1);
      Jan1Next(y - 1);
      assert DaysBeforeYear(y) == DaysBeforeYear(y - 1) + YearLength(y - 1);
      AddMod(6 + DaysBeforeYear(y - 1), YearLength(y - 1));
    }
  }

  lemma AddMod(a: int, b: int)
    ensures (a + b) % 7 == (a % 7 + b) % 7
  {
  }

  // What the difference of two such weekdays says about the year between them
  lemma YearTold(y: nat)
    requires y >= 1
    ensures (Jan1(y + 1) + 7 - Jan1(y)) % 7 == if y == 1752 then 5 else if IsLeap(y) then 2 else 1
  {
    Jan1Next(y);
    assert Jan1(y) < 7;
  }

  // ---- The page of a month -----------------------------------------------------------------

  function Digit(n: nat): char
    requires n < 10
  {
    "0123456789"[n]
  }

  predicate IsWidth(w: nat) { w == 24 || w == 72 }

  // Where row r of a page begins
  function RowAt(w: nat, r: nat): nat {
    if w == 24 then 24 * r else 72 * r
  }

  // Where the cell of column n % 7 in row n / 7 begins, on a page at p with rows w apart
  function Place(p: nat, w: nat, n: nat): nat {
    p + RowAt(w, n / 7) + 3 * (n % 7)
  }

  function ColumnOf(w: nat, k: nat): nat {
    if w == 24 then k % 24 else k % 72
  }

  // The twenty columns of the six rows of a page
  predicate OnPage(p: nat, w: nat, q: nat)
    requires IsWidth(w)
  {
    p <= q < p + RowAt(w, 6) && ColumnOf(w, q - p) < 20
  }

  // Two places for the number; the first is left alone if it has one digit.
  predicate Shows(str: seq<char>, q: nat, i: nat)
    requires q + 1 < |str| && i < 100
  {
    str[q + 1] == Digit(i % 10) && (i > 9 ==> str[q] == Digit(i / 10))
  }

  // The n-th cell, in column d of the row that begins at row, begins at s.
  ghost predicate InCell(p: nat, w: nat, n: nat, d: nat, row: nat, s: nat) {
    exists r: nat :: InRowCell(p, w, n, d, row, s, r)
  }

  predicate InRowCell(p: nat, w: nat, n: nat, d: nat, row: nat, s: nat, r: nat) {
    n == 7 * r + d && d < 7 && row == p + RowAt(w, r) && s == row + 3 * d
  }

  lemma FirstCell(p: nat, w: nat, d: nat)
    requires d < 7
    ensures InCell(p, w, d, d, p, p + 3 * d)
  {
    assert InRowCell(p, w, d, d, p, p + 3 * d, 0);
  }

  lemma NextCell(p: nat, w: nat, n: nat, d: nat, row: nat, s: nat)
    requires IsWidth(w) && InCell(p, w, n, d, row, s)
    ensures if d == 6 then InCell(p, w, n + 1, 0, row + w, row + w) else InCell(p, w, n + 1, d + 1, row, s + 3)
  {
    var r: nat :| InRowCell(p, w, n, d, row, s, r);
    if d == 6 {
      assert InRowCell(p, w, n + 1, 0, row + w, row + w, r + 1);
    } else {
      assert InRowCell(p, w, n + 1, d + 1, row, s + 3, r);
    }
  }

  lemma CellIsPlace(p: nat, w: nat, n: nat, d: nat, row: nat, s: nat)
    requires InCell(p, w, n, d, row, s)
    ensures s == Place(p, w, n) && d == n % 7
  {
    var r: nat :| InRowCell(p, w, n, d, row, s, r);
    assert n / 7 == r && n % 7 == d;
  }

  lemma PlaceNext(p: nat, w: nat, n: nat)
    requires IsWidth(w)
    ensures Place(p, w, n + 1) == if n % 7 == 6 then p + RowAt(w, n / 7 + 1) else Place(p, w, n) + 3
    ensures RowAt(w, n / 7 + 1) == RowAt(w, n / 7) + w
    ensures Place(p, w, n) + 3 <= Place(p, w, n + 1)
  {
    if n % 7 == 6 {
      assert (n + 1) / 7 == n / 7 + 1 && (n + 1) % 7 == 0;
    } else {
      assert (n + 1) / 7 == n / 7 && (n + 1) % 7 == n % 7 + 1;
    }
  }

  // The page has room for the month in six rows.
  lemma PlaceOnPage(p: nat, w: nat, n: nat)
    requires IsWidth(w) && n < 42
    ensures OnPage(p, w, Place(p, w, n)) && OnPage(p, w, Place(p, w, n) + 1)
    ensures Place(p, w, n) + 1 <= p + RowAt(w, 5) + 19
  {
    var r, c := n / 7, 3 * (n % 7);
    assert r < 6 && c <= 18;
    InRow(w, r, c);
    InRow(w, r, c + 1);
  }

  lemma InRow(w: nat, r: nat, c: nat)
    requires IsWidth(w) && r < 6 && c < 20
    ensures ColumnOf(w, RowAt(w, r) + c) == c && RowAt(w, r) + c < RowAt(w, 6)
    ensures RowAt(w, r) <= RowAt(w, 5)
  {
  }

  // The dates before the j-th day are in place, from the weekday of the first on.
  ghost predicate Shown(str: seq<char>, y: nat, m: nat, p: nat, w: nat, first: nat, j: nat)
    requires j <= 31
  {
    forall k: nat :: k < j ==> DateShown(str, y, m, p, w, first, k)
  }

  predicate DateShown(str: seq<char>, y: nat, m: nat, p: nat, w: nat, first: nat, k: nat)
    requires k <= 31
  {
    Place(p, w, first + k) + 1 < |str| && Shows(str, Place(p, w, first + k), DateAt(y, m, k))
  }

  // Every date of the month stands in the column of its weekday, a row for each week.
  ghost predicate Page(str: seq<char>, y: nat, m: nat, p: nat, w: nat) {
    Shown(str, y, m, p, w, Weekday(y, m, 0), MonthLength(y, m))
  }

  lemma ColumnIsWeekday(y: nat, m: nat, k: nat)
    ensures (Weekday(y, m, 0) + k) % 7 == Weekday(y, m, k)
  {
    AddMod(6 + DaysBeforeYear(y) + DaysBeforeMonth(y, m), k);
  }

  // Dates in cells before q are not touched by what is written from q on.
  lemma ShownStays(str: seq<char>, t: seq<char>, y: nat, m: nat, p: nat, w: nat, first: nat, j: nat)
    requires IsWidth(w) && j <= 31 && Shown(str, y, m, p, w, first, j) && |t| == |str|
    requires forall q :: 0 <= q < |str| && q < Place(p, w, first + j) ==> t[q] == str[q]
    ensures Shown(t, y, m, p, w, first, j)
  {
    forall k: nat | k < j ensures DateShown(t, y, m, p, w, first, k) {
      assert DateShown(str, y, m, p, w, first, k);
      PlacesRise(p, w, first + k, first + j);
    }
  }

  // One more date is in place.
  lemma ShownMore(str: seq<char>, t: seq<char>, y: nat, m: nat, p: nat, w: nat, first: nat, j: nat)
    requires IsWidth(w) && j < 31 && Shown(str, y, m, p, w, first, j) && |t| == |str|
    requires DateShown(t, y, m, p, w, first, j)
    requires forall q :: 0 <= q < |str| && q < Place(p, w, first + j) ==> t[q] == str[q]
    ensures Shown(t, y, m, p, w, first, j + 1)
  {
    ShownStays(str, t, y, m, p, w, first, j);
  }

  lemma {:induction false} PlacesRise(p: nat, w: nat, a: nat, b: nat)
    requires IsWidth(w) && a < b
    ensures Place(p, w, a) + 3 <= Place(p, w, b)
  {
    PlaceNext(p, w, b - 1);
    if a < b - 1 {
      PlacesRise(p, w, a, b - 1);
    }
  }

  // Is the month at its end?
  lemma DatesLeft(y: nat, m: nat, j: nat, i: nat, last: nat)
    requires 1 <= m <= 12 && j <= MonthLength(y, m) && i == if j == 2 then 3 else DateAt(y, m, j)
    requires last == if y == 1752 && m == 9 && j >= 3 then 30 else MonthLength(y, m)
    ensures i <= last <==> j < MonthLength(y, m)
  {
  }

  class Calendar {
    const str: array<char>
    const mon: array<nat>

    constructor ()
      ensures str.Length == 432 && mon.Length == 13 && fresh(str) && fresh(mon)
      ensures forall m :: 1 <= m <= 12 && m != 2 && m != 9 ==> mon[m] == MonthLength(1, m)
    {
      str := new char[432](i => '\0');
      mon := new nat[13](i requires 0 <= i => MonthLength(1, i));
    }

    // Only February and September change with the year.
    ghost predicate Months(y: nat)
      reads mon
    {
      mon.Length == 13 && forall m :: 1 <= m <= 12 ==> mon[m] == MonthLength(y, m)
    }

    ghost predicate Table()
      reads mon
    {
      mon.Length == 13 && forall m :: 1 <= m <= 12 && m != 2 && m != 9 ==> mon[m] == MonthLength(1, m)
    }

    method SetMonths(y: nat)
      requires y >= 1 && Table()
      modifies mon
      ensures Months(y) && Table()
    {
      mon[2] := 29;
      mon[9] := 30;
      YearTold(y);
      var told := (Jan1(y + 1) + 7 - Jan1(y)) % 7;
      if told == 1 {
        mon[2] := 28;
      } else if told != 2 {
        mon[9] := 19;
      }
      assert IsLeap(1752);
    }

    // The weekday of the first day of the month
    method FirstDay(y: nat, m: nat) returns (d: nat)
      requires y >= 1 && 1 <= m <= 12 && Months(y)
      ensures d == Weekday(y, m, 0)
    {
      var n: nat := Jan1(y);
      for i := 1 to m
        invariant n == Jan1(y) + DaysBeforeMonth(y, i)
      {
        n := n + mon[i];
      }
      Jan1Right(y);
      AddMod(6 + DaysBeforeYear(y), DaysBeforeMonth(y, m));
      d := n % 7;
    }

    // The number i at s
    method Write(s: nat, i: nat)
      requires s + 1 < str.Length && i < 100
      modifies str
      ensures Shows(str[..], s, i)
      ensures forall q :: 0 <= q < str.Length && q != s && q != s + 1 ==> str[q] == old(str[q])
    {
      if i > 9 {
        str[s] := Digit(i / 10);
      }
      str[s + 1] := Digit(i % 10);
    }

    // One date, the j-th, into its cell
    method WriteDate(i: nat, s: nat, ghost y: nat, ghost m: nat, ghost p: nat, ghost w: nat, ghost first: nat,
                     ghost j: nat)
      requires 1 <= m <= 12 && IsWidth(w) && p + RowAt(w, 5) + 20 < str.Length && first < 7 && j < MonthLength(y, m)
      requires s == Place(p, w, first + j) && i == DateAt(y, m, j) && Shown(str[..], y, m, p, w, first, j)
      modifies str
      ensures Shown(str[..], y, m, p, w, first, j + 1)
      ensures forall q: nat :: q < str.Length && !OnPage(p, w, q) ==> str[q] == old(str[q])
    {
      PlaceOnPage(p, w, first + j);
      Write(s, i);
      ShownMore(old(str[..]), str[..], y, m, p, w, first, j);
    }

    // The dates before the j-th are drawn, i is the next one, and d, row and s are its place.
    ghost predicate Drawing(y: nat, m: nat, p: nat, w: nat, first: nat, j: nat, i: nat, d: nat, row: nat, s: nat)
      requires 1 <= m <= 12
      reads str, mon
    {
      && Table() && j <= MonthLength(y, m)
      && mon[m] == (if y == 1752 && m == 9 && j >= 3 then 30 else MonthLength(y, m))
      && i == (if j == 2 then 3 else DateAt(y, m, j))
      && InCell(p, w, first + j, d, row, s) && Shown(str[..], y, m, p, w, first, j)
    }

    // The 3rd to the 13th of September 1752 are left out.
    method SkipDays(i0: nat, ghost y: nat, m: nat, ghost j: nat) returns (i: nat)
      requires y >= 1 && 1 <= m <= 12 && Table() && j < MonthLength(y, m)
      requires mon[m] == if y == 1752 && m == 9 && j >= 3 then 30 else MonthLength(y, m)
      requires i0 == if j == 2 then 3 else DateAt(y, m, j)
      modifies mon
      ensures Table() && i == DateAt(y, m, j)
      ensures mon[m] == if y == 1752 && m == 9 && j >= 2 then 30 else MonthLength(y, m)
    {
      i := i0;
      if i == 3 && mon[m] == 19 {
        i := i + 11;
        mon[m] := mon[m] + 11;
      }
    }

    // One round of the loop
    method DrawDate(i0: nat, d0: nat, row0: nat, s0: nat, ghost y: nat, m: nat, ghost p: nat, w: nat,
                    ghost first: nat, ghost j: nat)
      returns (i: nat, d: nat, row: nat, s: nat)
      requires y >= 1 && 1 <= m <= 12 && IsWidth(w) && p + RowAt(w, 5) + 20 < str.Length && first < 7
      requires Drawing(y, m, p, w, first, j, i0, d0, row0, s0) && j < MonthLength(y, m)
      modifies str, mon
      ensures Drawing(y, m, p, w, first, j + 1, i, d, row, s)
      ensures forall q: nat :: q < str.Length && !OnPage(p, w, q) ==> str[q] == old(str[q])
    {
      i := SkipDays(i0, y, m, j);
      CellIsPlace(p, w, first + j, d0, row0, s0);
      WriteDate(i, s0, y, m, p, w, first, j);
      NextCell(p, w, first + j, d0, row0, s0);
      d, row, s := d0 + 1, row0, s0 + 3;
      if d == 7 {
        d := 0;
        s := row + w;
        row := s;
      }
      i := i + 1;
    }

    // cal(): the page of month m, at p, every row w characters after the one before
    method Cal(m: nat, y: nat, p: nat, w: nat)
      requires y >= 1 && 1 <= m <= 12 && IsWidth(w) && p + RowAt(w, 5) + 20 < str.Length && Table()
      modifies str, mon
      ensures Page(str[..], y, m, p, w) && Table()
      ensures forall q: nat :: q < str.Length && !OnPage(p, w, q) ==> str[q] == old(str[q])
    {
      SetMonths(y);
      var d := FirstDay(y, m);
      DrawDates(m, y, p, w, d);
    }

    // The loop over the dates, the first of which falls on weekday d0
    method DrawDates(m: nat, ghost y: nat, p: nat, w: nat, d0: nat)
      requires y >= 1 && 1 <= m <= 12 && IsWidth(w) && p + RowAt(w, 5) + 20 < str.Length && d0 < 7
      requires Table() && mon[m] == MonthLength(y, m)
      modifies str, mon
      ensures Shown(str[..], y, m, p, w, d0, MonthLength(y, m)) && Table()
      ensures forall q: nat :: q < str.Length && !OnPage(p, w, q) ==> str[q] == old(str[q])
    {
      ghost var j: nat := 0;
      var d := d0;
      var row: nat, s: nat, i: nat := p, p + 3 * d, 1;
      FirstCell(p, w, d);
      while i <= mon[m]
        invariant Drawing(y, m, p, w, d0, j, i, d, row, s)
        invariant forall q: nat :: q < str.Length && !OnPage(p, w, q) ==> str[q] == old(str[q])
        decreases MonthLength(y, m) - j
      {
        DatesLeft(y, m, j, i, mon[m]);
        i, d, row, s := DrawDate(i, d, row, s, y, m, p, w, d0, j);
        j := j + 1;
      }
      DatesLeft(y, m, j, i, mon[m]);
    }
  }
}
