// init.c: what remove() does to the process table, whatever happens meanwhile.
module Sweep {
  import opened ProcTable

  // What a pass of remove() starts from: the table and the numbers of the processes in it, the next
  // number, those killed so far, the inittab, the level, and whether the level has changed
  datatype Outset = Outset(s: seq<Slot>, inc: seq<nat>, born: nat, kills: multiset<nat>, lines: seq<Line>, level: Level,
                         change: bool)
  {
    ghost predicate Valid() {
      Inv(s, inc, born, kills) && AllNamed(lines)
    }

    // One of the first n lines has the name.
    ghost predicate Named(id: Id, n: nat)
      requires n <= |lines|
    {
      exists l :: 0 <= l < n && lines[l].id == id
    }

    // One of them bans the process of slot x, which has its name.
    ghost predicate Banned(x: Slot, n: nat)
      requires n <= |lines|
    {
      exists l :: 0 <= l < n && lines[l].id == x.id && MustGo(x, lines[l], level)
    }

    // One of them keeps the slot although its process may be dead.
    ghost predicate Kept(x: Slot, n: nat)
      requires n <= |lines|
    {
      x.demand && exists l :: 0 <= l < n && lines[l].id == x.id && !MustGo(x, lines[l], level)
    }

    // The inittab has no line for the process, or one that bans it.
    ghost predicate GoesAway(x: Slot) {
      !Named(x.id, |lines|) || Banned(x, |lines|)
    }

    // init sends the process the first signal itself, as the level has changed.
    ghost predicate Warned(x: Slot, n: nat)
      requires n <= |lines|
    {
      change && !x.killed && Banned(x, n)
    }
  }

  // The same process, perhaps dead by now, and perhaps marked
  predicate SameProcess(x: Slot, y: Slot) {
    && y == x.(living := y.living, exit := y.exit, series := y.series, touched := y.touched, warned := y.warned,
               killed := y.killed)
    && (y.living ==> x.living)
  }

  // A living process after n lines
  ghost predicate Marked(w: Outset, x: Slot, y: Slot, n: nat)
    requires n <= |w.lines|
  {
    (y.killed <==> x.killed || w.Banned(x, n)) && (y.warned <==> x.warned || w.Warned(x, n))
  }

  // Slot y, whose process has number m, after n lines. It was slot j when the pass began.
  ghost predicate SweptAt(w: Outset, j: nat, y: Slot, m: nat, n: nat)
    requires j < |w.s| == |w.inc| && n <= |w.lines|
  {
    var x := w.s[j];
    (Held(x) ==> m == w.inc[j] && y.occupied)
    && if m != w.inc[j] then m >= w.born && !y.named
    else
      (y.living ==> y.occupied)
      && (y.occupied
          ==> SameProcess(x, y)
              && (x.named ==> (y.living ==> Marked(w, x, y, n) && (y.touched <==> w.Named(x.id, n)))
                              && (!x.living ==> (y.touched <==> w.Kept(x, n)))))
  }

  // The same of a slot that has just been touched; the next line bans its process.
  ghost predicate TouchedAt(w: Outset, j: nat, y: Slot, m: nat, n: nat)
    requires j < |w.s| == |w.inc| && n < |w.lines|
  {
    var x := w.s[j];
    && m == w.inc[j] && y.occupied && SameProcess(x, y) && x.named && x.living && y.touched
    && w.lines[n].id == x.id && MustGo(x, w.lines[n], w.level) && Marked(w, x, y, n)
  }

  ghost predicate Swept(w: Outset, t: seq<Slot>, inc: seq<nat>, n: nat) {
    && |t| == |inc| == |w.s| == |w.inc| && n <= |w.lines|
    && forall j: nat :: j < |t| ==> SweptAt(w, j, t[j], inc[j], n)
  }

  ghost predicate SweptBut(w: Outset, t: seq<Slot>, inc: seq<nat>, n: nat, k: nat) {
    && |t| == |inc| == |w.s| == |w.inc| && n <= |w.lines|
    && forall j: nat :: j < |t| && j != k ==> SweptAt(w, j, t[j], inc[j], n)
  }

  // The process in slot j was chosen for killing, and has number m.
  ghost predicate Chosen(w: Outset, j: nat, m: nat)
    requires j < |w.s| == |w.inc|
  {
    w.inc[j] == m && w.s[j].living && w.s[j].named && !w.s[j].killed && w.GoesAway(w.s[j])
  }

  // Besides those killed before only such processes are killed.
  ghost predicate KillsRight(w: Outset, kills: multiset<nat>)
    requires |w.s| == |w.inc|
  {
    w.kills <= kills && forall m :: m in kills && m !in w.kills ==> exists j: nat :: j < |w.s| && Chosen(w, j, m)
  }

  // What the pass leaves of a slot: a living process is marked exactly if it was before or has to
  // go away; a dead one has lost the slot unless a telinit a, b or c asked for it and a line
  // keeps it, and then it has not, unless efork() may clean it.
  ghost predicate DoneAt(w: Outset, j: nat, y: Slot, m: nat)
    requires j < |w.s| == |w.inc|
  {
    var x := w.s[j];
    (Held(x) && x.named && !x.living && w.Kept(x, |w.lines|) ==> m == w.inc[j] && y.occupied)
    && if m != w.inc[j] then m >= w.born && !y.named
    else
      (y.living ==> y.occupied)
      && (y.occupied
          ==> SameProcess(x, y)
              && (x.named ==> (y.living ==> (y.killed <==> x.killed || w.GoesAway(x))
                                            && (y.warned <==> x.warned || w.Warned(x, |w.lines|)))
                              && (!x.living ==> w.Kept(x, |w.lines|))))
  }

  // The first k slots are done.
  ghost predicate DoneTo(w: Outset, t: seq<Slot>, inc: seq<nat>, k: nat) {
    && |t| == |inc| == |w.s| == |w.inc|
    && forall j: nat :: j < |t| ==> if j < k then DoneAt(w, j, t[j], inc[j])
                                   else SweptAt(w, j, t[j], inc[j], |w.lines|)
  }

  ghost predicate Done(w: Outset, t: seq<Slot>, inc: seq<nat>) {
    |t| == |inc| == |w.s| == |w.inc| && forall j: nat :: j < |t| ==> DoneAt(w, j, t[j], inc[j])
  }

  // ---- Steps that keep this ----------------------------------------------------------------

  lemma MoveStaysSwept(w: Outset, j: nat, y: Slot, m: nat, z: Slot, m': nat, b: nat, n: nat)
    requires w.Valid() && j < |w.s| && n <= |w.lines| && w.born <= b
    requires SweptAt(w, j, y, m, n) && Move(y, m, z, m', b)
    ensures SweptAt(w, j, z, m', n)
  {
    assert SlotOk(w.s[j], w.inc[j], w.born, w.kills);
  }

  lemma MoveStaysDone(w: Outset, j: nat, y: Slot, m: nat, z: Slot, m': nat, b: nat)
    requires w.Valid() && j < |w.s| && w.born <= b
    requires DoneAt(w, j, y, m) && Move(y, m, z, m', b)
    ensures DoneAt(w, j, z, m')
  {
    assert SlotOk(w.s[j], w.inc[j], w.born, w.kills);
  }

  lemma DimsStaySwept(w: Outset, t: seq<Slot>, inc: seq<nat>, u: seq<Slot>, n: nat)
    requires w.Valid() && Swept(w, t, inc, n) && Dims(t, u)
    ensures Swept(w, u, inc, n)
  {
    forall j: nat | j < |u| ensures SweptAt(w, j, u[j], inc[j], n) {
      assert Dim(t[j], u[j]);
      MoveStaysSwept(w, j, t[j], inc[j], u[j], inc[j], w.born, n);
    }
  }

  lemma DimsStaySweptBut(w: Outset, t: seq<Slot>, inc: seq<nat>, u: seq<Slot>, n: nat, k: nat)
    requires w.Valid() && SweptBut(w, t, inc, n, k) && Dims(t, u)
    ensures SweptBut(w, u, inc, n, k)
  {
    forall j: nat | j < |u| && j != k ensures SweptAt(w, j, u[j], inc[j], n) {
      assert Dim(t[j], u[j]);
      MoveStaysSwept(w, j, t[j], inc[j], u[j], inc[j], w.born, n);
    }
  }

  // While the process in slot k is killed, nothing unsettles the other slots.
  lemma MovesStaySwept(w: Outset, t: seq<Slot>, inc: seq<nat>, u: seq<Slot>, inc': seq<nat>, b: nat, n: nat, k: nat)
    requires w.Valid() && SweptBut(w, t, inc, n, k) && MovesBut(t, inc, u, inc', b, k) && w.born <= b
    ensures SweptBut(w, u, inc', n, k)
  {
    forall j: nat | j < |u| && j != k ensures SweptAt(w, j, u[j], inc'[j], n) {
      assert Move(t[j], inc[j], u[j], inc'[j], b);
      MoveStaysSwept(w, j, t[j], inc[j], u[j], inc'[j], b, n);
    }
  }

  lemma MovesStayDone(w: Outset, t: seq<Slot>, inc: seq<nat>, u: seq<Slot>, inc': seq<nat>, b: nat, k: nat)
    requires w.Valid() && DoneTo(w, t, inc, k) && MovesBut(t, inc, u, inc', b, k) && w.born <= b
    requires k < |u| && DoneAt(w, k, u[k], inc'[k])
    ensures DoneTo(w, u, inc', k + 1)
  {
    forall j: nat | j < |u|
      ensures if j < k + 1 then DoneAt(w, j, u[j], inc'[j]) else SweptAt(w, j, u[j], inc'[j], |w.lines|)
    {
      if j != k {
        assert Move(t[j], inc[j], u[j], inc'[j], b);
        if j < k {
          MoveStaysDone(w, j, t[j], inc[j], u[j], inc'[j], b);
        } else {
          MoveStaysSwept(w, j, t[j], inc[j], u[j], inc'[j], b, |w.lines|);
        }
      }
    }
  }

  lemma DimsStayDone(w: Outset, t: seq<Slot>, inc: seq<nat>, u: seq<Slot>, k: nat)
    requires w.Valid() && DoneTo(w, t, inc, k) && Dims(t, u)
    ensures DoneTo(w, u, inc, k)
  {
    forall j: nat | j < |u|
      ensures if j < k then DoneAt(w, j, u[j], inc[j]) else SweptAt(w, j, u[j], inc[j], |w.lines|)
    {
      assert Dim(t[j], u[j]);
      if j < k {
        MoveStaysDone(w, j, t[j], inc[j], u[j], inc[j], w.born);
      } else {
        MoveStaysSwept(w, j, t[j], inc[j], u[j], inc[j], w.born, |w.lines|);
      }
    }
  }

  // ---- One line more -----------------------------------------------------------------------

  lemma OneLineMore(w: Outset, x: Slot, n: nat)
    requires n < |w.lines|
    ensures w.Named(x.id, n + 1) <==> w.Named(x.id, n) || w.lines[n].id == x.id
    ensures w.Banned(x, n + 1) <==> w.Banned(x, n) || (w.lines[n].id == x.id && MustGo(x, w.lines[n], w.level))
    ensures w.Kept(x, n + 1)
            <==> w.Kept(x, n) || (x.demand && w.lines[n].id == x.id && !MustGo(x, w.lines[n], w.level))
  {
  }

  lemma BannedIsNamed(w: Outset, x: Slot)
    ensures w.Banned(x, |w.lines|) ==> w.Named(x.id, |w.lines|)
  {
  }

  // A line does not concern the slots that do not hold its process.
  lemma LineOfOthers(w: Outset, j: nat, y: Slot, m: nat, n: nat)
    requires j < |w.s| == |w.inc| && n < |w.lines| && SweptAt(w, j, y, m, n)
    requires !(y.occupied && y.id == w.lines[n].id)
    ensures SweptAt(w, j, y, m, n + 1)
  {
    OneLineMore(w, w.s[j], n);
  }

  lemma NoSlotForLine(w: Outset, t: seq<Slot>, inc: seq<nat>, n: nat)
    requires Swept(w, t, inc, n) && n < |w.lines|
    requires forall j :: 0 <= j < |t| ==> !(t[j].occupied && t[j].id == w.lines[n].id)
    ensures Swept(w, t, inc, n + 1)
  {
    forall j: nat | j < |t| ensures SweptAt(w, j, t[j], inc[j], n + 1) {
      LineOfOthers(w, j, t[j], inc[j], n);
    }
  }

  lemma SlotOfLine(w: Outset, t: seq<Slot>, inc: seq<nat>, born: nat, kills: multiset<nat>, n: nat, k: nat)
    requires w.Valid() && Swept(w, t, inc, n) && n < |w.lines| && Inv(t, inc, born, kills)
    requires k < |t| && t[k].occupied && t[k].id == w.lines[n].id
    ensures SweptBut(w, t, inc, n + 1, k) && t[k].named && inc[k] == w.inc[k] && SameProcess(w.s[k], t[k])
    ensures forall j :: 0 <= j < |t| && t[j].occupied && t[j].id == w.lines[n].id ==> j == k
  {
    assert SweptAt(w, k, t[k], inc[k], n) && SlotOk(t[k], inc[k], born, kills);
    forall j: nat | j < |t| && j != k ensures SweptAt(w, j, t[j], inc[j], n + 1) {
      if t[j].occupied && t[j].id == w.lines[n].id {
        OneSlotEach(t, inc, born, kills, j, k);
      } else {
        LineOfOthers(w, j, t[j], inc[j], n);
      }
    }
    forall j: nat | j < |t| && t[j].occupied && t[j].id == w.lines[n].id ensures j == k {
      OneSlotEach(t, inc, born, kills, j, k);
    }
  }

  lemma AllSlots(w: Outset, t: seq<Slot>, inc: seq<nat>, n: nat, k: nat)
    requires SweptBut(w, t, inc, n, k) && k < |t| && SweptAt(w, k, t[k], inc[k], n)
    ensures Swept(w, t, inc, n)
  {
  }

  // ---- The slot the line is about ----------------------------------------------------------

  // Touched and marked the process of slot k is as the line asks.
  lemma KilledIsSwept(w: Outset, j: nat, y: Slot, m: nat, z: Slot, m': nat, b: nat, n: nat)
    requires w.Valid() && j < |w.s| && n < |w.lines| && w.born <= b && TouchedAt(w, j, y, m, n)
    requires !y.killed && Flagged(y, m, z, m', b)
    requires m' == m && z.living ==> z.killed && (z.warned <==> y.warned || w.change)
    ensures SweptAt(w, j, z, m', n + 1)
  {
    OneLineMore(w, w.s[j], n);
    assert SlotOk(w.s[j], w.inc[j], w.born, w.kills);
  }

  lemma LeftAloneIsSwept(w: Outset, j: nat, y: Slot, m: nat, n: nat)
    requires j < |w.s| == |w.inc| && n < |w.lines| && TouchedAt(w, j, y, m, n) && (y.living ==> y.killed)
    ensures SweptAt(w, j, y, m, n + 1)
  {
    OneLineMore(w, w.s[j], n);
  }

  // ---- The rescan --------------------------------------------------------------------------

  // A process no line stands for has been killed.
  lemma KilledIsDone(w: Outset, j: nat, y: Slot, m: nat, z: Slot, m': nat, b: nat)
    requires w.Valid() && j < |w.s| && w.born <= b && SweptAt(w, j, y, m, |w.lines|)
    requires y.living && y.occupied && y.named && !y.touched && Flagged(y, m, z, m', b)
    requires m' == m && z.living ==> z.killed && (z.warned <==> y.warned)
    ensures DoneAt(w, j, z, m') && m == w.inc[j] && w.s[j].living && w.GoesAway(w.s[j])
  {
    assert SlotOk(w.s[j], w.inc[j], w.born, w.kills);
    BannedIsNamed(w, w.s[j]);
  }

  lemma RestIsDone(w: Outset, j: nat, y: Slot, m: nat)
    requires j < |w.s| == |w.inc| && SweptAt(w, j, y, m, |w.lines|)
    requires y.living && y.named ==> y.touched || y.killed
    requires !y.living && y.named && y.occupied ==> y.touched
    ensures DoneAt(w, j, y, m)
  {
    BannedIsNamed(w, w.s[j]);
  }

  lemma FreedIsDone(w: Outset, j: nat, y: Slot, m: nat)
    requires j < |w.s| == |w.inc| && SweptAt(w, j, y, m, |w.lines|) && y.named && y.occupied && !y.living && !y.touched
    ensures DoneAt(w, j, y.Freed(), m)
  {
  }

  // Every living process with a name is then being killed, was asked for, or belongs here.
  lemma DoneIsSettled(w: Outset, t: seq<Slot>, inc: seq<nat>)
    requires w.Valid() && Done(w, t, inc)
    ensures Settled(t, w.lines, w.level)
  {
    forall j: nat | j < |t| ensures SlotSettled(t[j], w.lines, w.level) {
      assert DoneAt(w, j, t[j], inc[j]);
      var x, y := w.s[j], t[j];
      if y.living && y.named && !y.killed {
        var l :| 0 <= l < |w.lines| && w.lines[l].id == x.id;
        assert !MustGo(x, w.lines[l], w.level);
      }
    }
  }

  // ---- The last signal ---------------------------------------------------------------------

  // Warned and still alive
  predicate Lingers(x: Slot) {
    x.warned && x.living && x.occupied
  }

  // Every such process is in the set.
  ghost predicate AllStruck(t: seq<Slot>, inc: seq<nat>, struck: set<nat>) {
    |t| == |inc| && forall j :: 0 <= j < |t| && Lingers(t[j]) ==> inc[j] in struck
  }

  lemma MovesStayStruck(t: seq<Slot>, inc: seq<nat>, u: seq<Slot>, inc': seq<nat>, b: nat, k: nat, struck: set<nat>)
    requires AllStruck(t, inc, struck) && MovesBut(t, inc, u, inc', b, k)
    requires Lingers(u[k]) ==> inc'[k] in struck
    ensures AllStruck(u, inc', struck)
  {
    forall j | 0 <= j < |u| && Lingers(u[j]) ensures inc'[j] in struck {
      if j != k {
        assert Move(t[j], inc[j], u[j], inc'[j], b);
      }
    }
  }

  lemma FadesStayStruck(t: seq<Slot>, inc: seq<nat>, u: seq<Slot>, struck: set<nat>)
    requires AllStruck(t, inc, struck) && Fades(t, u)
    ensures AllStruck(u, inc, struck)
  {
    forall j | 0 <= j < |u| && Lingers(u[j]) ensures inc[j] in struck {
      assert Fade(t[j], u[j]);
    }
  }
}
