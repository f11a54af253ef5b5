// init.c: the process table, the lines of the inittab, and what init keeps true of them.
module ProcTable {
  import opened Throttle

  // ---- Levels and lines ------------------------------------------------------------------

  datatype Level = L0 | L1 | L2 | L3 | L4 | L5 | L6 | SingleUser | LA | LB | LC | LQ | Other(code: int)

  predicate IsDemand(l: Level) {
    l == LA || l == LB || l == LC
  }

  datatype Action = Off | Respawn | Once | Wait | Boot | BootWait | PowerFail | PowerWait | InitDefault | SysInit

  datatype Modes = BootModes | NormalModes | PfModes

  predicate InModes(a: Action, m: Modes) {
    match m
    case BootModes => a == Boot || a == BootWait
    case NormalModes => a == Off || a == Respawn || a == Once || a == Wait
    case PfModes => a == PowerFail || a == PowerWait
  }

  type Id = string

  // four NULs
  const NO_ID: Id := ""

  // The inittab gives every line a name.
  ghost predicate AllNamed(lines: seq<Line>) {
    forall l :: 0 <= l < |lines| ==> lines[l].id != NO_ID
  }

  datatype Line = Line(id: Id, levels: set<Level>, action: Action)

  // c_levels & mask(level); mask() is 0 for LVLQ and has all bits set for what is no level.
  predicate Admits(line: Line, level: Level) {
    match level
    case LQ => false
    case Other(_) => line.levels != {}
    case _ => level in line.levels
  }

  // The bit of MASK0 to MASKc
  function Bit(level: Level): nat {
    match level
    case L0 => 0
    case L1 => 1
    case L2 => 2
    case L3 => 3
    case L4 => 4
    case L5 => 5
    case L6 => 6
    case SingleUser => 7
    case LA => 8
    case LB => 9
    case LC => 10
    case _ => 11
  }

  // The bits of mask(level)
  predicate InMask(level: Level, bit: nat) {
    bit < 16 && level != LQ && (level.Other? || bit == Bit(level))
  }

  // The bits that the levels of a line set in c_levels
  predicate InLevels(levels: set<Level>, bit: nat) {
    exists l :: l in levels && InMask(l, bit)
  }

  // For a line with levels an inittab can name, Admits() tests whether the two masks meet.
  lemma AdmitsIsMask(line: Line, level: Level)
    requires forall l :: l in line.levels ==> l != LQ && !l.Other?
    ensures Admits(line, level) <==> exists bit: nat :: InMask(level, bit) && InLevels(line.levels, bit)
  {
    if level.Other? && line.levels != {} {
      var l :| l in line.levels;
      assert InMask(l, Bit(l)) && InMask(level, Bit(l));
    } else if level in line.levels {
      assert InMask(level, Bit(level));
    }
  }

  // ---- The table -------------------------------------------------------------------------

  datatype Slot = Slot(id: Id, pid: int, series: Series, exit: int,
                       occupied: bool, living: bool, nocleanup: bool, named: bool,
                       demand: bool, touched: bool, warned: bool, killed: bool)
  {
    // p_flags == 0
    predicate Idle() {
      !occupied && !living && !nocleanup && !named && !demand && !touched && !warned && !killed
    }

    // p_flags = 0
    function Freed(): Slot {
      Slot(id, pid, series, exit, false, false, false, false, false, false, false, false)
    }
  }

  const ZEROED := Slot(NO_ID, 0, CLEARED, 0, false, false, false, false, false, false, false, false)

  // How the rest of the world changes a slot: its process may die, and a signal clears the
  // times.
  predicate Dim(x: Slot, y: Slot) {
    && y == x.(living := y.living, exit := y.exit, series := y.series) && (y.living ==> x.living)
    && (x.occupied || y.exit == x.exit) && (y.series == x.series || y.series == CLEARED)
  }

  ghost predicate Dims(s: seq<Slot>, t: seq<Slot>) {
    |t| == |s| && forall k :: 0 <= k < |s| ==> Dim(s[k], t[k])
  }

  // Besides, init may free the slot.
  predicate Fade(x: Slot, y: Slot) {
    (y.Idle() || Dim(x, y)) && (y.series == x.series || y.series == CLEARED)
  }

  ghost predicate Fades(s: seq<Slot>, t: seq<Slot>) {
    |t| == |s| && forall k :: 0 <= k < |s| ==> Fade(s[k], t[k])
  }

  // Only the times changed.
  predicate SameLife(x: Slot, y: Slot) {
    y == x.(series := y.series)
  }

  ghost predicate SameLives(s: seq<Slot>, t: seq<Slot>) {
    |t| == |s| && forall k :: 0 <= k < |s| ==> SameLife(s[k], t[k])
  }

  lemma SameLivesCompose(s: seq<Slot>, t: seq<Slot>, u: seq<Slot>)
    requires SameLives(s, t) && SameLives(t, u)
    ensures SameLives(s, u)
  {
    forall k | 0 <= k < |s| ensures SameLife(s[k], u[k]) {
      assert SameLife(s[k], t[k]) && SameLife(t[k], u[k]);
    }
  }

  // The slot of process pid
  predicate Owned(x: Slot, pid: int) {
    x.occupied && x.pid == pid
  }

  ghost predicate NoOwner(s: seq<Slot>, pid: int) {
    forall k: nat :: k < |s| ==> !Owned(s[k], pid)
  }

  ghost predicate FirstOwner(s: seq<Slot>, pid: int, k: nat) {
    k < |s| && Owned(s[k], pid) && forall j: nat :: j < k ==> !Owned(s[j], pid)
  }

  // The first slot of the process, if there is one, tells of its death, and no other.
  ghost predicate Reaped(s: seq<Slot>, t: seq<Slot>, pid: int, status: int) {
    && (NoOwner(s, pid) ==> t == s)
    && (forall k: nat :: FirstOwner(s, pid, k) ==> t == s[k := s[k].(living := false, exit := status)])
  }

  // The table once the first slot of the process, from slot k on, tells of its death
  function AfterDeath(s: seq<Slot>, pid: int, status: int, k: nat): seq<Slot>
    requires k <= |s|
    decreases |s| - k
  {
    if k == |s| then s
    else if Owned(s[k], pid) then s[k := s[k].(living := false, exit := status)]
    else AfterDeath(s, pid, status, k + 1)
  }

  lemma {:induction false} AfterDeathAt(s: seq<Slot>, pid: int, status: int, k: nat, j: nat)
    requires k <= |s| && j < |s| && forall i: nat :: i < k ==> !Owned(s[i], pid)
    ensures |AfterDeath(s, pid, status, k)| == |s|
    ensures AfterDeath(s, pid, status, k)[j]
            == if FirstOwner(s, pid, j) then s[j].(living := false, exit := status) else s[j]
    decreases |s| - k
  {
    if k < |s| && !Owned(s[k], pid) {
      AfterDeathAt(s, pid, status, k + 1, j);
    } else if k < |s| && j != k {
      assert Owned(s[k], pid);
    }
  }

  function TimesCleared(s: seq<Slot>): seq<Slot> {
    seq(|s|, k requires 0 <= k < |s| => s[k].(series := CLEARED))
  }

  lemma DimsCompose(s: seq<Slot>, t: seq<Slot>, u: seq<Slot>)
    requires Dims(s, t) && Dims(t, u)
    ensures Dims(s, u)
  {
    forall k | 0 <= k < |s| ensures Dim(s[k], u[k]) {
      assert Dim(s[k], t[k]) && Dim(t[k], u[k]);
    }
  }

  lemma DimsFade(s: seq<Slot>, t: seq<Slot>)
    requires Dims(s, t)
    ensures Fades(s, t)
  {
    forall k | 0 <= k < |s| ensures Fade(s[k], t[k]) {
      assert Dim(s[k], t[k]);
    }
  }

  lemma FadesCompose(s: seq<Slot>, t: seq<Slot>, u: seq<Slot>)
    requires Fades(s, t) && Fades(t, u)
    ensures Fades(s, u)
  {
    forall k | 0 <= k < |s| ensures Fade(s[k], u[k]) {
      assert Fade(s[k], t[k]) && Fade(t[k], u[k]);
    }
  }

  // A slot that efork() filled without a name, or that is free.
  predicate Nameless(y: Slot) {
    y.Idle() || (y.id == NO_ID && y.occupied && !y.named && !y.warned && !y.killed)
  }

  // Slots fade or come to hold a nameless process born at b or later.
  ghost predicate Moves(s: seq<Slot>, inc: seq<nat>, t: seq<Slot>, inc': seq<nat>, b: nat) {
    && |t| == |s| == |inc| == |inc'|
    && forall k :: 0 <= k < |s| ==> Move(s[k], inc[k], t[k], inc'[k], b)
  }

  predicate Move(x: Slot, n: nat, y: Slot, n': nat, b: nat) {
    (Fade(x, y) && n' == n && (Held(x) ==> y.occupied)) || (Nameless(y) && n' >= b && !Held(x))
  }

  // A slot that efork() leaves alone
  predicate Held(x: Slot) {
    x.occupied && x.nocleanup
  }

  // The same, but any slot may have been freed.
  ghost predicate Drifts(s: seq<Slot>, inc: seq<nat>, t: seq<Slot>, inc': seq<nat>, b: nat) {
    && |t| == |s| == |inc| == |inc'|
    && forall k :: 0 <= k < |s| ==> Drift(s[k], inc[k], t[k], inc'[k], b)
  }

  predicate Drift(x: Slot, n: nat, y: Slot, n': nat, b: nat) {
    (Fade(x, y) && n' == n) || (Nameless(y) && n' >= b)
  }

  // No living process is disturbed.
  ghost predicate Spared(s: seq<Slot>, t: seq<Slot>) {
    |t| == |s| && forall k :: 0 <= k < |s| && s[k].living ==> t[k] == s[k]
  }

  // A process just forked, before it has a name
  predicate NewBorn(y: Slot, nocleanup: bool, named: bool, demand: bool) {
    && y.id == NO_ID && y.exit == 0 && y.occupied && y.living && !y.touched && !y.warned && !y.killed
    && y.nocleanup == nocleanup && y.named == named && y.demand == demand
  }

  // All slots but k fade.
  ghost predicate FadesBut(s: seq<Slot>, t: seq<Slot>, k: nat) {
    |t| == |s| && forall j :: 0 <= j < |s| && j != k ==> Fade(s[j], t[j])
  }

  // Slot k got a new process, the others fade.
  ghost predicate Forked(s: seq<Slot>, inc: seq<nat>, t: seq<Slot>, inc': seq<nat>, k: nat, b: nat) {
    && |t| == |s| == |inc| == |inc'| && k < |s| && inc' == inc[k := inc'[k]] && inc'[k] >= b
    && FadesBut(s, t, k)
  }

  lemma DimsFadeBut(s: seq<Slot>, t: seq<Slot>, u: seq<Slot>, k: nat)
    requires FadesBut(s, t, k) && Dims(t, u)
    ensures FadesBut(s, u, k)
  {
    forall j | 0 <= j < |s| && j != k ensures Fade(s[j], u[j]) {
      assert Fade(s[j], t[j]) && Dim(t[j], u[j]);
    }
  }

  // What was in slot k before does not matter.
  lemma FadesButSlot(s: seq<Slot>, x: Slot, t: seq<Slot>, k: nat)
    requires k < |s| && FadesBut(s[k := x], t, k)
    ensures FadesBut(s, t, k) && (SparedBut(s[k := x], t, k) ==> SparedBut(s, t, k))
  {
    var r := s[k := x];
    forall j | 0 <= j < |s| && j != k ensures Fade(s[j], t[j]) {
      assert Fade(r[j], t[j]);
    }
    forall j | 0 <= j < |s| && j != k && s[j].living && SparedBut(r, t, k) ensures t[j] == s[j] {
      assert r[j].living;
    }
  }

  ghost predicate SparedBut(s: seq<Slot>, t: seq<Slot>, k: nat) {
    |t| == |s| && forall j :: 0 <= j < |s| && j != k && s[j].living ==> t[j] == s[j]
  }

  // A slot efork() can fill: free, or freed by its clean-up.
  predicate Usable(x: Slot) {
    x.Idle() || (x.occupied && !x.living && !x.nocleanup)
  }

  ghost predicate HasRoom(s: seq<Slot>) {
    exists k :: 0 <= k < |s| && Usable(s[k])
  }

  // Just the usable slots are free.
  ghost predicate Cleaned(s: seq<Slot>, t: seq<Slot>) {
    |t| == |s| && forall k :: 0 <= k < |s| ==> CleanedSlot(s[k], t[k])
  }

  predicate CleanedSlot(x: Slot, y: Slot) {
    y.Idle() <==> Usable(x)
  }

  // So are all but slot k.
  ghost predicate CleanedBut(s: seq<Slot>, t: seq<Slot>, k: int) {
    |t| == |s| && forall j :: 0 <= j < |s| && j != k ==> CleanedSlot(s[j], t[j])
  }

  lemma DimsStayCleaned(s: seq<Slot>, t: seq<Slot>, u: seq<Slot>, inc: seq<nat>, born: nat, kills: multiset<nat>)
    requires Cleaned(s, t) && Dims(t, u) && Inv(t, inc, born, kills)
    ensures Cleaned(s, u)
  {
    forall k | 0 <= k < |s| ensures CleanedSlot(s[k], u[k]) {
      assert CleanedSlot(s[k], t[k]) && Dim(t[k], u[k]) && SlotOk(t[k], inc[k], born, kills);
    }
  }

  lemma SameLivesSameRoom(s: seq<Slot>, t: seq<Slot>)
    requires SameLives(s, t)
    ensures HasRoom(s) <==> HasRoom(t)
  {
    forall k | 0 <= k < |s| ensures Usable(s[k]) <==> Usable(t[k]) {
      assert SameLife(s[k], t[k]);
    }
  }

  // ---- The invariant of the table ---------------------------------------------------------

  // inc[k] numbers the process in slot k among all init has forked; kills has the number of
  // every process remove() has set out to kill, as often as it did.
  predicate Clash(s: seq<Slot>, inc: seq<nat>, j: nat, k: nat)
    requires j < |s| == |inc| && k < |s|
  {
    && s[j].occupied && s[k].occupied
    && (inc[j] == inc[k] || (s[j].id == s[k].id && s[j].id != NO_ID))
  }

  predicate SlotOk(x: Slot, n: nat, born: nat, kills: multiset<nat>) {
    && n < born
    && (x.living ==> x.occupied)
    && (x.occupied && x.id != NO_ID ==> x.named)
    && (x.occupied && n in kills ==> x.killed)
  }

  ghost predicate Inv(s: seq<Slot>, inc: seq<nat>, born: nat, kills: multiset<nat>) {
    && |inc| == |s|
    && (forall k :: 0 <= k < |s| ==> SlotOk(s[k], inc[k], born, kills))
    && (forall j: nat, k: nat :: j < k < |s| ==> !Clash(s, inc, j, k))
    && (forall n :: n in kills ==> n < born && kills[n] == 1)
  }

  // At most one slot has a given name.
  lemma OneSlotEach(s: seq<Slot>, inc: seq<nat>, born: nat, kills: multiset<nat>, j: nat, k: nat)
    requires Inv(s, inc, born, kills) && j < |s| && k < |s|
    requires s[j].occupied && s[k].occupied
    requires inc[j] == inc[k] || (s[j].id == s[k].id && s[j].id != NO_ID)
    ensures j == k
  {
    if j < k {
      assert Clash(s, inc, j, k);
    } else if k < j {
      assert Clash(s, inc, k, j);
    }
  }

  lemma FadesKeepInv(s: seq<Slot>, inc: seq<nat>, t: seq<Slot>, born: nat, kills: multiset<nat>)
    requires Inv(s, inc, born, kills) && Fades(s, t)
    ensures Inv(t, inc, born, kills)
  {
    forall j: nat, k: nat | j < k < |t| ensures !Clash(t, inc, j, k) {
      assert Fade(s[j], t[j]) && Fade(s[k], t[k]);
      assert !Clash(s, inc, j, k);
    }
    forall k | 0 <= k < |t| ensures SlotOk(t[k], inc[k], born, kills) {
      assert Fade(s[k], t[k]) && SlotOk(s[k], inc[k], born, kills);
    }
  }

  // A new process takes slot k.
  lemma BirthKeepsInv(s: seq<Slot>, inc: seq<nat>, born: nat, kills: multiset<nat>, k: nat, y: Slot)
    requires Inv(s, inc, born, kills) && k < |s|
    requires y.occupied && y.id == NO_ID
    ensures Inv(s[k := y], inc[k := born], born + 1, kills)
  {
    var t, inc' := s[k := y], inc[k := born];
    forall i: nat, j: nat | i < j < |t| ensures !Clash(t, inc', i, j) {
      assert !Clash(s, inc, i, j);
      assert SlotOk(s[i], inc[i], born, kills) && SlotOk(s[j], inc[j], born, kills);
    }
    forall j | 0 <= j < |t| ensures SlotOk(t[j], inc'[j], born + 1, kills) {
      assert SlotOk(s[j], inc[j], born, kills);
    }
  }

  // The parent names the process in slot k, no other having that name.
  lemma NamingKeepsInv(s: seq<Slot>, inc: seq<nat>, born: nat, kills: multiset<nat>, k: nat, id: Id)
    requires Inv(s, inc, born, kills) && k < |s| && (s[k].occupied ==> s[k].named)
    requires forall j :: 0 <= j < |s| && s[j].occupied && s[j].id == id ==> j == k
    ensures Inv(s[k := s[k].(id := id)], inc, born, kills)
  {
    var t := s[k := s[k].(id := id)];
    forall i: nat, j: nat | i < j < |t| ensures !Clash(t, inc, i, j) {
      assert !Clash(s, inc, i, j);
    }
    forall j | 0 <= j < |t| ensures SlotOk(t[j], inc[j], born, kills) {
      assert SlotOk(s[j], inc[j], born, kills);
    }
  }

  // A flag that no part of the invariant forbids is set or cleared in slot k.
  lemma FlagKeepsInv(s: seq<Slot>, inc: seq<nat>, born: nat, kills: multiset<nat>, k: nat, y: Slot)
    requires Inv(s, inc, born, kills) && k < |s|
    requires y == s[k].(touched := y.touched, warned := y.warned, killed := y.killed, series := y.series)
    requires s[k].killed ==> y.killed
    ensures Inv(s[k := y], inc, born, kills)
  {
    var t := s[k := y];
    forall i: nat, j: nat | i < j < |t| ensures !Clash(t, inc, i, j) {
      assert !Clash(s, inc, i, j);
    }
    forall j | 0 <= j < |t| ensures SlotOk(t[j], inc[j], born, kills) {
      assert SlotOk(s[j], inc[j], born, kills);
    }
  }

  // Process n, which was in slot k, has been sent its signals; by now the slot may hold
  // another process.
  lemma KillKeepsInv(s: seq<Slot>, inc: seq<nat>, born: nat, kills: multiset<nat>, k: nat, n: nat)
    requires Inv(s, inc, born, kills) && k < |s| && n < born && n !in kills
    requires forall j :: 0 <= j < |s| && s[j].occupied && inc[j] == n ==> j == k
    ensures Inv(s[k := s[k].(killed := true)], inc, born, kills + multiset{n})
  {
    var t := s[k := s[k].(killed := true)];
    forall i: nat, j: nat | i < j < |t| ensures !Clash(t, inc, i, j) {
      assert !Clash(s, inc, i, j);
    }
    forall j | 0 <= j < |t| ensures SlotOk(t[j], inc[j], born, kills + multiset{n}) {
      assert SlotOk(s[j], inc[j], born, kills);
    }
  }

  // ---- What init is after -----------------------------------------------------------------

  // A line lets the process with this name live at the level.
  ghost predicate Listed(lines: seq<Line>, id: Id, level: Level) {
    exists l :: 0 <= l < |lines| && lines[l].id == id && lines[l].action != Off && Admits(lines[l], level)
  }

  ghost predicate SlotSettled(x: Slot, lines: seq<Line>, level: Level) {
    x.living && x.named ==> x.killed || x.demand || Listed(lines, x.id, level)
  }

  // Every living process with a name is being killed, was asked for by a telinit a, b or c,
  // or belongs here.
  ghost predicate Settled(s: seq<Slot>, lines: seq<Line>, level: Level) {
    forall k :: 0 <= k < |s| ==> SlotSettled(s[k], lines, level)
  }

  ghost predicate Serves(s: seq<Slot>, id: Id) {
    exists k :: 0 <= k < |s| && s[k].living && s[k].named && s[k].id == id
  }

  // A dead process that a telinit a, b or c asked for is started again in any level.
  predicate Demanded(x: Slot, line: Line, modes: Modes) {
    && x.demand && !x.living && (LA in line.levels || LB in line.levels || LC in line.levels)
    && line.action == Respawn && modes == NormalModes
  }

  // spawn() waits for the end of a process with this action.
  predicate Waits(a: Action) {
    !(a == Once || a == Respawn || a == PowerFail || a == Boot)
  }

  // A line whose process init has to keep alive.
  predicate Wanted(line: Line, level: Level) {
    line.action == Respawn && Admits(line, level)
  }

  // Every such process is alive, or respawn() refused to start it, or there was no slot.
  ghost predicate AllServed(s: seq<Slot>, lines: seq<Line>, n: nat, level: Level, refused: set<Id>)
    requires n <= |lines|
  {
    forall l :: 0 <= l < n && Wanted(lines[l], level) ==> Serves(s, lines[l].id) || lines[l].id in refused
  }

  lemma SparedServes(s: seq<Slot>, t: seq<Slot>, id: Id)
    requires Spared(s, t) && Serves(s, id)
    ensures Serves(t, id)
  {
    var k :| 0 <= k < |s| && s[k].living && s[k].named && s[k].id == id;
    assert t[k] == s[k];
  }

  lemma MovesCompose(s: seq<Slot>, i: seq<nat>, t: seq<Slot>, i': seq<nat>, u: seq<Slot>, i'': seq<nat>, b: nat, c: nat)
    requires Moves(s, i, t, i', b) && Moves(t, i', u, i'', c) && b <= c
    ensures Moves(s, i, u, i'', b)
  {
    forall k | 0 <= k < |s| ensures Move(s[k], i[k], u[k], i''[k], b) {
      assert Move(s[k], i[k], t[k], i'[k], b) && Move(t[k], i'[k], u[k], i''[k], c);
    }
  }

  lemma DimsMove(s: seq<Slot>, i: seq<nat>, t: seq<Slot>, i': seq<nat>, u: seq<Slot>, b: nat)
    requires Moves(s, i, t, i', b) && Dims(t, u)
    ensures Moves(s, i, u, i', b)
  {
    forall k | 0 <= k < |s| ensures Move(s[k], i[k], u[k], i'[k], b) {
      assert Move(s[k], i[k], t[k], i'[k], b) && Dim(t[k], u[k]);
    }
  }

  lemma FadesDrift(s: seq<Slot>, i: seq<nat>, t: seq<Slot>, i': seq<nat>, u: seq<Slot>, b: nat)
    requires Moves(s, i, t, i', b) && Fades(t, u)
    ensures Drifts(s, i, u, i', b)
  {
    forall k | 0 <= k < |s| ensures Drift(s[k], i[k], u[k], i'[k], b) {
      assert Move(s[k], i[k], t[k], i'[k], b) && Fade(t[k], u[k]);
    }
  }

  lemma MovesDrift(s: seq<Slot>, i: seq<nat>, t: seq<Slot>, i': seq<nat>, b: nat)
    requires Moves(s, i, t, i', b)
    ensures Drifts(s, i, t, i', b)
  {
    forall k | 0 <= k < |s| ensures Drift(s[k], i[k], t[k], i'[k], b) {
      assert Move(s[k], i[k], t[k], i'[k], b);
    }
  }

  // Slots fade or come to hold a nameless process born at b or later, while in slot k flags
  // are set besides.
  ghost predicate MovesBut(s: seq<Slot>, inc: seq<nat>, t: seq<Slot>, inc': seq<nat>, b: nat, k: nat) {
    && |t| == |s| == |inc| == |inc'| && k < |s| && Flagged(s[k], inc[k], t[k], inc'[k], b)
    && forall j :: 0 <= j < |s| && j != k ==> Move(s[j], inc[j], t[j], inc'[j], b)
  }

  predicate Flagged(x: Slot, n: nat, y: Slot, n': nat, b: nat) {
    (Held(x) ==> n' == n && y.occupied)
    && if n' != n then n' >= b && !y.named && !y.warned
    else
      || (!y.occupied && !y.living && !y.named)
      || (y == x.(living := y.living, exit := y.exit, series := y.series, warned := y.warned, killed := y.killed)
          && (y.living ==> x.living))
  }

  lemma MovesAreMovesBut(s: seq<Slot>, inc: seq<nat>, t: seq<Slot>, inc': seq<nat>, b: nat, k: nat)
    requires Moves(s, inc, t, inc', b) && k < |s| && inc[k] < b
    ensures MovesBut(s, inc, t, inc', b, k)
  {
    assert Move(s[k], inc[k], t[k], inc'[k], b);
    forall j | 0 <= j < |s| && j != k ensures Move(s[j], inc[j], t[j], inc'[j], b) {
    }
  }

  // The killed flag does not matter.
  lemma FlagMovesBut(s: seq<Slot>, inc: seq<nat>, t: seq<Slot>, inc': seq<nat>, b: nat, k: nat, y: Slot)
    requires MovesBut(s, inc, t, inc', b, k) && y == t[k].(killed := y.killed)
    ensures MovesBut(s, inc, t[k := y], inc', b, k)
  {
    forall j | 0 <= j < |s| && j != k ensures Move(s[j], inc[j], t[k := y][j], inc'[j], b) {
    }
  }

  lemma DimsMoveBut(s: seq<Slot>, i: seq<nat>, t: seq<Slot>, i': seq<nat>, u: seq<Slot>, b: nat, k: nat)
    requires MovesBut(s, i, t, i', b, k) && Dims(t, u)
    ensures MovesBut(s, i, u, i', b, k)
  {
    assert Dim(t[k], u[k]);
    forall j | 0 <= j < |s| && j != k ensures Move(s[j], i[j], u[j], i'[j], b) {
      assert Move(s[j], i[j], t[j], i'[j], b) && Dim(t[j], u[j]);
    }
  }

  // ---- remove() ---------------------------------------------------------------------------

  // Process n, found in slot e before, is nowhere else.
  lemma WhereItWas(s: seq<Slot>, inc: seq<nat>, t: seq<Slot>, inc': seq<nat>, born: nat, kills: multiset<nat>, e: nat)
    requires Inv(s, inc, born, kills) && MovesBut(s, inc, t, inc', born, e) && s[e].occupied
    ensures forall j :: 0 <= j < |t| && t[j].occupied && inc'[j] == inc[e] ==> j == e
  {
    forall j | 0 <= j < |t| && t[j].occupied && inc'[j] == inc[e] ensures j == e {
      if j != e {
        assert Move(s[j], inc[j], t[j], inc'[j], born) && SlotOk(s[e], inc[e], born, kills);
        OneSlotEach(s, inc, born, kills, j, e);
      }
    }
  }

  // Does the process with the name of a line have to go?
  predicate MustGo(x: Slot, line: Line, level: Level) {
    level == SingleUser || line.action == Off || (!Admits(line, level) && !x.demand)
  }

  // A process that has to go was set out to be killed if it was alive and this was not done
  // before; if it is alive still, it is touched and marked.
  predicate Condemned(x: Slot, n: nat, y: Slot, n': nat, kills: multiset<nat>, kills': multiset<nat>) {
    && (kills' == kills || (kills' == kills + multiset{n} && x.living && !x.killed))
    && (n' == n && y.living ==> y.touched && y.killed)
  }

  // Dead and not to be kept
  predicate Discarded(x: Slot) {
    x.occupied && x.named && !x.living && !x.touched
  }

  // What was dead and untouched in s when the pass began, with b the next process to be born,
  // is gone from the first k slots.
  ghost predicate Buried(s: seq<Slot>, inc: seq<nat>, t: seq<Slot>, inc': seq<nat>, b: nat, k: nat) {
    && |t| == |s| == |inc| == |inc'|
    && forall j :: 0 <= j < |s| && Discarded(s[j]) ==> Gone(inc[j], t[j], inc'[j], b, j >= k)
  }

  // The slot is free or has a later process, or else, if that is allowed, is as it was.
  predicate Gone(n: nat, y: Slot, n': nat, b: nat, yet: bool) {
    y.Idle() || n' >= b || (yet && n' == n && Discarded(y))
  }

  lemma DimsStayBuried(s: seq<Slot>, inc: seq<nat>, t: seq<Slot>, i: seq<nat>, u: seq<Slot>, b: nat, k: nat)
    requires Buried(s, inc, t, i, b, k) && Dims(t, u)
    ensures Buried(s, inc, u, i, b, k)
  {
    forall j | 0 <= j < |s| && Discarded(s[j]) ensures Gone(inc[j], u[j], i[j], b, j >= k) {
      assert Gone(inc[j], t[j], i[j], b, j >= k) && Dim(t[j], u[j]);
    }
  }

  // Slot k, which a living process had, was marked.
  lemma KillStaysBuried(s: seq<Slot>, inc: seq<nat>, t: seq<Slot>, i: seq<nat>, u: seq<Slot>, inc': seq<nat>,
                        b: nat, c: nat, k: nat)
    requires Buried(s, inc, t, i, b, k) && MovesBut(t, i, u, inc', c, k) && b <= c && t[k].living
    ensures Buried(s, inc, u, inc', b, k + 1)
  {
    forall j | 0 <= j < |s| && Discarded(s[j]) ensures Gone(inc[j], u[j], inc'[j], b, j >= k + 1) {
      assert Gone(inc[j], t[j], i[j], b, j >= k);
      assert j != k ==> Move(t[j], i[j], u[j], inc'[j], c);
    }
  }

  // How often a kill sequence was started: once, unless the table was full.
  ghost predicate SequencesOk(sequences: multiset<nat>, kills: multiset<nat>, crowded: set<nat>) {
    forall n :: n in sequences ==> n in kills && (n in crowded || sequences[n] == 1)
  }

  // ---- spawn() ----------------------------------------------------------------------------

  // A slot that fades once the throttle has counted
  predicate Pale(x: Slot, y: Slot) {
    Fade(x.(series := y.series), y)
  }

  lemma FadePale(x: Slot, series: Series, y: Slot)
    requires Fade(x.(series := series), y)
    ensures Pale(x, y)
  {
  }

  // findpslot() has passed the first i slots without finding the name; the first free one of
  // them, if any, is zeroed.
  ghost predicate Searched(s: seq<Slot>, id: Id, i: nat, empty: int) {
    && i <= |s| && -1 <= empty < |s| && (forall j :: 0 <= j < i && s[j].occupied ==> s[j].id != id)
    && if empty == -1 then forall j :: 0 <= j < i ==> s[j].occupied else s[empty] == ZEROED
  }

  lemma DimsStaySearched(s: seq<Slot>, t: seq<Slot>, id: Id, i: nat, empty: int)
    requires Searched(s, id, i, empty) && Dims(s, t)
    ensures Searched(t, id, i, empty)
  {
    forall j | 0 <= j < i ensures t[j].occupied == s[j].occupied && t[j].id == s[j].id {
      assert Dim(s[j], t[j]);
    }
    if empty != -1 {
      assert Dim(s[empty], t[empty]);
    }
  }

  // The others fade, and slot k fades or holds a process that may live.
  lemma LaunchStaysSettled(s: seq<Slot>, t: seq<Slot>, k: nat, lines: seq<Line>, level: Level)
    requires Settled(s, lines, level) && k < |s| && FadesBut(s, t, k)
    requires Pale(s[k], t[k]) || t[k].demand || Listed(lines, t[k].id, level)
    ensures Settled(t, lines, level)
  {
    forall j | 0 <= j < |t| ensures SlotSettled(t[j], lines, level) {
      assert SlotSettled(s[j], lines, level);
      assert j != k ==> Fade(s[j], t[j]);
    }
  }

  lemma FadesStaySettled(s: seq<Slot>, t: seq<Slot>, lines: seq<Line>, level: Level)
    requires Settled(s, lines, level) && Fades(s, t)
    ensures Settled(t, lines, level)
  {
    forall j | 0 <= j < |t| ensures SlotSettled(t[j], lines, level) {
      assert SlotSettled(s[j], lines, level) && Fade(s[j], t[j]);
    }
  }

  // More lines allow more.
  lemma SettledMore(s: seq<Slot>, lines: seq<Line>, more: seq<Line>, level: Level)
    requires Settled(s, lines, level)
    ensures Settled(s, lines + more, level)
  {
    forall k | 0 <= k < |s| ensures SlotSettled(s[k], lines + more, level) {
      assert SlotSettled(s[k], lines, level);
      if Listed(lines, s[k].id, level) {
        var l :| 0 <= l < |lines| && lines[l].id == s[k].id && lines[l].action != Off && Admits(lines[l], level);
        assert (lines + more)[l] == lines[l];
      }
    }
  }

  // A process without a name needs no line.
  lemma DriftsStaySettled(s: seq<Slot>, inc: seq<nat>, t: seq<Slot>, inc': seq<nat>, b: nat, lines: seq<Line>,
                          level: Level)
    requires Settled(s, lines, level) && Drifts(s, inc, t, inc', b)
    ensures Settled(t, lines, level)
  {
    forall k | 0 <= k < |t| ensures SlotSettled(t[k], lines, level) {
      assert SlotSettled(s[k], lines, level) && Drift(s[k], inc[k], t[k], inc'[k], b);
    }
  }

  lemma SparedButCompose(s: seq<Slot>, t: seq<Slot>, u: seq<Slot>, k: nat)
    requires |t| == |s| == |u|
    ensures SparedBut(s, t, k) && SparedBut(t, u, k) ==> SparedBut(s, u, k)
  {
  }

  lemma StillServed(s: seq<Slot>, t: seq<Slot>, lines: seq<Line>, n: nat, level: Level, r: set<Id>, r': set<Id>)
    requires n < |lines| && AllServed(s, lines, n, level, r) && Spared(s, t) && r <= r'
    requires Wanted(lines[n], level) ==> Serves(t, lines[n].id) || lines[n].id in r'
    ensures AllServed(t, lines, n + 1, level, r')
  {
    forall l | 0 <= l < n && Wanted(lines[l], level) ensures Serves(t, lines[l].id) || lines[l].id in r' {
      if Serves(s, lines[l].id) {
        SparedServes(s, t, lines[l].id);
      }
    }
  }

  // ---- The levels -------------------------------------------------------------------------

  // cur_state, prev_state and prior_state
  datatype Levels = Levels(cur: Level, prev: Level, prior: Level)

  // A signal asks for another level.
  function Asked(l: Levels, level: Level): Levels {
    if level == l.cur then l
    else if IsDemand(level) then Levels(level, l.prior, l.cur)
    else Levels(level, l.cur, l.cur)
  }

  // The same where the level is read three times and signals arrive in between: it was asked
  // at the first test, sorted when init looked whether it is one of a, b and c, and taken then.
  function Changed(l: Levels, asked: Level, sorted: Level, taken: Level): Levels {
    if asked == l.cur then l
    else if IsDemand(sorted) then Levels(taken, l.prior, l.cur)
    else Levels(taken, l.cur, l.cur)
  }

  // The level before a telinit a, b or c is taken up again.
  function Resumed(l: Levels): Levels {
    Levels(l.prior, l.prior, l.prev)
  }

  // Asking for a, b or c and resuming changes nothing.
  lemma DemandComesBack(l: Levels, level: Level)
    requires IsDemand(level) && !IsDemand(l.cur) && l.prev == l.cur
    ensures Resumed(Asked(l, level)) == l
  {
  }
}
