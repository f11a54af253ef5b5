// init.c: one round of the main loop as a whole.
module Rounds {
  import opened ProcTable
  import opened Events
  import opened Sweep
  import opened Scan

  // How far a round got: it was begun, remove() or its omission was over, spawn(), single(), or
  // all of it
  datatype Stage = Begun | Removed | Spawned | Levelled | Ended {
    function Rank(): nat {
      match this
      case Begun => 0
      case Removed => 1
      case Spawned => 2
      case Levelled => 3
      case Ended => 4
    }
  }

  // A round: the inittab, the modes, levels and table it began with; how remove() began, and the table
  // and the numbers it left; the scan of spawn() and the names it could not serve; the levels after
  // single(); whether the power had failed; the level asked for at the end of the sleep and what
  // arrived between its readings; the levels and modes at the end; and how far it got.
  datatype Round = Round(tab: Inittab, modes: Modes, levels: Levels, before: seq<Slot>, outset: Outset,
                         swept: seq<Slot>, inc: seq<nat>, scan: Scan, refused: set<Id>, left: Levels, hit: bool,
                         asked: Level, b: seq<seq<Event>>, end: Levels, endModes: Modes, stage: Stage)
  {
    // The processes that do not belong are killed, but not in the course of a power failure or of
    // a telinit a, b or c.
    ghost predicate RemovedOk() {
      if modes == NormalModes && !IsDemand(levels.cur) then
        && outset.s == before && outset.lines == tab.swept && outset.level == levels.cur
        && outset.change == (levels.cur != levels.prev) && outset.Valid() && Done(outset, swept, inc)
      else swept == before
    }

    ghost predicate SpawnedOk() {
      && scan.Ok() && scan.lines == tab.spawned && scan.cur == levels.cur && scan.prev == levels.prev
      && scan.before == swept && (scan.modes == modes || scan.modes == PfModes) && scan.Refuses(refused)
    }

    predicate LeftOk() {
      left == if levels.cur == SingleUser then Levels(left.cur, SingleUser, SingleUser) else levels
    }

    ghost predicate EndedOk() {
      if levels.cur == SingleUser && left.cur != SingleUser && !IsDemand(left.cur)
      then end == left && endModes == scan.modes
      else GoesOn(left, scan.modes, hit, asked, b, end, endModes)
    }

    ghost predicate Ok() {
      && (stage.Rank() >= 1 ==> RemovedOk()) && (stage.Rank() >= 2 ==> SpawnedOk())
      && (stage.Rank() >= 3 ==> LeftOk()) && (stage.Rank() >= 4 ==> EndedOk())
    }
  }

  // The nap was taken in the round: at the level it had come to, with just those lines refused that
  // the scan could not serve, and stray only if single() came back to itself.
  ghost predicate NapFits(nap: Nap, r: Round) {
    && r.stage.Rank() >= 3 && nap.tab == r.tab && nap.level == r.left.cur && nap.refused == r.refused
    && (nap.stray ==> r.levels.cur == SingleUser == r.left.cur)
  }

  // How the levels and modes go on after spawn(): through powerfail modes to normal ones, back
  // from a demand level, or else, after a sleep, to what a signal asked for.
  ghost predicate GoesOn(l: Levels, modes: Modes, hit: bool, asked: Level, b: seq<seq<Event>>, l': Levels,
                         modes': Modes) {
    |b| == 3
    && if hit then modes' == PfModes && l' == Levels(l.cur, Other(0), l.prior)
       else if modes != NormalModes then
         modes' == NormalModes && l' == Levels(l.cur, if modes == PfModes then l.cur else l.prev, l.prior)
       else if IsDemand(l.cur) then modes' == NormalModes && l' == Resumed(l)
       else modes' != BootModes && l' == Taken(Levels(l.cur, l.cur, l.prior), asked, b[0], b[1])
  }

  // The round with its scan
  ghost function ScanOf(r: Round, scan: Scan, refused: set<Id>): (e: Round)
    requires r.Ok() && r.stage == Removed
    requires scan.Ok() && scan.lines == r.tab.spawned && scan.cur == r.levels.cur && scan.prev == r.levels.prev
    requires scan.before == r.swept && (scan.modes == r.modes || scan.modes == PfModes) && scan.Refuses(refused)
    ensures e.Ok() && e.stage == Spawned && e.scan == scan && e.refused == refused
    ensures e.tab == r.tab && e.modes == r.modes && e.levels == r.levels && e.before == r.before
  {
    r.(scan := scan, refused := refused, stage := Spawned)
  }

  // The round with its end
  ghost function EndOf(r: Round, hit: bool, asked: Level, b: seq<seq<Event>>, l: Levels, m: Modes): (e: Round)
    requires r.Ok() && r.stage == Levelled && GoesOn(r.left, r.scan.modes, hit, asked, b, l, m)
    requires r.levels.cur == SingleUser ==> r.left.cur == SingleUser || IsDemand(r.left.cur)
    ensures e.Ok() && e.stage == Ended && e.end == l && e.endModes == m
    ensures e.tab == r.tab && e.modes == r.modes && e.levels == r.levels && e.before == r.before && e.left == r.left
    ensures e.scan == r.scan && e.refused == r.refused
  {
    r.(hit := hit, asked := asked, b := b, end := l, endModes := m, stage := Ended)
  }

  // The first round starts just the boot lines of the level.
  lemma BootLinesFirst(r: Round, i: nat)
    requires r.Ok() && r.stage.Rank() >= 2 && r.modes == BootModes == r.scan.modes && i < |r.tab.spawned|
    ensures var line, v := r.tab.spawned[i], r.scan.visits[i];
            v.act.Started? <==> line.action in {Boot, BootWait} && Admits(line, r.levels.cur)
                                && 0 <= v.k < |v.found| && !v.found[v.k].living
  {
    StartedIff(r.scan, i);
  }
}
