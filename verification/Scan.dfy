// init.c: what spawn() does with the lines of the inittab, one after the other.
module Scan {
  import opened ProcTable
  import opened Events
  import Throttle

  // Does spawn() pass over the line whose slot is x? A process that a telinit a, b or c asked for is
  // started again in any level.
  predicate Skips(x: Slot, line: Line, modes: Modes, cur: Level, prev: Level) {
    && !Demanded(x, line, modes)
    && (!InModes(line.action, modes) || x.living || !Admits(line, cur)
        || (modes == NormalModes
            && (line.action == Off || ((line.action == Once || line.action == Wait) && cur == prev))))
  }

  // Should the slot of the process be kept when it is dead?
  predicate Keeps(a: Action) {
    a == SysInit || a == Wait || a == BootWait || a == PowerWait || a == Respawn
  }

  // What the throttle leaves in the slot of a line
  function NextSeries(series: Throttle.Series, line: Line, now: int): Throttle.Series {
    if line.action == Respawn then Throttle.Respawn(series, now).series else series
  }

  predicate LetsGo(series: Throttle.Series, line: Line, now: int) {
    line.action == Respawn ==> Throttle.Respawn(series, now).launched
  }

  datatype Act = Passed | Refused | Started(pid: int)

  // One line: the table when findpslot() had come back with slot k, or with none, which is -1; the
  // time; what was done; and the table afterwards
  datatype Visit = Visit(found: seq<Slot>, k: int, now: int, act: Act, after: seq<Slot>)

  // A process of the line in slot y
  predicate Runs(y: Slot, line: Line, pid: int, demand: bool) {
    && y.id == line.id && y.pid == pid && y.occupied && y.named && y.demand == demand
            && y.nocleanup == Keeps(line.action)
    && !y.killed
  }

  // The line has slot k of table s.
  ghost predicate ActOk(line: Line, s: seq<Slot>, k: nat, now: int, act: Act, t: seq<Slot>, modes: Modes, cur: Level,
                        prev: Level)
    requires k < |s|
  {
    var x := s[k];
    if Skips(x, line, modes, cur, prev) then act == Passed && t == s
    else if !LetsGo(x.series, line, now) then act == Refused
            && t == s[k := x.(series := NextSeries(x.series, line, now))]
    else
      && act.Started? && |t| == |s|
      && if Waits(line.action) then t[k].Idle() else Runs(t[k], line, act.pid, x.demand || IsDemand(cur))
  }

  // What findpslot() comes back with
  ghost predicate FoundRight(s: seq<Slot>, id: Id, k: int) {
    && -1 <= k < |s| && (forall j :: 0 <= j < |s| && s[j].occupied && s[j].id == id ==> j == k)
    && if k == -1 then forall j :: 0 <= j < |s| ==> s[j].occupied
       else (s[k].occupied && s[k].id == id) || s[k] == ZEROED
  }

  ghost predicate VisitOk(line: Line, v: Visit, modes: Modes, cur: Level, prev: Level) {
    && FoundRight(v.found, line.id, v.k)
    && if v.k == -1 then v.act == Passed && v.after == v.found
       else ActOk(line, v.found, v.k, v.now, v.act, v.after, modes, cur, prev)
  }

  // Just a process that was started takes a fork(2), and it is the child.
  ghost predicate ForksUsed(f: seq<Fork>, act: Act, f': seq<Fork>) {
    if act.Started? then NextChild(f, act.pid, f') else f' == f
  }

  // A whole scan: the lines, the modes and levels, the table before it, what was done with each line,
  // and the outcomes of fork(2) that were still to come before each line and at the end
  datatype Scan = Scan(lines: seq<Line>, modes: Modes, cur: Level, prev: Level, before: seq<Slot>, visits: seq<Visit>,
                       forks: seq<seq<Fork>>)
  {
    // The table before line i
    function Table(i: nat): seq<Slot>
      requires i <= |visits|
    {
      if i == 0 then before else visits[i - 1].after
    }

    ghost predicate StepOk(i: nat)
      requires i < |visits| <= |lines| && i + 1 < |forks|
    {
      && VisitOk(lines[i], visits[i], modes, cur, prev) && Fades(Table(i), visits[i].found)
      && ForksUsed(forks[i], visits[i].act, forks[i + 1])
    }

    // The first n lines have been dealt with.
    ghost predicate UpTo(n: nat) {
      |visits| == n <= |lines| && |forks| == n + 1 && forall i: nat :: i < n ==> StepOk(i)
    }

    ghost predicate Ok() {
      UpTo(|lines|)
    }

    function With(v: Visit, f: seq<Fork>): Scan {
      this.(visits := visits + [v], forks := forks + [f])
    }

    lemma OneMore(n: nat, v: Visit, f: seq<Fork>)
      requires UpTo(n) && n < |lines| && VisitOk(lines[n], v, modes, cur, prev) && Fades(Table(n), v.found)
      requires ForksUsed(forks[n], v.act, f)
      ensures With(v, f).UpTo(n + 1) && With(v, f).Table(n + 1) == v.after
    {
      var next := With(v, f);
      forall i: nat | i < n + 1 ensures next.StepOk(i) {
        if i < n {
          assert StepOk(i) && next.visits[i] == visits[i] && next.forks[i] == forks[i];
          assert next.forks[i + 1] == forks[i + 1] && next.Table(i) == Table(i);
        } else {
          assert next.Table(n) == Table(n) && next.forks[n] == forks[n];
        }
      }
    }

    // Just the names that were refused or found no slot
    ghost predicate Refuses(refused: set<Id>) {
      forall id :: id in refused <==> exists i: nat :: i < |visits| && i < |lines| && NotServed(i, id)
    }

    predicate NotServed(i: nat, id: Id)
      requires i < |visits| && i < |lines|
    {
      lines[i].id == id && (visits[i].act == Refused || visits[i].k == -1)
    }

    lemma RefusesMore(refused: set<Id>, v: Visit, f: seq<Fork>)
      requires Refuses(refused) && |visits| < |lines|
      ensures var id := lines[|visits|].id;
              With(v, f).Refuses(if v.act == Refused || v.k == -1 then refused + {id} else refused)
    {
      var next, n := With(v, f), |visits|;
      var refused' := if v.act == Refused || v.k == -1 then refused + {lines[n].id} else refused;
      forall id ensures id in refused' <==> exists i: nat :: i < |next.visits| && i < |lines| && next.NotServed(i, id) {
        if id in refused {
          var i: nat :| i < |visits| && i < |lines| && NotServed(i, id);
          assert next.NotServed(i, id);
        }
        if id in refused' && id !in refused {
          assert next.NotServed(n, id);
        }
        if i: nat :| i < |next.visits| && i < |lines| && next.NotServed(i, id) {
          assert i < n ==> NotServed(i, id);
        }
      }
    }
  }

  // ---- Which lines are started -------------------------------------------------------------

  // The actions of the three modes
  predicate BelongsTo(a: Action, modes: Modes, cur: Level, prev: Level) {
    match modes
    case BootModes => a in {Boot, BootWait}
    case PfModes => a in {PowerFail, PowerWait}
    case NormalModes => a == Respawn || (a in {Once, Wait} && cur != prev)
  }

  // A line that has found a slot is started if and only if its process is dead, it is for this
  // level and its action for these modes, once and wait only after a change of levels; or else if
  // its process is dead and was asked for by a telinit a, b or c and it has one of these levels.
  // The throttle may refuse a respawn line. Of those started just the lines that are waited
  // for have given up their slot, and just the respawn lines will keep it when they are dead.
  lemma StartedIff(scan: Scan, i: nat)
    requires scan.Ok() && i < |scan.lines|
    ensures var line, v := scan.lines[i], scan.visits[i];
            && (v.act.Started?
                <==> 0 <= v.k < |v.found|
                     && (var x := v.found[v.k];
                         && !x.living && (line.action == Respawn ==> Throttle.Respawn(x.series, v.now).launched)
                         && ((Admits(line, scan.cur) && BelongsTo(line.action, scan.modes, scan.cur, scan.prev))
                             || (x.demand && line.levels * {LA, LB, LC} != {} && line.action == Respawn
                                 && scan.modes == NormalModes))))
            && (v.act.Started?
                ==> 0 <= v.k < |v.after|
                    && if line.action in {Wait, BootWait, PowerWait} then v.after[v.k].Idle()
                       else v.after[v.k].occupied && v.after[v.k].pid == v.act.pid && v.after[v.k].id == line.id
                            && (v.after[v.k].nocleanup <==> line.action == Respawn))
  {
    assert scan.StepOk(i);
    var line := scan.lines[i];
    assert line.levels * {LA, LB, LC} != {} <==> LA in line.levels || LB in line.levels || LC in line.levels by {
      if LA in line.levels || LB in line.levels || LC in line.levels {
        var l :| l in line.levels && l in {LA, LB, LC};
        assert l in line.levels * {LA, LB, LC};
      }
    }
  }
}
