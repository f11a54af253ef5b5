// init.c: the process supervisor, its table updated in place while children die, signals arrive
// and the inittab is edited.
module Init {
  import opened Common
  import opened ProcTable
  import opened Events
  import opened Sweep
  import opened Scan
  import opened Rounds
  import Throttle

  class Supervisor {
    const table: array<Slot>
    // what happens to init
    const batches: seq<seq<Event>>
    var curState: Level
    var prevState: Level
    var priorState: Level
    var newState: Level
    var opModes: Modes
    var wakeup: Wakeup
    var timeUp: bool
    // childeath() is installed for SIGCLD
    var catching: bool
    var env: Env
    var halted: bool
    ghost var inc: seq<nat>
    ghost var born: nat
    ghost var kills: multiset<nat>
    // the kill sequences started for each process, and those for which the table was full
    ghost var sequences: multiset<nat>
    ghost var crowded: set<nat>
    // the processes that were sent the last signal
    ghost var struck: set<nat>
    // names respawn() or findpslot() could not serve in the current pass
    ghost var refused: set<Id>
    ghost var naps: seq<Nap>

    ghost predicate Ok()
      reads `inc, `born, `kills, `halted, `env, table
    {
      Inv(table[..], inc, born, kills) && (halted ==> Spent())
    }

    // There is nothing more to come for which init could wait, or no outcome for a fork(2).
    ghost predicate Spent()
      reads `env
    {
      env.at >= |batches| || env.forks == []
    }

    // How many batches are still to come
    ghost function Coming(): nat
      reads `env
    {
      if env.at < |batches| then |batches| - env.at else 0
    }

    // Nothing happened that spawn() does not know of.
    ghost predicate Calm()
      reads `wakeup
    {
      !wakeup.userSignal && !wakeup.childDeath
    }

    method Set(k: nat, x: Slot)
      requires k < table.Length
      modifies table
      ensures table[..] == old(table[..])[k := x]
    {
      table[k] := x;
    }

    // ---- Interrupts -----------------------------------------------------------------------

    method Childeath(pid: int, status: int)
      modifies `wakeup, table
      ensures Reaped(old(table[..]), table[..], pid, status) && Dims(old(table[..]), table[..])
      ensures wakeup == old(wakeup) || wakeup == old(wakeup).(childDeath := true)
      ensures wakeup.childDeath <==> old(wakeup.childDeath) || !NoOwner(old(table[..]), pid)
      ensures table[..] == AfterDeath(old(table[..]), pid, status, 0)
    {
      for k := 0 to table.Length
        invariant table[..] == old(table[..]) && wakeup == old(wakeup)
        invariant forall j: nat :: j < k ==> !Owned(table[j], pid)
        invariant AfterDeath(table[..], pid, status, 0) == AfterDeath(table[..], pid, status, k)
      {
        if table[k].occupied && table[k].pid == pid {
          assert FirstOwner(table[..], pid, k) && Owned(table[..][k], pid);
          Set(k, table[k].(living := false, exit := status));
          wakeup := wakeup.(childDeath := true);
          break;
        }
      }
    }

    method SigLvl(sig: Level)
      modifies `wakeup, `newState, table
      ensures newState == (if sig == LQ then curState else sig) && wakeup == old(wakeup).(userSignal := true)
      ensures forall k :: 0 <= k < table.Length ==> table[k] == old(table[k]).(series := Throttle.CLEARED)
      ensures SameLives(old(table[..]), table[..]) && Dims(old(table[..]), table[..])
      ensures table[..] == TimesCleared(old(table[..]))
    {
      newState := if sig == LQ then curState else sig;
      for k := 0 to table.Length
        invariant newState == (if sig == LQ then curState else sig) && wakeup == old(wakeup)
        invariant forall j :: 0 <= j < k ==> table[j] == old(table[j]).(series := Throttle.CLEARED)
        invariant forall j :: k <= j < table.Length ==> table[j] == old(table[j])
      {
        Set(k, table[k].(series := Throttle.CLEARED));
      }
      assert forall k :: 0 <= k < table.Length ==>
                           SameLife(old(table[..])[k], table[..][k]) && Dim(old(table[..])[k], table[..][k]);
      wakeup := wakeup.(userSignal := true);
    }

    method Deliver(e: Event)
      modifies `env, `wakeup, `newState, `timeUp, table
      ensures Dims(old(table[..]), table[..]) && (!catching ==> SameLives(old(table[..]), table[..]))
      ensures Calm() ==> old(Calm()) && table[..] == old(table[..])
      ensures env == old(env).(pending := env.pending, now := env.now)
      ensures Occurred(e)
    {
      match e
      case ChildDeath(pid, status) =>
        if catching {
          Childeath(pid, status);
        } else {
          env := env.(pending := env.pending + [Death(pid, status)]);
        }
      case Signal(level) => SigLvl(level);
      case PowerHit => wakeup := wakeup.(powerHit := true);
      case Alarm => timeUp := true;
      case Clock(now) => env := env.(now := now);
    }

    // What one event does
    twostate predicate Occurred(e: Event)
      reads this, table
    {
      && (if catching then table[..] == AfterEvent(old(table[..]), e) && env.pending == old(env.pending)
          else table[..] == (if e.Signal? then TimesCleared(old(table[..])) else old(table[..]))
               && env.pending == if e.ChildDeath? then old(env.pending) + [Death(e.pid,
                       e.status)] else old(env.pending))
      && newState == AskedNext(old(newState), curState, e)
      && (wakeup.userSignal <==> old(wakeup.userSignal) || e.Signal?)
      && (wakeup.powerHit <==> old(wakeup.powerHit) || e == PowerHit)
      && (timeUp <==> old(timeUp) || e == Alarm)
      && env.now == if e.Clock? then e.now else old(env.now)
    }

    // What the first n events of a batch do
    twostate predicate Happened(batch: seq<Event>, n: nat)
      reads this, table
      requires n <= |batch|
    {
      && (if catching then table[..] == AfterEvents(old(table[..]), batch, n) && env.pending == old(env.pending)
          else table[..] == AfterSignals(old(table[..]), batch, n)
                  && env.pending == old(env.pending) + Deaths(batch, n))
      && newState == AskedBy(old(newState), curState, batch, n)
      && (wakeup.userSignal <==> old(wakeup.userSignal) || !Silent(batch, 0, n))
      && (wakeup.powerHit <==> old(wakeup.powerHit) || HitBy(batch, n))
      && (timeUp <==> old(timeUp) || Rings(batch, n))
      && env.now == ClockAfter(old(env.now), batch, n)
    }

    // What may have happened to the table while the world had its way
    twostate predicate Disturbed()
      reads this, table
    {
      && Dims(old(table[..]), table[..]) && (Calm() ==> old(Calm()) && table[..] == old(table[..]))
    }

    ghost function NewsNow(): News
      reads `env, `newState, `wakeup
    {
      News(env.at, newState, wakeup.userSignal)
    }

    twostate predicate Heard()
      reads `env, `newState, `wakeup, `curState
    {
      HeardOf(batches, old(NewsNow()), NewsNow(), curState)
    }

    // A point where init can be interrupted; batch is what arrives there.
    method Interrupted() returns (batch: seq<Event>)
      requires Ok()
      modifies `env, `wakeup, `newState, `timeUp, table
      ensures Ok() && Disturbed() && (!catching ==> SameLives(old(table[..]), table[..]))
      ensures env.forks == old(env.forks)
      ensures env.at == old(env.at) + 1
      ensures batch == BatchAt(batches, old(env.at)) && Happened(batch, |batch|)
      ensures NewsNow() == NewsAfter(batches, old(NewsNow()), curState) && (batch == [] ==> wakeup == old(wakeup))
      ensures catching ==> table[..] == AfterEvents(old(table[..]), batch, |batch|)
    {
      batch := BatchAt(batches, env.at);
      env := env.(at := env.at + 1);
      DeliverAll(batch);
      DimsFade(old(table[..]), table[..]);
      FadesKeepInv(old(table[..]), inc, table[..], born, kills);
    }

    // As above, where it does not matter what arrives
    method Interrupt()
      requires Ok()
      modifies `env, `wakeup, `newState, `timeUp, table
      ensures Ok() && Disturbed() && (!catching ==> SameLives(old(table[..]), table[..])) && Heard()
      ensures env.forks == old(env.forks)
      ensures env.at == old(env.at) + 1
    {
      var batch := Interrupted();
      HeardBatch(batches, old(NewsNow()), curState);
    }

    method DeliverAll(batch: seq<Event>)
      modifies `env, `wakeup, `newState, `timeUp, table
      ensures Disturbed() && (!catching ==> SameLives(old(table[..]), table[..]))
      ensures env.at == old(env.at) && env.forks == old(env.forks)
      ensures Happened(batch, |batch|) && (batch == [] ==> wakeup == old(wakeup))
    {
      for i := 0 to |batch|
        invariant Disturbed() && (!catching ==> SameLives(old(table[..]), table[..]))
        invariant env.at == old(env.at) && env.forks == old(env.forks)
        invariant Happened(batch, i) && (i == 0 ==> wakeup == old(wakeup))
      {
        ghost var before := table[..];
        Deliver(batch[i]);
        DimsCompose(old(table[..]), before, table[..]);
        if !catching {
          SameLivesCompose(old(table[..]), before, table[..]);
        }
      }
    }

    // pause()
    method Pause()
      requires Ok()
      modifies `env, `wakeup, `newState, `timeUp, `halted, table
      ensures Ok() && Disturbed() && (!catching ==> SameLives(old(table[..]), table[..])) && Heard()
      ensures env.forks == old(env.forks)
      ensures env.at == old(env.at) + 1
      ensures halted <==> old(halted) || old(Coming()) == 0
    {
      var batch := PauseFor();
      HeardBatch(batches, old(NewsNow()), curState);
    }

    // pause(), and what it was that ended it
    method PauseFor() returns (batch: seq<Event>)
      requires Ok()
      modifies `env, `wakeup, `newState, `timeUp, `halted, table
      ensures Ok() && Disturbed() && (!catching ==> SameLives(old(table[..]), table[..]))
      ensures env.forks == old(env.forks) && NewsNow() == NewsAfter(batches, old(NewsNow()), curState)
      ensures env.at == old(env.at) + 1
      ensures halted <==> old(halted) || old(Coming()) == 0
      ensures batch == BatchAt(batches, old(env.at)) && Happened(batch, |batch|)
    {
      var over := env.at >= |batches|;
      batch := Interrupted();
      if over {
        halted := true;
      }
    }

    // signal(SIGCLD,childeath), which also makes known the children that died before
    method CatchDeaths()
      requires Ok()
      modifies `env, `wakeup, `catching, table
      ensures Ok() && Disturbed() && catching
      ensures env == old(env).(pending := []) && wakeup == old(wakeup).(childDeath := wakeup.childDeath)
      ensures table[..] == AfterDeaths(old(table[..]), old(env.pending), |old(env.pending)|)
      ensures old(env.pending) == [] ==> wakeup == old(wakeup)
    {
      catching := true;
      var pending := env.pending;
      env := env.(pending := []);
      ghost var rest := env;
      for i := 0 to |pending|
        invariant catching && env == rest && Disturbed() && wakeup == old(wakeup).(childDeath := wakeup.childDeath)
        invariant table[..] == AfterDeaths(old(table[..]), pending, i)
        invariant i == 0 ==> wakeup == old(wakeup)
      {
        ghost var before := table[..];
        Childeath(pending[i].pid, pending[i].status);
        DimsCompose(old(table[..]), before, table[..]);
      }
      DimsFade(old(table[..]), table[..]);
      FadesKeepInv(old(table[..]), inc, table[..], born, kills);
    }

    // ---- Children -------------------------------------------------------------------------

    // The dead that need not be kept are accounted for and freed.
    method CleanUp()
      requires Ok()
      modifies table
      ensures Ok() && Fades(old(table[..]), table[..]) && Spared(old(table[..]), table[..])
      ensures Cleaned(old(table[..]), table[..]) && (!HasRoom(old(table[..])) ==> table[..] == old(table[..]))
    {
      for k := 0 to table.Length
        invariant Fades(old(table[..]), table[..]) && Spared(old(table[..]), table[..])
        invariant Ok()
        invariant forall j :: k <= j < table.Length ==> table[j] == old(table[j])
        invariant forall j :: 0 <= j < k ==> CleanedSlot(old(table[j]), table[j])
        invariant !HasRoom(old(table[..])) ==> table[..] == old(table[..])
      {
        if table[k].occupied && !table[k].living && !table[k].nocleanup {
          assert Usable(old(table[..])[k]);
          FreeSlot(k);
        }
      }
    }

    // p_flags = 0
    method FreeSlot(k: nat)
      requires Ok() && k < table.Length && !table[k].living
      modifies table
      ensures Ok() && table[..] == old(table[..])[k := old(table[k]).Freed()]
      ensures Fades(old(table[..]), table[..]) && Spared(old(table[..]), table[..])
    {
      Set(k, table[k].Freed());
      FadesKeepInv(old(table[..]), inc, table[..], born, kills);
    }

    // The outcome of fork(2); SIGCLD is caught while init waits for it to succeed. Each failure
    // is followed by one pause.
    method ForkChild() returns (pid: int)
      requires Ok() && !halted
      modifies `env, `wakeup, `newState, `timeUp, `halted, `catching, table
      ensures Ok() && Disturbed() && Heard() && catching == old(catching) && |env.forks| <= |old(env.forks)|
      ensures !halted ==> NextChild(old(env.forks), pid, env.forks)
      ensures !halted ==> env.at - old(env.at) == |old(env.forks)| - |env.forks| - 1 >= 0
      ensures old(env.forks) != [] && old(env.forks)[0].Child? ==> Undisturbed() && table[..] == old(table[..])
    {
      pid := 0;
      var done := false;
      while !done
        invariant Ok() && !halted && catching == old(catching)
        invariant Changed(old(table[..]), old(Calm()), old(NewsNow()))
        invariant Tried(old(env.at), old(env.forks), done, pid)
        invariant old(env.forks) != [] && old(env.forks)[0].Child?
                  ==> table[..] == old(table[..])
                      && if done then Undisturbed() else env == old(env) && wakeup == old(wakeup)
        decreases |env.forks|, !done
      {
        if env.forks == [] {
          halted := true;
          return;
        }
        done, pid := TryFork(old(table[..]), old(Calm()), old(NewsNow()), old(env.at), old(env.forks));
        if halted {
          return;
        }
      }
    }

    // What may have happened since the table was s and the news were a; c says whether init was
    // calm.
    ghost predicate Changed(s: seq<Slot>, c: bool, a: News)
      reads `env, `newState, `wakeup, `curState, table
    {
      ChangedSince(batches, s, c, a, table[..], Calm(), NewsNow(), curState)
    }

    // Every failure of fork(2) has taken a batch of events.
    ghost predicate Tried(b: nat, f: seq<Fork>, done: bool, pid: int)
      reads `env
    {
      && env.at - b == |f| - |env.forks| - (if done then 1 else 0) >= 0
      && if done then NextChild(f, pid, env.forks) else FromSuccess(env.forks) == FromSuccess(f)
    }

    method TryFork(ghost s: seq<Slot>, ghost c: bool, ghost a: News, ghost b: nat, ghost f: seq<Fork>)
      returns (done: bool, pid: int)
      requires Ok() && !halted && env.forks != [] && Changed(s, c, a) && Tried(b, f, false, 0)
      modifies `env, `wakeup, `newState, `timeUp, `halted, `catching, table
      ensures Ok() && Changed(s, c, a) && catching == old(catching) && |env.forks| == |old(env.forks)| - 1
      ensures halted || Tried(b, f, done, pid)
      ensures old(env.forks)[0].Child? ==> done && Undisturbed() && table[..] == old(table[..])
    {
      done, pid := ForkOrWait();
      ChangedMeanwhile(batches, s, c, a, old(table[..]), old(Calm()), old(NewsNow()), table[..], Calm(), NewsNow(),
              curState);
    }

    // One fork(2), and the wait if it fails
    method ForkOrWait() returns (done: bool, pid: int)
      requires Ok() && !halted && env.forks != []
      modifies `env, `wakeup, `newState, `timeUp, `halted, `catching, table
      ensures Ok() && catching == old(catching) && |env.forks| == |old(env.forks)| - 1
      ensures Changed(old(table[..]), old(Calm()), old(NewsNow()))
      ensures done <==> old(env.forks)[0].Child?
      ensures if done then NextChild(old(env.forks), pid, env.forks)
              else FromSuccess(env.forks) == FromSuccess(old(env.forks))
      ensures done ==> Undisturbed() && table[..] == old(table[..])
      ensures env.at == old(env.at) + if done then 0 else 1
    {
      var outcome := env.forks[0];
      env := env.(forks := env.forks[1..]);
      if outcome.Child? {
        return true, outcome.pid;
      }
      WaitForDeath();
      return false, 0;
    }

    // oldroutine = signal(SIGCLD,childeath); pause(); signal(SIGCLD,oldroutine);
    method WaitForDeath()
      requires Ok()
      modifies `env, `wakeup, `newState, `timeUp, `halted, `catching, table
      ensures Ok() && Disturbed() && Heard() && catching == old(catching) && env.forks == old(env.forks)
      ensures env.pending == [] && (halted <==> old(halted) || old(Coming()) == 0)
      ensures env.at == old(env.at) + 1
      ensures table[..] == NoticedAll(old(table[..]), old(env.pending), BatchAt(batches, old(env.at)))
    {
      var oldRoutine := catching;
      CatchDeaths();
      ghost var before := table[..];
      var batch := PauseFor();
      HeardBatch(batches, old(NewsNow()), curState);
      DimsCompose(old(table[..]), before, table[..]);
      catching := oldRoutine;
    }

    method FirstIdle() returns (k: int)
      ensures -1 <= k < table.Length
      ensures k != -1 ==> table[k].Idle()
      ensures k == -1 ==> forall j :: 0 <= j < table.Length ==> !table[j].Idle()
    {
      for i := 0 to table.Length
        invariant forall j :: 0 <= j < i ==> !table[j].Idle()
      {
        if table[i].Idle() {
          return i;
        }
      }
      return -1;
    }

    // Nothing has happened but one fork(2), which succeeded.
    twostate predicate Undisturbed()
      reads `env, `wakeup, `halted
    {
      && (halted <==> old(halted)) && wakeup == old(wakeup)
      && old(env.forks) != [] && env == old(env).(forks := old(env.forks)[1..])
    }

    // The clean-up and the fork
    method ForkCleaned() returns (pid: int)
      requires Ok() && !halted
      modifies `env, `wakeup, `newState, `timeUp, `halted, `catching, table
      ensures Ok() && Fades(old(table[..]), table[..]) && Cleaned(old(table[..]), table[..])
              && catching == old(catching)
      ensures Calm() ==> old(Calm()) && Spared(old(table[..]), table[..])
      ensures Heard() && |env.forks| <= |old(env.forks)|
      ensures !halted ==> NextChild(old(env.forks), pid, env.forks) && |env.forks| < |old(env.forks)|
      ensures old(env.forks) != [] && old(env.forks)[0].Child? && !HasRoom(old(table[..]))
              ==> table[..] == old(table[..])
      ensures old(env.forks) != [] && old(env.forks)[0].Child? ==> Undisturbed()
    {
      CleanUp();
      ghost var cleaned := table[..];
      pid := ForkChild();
      DimsFade(cleaned, table[..]);
      FadesCompose(old(table[..]), cleaned, table[..]);
      DimsStayCleaned(old(table[..]), cleaned, table[..], inc, born, kills);
    }

    // The child just forked gets slot k.
    method FillSlot(k: nat, pid: int, nocleanup: bool, named: bool, demand: bool)
      requires Ok() && k < table.Length
      modifies `inc, `born, table
      ensures Ok() && inc == old(inc)[k := old(born)] && born == old(born) + 1
      ensures NewBorn(table[k], nocleanup, named, demand) && table[k].pid == pid
              && table[k].series == old(table[k].series)
      ensures table[..] == old(table[..])[k := table[k]]
    {
      ghost var s := table[..];
      Set(k, Slot(NO_ID, pid, table[k].series, 0, true, true, nocleanup, named, demand, false, false, false));
      BirthKeepsInv(s, inc, born, kills, k, table[k]);
      inc, born := inc[k := born], born + 1;
    }

    // efork(); slot -1 is the null pointer, and as an answer the full table or the end of
    // the run. SIGCLD is in its default state, so that no child dies unnoticed before it has its
    // slot.
    method EFork(slot: int, nocleanup: bool, named: bool, demand: bool) returns (k: int)
      requires Ok() && !halted && !catching && -1 <= slot < table.Length
      modifies `env, `wakeup, `newState, `timeUp, `halted, `catching, `inc, `born, table
      ensures Ok() && -1 <= k < table.Length && catching == old(catching)
      ensures Heard() && |env.forks| <= |old(env.forks)|
      ensures halted || |env.forks| < |old(env.forks)|
      ensures if slot == -1 then !halted ==> (k != -1 <==> HasRoom(old(table[..]))) else halted || k == slot
      ensures (halted ==> k == -1) && (slot == -1 && k != -1 ==> Usable(old(table[..])[k]))
      ensures Calm() ==> old(Calm())
      ensures CleanedBut(old(table[..]), table[..], k)
      ensures k == -1 ==> inc == old(inc) && born == old(born) && Fades(old(table[..]), table[..])
      ensures k == -1 && Calm() ==> Spared(old(table[..]), table[..])
      ensures k == -1 && old(env.forks) != [] && old(env.forks)[0].Child? && !HasRoom(old(table[..]))
              ==> table[..] == old(table[..])
      ensures k != -1 ==> Forked(old(table[..]), old(inc), table[..], inc, k, old(born))
      ensures k != -1 ==> NewBorn(table[k], nocleanup, named, demand)
      ensures !halted ==> NextChild(old(env.forks), if k == -1 then LostPid(old(env.forks)) else table[k].pid,
              env.forks)
      ensures k != -1 ==> table[k].series == Throttle.CLEARED || (k == slot && table[k].series == old(table[k].series))
      ensures k != -1 && Calm() ==> SparedBut(old(table[..]), table[..], k)
      ensures old(env.forks) != [] && old(env.forks)[0].Child? ==> Undisturbed()
    {
      var pid := ForkCleaned();
      if halted {
        return -1;
      }
      RoomIffIdle(old(table[..]), table[..]);
      assert forall j :: 0 <= j < table.Length ==> CleanedSlot(old(table[..])[j], table[..][j]);
      k := GiveSlot(slot, pid, nocleanup, named, demand);
    }

    // The child gets its slot, or the first free one if none was asked for.
    method GiveSlot(slot: int, pid: int, nocleanup: bool, named: bool, demand: bool) returns (k: int)
      requires Ok() && -1 <= slot < table.Length
      modifies `inc, `born, table
      ensures Ok() && -1 <= k < table.Length
      ensures slot == -1 ==> (k != -1 <==> exists j :: 0 <= j < table.Length && old(table[..])[j].Idle())
      ensures slot != -1 ==> k == slot
      ensures k == -1 ==> table[..] == old(table[..]) && inc == old(inc) && born == old(born)
      ensures slot == -1 && k != -1 ==> old(table[..])[k].Idle()
      ensures k != -1 ==> table[..] == old(table[..])[k := table[k]] && inc == old(inc)[k := old(born)]
                          && born == old(born) + 1 && NewBorn(table[k], nocleanup, named, demand) && table[k].pid == pid
                          && table[k].series == if slot == -1 then Throttle.CLEARED else old(table[k].series)
    {
      ghost var s := table[..];
      k := slot;
      if slot == -1 {
        k := FirstIdle();
        if k == -1 {
          return;
        }
        assert s[k].Idle();
        Set(k, table[k].(series := Throttle.CLEARED));
        FlagKeepsInv(s, inc, born, kills, k, table[k]);
      }
      FillSlot(k, pid, nocleanup, named, demand);
      assert table[..] == s[k := table[k]];
    }

    // The child the full table has no slot for
    ghost function LostPid(forks: seq<Fork>): int {
      var from := FromSuccess(forks);
      if from != [] && from[0].Child? then from[0].pid else 0
    }

    lemma RoomIffIdle(s: seq<Slot>, t: seq<Slot>)
      requires Cleaned(s, t)
      ensures HasRoom(s) <==> exists k :: 0 <= k < |t| && t[k].Idle()
    {
      forall k | 0 <= k < |s| ensures Usable(s[k]) <==> t[k].Idle() {
        assert CleanedSlot(s[k], t[k]);
      }
    }

    // One try of killproc() to fork a child that sends the signals to process n
    method ForkKiller(ghost n: nat) returns (k: int)
      requires Ok() && !halted && !catching
      modifies `env, `wakeup, `newState, `timeUp, `halted, `catching, `inc, `born, `sequences, table
      ensures Ok() && Moves(old(table[..]), old(inc), table[..], inc, old(born)) && old(born) <= born
      ensures -1 <= k < table.Length && (halted ==> k == -1) && catching == old(catching)
      ensures old(env.at) <= env.at && (halted || |env.forks| < |old(env.forks)|)
      ensures |env.forks| <= |old(env.forks)|
      ensures sequences == if halted then old(sequences) else old(sequences) + multiset{n}
      ensures !halted ==> (k != -1 <==> HasRoom(old(table[..])))
      ensures !halted && NoFailure(old(env.forks)) ==> NoFailure(env.forks)
      ensures !halted && NoFailure(old(env.forks)) && !HasRoom(old(table[..])) ==> table[..] == old(table[..])
      ensures if old(env.forks) == [] then halted else NoFailure(old(env.forks)) ==> Undisturbed()
    {
      k := EFork(-1, false, false, false);
      EForkMoves(old(table[..]), old(inc), k, old(born), false);
      if !halted {
        sequences := sequences + multiset{n};
      }
    }

    // The tries that follow one for which the table was full. No death is noticed here, unless
    // fork(2) fails: so without a failure the table stays full, and the tries do not end.
    method RetryKill(ghost n: nat)
      requires Ok() && !halted && !catching
      modifies `env, `wakeup, `newState, `timeUp, `halted, `catching, `inc, `born, `sequences, table
      ensures Ok() && Moves(old(table[..]), old(inc), table[..], inc, old(born)) && old(born) <= born
      ensures old(env.at) <= env.at && catching == old(catching) && |env.forks| <= |old(env.forks)|
      ensures forall m :: m != n ==> sequences[m] == old(sequences[m])
      ensures halted || sequences[n] > old(sequences[n])
      ensures !HasRoom(old(table[..])) && NoFailure(old(env.forks))
              ==> halted && sequences[n] == old(sequences[n]) + Min(old(Coming()), |old(env.forks)|)
    {
      ghost var stuck := !HasRoom(table[..]) && NoFailure(env.forks);
      var k := -1;
      while k == -1
        invariant Ok() && !halted && !catching && -1 <= k
        invariant Moves(old(table[..]), old(inc), table[..], inc, old(born)) && old(born) <= born
        invariant old(env.at) <= env.at && |env.forks| <= |old(env.forks)|
        invariant forall m :: m != n ==> sequences[m] == old(sequences[m])
        invariant sequences[n] > old(sequences[n]) || (k == -1 && sequences == old(sequences))
        invariant stuck ==> k == -1 && !HasRoom(table[..]) && NoFailure(env.forks)
        invariant stuck ==> sequences[n] + Min(Coming(), |env.forks|)
                            == old(sequences[n]) + Min(old(Coming()), |old(env.forks)|)
        decreases Coming(), k == -1
      {
        k := TryAgain(n, old(table[..]), old(inc), old(born));
        if halted {
          return;
        }
      }
    }

    // pause(), and another try; s, i and b are the table and its processes some time before.
    method TryAgain(ghost n: nat, ghost s: seq<Slot>, ghost i: seq<nat>, ghost b: nat) returns (k: int)
      requires Ok() && !halted && !catching && Moves(s, i, table[..], inc, b) && b <= born
      modifies `env, `wakeup, `newState, `timeUp, `halted, `catching, `inc, `born, `sequences, table
      ensures Ok() && Moves(s, i, table[..], inc, b) && b <= born
      ensures catching == old(catching) && -1 <= k && (halted || Coming() < old(Coming()))
      ensures !old(HasRoom(table[..])) && NoFailure(old(env.forks))
              ==> if old(Coming()) == 0 || old(env.forks) == [] then halted
                  else !halted && Coming() == old(Coming()) - 1 && |env.forks| == |old(env.forks)| - 1
      ensures old(env.at) <= env.at && |env.forks| <= |old(env.forks)|
      ensures sequences == if halted then old(sequences) else old(sequences) + multiset{n}
      ensures !old(HasRoom(table[..])) && NoFailure(old(env.forks)) && !halted
              ==> k == -1 && !HasRoom(table[..]) && NoFailure(env.forks)
    {
      k := -1;
      Pause();
      DimsMove(s, i, old(table[..]), inc, table[..], b);
      SameLivesSameRoom(old(table[..]), table[..]);
      if halted {
        return;
      }
      ghost var t, i', b' := table[..], inc, born;
      k := ForkKiller(n);
      MovesCompose(s, i, t, i', table[..], inc, b, b');
    }

    // killproc(). If the table is full the child runs all the same, and another is forked.
    method KillProc(ghost n: nat)
      requires Ok() && !halted
      modifies `env, `wakeup, `newState, `timeUp, `halted, `catching, `inc, `born, `sequences, `crowded, table
      ensures Ok() && Moves(old(table[..]), old(inc), table[..], inc, old(born)) && old(born) <= born
      ensures old(env.at) <= env.at && catching && (halted || |env.forks| < |old(env.forks)|)
      ensures forall m :: m != n ==> sequences[m] == old(sequences[m])
      ensures crowded == if HasRoom(old(table[..])) then old(crowded) else old(crowded) + {n}
      ensures HasRoom(old(table[..])) ==> sequences[n] <= old(sequences[n]) + 1
      ensures !halted ==> (HasRoom(old(table[..])) <==> sequences[n] == old(sequences[n]) + 1)
      ensures halted || sequences[n] > old(sequences[n])
      ensures !HasRoom(old(table[..])) && NoFailure(old(env.forks))
              ==> halted && sequences[n] == old(sequences[n]) + Min(old(Coming()) + 1, |old(env.forks)|)
    {
      if !HasRoom(table[..]) {
        crowded := crowded + {n};
      }
      catching := false;
      Killers(n);
      ghost var t := table[..];
      CatchDeaths();
      DimsMove(old(table[..]), old(inc), t, inc, table[..], old(born));
    }

    // while ((process = efork(NULLPROC,0)) == NO_ROOM) pause();
    method Killers(ghost n: nat)
      requires Ok() && !halted && !catching
      modifies `env, `wakeup, `newState, `timeUp, `halted, `catching, `inc, `born, `sequences, table
      ensures Ok() && Moves(old(table[..]), old(inc), table[..], inc, old(born)) && old(born) <= born
      ensures old(env.at) <= env.at && (halted || |env.forks| < |old(env.forks)|)
      ensures forall m :: m != n ==> sequences[m] == old(sequences[m])
      ensures HasRoom(old(table[..])) ==> sequences[n] <= old(sequences[n]) + 1
      ensures !halted ==> (HasRoom(old(table[..])) <==> sequences[n] == old(sequences[n]) + 1)
      ensures halted || sequences[n] > old(sequences[n])
      ensures !HasRoom(old(table[..])) && NoFailure(old(env.forks))
              ==> halted && sequences[n] == old(sequences[n]) + Min(old(Coming()) + 1, |old(env.forks)|)
    {
      var k := ForkKiller(n);
      ghost var t, i, b := table[..], inc, born;
      if k == -1 && !halted {
        RetryKill(n);
        MovesCompose(old(table[..]), old(inc), t, i, table[..], inc, old(born), b);
      }
    }

    // An unnamed efork() as a move of the whole table
    lemma EForkMoves(s: seq<Slot>, i: seq<nat>, k: int, b: nat, nocleanup: bool)
      requires -1 <= k < table.Length && |s| == |i| == table.Length && |inc| == table.Length
      requires k == -1 ==> inc == i && Fades(s, table[..])
      requires k != -1 ==> Forked(s, i, table[..], inc, k, b) && NewBorn(table[k], nocleanup, false, false)
      requires CleanedBut(s, table[..], k) && (k != -1 ==> Usable(s[k]))
      ensures Moves(s, i, table[..], inc, b)
    {
      forall j | 0 <= j < |s| ensures Move(s[j], i[j], table[..][j], inc[j], b) {
        if j != k {
          assert Fade(s[j], table[..][j]) && CleanedSlot(s[j], table[..][j]);
        }
      }
    }

    // ---- remove() -------------------------------------------------------------------------

    // Every process chosen for killing is sent signals, once unless the table is full then.
    ghost predicate Killing()
      reads `sequences, `kills, `crowded, `halted, `catching
    {
      SequencesOk(sequences, kills, crowded) && (halted || (catching && forall n :: n in kills ==> n in sequences))
    }

    // The process in slot k gets its signals, for the first time; the slot is marked when
    // that is done, whatever is in it by then. Only a warning does without a child.
    method Kill(k: nat, warn: bool)
      requires Ok() && Killing() && !halted && k < table.Length && table[k].occupied && !table[k].killed
      modifies `env, `wakeup, `newState, `timeUp, `halted, `catching, `inc, `born, `kills, `sequences, `crowded, table
      ensures Ok() && Killing() && old(env.at) <= env.at && old(born) <= born
      ensures MovesBut(old(table[..]), old(inc), table[..], inc, old(born), k) && table[k].killed
      ensures kills == old(kills) + multiset{old(inc[k])}
      ensures inc[k] == old(inc[k]) && table[k].living ==> (table[k].warned <==> old(table[k].warned) || warn)
      ensures if warn then env.forks == old(env.forks) else halted || |env.forks| < |old(env.forks)|
    {
      ghost var n := inc[k];
      ghost var s, i, b := table[..], inc, born;
      assert SlotOk(s[k], n, born, kills);
      if warn {
        Warn(k, n);
      } else {
        KillByChild(k, n);
      }
      FinishKill(k, n, s, i, b);
    }

    method KillByChild(k: nat, ghost n: nat)
      requires Ok() && !halted && k < table.Length && n == inc[k]
      modifies `env, `wakeup, `newState, `timeUp, `halted, `catching, `inc, `born, `sequences, `crowded, table
      ensures Ok() && MovesBut(old(table[..]), old(inc), table[..], inc, old(born), k) && old(born) <= born
      ensures old(env.at) <= env.at && catching && (halted || |env.forks| < |old(env.forks)|)
      ensures forall m :: m != n ==> sequences[m] == old(sequences[m])
      ensures crowded == if HasRoom(old(table[..])) then old(crowded) else old(crowded) + {n}
      ensures HasRoom(old(table[..])) ==> sequences[n] <= old(sequences[n]) + 1
      ensures halted || sequences[n] > old(sequences[n])
      ensures inc[k] == old(inc[k]) && table[k].living ==> table[k].warned == old(table[k].warned)
    {
      ghost var s, i, b := table[..], inc, born;
      assert SlotOk(s[k], n, born, kills);
      KillProc(n);
      MovesAreMovesBut(s, i, table[..], inc, b, k);
      assert Move(s[k], i[k], table[..][k], inc[k], b);
    }

    // Process n was in slot k of table s, and has been sent its signals.
    method FinishKill(k: nat, ghost n: nat, ghost s: seq<Slot>, ghost i: seq<nat>, ghost b: nat)
      requires Ok() && k < table.Length && MovesBut(s, i, table[..], inc, b, k)
      requires Inv(s, i, b, kills) && s[k].occupied && n == i[k] && n < born && n !in kills
      requires SequencesOk(sequences, kills + multiset{n}, crowded)
      requires halted || (catching && forall m :: m in kills + multiset{n} ==> m in sequences)
      modifies `env, `wakeup, `newState, `timeUp, `kills, table
      ensures Ok() && Killing() && old(env.at) <= env.at && env.forks == old(env.forks)
      ensures MovesBut(s, i, table[..], inc, b, k) && table[k].killed && kills == old(kills) + multiset{n}
      ensures table[k].warned == old(table[k].warned) && (table[k].living ==> old(table[k].living))
    {
      InterruptKill(k, s, i, b);
      WhereItWas(s, i, table[..], inc, b, kills, k);
      FlagMovesBut(s, i, table[..], inc, b, k, table[k].(killed := true));
      Mark(k, n);
    }

    // Before the slot is marked init can be interrupted.
    method InterruptKill(k: nat, ghost s: seq<Slot>, ghost i: seq<nat>, ghost b: nat)
      requires Ok() && k < table.Length && MovesBut(s, i, table[..], inc, b, k)
      modifies `env, `wakeup, `newState, `timeUp, table
      ensures Ok() && MovesBut(s, i, table[..], inc, b, k) && Dim(old(table[k]), table[k])
      ensures old(env.at) <= env.at && env.forks == old(env.forks)
    {
      if !halted {
        Interrupt();
        DimsMoveBut(s, i, old(table[..]), inc, table[..], b, k);
        assert Dim(old(table[..])[k], table[..][k]);
      }
    }

    // process->p_flags |= WARNED; kill(process->p_pid,SIGTERM);
    method Warn(k: nat, ghost n: nat)
      requires Ok() && k < table.Length && n == inc[k] && table[k].occupied
      modifies `sequences, table
      ensures Ok() && sequences == old(sequences) + multiset{n}
      ensures table[..] == old(table[..])[k := old(table[k]).(warned := true)]
      ensures MovesBut(old(table[..]), inc, table[..], inc, born, k)
    {
      Set(k, table[k].(warned := true));
      FlagKeepsInv(old(table[..]), inc, born, kills, k, table[k]);
      sequences := sequences + multiset{n};
    }

    method Mark(k: nat, ghost n: nat)
      requires Ok() && k < table.Length && n < born && n !in kills
      requires forall l :: 0 <= l < table.Length && table[l].occupied && inc[l] == n ==> l == k
      requires SequencesOk(sequences, kills + multiset{n}, crowded)
      requires halted || (catching && forall m :: m in kills + multiset{n} ==> m in sequences)
      modifies `kills, table
      ensures Ok() && Killing() && kills == old(kills) + multiset{n}
      ensures table[..] == old(table[..])[k := old(table[k]).(killed := true)]
    {
      ghost var s := table[..];
      Set(k, table[k].(killed := true));
      KillKeepsInv(s, inc, born, kills, k, n);
      kills := kills + multiset{n};
    }

    // n lines have been dealt with in a pass that started from w.
    ghost predicate Sweeping(w: Outset, n: nat)
      reads `inc, `born, `kills, `curState, table
    {
      w.Valid() && w.level == curState && w.born <= born && Swept(w, table[..], inc, n) && KillsRight(w, kills)
    }

    // So it is, but for slot k.
    ghost predicate SweepingBut(w: Outset, n: nat, k: nat)
      reads `inc, `born, `kills, `curState, table
    {
      w.Valid() && w.level == curState && w.born <= born && SweptBut(w, table[..], inc, n, k) && KillsRight(w, kills)
    }

    // The lines have all been dealt with, and the first k slots.
    ghost predicate Rescanning(w: Outset, k: nat)
      reads `inc, `born, `kills, `curState, table
    {
      w.Valid() && w.level == curState && w.born <= born && DoneTo(w, table[..], inc, k) && KillsRight(w, kills)
    }

    method InterruptSweep(ghost w: Outset, ghost n: nat)
      requires Ok() && Sweeping(w, n)
      modifies `env, `wakeup, `newState, `timeUp, table
      ensures Ok() && Sweeping(w, n) && Dims(old(table[..]), table[..])
      ensures old(env.at) <= env.at && env.forks == old(env.forks)
    {
      Interrupt();
      DimsStaySwept(w, old(table[..]), inc, table[..], n);
    }

    method InterruptBut(ghost w: Outset, ghost n: nat, ghost k: nat)
      requires Ok() && SweepingBut(w, n, k)
      modifies `env, `wakeup, `newState, `timeUp, table
      ensures Ok() && SweepingBut(w, n, k) && Dims(old(table[..]), table[..])
      ensures old(env.at) <= env.at && env.forks == old(env.forks)
    {
      Interrupt();
      DimsStaySweptBut(w, old(table[..]), inc, table[..], n, k);
    }

    method Touch(k: nat)
      requires Ok() && k < table.Length
      modifies table
      ensures Ok() && table[..] == old(table[..])[k := old(table[k]).(touched := true)]
    {
      Set(k, table[k].(touched := true));
      FlagKeepsInv(old(table[..]), inc, born, kills, k, table[k]);
    }

    // The process in slot k has to go, as line n says.
    method Condemn(ghost w: Outset, ghost n: nat, k: nat, change: bool)
      requires Ok() && Killing() && !halted && Sweeping(w, n) && n < |w.lines| && change == w.change
      requires k < table.Length && table[k].occupied && table[k].id == w.lines[n].id
      requires MustGo(table[k], w.lines[n], curState)
      modifies `env, `wakeup, `newState, `timeUp, `halted, `catching, `inc, `born, `kills, `sequences, `crowded, table
      ensures Ok() && Killing() && Sweeping(w, n + 1)
      ensures old(env.at) <= env.at && (change ==> env.forks == old(env.forks))
      ensures Condemned(old(table[k]), old(inc[k]), table[k], inc[k], old(kills), kills)
    {
      SlotOfLine(w, table[..], inc, born, kills, n, k);
      InterruptSlot(w, n, k);
      if table[k].living {
        CondemnLiving(w, n, k, change);
      } else {
        OneLineMore(w, w.s[k], n);
        AllSlots(w, table[..], inc, n + 1, k);
      }
    }

    // Its process is alive.
    method CondemnLiving(ghost w: Outset, ghost n: nat, k: nat, change: bool)
      requires Ok() && Killing() && !halted && SweepingBut(w, n + 1, k) && n < |w.lines| && change == w.change
      requires k < table.Length && SweptAt(w, k, table[k], inc[k], n) && inc[k] == w.inc[k] && w.s[k].named
      requires table[k].living && table[k].id == w.lines[n].id && MustGo(table[k], w.lines[n], curState)
      modifies `env, `wakeup, `newState, `timeUp, `halted, `catching, `inc, `born, `kills, `sequences, `crowded, table
      ensures Ok() && Killing() && Sweeping(w, n + 1)
      ensures old(env.at) <= env.at && (change ==> env.forks == old(env.forks))
      ensures Condemned(old(table[k]), old(inc[k]), table[k], inc[k], old(kills), kills)
    {
      Touch(k);
      InterruptTouched(w, n, k);
      if !table[k].killed {
        KillInSweep(w, n, k, change);
      } else {
        LeftAloneIsSwept(w, k, table[k], inc[k], n);
        AllSlots(w, table[..], inc, n + 1, k);
      }
    }

    // Slot k, which holds the process of line n
    method InterruptSlot(ghost w: Outset, ghost n: nat, k: nat)
      requires Ok() && k < table.Length && n < |w.lines| && SweepingBut(w, n + 1, k)
              && SweptAt(w, k, table[k], inc[k], n)
      modifies `env, `wakeup, `newState, `timeUp, table
      ensures Ok() && SweepingBut(w, n + 1, k) && SweptAt(w, k, table[k], inc[k], n)
      ensures Dim(old(table[k]), table[k]) && old(env.at) <= env.at && env.forks == old(env.forks)
    {
      InterruptBut(w, n + 1, k);
      assert Dim(old(table[..])[k], table[..][k]);
      MoveStaysSwept(w, k, old(table[k]), inc[k], table[k], inc[k], w.born, n);
    }

    // Slot k has just been touched.
    method InterruptTouched(ghost w: Outset, ghost n: nat, k: nat)
      requires Ok() && k < table.Length && n < |w.lines| && SweepingBut(w, n + 1, k)
      requires TouchedAt(w, k, table[k], inc[k], n)
      modifies `env, `wakeup, `newState, `timeUp, table
      ensures Ok() && SweepingBut(w, n + 1, k) && TouchedAt(w, k, table[k], inc[k], n)
      ensures Dim(old(table[k]), table[k]) && old(env.at) <= env.at && env.forks == old(env.forks)
    {
      InterruptBut(w, n + 1, k);
      assert Dim(old(table[..])[k], table[..][k]);
    }

    // Slot k has been touched and is to be killed, if its process still lives.
    method KillInSweep(ghost w: Outset, ghost n: nat, k: nat, change: bool)
      requires Ok() && Killing() && !halted && SweepingBut(w, n + 1, k) && n < |w.lines| && change == w.change
      requires k < table.Length && TouchedAt(w, k, table[k], inc[k], n) && !table[k].killed
      modifies `env, `wakeup, `newState, `timeUp, `halted, `catching, `inc, `born, `kills, `sequences, `crowded, table
      ensures Ok() && Killing() && Sweeping(w, n + 1)
      ensures old(env.at) <= env.at && (change ==> env.forks == old(env.forks))
      ensures kills == old(kills) + multiset{old(inc[k])}
              && (inc[k] == old(inc[k]) && table[k].living ==> table[k].killed)
      ensures inc[k] == old(inc[k]) && table[k].living ==> table[k].touched
    {
      ghost var s, i := table[..], inc;
      ghost var b := born;
      Kill(k, change);
      MovesStaySwept(w, s, i, table[..], inc, b, n + 1, k);
      KilledIsSwept(w, k, s[k], i[k], table[k], inc[k], b, n);
      AllSlots(w, table[..], inc, n + 1, k);
      OneLineMore(w, w.s[k], n);
      assert Chosen(w, k, i[k]);
    }

    // The slot with the name of a line
    method TreatSlot(ghost w: Outset, ghost n: nat, k: nat, line: Line, change: bool)
      requires Ok() && Killing() && !halted && Sweeping(w, n) && n < |w.lines| && change == w.change
      requires k < table.Length && table[k].occupied && table[k].id == line.id && line == w.lines[n]
      modifies `env, `wakeup, `newState, `timeUp, `halted, `catching, `inc, `born, `kills, `sequences, `crowded, table
      ensures Ok() && Killing() && Sweeping(w, n + 1)
      ensures old(env.at) <= env.at && (change ==> env.forks == old(env.forks))
      ensures if MustGo(old(table[k]), line, curState)
              then Condemned(old(table[k]), old(inc[k]), table[k], inc[k], old(kills), kills)
              else kills == old(kills) && sequences == old(sequences) && inc == old(inc)
                   && (table[k].living || table[k].demand ==> table[k].touched)
    {
      if curState == SingleUser || line.action == Off || (!Admits(line, curState) && !table[k].demand) {
        Condemn(w, n, k, change);
      } else {
        LetStay(w, n, k);
      }
    }

    // The process in slot k may stay, as line n says.
    method LetStay(ghost w: Outset, ghost n: nat, k: nat)
      requires Ok() && Sweeping(w, n) && n < |w.lines|
      requires k < table.Length && table[k].occupied && table[k].id == w.lines[n].id
      requires !MustGo(table[k], w.lines[n], curState)
      modifies `env, `wakeup, `newState, `timeUp, table
      ensures Ok() && Sweeping(w, n + 1) && old(env.at) <= env.at && env.forks == old(env.forks)
      ensures table[k].living || table[k].demand ==> table[k].touched
    {
      SlotOfLine(w, table[..], inc, born, kills, n, k);
      InterruptSlot(w, n, k);
      OneLineMore(w, w.s[k], n);
      if table[k].living || table[k].demand {
        Touch(k);
      }
      AllSlots(w, table[..], inc, n + 1, k);
    }

    // The first slot that goes with line n is treated.
    method VisitLine(ghost w: Outset, ghost n: nat, line: Line, change: bool)
      requires Ok() && Killing() && !halted && Sweeping(w, n) && n < |w.lines| && line == w.lines[n]
              && change == w.change
      modifies `env, `wakeup, `newState, `timeUp, `halted, `catching, `inc, `born, `kills, `sequences, `crowded, table
      ensures Ok() && Killing() && Sweeping(w, n + 1)
      ensures old(env.at) <= env.at && (change ==> env.forks == old(env.forks))
    {
      for k := 0 to table.Length
        invariant Ok() && Killing() && !halted && Sweeping(w, n) && env.forks == old(env.forks)
        invariant old(env.at) <= env.at
        invariant NoneGoes(k, line.id)
      {
        var found := VisitSlot(w, n, k, line, change);
        if found {
          return;
        }
      }
      NoSlotForLine(w, table[..], inc, n);
    }

    method VisitSlot(ghost w: Outset, ghost n: nat, k: nat, line: Line, change: bool) returns (found: bool)
      requires Ok() && Killing() && !halted && Sweeping(w, n) && n < |w.lines| && line == w.lines[n]
              && change == w.change
      requires k < table.Length && NoneGoes(k, line.id)
      modifies `env, `wakeup, `newState, `timeUp, `halted, `catching, `inc, `born, `kills, `sequences, `crowded, table
      ensures Ok() && Killing() && old(env.at) <= env.at && (change ==> env.forks == old(env.forks))
      ensures if found then Sweeping(w, n + 1)
              else !halted && Sweeping(w, n) && NoneGoes(k + 1, line.id) && env.forks == old(env.forks)
    {
      InterruptSearch(w, n, k, line.id);
      found := table[k].occupied && table[k].id == line.id;
      if found {
        TreatSlot(w, n, k, line, change);
      }
    }

    method InterruptSearch(ghost w: Outset, ghost n: nat, ghost k: nat, ghost id: Id)
      requires Ok() && Sweeping(w, n) && NoneGoes(k, id)
      modifies `env, `wakeup, `newState, `timeUp, table
      ensures Ok() && Sweeping(w, n) && NoneGoes(k, id)
      ensures old(env.at) <= env.at && env.forks == old(env.forks)
    {
      InterruptSweep(w, n);
      assert forall j :: 0 <= j < k ==> Dim(old(table[..])[j], table[..][j]);
    }

    // None of the first k slots goes with the name.
    ghost predicate NoneGoes(k: nat, id: Id)
      reads table
    {
      k <= table.Length && forall j :: 0 <= j < k ==> !Goes(table[j], id)
    }

    predicate Goes(x: Slot, id: Id) {
      x.occupied && x.id == id
    }

    // After a change of levels init waits until the warned have died or the time is up, and
    // sends those that have not the last signal.
    method AwaitWarned(ghost w: Outset)
      requires Ok() && !halted && Sweeping(w, |w.lines|)
      modifies `env, `wakeup, `newState, `timeUp, `halted, `struck, table
      ensures Ok() && Sweeping(w, |w.lines|) && env.forks == old(env.forks)
      ensures halted || AllStruck(table[..], inc, struck)
      ensures !halted ==> struck == if timeUp then old(struck) + Lingering() else old(struck)
      ensures timeUp && !halted ==> RungIn(old(env.at))
    {
      AwaitAll(w);
      if !halted && timeUp {
        Strike();
      }
    }

    method AwaitAll(ghost w: Outset)
      requires Ok() && !halted && Sweeping(w, |w.lines|)
      modifies `env, `wakeup, `newState, `timeUp, `halted, table
      ensures Ok() && Sweeping(w, |w.lines|) && env.forks == old(env.forks) && AlarmLeft(old(env.at))
      ensures halted || timeUp || AllStruck(table[..], inc, {})
    {
      timeUp := false;
      for k := 0 to table.Length
        invariant Ok() && Sweeping(w, |w.lines|) && !halted && env.forks == old(env.forks)
        invariant timeUp || forall j :: 0 <= j < k ==> !Lingers(table[j])
        invariant AlarmLeft(old(env.at))
      {
        AwaitSlot(w, k, old(env.at));
        if halted {
          return;
        }
      }
    }

    ghost predicate RingsIn(batch: seq<Event>) {
      Rings(batch, |batch|)
    }

    // One of the batches from b on rang.
    ghost predicate RungIn(b: nat)
      reads `env
    {
      exists i: nat :: b <= i < env.at && RingsIn(BatchAt(batches, i))
    }

    // If the time is up, one of them did.
    ghost predicate AlarmLeft(b: nat)
      reads `env, `timeUp
    {
      b <= env.at && (timeUp ==> RungIn(b))
    }

    // The wait for slot k; b batches had been taken some time before.
    method AwaitSlot(ghost w: Outset, k: nat, ghost b: nat)
      requires Ok() && !halted && Sweeping(w, |w.lines|) && k < table.Length && AlarmLeft(b)
      requires timeUp || forall j :: 0 <= j < k ==> !Lingers(table[j])
      modifies `env, `wakeup, `newState, `timeUp, `halted, table
      ensures Ok() && Sweeping(w, |w.lines|) && env.forks == old(env.forks) && AlarmLeft(b)
      ensures halted || timeUp || forall j :: 0 <= j <= k ==> !Lingers(table[j])
    {
      while !timeUp && table[k].warned && table[k].living && table[k].occupied
        invariant Ok() && Sweeping(w, |w.lines|) && !halted && env.forks == old(env.forks) && AlarmLeft(b)
        invariant timeUp || forall j :: 0 <= j < k ==> !Lingers(table[j])
        decreases Coming()
      {
        PauseInSweep(w, b);
        if halted {
          return;
        }
      }
    }

    method PauseInSweep(ghost w: Outset, ghost b: nat)
      requires Ok() && Sweeping(w, |w.lines|) && AlarmLeft(b) && !halted && !timeUp
      modifies `env, `wakeup, `newState, `timeUp, `halted, table
      ensures Ok() && Sweeping(w, |w.lines|) && Dims(old(table[..]), table[..]) && env.forks == old(env.forks)
      ensures AlarmLeft(b) && (halted || Coming() < old(Coming()))
      ensures forall j :: 0 <= j < table.Length && Lingers(table[j]) ==> Lingers(old(table[j]))
    {
      ghost var batch := PauseFor();
      DimsStaySwept(w, old(table[..]), inc, table[..], |w.lines|);
      assert forall j :: 0 <= j < table.Length ==> Dim(old(table[..])[j], table[..][j]);
      assert timeUp ==> RingsIn(BatchAt(batches, old(env.at)));
    }

    // The numbers of the warned processes that are alive
    ghost function Lingering(): set<nat>
      reads `inc, table
    {
      set k | 0 <= k < table.Length && k < |inc| && Lingers(table[k]) :: inc[k]
    }

    // The last signal is sent to them.
    method Strike()
      requires |inc| == table.Length
      modifies `struck
      ensures struck == old(struck) + Lingering() && AllStruck(table[..], inc, struck)
    {
      for k := 0 to table.Length
        invariant struck == old(struck) + set j | 0 <= j < k && Lingers(table[j]) :: inc[j]
      {
        if table[k].warned && table[k].living && table[k].occupied {
          struck := struck + {inc[k]};
        }
      }
    }

    // A process no line stands for is killed, a dead one accounted for and, unless it was
    // touched, freed.
    method Rescan(ghost w: Outset)
      requires Ok() && Killing() && !halted && Sweeping(w, |w.lines|)
      modifies `env, `wakeup, `newState, `timeUp, `halted, `catching, `inc, `born, `kills, `sequences, `crowded, table
      ensures Ok() && Killing() && old(born) <= born && KillsRight(w, kills) && w.level == curState
      ensures halted || Done(w, table[..], inc)
      ensures halted || Buried(old(table[..]), old(inc), table[..], inc, old(born), table.Length)
      ensures old(AllStruck(table[..], inc, struck)) ==> AllStruck(table[..], inc, struck)
    {
      for k := 0 to table.Length
        invariant Ok() && Killing() && !halted && Rescanning(w, k)
        invariant Buried(old(table[..]), old(inc), table[..], inc, old(born), k) && old(born) <= born
        invariant old(AllStruck(table[..], inc, struck)) ==> AllStruck(table[..], inc, struck)
      {
        RescanSlot(w, k, old(table[..]), old(inc), old(born));
        if halted {
          return;
        }
      }
    }

    // One slot; s, i and b are the table and its processes when the rescan began.
    method RescanSlot(ghost w: Outset, k: nat, ghost s: seq<Slot>, ghost i: seq<nat>, ghost b: nat)
      requires Ok() && Killing() && !halted && k < table.Length && Rescanning(w, k)
      requires Buried(s, i, table[..], inc, b, k) && b <= born
      modifies `env, `wakeup, `newState, `timeUp, `halted, `catching, `inc, `born, `kills, `sequences, `crowded, table
      ensures Ok() && Killing() && Rescanning(w, k + 1)
      ensures Buried(s, i, table[..], inc, b, k + 1) && b <= born
      ensures old(AllStruck(table[..], inc, struck)) ==> AllStruck(table[..], inc, struck)
    {
      InterruptRescan(w, k, s, i, b);
      TreatRescan(w, k, s, i, b);
    }

    method TreatRescan(ghost w: Outset, k: nat, ghost s: seq<Slot>, ghost i: seq<nat>, ghost b: nat)
      requires Ok() && Killing() && !halted && k < table.Length && Rescanning(w, k)
      requires Buried(s, i, table[..], inc, b, k) && b <= born
      modifies `env, `wakeup, `newState, `timeUp, `halted, `catching, `inc, `born, `kills, `sequences, `crowded, table
      ensures Ok() && Killing() && Rescanning(w, k + 1)
      ensures Buried(s, i, table[..], inc, b, k + 1) && b <= born
      ensures old(AllStruck(table[..], inc, struck)) ==> AllStruck(table[..], inc, struck)
    {
      if table[k].living && table[k].named && !table[k].touched && !table[k].killed && table[k].occupied {
        KillInRescan(w, k, s, i, b);
      } else if !table[k].living && table[k].named && table[k].occupied {
        if !table[k].touched {
          FreeInRescan(w, k, s, i, b);
        } else {
          RestIsDone(w, k, table[k], inc[k]);
        }
      } else {
        RestIsDone(w, k, table[k], inc[k]);
      }
    }

    // Slot k, whose process is dead and untouched, is freed.
    method FreeInRescan(ghost w: Outset, k: nat, ghost s: seq<Slot>, ghost i: seq<nat>, ghost b: nat)
      requires Ok() && k < table.Length && Rescanning(w, k) && Buried(s, i, table[..], inc, b, k)
      requires !table[k].living && table[k].named && table[k].occupied && !table[k].touched
      modifies table
      ensures Ok() && Rescanning(w, k + 1) && Buried(s, i, table[..], inc, b, k + 1)
      ensures old(AllStruck(table[..], inc, struck)) ==> AllStruck(table[..], inc, struck)
    {
      FreedIsDone(w, k, table[k], inc[k]);
      FreeSlot(k);
      if AllStruck(old(table[..]), inc, struck) {
        FadesStayStruck(old(table[..]), inc, table[..], struck);
      }
    }

    method InterruptRescan(ghost w: Outset, k: nat, ghost s: seq<Slot>, ghost i: seq<nat>, ghost b: nat)
      requires Ok() && k < table.Length && Rescanning(w, k) && Buried(s, i, table[..], inc, b, k)
      modifies `env, `wakeup, `newState, `timeUp, table
      ensures Ok() && Rescanning(w, k) && Buried(s, i, table[..], inc, b, k)
      ensures old(AllStruck(table[..], inc, struck)) ==> AllStruck(table[..], inc, struck)
    {
      Interrupt();
      DimsStayDone(w, old(table[..]), inc, table[..], k);
      DimsStayBuried(s, i, old(table[..]), inc, table[..], b, k);
      DimsFade(old(table[..]), table[..]);
      if AllStruck(old(table[..]), inc, struck) {
        FadesStayStruck(old(table[..]), inc, table[..], struck);
      }
    }

    method KillInRescan(ghost w: Outset, k: nat, ghost s: seq<Slot>, ghost i: seq<nat>, ghost b: nat)
      requires Ok() && Killing() && !halted && k < table.Length && Rescanning(w, k)
      requires Buried(s, i, table[..], inc, b, k) && b <= born
      requires table[k].living && table[k].named && !table[k].touched && !table[k].killed && table[k].occupied
      modifies `env, `wakeup, `newState, `timeUp, `halted, `catching, `inc, `born, `kills, `sequences, `crowded, table
      ensures Ok() && Killing() && Rescanning(w, k + 1)
      ensures Buried(s, i, table[..], inc, b, k + 1) && b <= born && (halted || |env.forks| < |old(env.forks)|)
      ensures old(AllStruck(table[..], inc, struck)) ==> AllStruck(table[..], inc, struck)
    {
      ghost var t, i', c := table[..], inc, born;
      Kill(k, false);
      KillStaysBuried(s, i, t, i', table[..], inc, b, c, k);
      KilledIsDone(w, k, t[k], i'[k], table[k], inc[k], c);
      MovesStayDone(w, t, i', table[..], inc, c, k);
      assert Chosen(w, k, i'[k]);
      if AllStruck(t, i', struck) {
        MovesStayStruck(t, i', table[..], inc, c, k, struck);
      }
    }

    method ClearTouched(ghost w: Outset)
      requires Ok() && w.Valid() && w.s == table[..] && w.inc == inc && w.born == born && w.kills == kills
      requires w.level == curState
      modifies table
      ensures Ok() && Sweeping(w, 0)
    {
      for k := 0 to table.Length
        invariant Ok() && forall j :: 0 <= j < k ==> table[j] == old(table[j]).(touched := false)
        invariant forall j :: k <= j < table.Length ==> table[j] == old(table[j])
      {
        ghost var s := table[..];
        Set(k, table[k].(touched := false));
        FlagKeepsInv(s, inc, born, kills, k, table[k]);
      }
      forall j: nat | j < table.Length ensures SweptAt(w, j, table[j], inc[j], 0) {
        assert SlotOk(w.s[j], inc[j], born, kills);
      }
    }

    // What remove() starts from with this inittab
    ghost function OutsetNow(lines: seq<Line>): Outset
      reads this, table
    {
      Outset(table[..], inc, born, kills, lines, curState, curState != prevState)
    }

    // lines is the inittab as this pass reads it.
    method Remove(lines: seq<Line>)
      requires Ok() && Killing() && !halted && AllNamed(lines)
      modifies `env, `wakeup, `newState, `timeUp, `halted, `catching, `inc, `born, `kills, `sequences, `crowded,
              `struck, table
      ensures Ok() && Killing() && KillsRight(old(OutsetNow(lines)), kills)
      ensures halted || (Done(old(OutsetNow(lines)), table[..], inc) && Settled(table[..], lines, curState))
      ensures if curState == prevState then struck == old(struck) else halted || AllStruck(table[..], inc, struck)
    {
      var change := curState != prevState;
      ghost var w := OutsetNow(lines);
      ClearTouched(w);
      SweepLines(w, lines, change);
      if !halted {
        FinishSweep(w, change);
      }
    }

    method SweepLines(ghost w: Outset, lines: seq<Line>, change: bool)
      requires Ok() && Killing() && !halted && Sweeping(w, 0) && lines == w.lines && change == w.change
      modifies `env, `wakeup, `newState, `timeUp, `halted, `catching, `inc, `born, `kills, `sequences, `crowded, table
      ensures Ok() && Killing() && KillsRight(w, kills) && (change ==> env.forks == old(env.forks))
      ensures halted || Sweeping(w, |lines|)
    {
      for l := 0 to |lines|
        invariant Ok() && Killing() && !halted && Sweeping(w, l) && (change ==> env.forks == old(env.forks))
      {
        VisitLine(w, l, lines[l], change);
        if halted {
          return;
        }
      }
    }

    // The lines have all been dealt with.
    method FinishSweep(ghost w: Outset, change: bool)
      requires Ok() && Killing() && !halted && Sweeping(w, |w.lines|)
      modifies `env, `wakeup, `newState, `timeUp, `halted, `catching, `inc, `born, `kills, `sequences, `crowded,
              `struck, table
      ensures Ok() && Killing() && KillsRight(w, kills)
      ensures halted || (Done(w, table[..], inc) && Settled(table[..], w.lines, curState))
      ensures if change then halted || AllStruck(table[..], inc, struck) else struck == old(struck)
    {
      if change {
        AwaitWarned(w);
        if halted {
          return;
        }
      }
      Rescan(w);
      if !halted {
        DoneIsSettled(w, table[..], inc);
      }
    }

    // ---- spawn() --------------------------------------------------------------------------

    // No slot but k, if any, has a name.
    ghost predicate OnlyAt(id: Id, k: int)
      reads table
    {
      forall j :: 0 <= j < table.Length && table[j].occupied && table[j].id == id ==> j == k
    }

    // The slot with this name, or else a free one, zeroed; -1 if there is neither.
    method FindPSlot(id: Id) returns (k: int)
      requires Ok() && !halted && id != NO_ID
      modifies `env, `wakeup, `newState, `timeUp, table
      ensures Ok() && -1 <= k < table.Length
      ensures Fades(old(table[..]), table[..]) && (Calm() ==> old(Calm()) && Spared(old(table[..]), table[..]))
      ensures old(env.at) <= env.at && env.forks == old(env.forks)
      ensures OnlyAt(id, k)
      ensures k != -1 ==> (table[k].occupied && table[k].id == id) || table[k] == ZEROED
      ensures k == -1 ==> forall j :: 0 <= j < table.Length ==> table[j].occupied
    {
      var empty := -1;
      var i := 0;
      while i < table.Length
        invariant Ok() && 0 <= i <= table.Length && Searched(table[..], id, i, empty)
        invariant Fades(old(table[..]), table[..]) && (Calm() ==> old(Calm()) && Spared(old(table[..]), table[..]))
        invariant old(env.at) <= env.at && env.forks == old(env.forks)
      {
        ghost var s := table[..];
        empty := PassSlot(id, i, empty);
        FadesCompose(old(table[..]), s, table[..]);
        if table[i].occupied && table[i].id == id {
          break;
        }
        i := i + 1;
      }
      if i == table.Length {
        return empty;
      }
      forall j | 0 <= j < table.Length && table[j].occupied && table[j].id == id ensures j == i {
        OneSlotEach(table[..], inc, born, kills, j, i);
      }
      return i;
    }

    // Slot i, which is zeroed if it is the first free one
    method PassSlot(id: Id, i: nat, empty0: int) returns (empty: int)
      requires Ok() && i < table.Length && Searched(table[..], id, i, empty0)
      modifies `env, `wakeup, `newState, `timeUp, table
      ensures Ok() && Searched(table[..], id, i, empty)
      ensures (table[i].occupied && table[i].id == id) || Searched(table[..], id, i + 1, empty)
      ensures Fades(old(table[..]), table[..]) && (Calm() ==> old(Calm()) && Spared(old(table[..]), table[..]))
      ensures old(env.at) <= env.at && env.forks == old(env.forks)
    {
      empty := empty0;
      Interrupt();
      ghost var s := table[..];
      DimsFade(old(table[..]), s);
      DimsStaySearched(old(table[..]), s, id, i, empty);
      if empty == -1 && !table[i].occupied {
        empty := i;
        ZeroSlot(i);
        FadesCompose(old(table[..]), s, table[..]);
      }
    }

    method ZeroSlot(k: nat)
      requires Ok() && k < table.Length && !table[k].occupied
      modifies table
      ensures Ok() && Fades(old(table[..]), table[..]) && Spared(old(table[..]), table[..])
      ensures table[..] == old(table[..])[k := ZEROED]
    {
      assert SlotOk(table[..][k], inc[k], born, kills);
      Set(k, ZEROED);
      FadesKeepInv(old(table[..]), inc, table[..], born, kills);
    }

    // What respawn() leaves behind: the slot has a process of that name, which is alive
    // unless a death was reported, or the restart was refused or the run is over.
    ghost predicate Launched(k: nat, line: Line, demand: bool)
      reads table
      requires k < table.Length
    {
      Runs(table[k], line, table[k].pid, demand)
    }

    method Respawn(k: nat, line: Line) returns (done: bool)
      requires Ok() && !halted && catching && k < table.Length && line.id != NO_ID && OnlyAt(line.id, k)
      modifies `env, `wakeup, `newState, `timeUp, `halted, `catching, `inc, `born, `refused, table
      ensures Ok() && old(env.at) <= env.at && (halted ==> !done) && (halted || catching)
      ensures done ==> NextChild(old(env.forks), table[k].pid, env.forks)
      ensures Calm() ==> old(Calm()) && SparedBut(old(table[..]), table[..], k)
      ensures FadesBut(old(table[..]), table[..], k)
      ensures if done then Launched(k, line, old(table[k].demand) || IsDemand(curState))
              else Pale(old(table[k]), table[k])
      ensures done && Calm() ==> table[k].living
      ensures done ==> table[k].series == Throttle.CLEARED
                       || table[k].series == NextSeries(old(table[k].series), line, old(env.now))
      ensures refused == if done || halted then old(refused) else old(refused) + {line.id}
      ensures !halted ==> (done <==> LetsGo(old(table[k].series), line, old(env.now)))
      ensures !done && !halted ==> env == old(env)
      ensures !done && !halted ==> var x := old(table[k]);
                table[..] == old(table[..])[k := x.(series := NextSeries(x.series, line, old(env.now)))]
      ensures old(Quiet(env)) ==> !halted && (done ==> Undisturbed())
    {
      ghost var s := table[..];
      var demand := table[k].demand || IsDemand(curState);
      var launch := CountRespawn(k, line);
      if !launch {
        refused := refused + {line.id};
        return false;
      }
      done := LaunchOver(k, line, Keeps(line.action), demand, s);
    }

    // What Launch() does, seen from the table s, which differs in the times of slot k
    method LaunchOver(k: nat, line: Line, nocleanup: bool, demand: bool, ghost s: seq<Slot>) returns (done: bool)
      requires Ok() && !halted && k < table.Length && line.id != NO_ID && OnlyAt(line.id, k)
      requires nocleanup == Keeps(line.action)
      requires k < |s| && table[..] == s[k := table[k]] && table[k] == s[k].(series := table[k].series)
      modifies `env, `wakeup, `newState, `timeUp, `halted, `catching, `inc, `born, table
      ensures Ok() && old(env.at) <= env.at && done == !halted && (halted || catching)
      ensures done ==> NextChild(old(env.forks), table[k].pid, env.forks)
      ensures Calm() ==> old(Calm()) && SparedBut(s, table[..], k)
      ensures FadesBut(s, table[..], k)
      ensures if done then Launched(k, line, demand) else Pale(s[k], table[k])
      ensures done ==> table[k].series == Throttle.CLEARED || table[k].series == old(table[k].series)
      ensures done && Calm() ==> table[k].living
      ensures old(Quiet(env)) ==> Undisturbed()
    {
      ghost var x := table[k];
      done := Launch(k, line, nocleanup, demand);
      FadesButSlot(s, x, table[..], k);
      if !done {
        FadePale(s[k], x.series, table[k]);
      }
    }

    // The clock and the count decide whether the restart of a respawn line may go ahead.
    method CountRespawn(k: nat, line: Line) returns (launch: bool)
      requires Ok() && k < table.Length && OnlyAt(line.id, k)
      modifies table
      ensures Ok() && OnlyAt(line.id, k)
      ensures launch <==> line.action != Action.Respawn || Throttle.Respawn(old(table[k].series), env.now).launched
      ensures table[k] == old(table[k]).(series := NextSeries(old(table[k].series), line, env.now))
      ensures table[..] == old(table[..])[k := table[k]]
    {
      launch := true;
      if line.action == Action.Respawn {
        var answer := Throttle.Respawn(table[k].series, env.now);
        Set(k, table[k].(series := answer.series));
        FlagKeepsInv(old(table[..]), inc, born, kills, k, table[k]);
        launch := answer.launched;
      }
    }

    method Launch(k: nat, line: Line, nocleanup: bool, demand: bool) returns (done: bool)
      requires Ok() && !halted && k < table.Length && line.id != NO_ID && OnlyAt(line.id, k)
      requires nocleanup == Keeps(line.action)
      modifies `env, `wakeup, `newState, `timeUp, `halted, `catching, `inc, `born, table
      ensures Ok() && old(env.at) <= env.at && done == !halted && (halted || catching)
      ensures done ==> NextChild(old(env.forks), table[k].pid, env.forks)
      ensures old(Quiet(env)) ==> Undisturbed()
      ensures Calm() ==> old(Calm()) && SparedBut(old(table[..]), table[..], k)
      ensures FadesBut(old(table[..]), table[..], k)
      ensures if done then Launched(k, line, demand) else Fade(old(table[k]), table[k])
      ensures done ==> table[k].series == Throttle.CLEARED || table[k].series == old(table[k].series)
      ensures done && Calm() ==> table[k].living
    {
      ghost var s := table[..];
      catching := false;
      var c := EFork(k, nocleanup, true, demand);
      if halted {
        assert Fade(s[k], table[..][k]);
        return false;
      }
      Name(k, line.id, s);
      ghost var named := table[..];
      CatchDeaths();
      DimsFadeBut(s, named, table[..], k);
      assert Dim(named[k], table[..][k]);
      return true;
    }

    method Name(k: nat, id: Id, ghost s: seq<Slot>)
      requires Ok() && k < table.Length && |s| == table.Length && table[k].named
      requires FadesBut(s, table[..], k)
      requires forall j :: 0 <= j < table.Length && s[j].occupied && s[j].id == id ==> j == k
      modifies table
      ensures Ok() && table[..] == old(table[..])[k := old(table[k]).(id := id)] && FadesBut(s, table[..], k)
    {
      assert forall j :: 0 <= j < table.Length && j != k ==> Fade(s[j], table[..][j]);
      NamingKeepsInv(table[..], inc, born, kills, k, id);
      Set(k, table[k].(id := id));
    }

    // waitproc(); the status is 16 bits wide.
    method WaitProc(k: nat) returns (dead: bool, status: int)
      requires Ok() && !halted && k < table.Length
      modifies `env, `wakeup, `newState, `timeUp, `halted, table
      ensures Ok() && Fades(old(table[..]), table[..])
      ensures Calm() ==> old(Calm()) && SparedBut(old(table[..]), table[..], k)
      ensures old(env.at) <= env.at && env.forks == old(env.forks) && Heard()
      ensures dead || halted || (Coming() < old(Coming()) && table[k].living)
      ensures halted ==> !dead
      ensures dead ==> table[k].Idle() && status == table[k].exit % 65536
      ensures !old(table[k].living) ==> env == old(env)
      ensures old(table[k].living) ==> NewsNow() == NewsAfter(batches, old(NewsNow()), curState)
      ensures halted <==> old(table[k].living) && old(Coming()) == 0
    {
      dead, status := false, 0;
      if table[k].living {
        ghost var batch := PauseFor();
        HeardBatch(batches, old(NewsNow()), curState);
      }
      DimsFade(old(table[..]), table[..]);
      if halted || table[k].living {
        return;
      }
      status := table[k].exit % 65536;
      ghost var s := table[..];
      FreeSlot(k);
      FadesCompose(old(table[..]), s, table[..]);
      dead := true;
    }

    // while (waitproc(process) == FAILURE);
    method AwaitEnd(k: nat) returns (status: int)
      requires Ok() && !halted && k < table.Length
      modifies `env, `wakeup, `newState, `timeUp, `halted, table
      ensures Ok() && Fades(old(table[..]), table[..])
      ensures Calm() ==> old(Calm()) && SparedBut(old(table[..]), table[..], k)
      ensures old(env.at) <= env.at && env.forks == old(env.forks) && Heard()
      ensures halted || (table[k].Idle() && status == table[k].exit % 65536)
    {
      var dead := false;
      status := 0;
      while !dead
        invariant Ok() && !halted && Fades(old(table[..]), table[..])
        invariant Calm() ==> old(Calm()) && SparedBut(old(table[..]), table[..], k)
        invariant old(env.at) <= env.at && env.forks == old(env.forks) && Heard()
        invariant dead ==> table[k].Idle() && status == table[k].exit % 65536
        decreases Coming(), !dead
      {
        dead, status := WaitMore(k, old(table[..]), old(Calm()), old(NewsNow()));
        if halted {
          return;
        }
      }
    }

    // Some time before, the table was s and the news were a; c says whether init was calm.
    method WaitMore(k: nat, ghost s: seq<Slot>, ghost c: bool, ghost a: News) returns (dead: bool, status: int)
      requires Ok() && !halted && k < table.Length && Fades(s, table[..]) && HeardFrom(a)
      requires Calm() ==> c && SparedBut(s, table[..], k)
      modifies `env, `wakeup, `newState, `timeUp, `halted, table
      ensures Ok() && Fades(s, table[..]) && HeardFrom(a) && (Calm() ==> c && SparedBut(s, table[..], k))
      ensures old(env.at) <= env.at && env.forks == old(env.forks)
      ensures dead || halted || (Coming() < old(Coming()) && table[k].living)
      ensures dead ==> table[k].Idle() && status == table[k].exit % 65536
    {
      dead, status := WaitProc(k);
      FadesCompose(s, old(table[..]), table[..]);
      HeardMeanwhile(batches, a, old(NewsNow()), NewsNow(), curState);
    }

    // The news were a some time before.
    ghost predicate HeardFrom(a: News)
      reads `env, `newState, `wakeup, `curState
    {
      HeardOf(batches, a, NewsNow(), curState)
    }

    // What one line makes spawn() do, once its slot is found
    method SpawnAt(ghost allowed: seq<Line>, k: nat, line: Line) returns (ghost act: Act)
      requires Ok() && !halted && catching && line in allowed && line.id != NO_ID
      requires k < table.Length && OnlyAt(line.id, k)
      requires (table[k].occupied && table[k].id == line.id) || table[k] == ZEROED
      modifies `env, `wakeup, `newState, `timeUp, `halted, `catching, `inc, `born, `refused, table
      ensures Ok() && old(env.at) <= env.at && (halted || catching)
      ensures opModes == NormalModes && old(Settled(table[..], allowed, curState))
              ==> Settled(table[..], allowed, curState)
      ensures Calm() ==> old(Calm()) && Spared(old(table[..]), table[..])
      ensures refused == if act == Refused then old(refused) + {line.id} else old(refused)
      ensures !halted ==> ActOk(line, old(table[..]), k, old(env.now), act, table[..], opModes, curState, prevState)
      ensures !halted ==> ForksUsed(old(env.forks), act, env.forks)
      ensures Calm() && !halted && opModes == NormalModes && Wanted(line, curState)
              ==> Serves(table[..], line.id) || line.id in refused
    {
      assert SlotOk(table[k], inc[k], born, kills);
      var start, waits := Decide(k, line);
      if !start {
        return Passed;
      }
      if waits {
        act := StartAndWait(allowed, k, line);
      } else {
        act := Start(allowed, k, line);
      }
    }

    // Is the line to be started, and waited for?
    method Decide(k: nat, line: Line) returns (start: bool, waits: bool)
      requires k < table.Length
      ensures start <==> !Skips(table[k], line, opModes, curState, prevState)
      ensures start ==> (waits <==> Waits(line.action))
    {
      if table[k].demand && !table[k].living && (LA in line.levels || LB in line.levels || LC in line.levels)
         && line.action == Action.Respawn && opModes == NormalModes {
        return true, false;
      }
      if !InModes(line.action, opModes) || table[k].living || !Admits(line, curState) {
        return false, false;
      }
      if opModes == NormalModes
         && (line.action == Off || ((line.action == Once || line.action == Wait) && curState == prevState)) {
        return false, false;
      }
      return true, !(line.action == Once || line.action == Action.Respawn || line.action == PowerFail
                     || line.action == Boot);
    }

    // respawn(process,&cmd); while (waitproc(process) == FAILURE);
    method StartAndWait(ghost allowed: seq<Line>, k: nat, line: Line) returns (ghost act: Act)
      requires Ok() && !halted && catching && line in allowed && line.id != NO_ID
      requires k < table.Length && OnlyAt(line.id, k) && Waits(line.action)
      requires !table[k].living && Admits(line, curState) && (opModes == NormalModes ==> line.action != Off)
      modifies `env, `wakeup, `newState, `timeUp, `halted, `catching, `inc, `born, `refused, table
      ensures Ok() && old(env.at) <= env.at && (halted || catching)
      ensures opModes == NormalModes && old(Settled(table[..], allowed, curState))
              ==> Settled(table[..], allowed, curState)
      ensures Calm() ==> old(Calm()) && SparedBut(old(table[..]), table[..], k)
      ensures refused == old(refused) && act != Refused
      ensures !halted ==> table[k].Idle() && act.Started? && NextChild(old(env.forks), act.pid, env.forks)
    {
      act := Start(allowed, k, line);
      if !halted {
        ghost var t := table[..];
        var status := AwaitEnd(k);
        SparedButCompose(old(table[..]), t, table[..], k);
        if opModes == NormalModes && old(Settled(table[..], allowed, curState)) {
          FadesStaySettled(t, table[..], allowed, curState);
        }
      }
    }

    // respawn() from within spawn()
    method Start(ghost allowed: seq<Line>, k: nat, line: Line) returns (ghost act: Act)
      requires Ok() && !halted && catching && line in allowed && line.id != NO_ID
      requires k < table.Length && OnlyAt(line.id, k)
      requires !table[k].living
              && (table[k].demand || (Admits(line, curState) && (opModes == NormalModes ==> line.action != Off)))
      modifies `env, `wakeup, `newState, `timeUp, `halted, `catching, `inc, `born, `refused, table
      ensures Ok() && old(env.at) <= env.at && (halted || catching)
      ensures opModes == NormalModes && old(Settled(table[..], allowed, curState))
              ==> Settled(table[..], allowed, curState)
      ensures Calm() ==> old(Calm()) && SparedBut(old(table[..]), table[..], k)
      ensures refused == if act == Refused then old(refused) + {line.id} else old(refused)
      ensures act == Refused ==> !LetsGo(old(table[k].series), line, old(env.now))
      ensures !halted
              ==> StartOk(old(table[..]), k, line, old(env.now), act) && ForksUsed(old(env.forks), act, env.forks)
      ensures Calm() && !halted ==> table[k].living || line.id in refused
    {
      ghost var s := table[..];
      var done := Respawn(k, line);
      act := if done then Started(table[k].pid) else if halted then Passed else Refused;
      if opModes == NormalModes && Settled(s, allowed, curState) {
        LaunchStaysSettled(s, table[..], k, allowed, curState);
      }
    }

    // The line was started in slot k of table s, or the throttle has refused it.
    ghost predicate StartOk(s: seq<Slot>, k: nat, line: Line, now: int, act: Act)
      reads `curState, table
      requires k < |s| && k < table.Length
    {
      var x := s[k];
      if LetsGo(x.series, line, now)
      then act.Started? && Runs(table[k], line, act.pid, x.demand || IsDemand(curState))
      else act == Refused && table[..] == s[k := x.(series := NextSeries(x.series, line, now))]
    }

    method SpawnLine(ghost allowed: seq<Line>, line: Line) returns (ghost v: Visit)
      requires Ok() && !halted && catching && line in allowed && line.id != NO_ID
      modifies `env, `wakeup, `newState, `timeUp, `halted, `catching, `inc, `born, `refused, table
      ensures Ok() && (halted || catching)
      ensures opModes == NormalModes && old(Settled(table[..], allowed, curState))
              ==> Settled(table[..], allowed, curState)
      ensures Calm() ==> old(Calm()) && Spared(old(table[..]), table[..])
      ensures refused == if v.act == Refused || v.k == -1 then old(refused) + {line.id} else old(refused)
      ensures Fades(old(table[..]), v.found) && v.after == table[..]
      ensures !halted ==> VisitOk(line, v, opModes, curState, prevState) && ForksUsed(old(env.forks), v.act, env.forks)
      ensures Calm() && !halted && opModes == NormalModes && Wanted(line, curState)
              ==> Serves(table[..], line.id) || line.id in refused
    {
      var k := FindPSlot(line.id);
      ghost var found, now, act := table[..], env.now, Passed;
      if Settled(old(table[..]), allowed, curState) {
        FadesStaySettled(old(table[..]), table[..], allowed, curState);
      }
      if k == -1 {
        refused := refused + {line.id};
      } else {
        act := SpawnAt(allowed, k, line);
      }
      v := Visit(found, k, now, act, table[..]);
    }

    // lines is the inittab as this pass reads it, and allowed has these lines and those that
    // remove() read.
    method Spawn(lines: seq<Line>, ghost allowed: seq<Line>) returns (ghost scan: Scan)
      requires Ok() && !halted && catching && AllNamed(lines) && forall l :: 0 <= l < |lines| ==> lines[l] in allowed
      modifies `env, `wakeup, `newState, `timeUp, `halted, `catching, `inc, `born, `refused, `opModes, table
      ensures Ok() && (halted || catching) && opModes == if old(wakeup.powerHit) then PfModes else old(opModes)
      ensures opModes == NormalModes && old(Settled(table[..], allowed, curState))
              ==> Settled(table[..], allowed, curState)
      ensures Calm() && !halted && opModes == NormalModes ==> AllServed(table[..], lines, |lines|, curState, refused)
      ensures ScanFrom(scan, lines, old(table[..]), old(env.forks)) && (halted || ScanTo(scan, |lines|))
    {
      refused := {};
      CheckPower();
      scan := Scan(lines, opModes, curState, prevState, table[..], [], [env.forks]);
      for l := 0 to |lines|
        invariant Ok() && !halted && catching && opModes == if old(wakeup.powerHit) then PfModes else old(opModes)
        invariant ScanFrom(scan, lines, old(table[..]), old(env.forks)) && ScanTo(scan, l)
        invariant opModes == NormalModes && old(Settled(table[..], allowed, curState))
                ==> Settled(table[..], allowed, curState)
        invariant Calm() && opModes == NormalModes ==> AllServed(table[..], lines, l, curState, refused)
      {
        scan := SpawnNext(allowed, lines, l, scan);
        if halted {
          return;
        }
      }
    }

    // A power failure is noted.
    method CheckPower()
      modifies `wakeup, `opModes
      ensures wakeup == old(wakeup).(powerHit := false)
      ensures opModes == if old(wakeup.powerHit) then PfModes else old(opModes)
    {
      if wakeup.powerHit {
        wakeup := wakeup.(powerHit := false);
        opModes := PfModes;
      }
    }

    // What a scan starts from, in the modes and levels of init
    ghost predicate ScanFrom(scan: Scan, lines: seq<Line>, s: seq<Slot>, f: seq<Fork>)
      reads `opModes, `curState, `prevState
    {
      && scan.lines == lines && scan.modes == opModes && scan.cur == curState && scan.prev == prevState
      && scan.before == s && scan.forks != [] && scan.forks[0] == f
    }

    // Its first n lines have led to the present state.
    ghost predicate ScanTo(scan: Scan, n: nat)
      reads `env, `refused, table
    {
      scan.UpTo(n) && scan.Table(n) == table[..] && scan.forks[n] == env.forks && scan.Refuses(refused)
    }

    // Line l
    method SpawnNext(ghost allowed: seq<Line>, lines: seq<Line>, l: nat, ghost scan0: Scan) returns (ghost scan: Scan)
      requires Ok() && !halted && catching && AllNamed(lines) && l < |lines| && lines[l] in allowed
      requires ScanTo(scan0, l) && ScanFrom(scan0, lines, scan0.before, scan0.forks[0])
      modifies `env, `wakeup, `newState, `timeUp, `halted, `catching, `inc, `born, `refused, table
      ensures Ok() && (halted || catching) && ScanFrom(scan, lines, scan0.before, scan0.forks[0])
      ensures halted || ScanTo(scan, l + 1)
      ensures opModes == NormalModes && old(Settled(table[..], allowed, curState))
              ==> Settled(table[..], allowed, curState)
      ensures Calm() && !halted && opModes == NormalModes
              ==> old(Calm()) && (old(AllServed(table[..], lines, l, curState, refused))
                                  ==> AllServed(table[..], lines, l + 1, curState, refused))
    {
      ghost var s, r := table[..], refused;
      ghost var v := SpawnLine(allowed, lines[l]);
      scan := scan0;
      if halted {
        return;
      }
      scan0.OneMore(l, v, env.forks);
      scan0.RefusesMore(r, v, env.forks);
      scan := scan0.With(v, env.forks);
      if Calm() && opModes == NormalModes && AllServed(s, lines, l, curState, r) {
        StillServed(s, table[..], lines, l, curState, r, refused);
      }
    }

    // ---- Single-user mode -------------------------------------------------------------------

    // efork() for a child without a name, tried until it has a slot. If no fork(2) fails, each try
    // but the last takes a batch of events, or none if init does not wait.
    method ForkAnonymous(waits: bool) returns (k: nat)
      requires Ok() && !halted
      modifies `env, `wakeup, `newState, `timeUp, `halted, `catching, `inc, `born, table
      ensures Ok() && catching && Moves(old(table[..]), old(inc), table[..], inc, old(born)) && Heard()
      ensures old(born) <= born && (halted || (k < table.Length && old(born) <= inc[k] && table[k].id == NO_ID))
      ensures |env.forks| <= |old(env.forks)| && (halted || |env.forks| < |old(env.forks)|)
      ensures NoFailure(old(env.forks)) && !halted
              ==> env.at - old(env.at) == if waits then |old(env.forks)| - |env.forks| - 1 else 0
    {
      catching := false;
      var slot := ForkOnce(false, old(table[..]), old(inc), old(born), old(NewsNow()));
      while slot == -1 && !halted
        invariant Ok() && !catching && -1 <= slot < table.Length && old(born) <= born && HeardFrom(old(NewsNow()))
        invariant Moves(old(table[..]), old(inc), table[..], inc, old(born))
        invariant slot != -1 ==> old(born) <= inc[slot] && table[slot].id == NO_ID
        invariant |env.forks| <= |old(env.forks)| && (halted || |env.forks| < |old(env.forks)|)
        invariant NoFailure(old(env.forks)) && !halted
                  ==> NoFailure(env.forks)
                      && env.at - old(env.at) == if waits then |old(env.forks)| - |env.forks| - 1 else 0
        decreases |env.forks|, !halted
      {
        slot := ForkOnce(waits, old(table[..]), old(inc), old(born), old(NewsNow()));
      }
      ghost var s := table[..];
      CatchDeaths();
      DimsMove(old(table[..]), old(inc), s, inc, table[..], old(born));
      assert slot != -1 ==> Dim(s[slot], table[..][slot]);
      k := if slot == -1 then 0 else slot;
    }

    // One try, perhaps after a pause(); s and i are the table and its processes some time before,
    // b the next number then, and a the news.
    method ForkOnce(waits: bool, ghost s: seq<Slot>, ghost i: seq<nat>, ghost b: nat, ghost a: News)
      returns (slot: int)
      requires Ok() && !halted && !catching && Moves(s, i, table[..], inc, b) && b <= born && HeardFrom(a)
      modifies `env, `wakeup, `newState, `timeUp, `halted, `catching, `inc, `born, table
      ensures Ok() && Moves(s, i, table[..], inc, b) && b <= born && HeardFrom(a)
      ensures -1 <= slot < table.Length && (slot != -1 ==> b <= inc[slot] && table[slot].id == NO_ID)
      ensures |env.forks| <= |old(env.forks)| && (halted || |env.forks| < |old(env.forks)|)
      ensures !catching && (halted ==> slot == -1)
      ensures NoFailure(old(env.forks)) && !halted
              ==> NoFailure(env.forks) && |env.forks| == |old(env.forks)| - 1
                  && env.at - old(env.at) == if waits then 1 else 0
    {
      if waits {
        Pause();
        DimsMove(s, i, old(table[..]), inc, table[..], b);
        HeardMeanwhile(batches, a, old(NewsNow()), NewsNow(), curState);
        if halted {
          return -1;
        }
      }
      slot := ForkSlot(s, i, b, a);
    }

    method ForkSlot(ghost s: seq<Slot>, ghost i: seq<nat>, ghost b: nat, ghost a: News) returns (slot: int)
      requires Ok() && !halted && !catching && Moves(s, i, table[..], inc, b) && b <= born && HeardFrom(a)
      modifies `env, `wakeup, `newState, `timeUp, `halted, `catching, `inc, `born, table
      ensures Ok() && Moves(s, i, table[..], inc, b) && b <= born && HeardFrom(a)
      ensures -1 <= slot < table.Length && (slot != -1 ==> b <= inc[slot] && table[slot].id == NO_ID)
      ensures |env.forks| <= |old(env.forks)| && (halted || |env.forks| < |old(env.forks)|)
      ensures !catching && (halted ==> slot == -1)
      ensures NoFailure(old(env.forks)) && !halted ==> env == old(env).(forks := old(env.forks)[1..])
    {
      slot := EFork(-1, true, false, false);
      EForkMoves(old(table[..]), old(inc), slot, old(born), true);
      MovesCompose(s, i, old(table[..]), old(inc), table[..], inc, b, old(born));
      HeardMeanwhile(batches, a, old(NewsNow()), NewsNow(), curState);
    }

    // A child born at b or later, now dead and its slot free, had this level as its exit code.
    ghost predicate AskedFor(level: Level, b: nat)
      reads this, table
    {
      exists k :: 0 <= k < table.Length && k < |inc| && ExitedWith(table[k], inc[k], level, b)
    }

    predicate ExitedWith(x: Slot, n: nat, level: Level, b: nat) {
      x.Idle() && n >= b && level == LevelOf(x.exit % 65536)
    }

    // getlvl(): the exit code of a child that asks for the level
    method GetLvl() returns (level: Level)
      requires Ok() && !halted
      modifies `env, `wakeup, `newState, `timeUp, `halted, `catching, `inc, `born, table
      ensures Ok() && catching && Drifts(old(table[..]), old(inc), table[..], inc, old(born)) && Heard()
      ensures |env.forks| <= |old(env.forks)| && old(born) <= born && (halted || |env.forks| < |old(env.forks)|)
      ensures halted || (AskedFor(level, old(born)) && wakeup == ASLEEP)
    {
      level := Other(0);
      var k := ForkAnonymous(false);
      if halted {
        MovesDrift(old(table[..]), old(inc), table[..], inc, old(born));
      } else {
        level := AwaitAnswer(k, old(table[..]), old(inc), old(born), old(NewsNow()));
      }
    }

    // The end of the child in slot k; s, i, b and a are the table, the processes, the next number and the
    // news some time before.
    method AwaitAnswer(k: nat, ghost s: seq<Slot>, ghost i: seq<nat>, ghost b: nat, ghost a: News)
      returns (level: Level)
      requires Ok() && !halted && k < table.Length && Moves(s, i, table[..], inc, b) && HeardFrom(a) && inc[k] >= b
      modifies `env, `wakeup, `newState, `timeUp, `halted, table
      ensures Ok() && Drifts(s, i, table[..], inc, b) && HeardFrom(a) && env.forks == old(env.forks)
      ensures halted || (AskedFor(level, b) && wakeup == ASLEEP)
    {
      var status := AwaitEnd(k);
      FadesDrift(s, i, old(table[..]), inc, table[..], b);
      HeardMeanwhile(batches, a, old(NewsNow()), NewsNow(), curState);
      level := LevelOf(status);
      if !halted {
        wakeup := ASLEEP;
        assert ExitedWith(table[k], inc[k], level, b);
      }
    }

    ghost function Now(): Levels
      reads `curState, `prevState, `priorState
    {
      Levels(curState, prevState, priorState)
    }

    // The loop over waitproc(): su ends, or a signal asks for one of the levels 0 to 6; what
    // arrives between the test of this level and its use is the batch. While su lives no such
    // signal passes unheeded.
    method WatchSu(k: nat) returns (changed: bool, ghost tested: Level, ghost batch: seq<Event>)
      requires Ok() && !halted && k < table.Length && curState == SingleUser
      modifies `env, `wakeup, `newState, `timeUp, `halted, `curState, `prevState, `priorState, table
      ensures Ok() && env.forks == old(env.forks) && Fades(old(table[..]), table[..])
      ensures changed ==> TookUp(old(NewsNow()), tested, batch)
      ensures !changed ==> Now() == old(Now()) && Heard() && (halted || table[k].Idle())
      ensures !changed ==> Unheeded(batches, old(env.at), env.at - if halted then 0 else 1)
    {
      tested, batch := newState, [];
      changed := false;
      var dead := false;
      while !dead && !changed
        invariant Ok() && !halted && env.forks == old(env.forks) && Fades(old(table[..]), table[..])
        invariant !changed ==> Now() == old(Now()) && HeardFrom(old(NewsNow()))
        invariant !changed
                ==> Unheeded(batches, old(env.at), env.at - if dead then 1 else 0) && (dead ==> table[k].Idle())
        invariant changed ==> TookUp(old(NewsNow()), tested, batch)
        decreases Coming(), !dead && !changed
      {
        dead, changed, tested, batch := WatchOnce(k, old(table[..]), old(NewsNow()));
        if halted {
          return;
        }
      }
    }

    // A level that a signal asked for, tested and then taken up, is not the same if something came in
    // between; a were the news some time before.
    ghost predicate TookUp(a: News, tested: Level, batch: seq<Event>)
      reads `wakeup, `curState, `prevState, `priorState
    {
      && IsRunLevel(tested) && ToldOf(batches, a, tested, SingleUser) && wakeup == ASLEEP
      && Now() == Levels(AskedBy(tested, SingleUser, batch, |batch|), SingleUser, SingleUser)
      && Comes(batches, a.at, batch)
    }

    // One call of waitproc(), and what follows if su lives
    method WatchOnce(k: nat, ghost s: seq<Slot>, ghost a: News)
      returns (dead: bool, changed: bool, ghost tested: Level, ghost batch: seq<Event>)
      requires Ok() && !halted && k < table.Length && curState == SingleUser
      requires Fades(s, table[..]) && HeardFrom(a) && Unheeded(batches, a.at, env.at)
      modifies `env, `wakeup, `newState, `timeUp, `halted, `curState, `prevState, `priorState, table
      ensures Ok() && Fades(s, table[..]) && env.forks == old(env.forks) && old(env.at) <= env.at
      ensures !dead && !changed && !halted ==> Coming() < old(Coming())
      ensures !changed
              ==> Now() == old(Now()) && HeardFrom(a) && Unheeded(batches, a.at, env.at - if dead then 1 else 0)
      ensures (halted ==> !dead && !changed) && (dead ==> table[k].Idle())
      ensures !dead && !halted ==> wakeup == ASLEEP
      ensures changed ==> TookUp(a, tested, batch)
    {
      dead := WaitUnheeded(k, s, a);
      changed, tested, batch := false, newState, [];
      if halted {
        return;
      }
      if !dead {
        if wakeup.userSignal && IsRunLevel(newState) {
          tested, batch := TakeLevel(s, a);
          changed := true;
        } else {
          wakeup := ASLEEP;
        }
      }
    }

    method WaitUnheeded(k: nat, ghost s: seq<Slot>, ghost a: News) returns (dead: bool)
      requires Ok() && !halted && k < table.Length && curState == SingleUser
      requires Fades(s, table[..]) && HeardFrom(a) && Unheeded(batches, a.at, env.at)
      modifies `env, `wakeup, `newState, `timeUp, `halted, table
      ensures Ok() && Fades(s, table[..]) && HeardFrom(a) && env.forks == old(env.forks)
      ensures old(env.at) <= env.at && (dead || halted || Coming() < old(Coming()))
      ensures halted ==> !dead && Unheeded(batches, a.at, env.at)
      ensures dead ==> table[k].Idle() && Unheeded(batches, a.at, env.at - 1)
      ensures !dead && !halted && !(wakeup.userSignal && IsRunLevel(newState)) ==> Unheeded(batches, a.at, env.at)
    {
      ghost var news, living := NewsNow(), table[k].living;
      var status;
      dead, status := WaitProc(k);
      FadesCompose(s, old(table[..]), table[..]);
      HeardMeanwhile(batches, a, news, NewsNow(), curState);
      if living {
        UnheededMore(batches, a.at, news, curState);
      }
    }

    // The level just tested, or what a signal has put in its place since, is taken up; s is
    // the table and a were the news some time before.
    method TakeLevel(ghost s: seq<Slot>, ghost a: News) returns (ghost tested: Level, ghost batch: seq<Event>)
      requires Ok() && !halted && curState == SingleUser && Fades(s, table[..]) && HeardFrom(a)
      requires wakeup.userSignal
      modifies `env, `wakeup, `newState, `timeUp, `curState, `prevState, `priorState, table
      ensures Ok() && env.forks == old(env.forks) && Fades(s, table[..])
      ensures tested == old(newState) && (IsRunLevel(tested) ==> TookUp(a, tested, batch))
      ensures newState == Other(0) && wakeup == ASLEEP
      ensures old(env.at) <= env.at
    {
      tested := newState;
      ToldSince(batches, a, NewsNow(), curState);
      batch := InterruptTaking(s, a.at);
      prevState, priorState, curState, newState := curState, curState, newState, Other(0);
      wakeup := ASLEEP;
    }

    // A point where init can be interrupted, with the level tested and not yet taken up; s is the table
    // and at the number of batches some time before.
    method InterruptTaking(ghost s: seq<Slot>, ghost at: nat) returns (batch: seq<Event>)
      requires Ok() && Fades(s, table[..]) && at <= env.at
      modifies `env, `wakeup, `newState, `timeUp, table
      ensures Ok() && Fades(s, table[..]) && env.forks == old(env.forks) && old(env.at) <= env.at
      ensures newState == AskedBy(old(newState), curState, batch, |batch|) && Comes(batches, at, batch)
    {
      batch := Interrupted();
      DimsFade(old(table[..]), table[..]);
      FadesCompose(s, old(table[..]), table[..]);
      assert batch == BatchAt(batches, old(env.at));
    }

    // What single() ends with: a level that a signal asked for and that was tested, with what came
    // before its use; or the default or what a child asked for. a were the news at the beginning
    // and b was the number of the next process.
    ghost predicate SingleEnds(defaultLevel: Option<Level>, a: News, b: nat, tested: Level, batch: seq<Event>)
      reads this, table
    {
      || (IsRunLevel(tested) && ToldOf(batches, a, tested, SingleUser)
              && curState == AskedBy(tested, SingleUser, batch, |batch|)
          && Comes(batches, a.at, batch))
      || (curState != SingleUser
              && if defaultLevel.Some? then curState == defaultLevel.value else AskedFor(curState, b))
    }

    // Unless the level of a signal is taken up, it is another one; a signal for single-user mode
    // itself is taken up only if it arrives between the test of an earlier one and its use.
    method Single(defaultLevel: Option<Level>, ghost allowed: seq<Line>)
      returns (ghost tested: Level, ghost batch: seq<Event>)
      requires Ok() && !halted && catching && curState == SingleUser
      modifies `env, `wakeup, `newState, `timeUp, `halted, `catching, `inc, `born, `curState, `prevState,
              `priorState, table
      ensures Ok() && (halted || (catching && Now() == Levels(curState, SingleUser, SingleUser)))
      ensures halted || (SingleEnds(defaultLevel, old(NewsNow()), old(born), tested, batch)
                         && |env.forks| < |old(env.forks)|)
      ensures !halted && curState == SingleUser ==> SlipsBack(batch, |batch|)
      ensures old(Settled(table[..], allowed, SingleUser)) ==> Settled(table[..], allowed, SingleUser)
    {
      tested, batch := newState, [];
      while true
        invariant Ok() && !halted && catching && curState == SingleUser && old(born) <= born
        invariant HeardFrom(old(NewsNow())) && |env.forks| <= |old(env.forks)|
        invariant old(Settled(table[..], allowed, SingleUser)) ==> Settled(table[..], allowed, SingleUser)
        decreases |env.forks|
      {
        var over;
        over, tested, batch := SingleRound(defaultLevel, allowed, old(NewsNow()), old(born));
        if over || halted {
          return;
        }
      }
    }

    // su, and the question for a level when it has ended; a were the news and b the next number some
    // time before.
    method SingleRound(defaultLevel: Option<Level>, ghost allowed: seq<Line>, ghost a: News, ghost b: nat)
      returns (over: bool, ghost tested: Level, ghost batch: seq<Event>)
      requires Ok() && !halted && catching && curState == SingleUser && b <= born && HeardFrom(a)
      modifies `env, `wakeup, `newState, `timeUp, `halted, `catching, `inc, `born, `curState, `prevState,
              `priorState, table
      ensures Ok() && b <= born && (halted || (catching && |env.forks| < |old(env.forks)|))
      ensures over && !halted ==> SingleEnds(defaultLevel, a, b, tested, batch)
                                  && Now() == Levels(curState, SingleUser, SingleUser)
                                  && (curState == SingleUser ==> SlipsBack(batch, |batch|))
      ensures !over ==> curState == SingleUser && HeardFrom(a)
      ensures !over && !halted
              ==> if defaultLevel.Some? then defaultLevel.value == SingleUser else AskedFor(SingleUser, b)
      ensures old(Settled(table[..], allowed, SingleUser)) ==> Settled(table[..], allowed, SingleUser)
    {
      over, tested, batch := SuShell(allowed, a);
      if over || halted {
        return;
      }
      over := AskNext(defaultLevel, allowed, a, b);
    }

    // The question for a level, and whether it is another one
    method AskNext(defaultLevel: Option<Level>, ghost allowed: seq<Line>, ghost a: News, ghost b: nat)
      returns (over: bool)
      requires Ok() && !halted && catching && curState == SingleUser && b <= born && HeardFrom(a)
      modifies `env, `wakeup, `newState, `timeUp, `halted, `catching, `inc, `born, `curState, `prevState,
              `priorState, table
      ensures Ok() && b <= born && catching && |env.forks| <= |old(env.forks)|
      ensures over ==> !halted && Now() == Levels(curState, SingleUser, SingleUser) && curState != SingleUser
                       && if defaultLevel.Some? then curState == defaultLevel.value else AskedFor(curState, b)
      ensures !over ==> curState == SingleUser && HeardFrom(a)
      ensures !over && !halted
              ==> if defaultLevel.Some? then defaultLevel.value == SingleUser else AskedFor(SingleUser, b)
      ensures old(Settled(table[..], allowed, SingleUser)) ==> Settled(table[..], allowed, SingleUser)
    {
      over := false;
      ghost var next := born;
      var level := AskLevel(defaultLevel, allowed, a);
      if halted {
        return;
      }
      if defaultLevel.None? {
        EarlierBirth(level, b, next);
      }
      if level != SingleUser {
        prevState, priorState, curState := curState, curState, level;
        over := true;
      }
    }

    // su is started and watched.
    method SuShell(ghost allowed: seq<Line>, ghost a: News)
      returns (changed: bool, ghost tested: Level, ghost batch: seq<Event>)
      requires Ok() && !halted && curState == SingleUser && HeardFrom(a)
      modifies `env, `wakeup, `newState, `timeUp, `halted, `catching, `inc, `born, `curState, `prevState,
              `priorState, table
      ensures Ok() && catching && old(born) <= born && (halted || |env.forks| < |old(env.forks)|)
      ensures old(Settled(table[..], allowed, SingleUser)) ==> Settled(table[..], allowed, SingleUser)
      ensures changed && curState == SingleUser ==> SlipsBack(batch, |batch|)
      ensures changed ==> TookUp(a, tested, batch)
      ensures !changed ==> Now() == old(Now()) && HeardFrom(a) && (halted || SuEnded(old(born)))
    {
      var k := ForkAnonymous(true);
      HeardMeanwhile(batches, a, old(NewsNow()), NewsNow(), curState);
      if Settled(old(table[..]), allowed, SingleUser) {
        MovesDrift(old(table[..]), old(inc), table[..], inc, old(born));
        DriftsStaySettled(old(table[..]), old(inc), table[..], inc, old(born), allowed, SingleUser);
      }
      changed, tested, batch := false, newState, [];
      if !halted {
        changed, tested, batch := WatchShell(k, allowed, a);
        assert !changed && !halted ==> table[k].Idle() && inc[k] >= old(born);
      }
    }

    // A child born at b or later has given up its slot.
    ghost predicate SuEnded(b: nat)
      reads `inc, table
    {
      exists k :: 0 <= k < table.Length && k < |inc| && table[k].Idle() && inc[k] >= b
    }

    method WatchShell(k: nat, ghost allowed: seq<Line>, ghost a: News)
      returns (changed: bool, ghost tested: Level, ghost batch: seq<Event>)
      requires Ok() && !halted && k < table.Length && curState == SingleUser && HeardFrom(a)
      modifies `env, `wakeup, `newState, `timeUp, `halted, `curState, `prevState, `priorState, table
      ensures Ok() && env.forks == old(env.forks)
      ensures old(Settled(table[..], allowed, SingleUser)) ==> Settled(table[..], allowed, SingleUser)
      ensures changed && curState == SingleUser ==> SlipsBack(batch, |batch|)
      ensures changed ==> TookUp(a, tested, batch)
      ensures !changed ==> Now() == old(Now()) && HeardFrom(a) && (halted || table[k].Idle())
    {
      ghost var news := NewsNow();
      changed, tested, batch := WatchSu(k);
      if Settled(old(table[..]), allowed, SingleUser) {
        FadesStaySettled(old(table[..]), table[..], allowed, SingleUser);
      }
      if changed {
        SlipsBackIff(tested, batch, |batch|);
        ToldBefore(batches, a, news, tested, SingleUser);
      } else {
        HeardMeanwhile(batches, a, news, NewsNow(), curState);
      }
    }

    // The default or else getlvl()
    method AskLevel(defaultLevel: Option<Level>, ghost allowed: seq<Line>, ghost a: News) returns (level: Level)
      requires Ok() && !halted && catching && HeardFrom(a)
      modifies `env, `wakeup, `newState, `timeUp, `halted, `catching, `inc, `born, table
      ensures Ok() && catching && |env.forks| <= |old(env.forks)| && old(born) <= born && HeardFrom(a)
      ensures old(Settled(table[..], allowed, SingleUser)) ==> Settled(table[..], allowed, SingleUser)
      ensures if defaultLevel.Some? then level == defaultLevel.value && env == old(env) && table[..] == old(table[..])
                                         && !halted
              else halted || (AskedFor(level, old(born)) && |env.forks| < |old(env.forks)|)
    {
      if defaultLevel.Some? {
        return defaultLevel.value;
      }
      level := GetLvl();
      HeardMeanwhile(batches, a, old(NewsNow()), NewsNow(), curState);
      if Settled(old(table[..]), allowed, SingleUser) {
        DriftsStaySettled(old(table[..]), old(inc), table[..], inc, old(born), allowed, SingleUser);
      }
    }

    lemma EarlierBirth(level: Level, b: nat, c: nat)
      requires AskedFor(level, c) && b <= c
      ensures AskedFor(level, b)
    {
      var k :| 0 <= k < table.Length && k < |inc| && ExitedWith(table[k], inc[k], level, c);
      assert ExitedWith(table[k], inc[k], level, b);
    }

    // The process of CO gets slot 0, nothing else happening.
    method StartFirst()
      requires Ok() && !halted && catching && table.Length == 1 && table[0] == ZEROED && !IsDemand(curState)
      requires Quiet(env) && env.forks[0] == Child(7) && wakeup == ASLEEP
      modifies `env, `wakeup, `newState, `timeUp, `halted, `catching, `inc, `born, `refused, table
      ensures Ok() && catching && !halted && wakeup == ASLEEP && refused == old(refused)
      ensures env == old(env).(forks := old(env.forks)[1..]) && OnlyProcess(table[0])
    {
      assert Throttle.Respawn(Throttle.CLEARED, env.now).launched;
      var done := Respawn(0, CO);
    }

    // The same at level 2
    method StartAtTwo()
      requires Sound() && !halted && catching && table.Length == 1 && table[0] == ZEROED
      requires Quiet(env) && env.forks[0] == Child(7) && wakeup == ASLEEP
      modifies `env, `wakeup, `newState, `timeUp, `halted, `catching, `inc, `born, `refused, `curState, `opModes, table
      ensures Sound() && catching && !halted && wakeup == ASLEEP && refused == old(refused)
      ensures curState == L2 && opModes == NormalModes
      ensures env == old(env).(forks := old(env.forks)[1..]) && OnlyProcess(table[0])
    {
      curState, opModes := L2, NormalModes;
      StartFirst();
    }

    // ---- The main loop ----------------------------------------------------------------------

    // Whenever init went to sleep, everything was as it should be.
    ghost predicate NapsOk()
      reads `naps
    {
      forall i :: 0 <= i < |naps| ==> NapOk(naps[i])
    }

    ghost predicate Sound()
      reads `inc, `born, `kills, `sequences, `crowded, `halted, `catching, `naps, `env, table
    {
      Ok() && Killing() && NapsOk()
    }

    // Ready to sleep: all that has to go is being killed, and all that has to live is alive as
    // far as init knows, unless it strayed back to single-user mode.
    ghost predicate Ready(tab: Inittab, stray: bool)
      reads `wakeup, `curState, `refused, table
    {
      && Settled(table[..], Allowed(tab), curState) && AllNamed(tab.spawned)
      && (Calm() && !stray ==> AllServed(table[..], tab.spawned, |tab.spawned|, curState, refused))
    }

    // The batches of the news a have been taken up to the present ones, and nothing was forgotten.
    ghost predicate FollowedFrom(a: News)
      reads `env, `newState, `wakeup, `curState
    {
      Followed(batches, a, NewsNow(), curState)
    }

    // A point where init can be interrupted; a were the news some time before.
    method InterruptNews(ghost a: News) returns (gap: seq<Event>)
      requires Ok() && FollowedFrom(a)
      modifies `env, `wakeup, `newState, `timeUp, table
      ensures Ok() && Disturbed() && FollowedFrom(a)
      ensures env.at == old(env.at) + 1
      ensures gap == BatchAt(batches, old(env.at)) && (gap == [] ==> wakeup == old(wakeup))
      ensures catching ==> table[..] == AfterEvents(old(table[..]), gap, |gap|)
    {
      gap := Interrupted();
      FollowedMore(batches, a, old(NewsNow()), curState);
    }

    method PauseNews(ghost a: News)
      requires Ok() && FollowedFrom(a)
      modifies `env, `wakeup, `newState, `timeUp, `halted, table
      ensures Ok() && Disturbed() && FollowedFrom(a)
      ensures env.at == old(env.at) + 1
      ensures halted <==> old(halted) || old(Coming()) == 0
    {
      ghost var batch := PauseFor();
      FollowedMore(batches, a, old(NewsNow()), curState);
    }

    // A point where init can be interrupted before it sleeps
    method InterruptReady(ghost tab: Inittab, ghost stray: bool, ghost a: News) returns (gap: seq<Event>)
      requires Sound() && Ready(tab, stray) && FollowedFrom(a)
      modifies `env, `wakeup, `newState, `timeUp, table
      ensures Sound() && Ready(tab, stray) && FollowedFrom(a)
      ensures env.at == old(env.at) + 1
      ensures gap == BatchAt(batches, old(env.at)) && (gap == [] ==> wakeup == old(wakeup))
      ensures catching ==> table[..] == AfterEvents(old(table[..]), gap, |gap|)
    {
      gap := InterruptNews(a);
      DimsFade(old(table[..]), table[..]);
      FadesStaySettled(old(table[..]), table[..], Allowed(tab), curState);
    }

    method PauseReady(ghost tab: Inittab, ghost stray: bool, ghost a: News)
      requires Sound() && !halted && Ready(tab, stray) && FollowedFrom(a)
      modifies `env, `wakeup, `newState, `timeUp, `halted, table
      ensures Sound() && Ready(tab, stray) && FollowedFrom(a)
      ensures env.at == old(env.at) + 1
      ensures halted <==> old(Coming()) == 0
    {
      PauseNews(a);
      DimsFade(old(table[..]), table[..]);
      FadesStaySettled(old(table[..]), table[..], Allowed(tab), curState);
    }

    // Nothing having happened, one pause(); but something may happen before it.
    method Doze(ghost tab: Inittab, ghost stray: bool, ghost a: News)
      requires Sound() && !halted && Ready(tab, stray) && wakeup == ASLEEP && FollowedFrom(a)
      modifies `env, `wakeup, `newState, `timeUp, `halted, `naps, table
      ensures Sound() && (halted || Ready(tab, stray)) && FollowedFrom(a)
      ensures naps == old(naps) + [NapNow(old(table[..]), BatchAt(batches, old(env.at)), tab, stray)]
      ensures env.at == old(env.at) + 2
      ensures halted <==> old(Coming()) < 2
    {
      RecordNap(tab, stray, a);
      PauseReady(tab, stray, a);
    }

    // A doze without a past
    method DozeFirst(ghost tab: Inittab)
      requires Sound() && !halted && Ready(tab, false) && wakeup == ASLEEP
      modifies `env, `wakeup, `newState, `timeUp, `halted, `naps, table
      ensures Sound()
      ensures naps == old(naps) + [NapNow(old(table[..]), BatchAt(batches, old(env.at)), tab, false)]
    {
      Doze(tab, false, NewsNow());
    }

    ghost function NapNow(s: seq<Slot>, gap: seq<Event>, tab: Inittab, stray: bool): Nap
      reads `curState, `refused
    {
      Nap(s, gap, AfterEvents(s, gap, |gap|), tab, curState, refused, stray)
    }

    // What happens between the test and the pause() goes on record.
    method RecordNap(ghost tab: Inittab, ghost stray: bool, ghost a: News)
      requires Sound() && Ready(tab, stray) && wakeup == ASLEEP && catching && FollowedFrom(a)
      modifies `env, `wakeup, `newState, `timeUp, `naps, table
      ensures Sound() && Ready(tab, stray) && FollowedFrom(a)
      ensures naps == old(naps) + [NapNow(old(table[..]), BatchAt(batches, old(env.at)), tab, stray)]
      ensures env.at == old(env.at) + 1
    {
      ghost var gap := InterruptReady(tab, stray, a);
      ghost var nap := NapNow(old(table[..]), gap, tab, stray);
      RecordIsOk(nap, inc, born, kills);
      naps := naps + [nap];
    }

    // The naps from the n-th on were taken at this level, with these names refused.
    ghost predicate NapsAt(n: nat, tab: Inittab, level: Level, names: set<Id>, stray: bool)
      reads `naps
    {
      forall i :: n <= i < |naps| ==> naps[i].level == level && naps[i].refused == names
                                      && naps[i].tab == tab && naps[i].stray == stray
    }

    ghost predicate NapsHere(n: nat, tab: Inittab, stray: bool)
      reads `naps, `curState, `refused
    {
      NapsAt(n, tab, curState, refused, stray)
    }

    // One more nap
    method NapOn(ghost n: nat, ghost tab: Inittab, ghost stray: bool, ghost a: News)
      requires Sound() && !halted && Ready(tab, stray) && wakeup == ASLEEP && n <= |naps| && NapsHere(n, tab, stray)
      requires FollowedFrom(a)
      modifies `env, `wakeup, `newState, `timeUp, `halted, `naps, table
      ensures Sound() && (halted || Ready(tab, stray)) && NapsHere(n, tab, stray) && FollowedFrom(a)
      ensures old(naps) <= naps && |naps| == |old(naps)| + 1
      ensures env.at == old(env.at) + 2 && (halted <==> old(Coming()) < 2)
    {
      Doze(tab, stray, a);
    }

    // pause() until something has happened: every pause is on record. Each takes one batch of
    // events before it begins and one that ends it; a were the news some time before.
    method Sleep(ghost tab: Inittab, ghost stray: bool, ghost a: News)
      requires Sound() && !halted && Ready(tab, stray) && FollowedFrom(a)
      modifies `env, `wakeup, `newState, `timeUp, `halted, `naps, table
      ensures Sound() && old(naps) <= naps && FollowedFrom(a)
      ensures env.at - old(env.at) == 2 * (|naps| - |old(naps)|) && (|naps| > |old(naps)| || !halted)
      ensures |naps| > |old(naps)| ==> (halted <==> env.at > |batches|)
      ensures NapsHere(|old(naps)|, tab, stray)
      ensures (halted || wakeup != ASLEEP) && (old(wakeup) == ASLEEP ==> |naps| > |old(naps)|)
    {
      timeUp := false;
      while wakeup == ASLEEP
        invariant Sound() && !halted && Ready(tab, stray) && old(naps) <= naps && FollowedFrom(a)
        invariant if |naps| > |old(naps)| then env.at <= |batches| else wakeup == old(wakeup)
        invariant env.at - old(env.at) == 2 * (|naps| - |old(naps)|)
        invariant NapsHere(|old(naps)|, tab, stray)
        decreases Coming()
      {
        NapOn(|old(naps)|, tab, stray, a);
        if halted {
          return;
        }
        timeUp := false;
      }
    }

    // A point where init can be interrupted after its sleep
    method InterruptWaking() returns (batch: seq<Event>)
      requires Ok()
      modifies `env, `wakeup, `newState, `timeUp, table
      ensures Ok() && newState == AskedBy(old(newState), curState, batch, |batch|)
      ensures wakeup.powerHit <==> old(wakeup.powerHit) || HitBy(batch, |batch|)
      ensures env.at == old(env.at) + 1 && batch == BatchAt(batches, old(env.at))
    {
      batch := Interrupted();
    }

    // The level a signal asked for. The level is read for a first test, for the question whether
    // it is one of a, b and c, and for its use; b has what arrives between these readings and
    // before it is forgotten.
    method NewLevel() returns (ghost b: seq<seq<Event>>)
      requires Ok()
      modifies `env, `wakeup, `newState, `timeUp, `curState, `prevState, `priorState, table
      ensures Ok() && |b| == 3 && Now() == Taken(old(Now()), old(newState), b[0], b[1])
      ensures newState == Other(0) && (wakeup.powerHit <==> old(wakeup.powerHit) || PowerFails(b))
      ensures old(newState) != old(curState) ==> Arrives(old(env.at), b)
    {
      ghost var b0, b1 := [], [];
      if newState != curState {
        b0, b1 := ChangeLevel();
      }
      ghost var b2 := InterruptWaking();
      newState := Other(0);
      b := [b0, b1, b2];
    }

    // b has three batches from this on.
    ghost predicate Arrives(at: nat, b: seq<seq<Event>>) {
      |b| == 3 && b[0] == BatchAt(batches, at) && b[1] == BatchAt(batches, at + 1) && b[2] == BatchAt(batches, at + 2)
    }

    method ChangeLevel() returns (ghost b0: seq<Event>, ghost b1: seq<Event>)
      requires Ok() && newState != curState
      modifies `env, `wakeup, `newState, `timeUp, `curState, `prevState, `priorState, table
      ensures Ok() && Now() == Taken(old(Now()), old(newState), b0, b1)
      ensures wakeup.powerHit <==> old(wakeup.powerHit) || HitBy(b0, |b0|) || HitBy(b1, |b1|)
      ensures b0 == BatchAt(batches, old(env.at)) && b1 == BatchAt(batches, old(env.at) + 1)
      ensures env.at == old(env.at) + 2
    {
      b0 := InterruptWaking();
      var demand := IsDemand(newState);
      b1 := InterruptWaking();
      if demand {
        prevState, priorState, curState := priorState, curState, newState;
      } else {
        prevState, priorState, curState := curState, curState, newState;
      }
    }

    // One round of the main loop, and the record of it
    method Pass(tab: Inittab) returns (ghost r: Round)
      requires Sound() && !halted && AllNamed(tab.swept) && AllNamed(tab.spawned)
      modifies `env, `wakeup, `newState, `timeUp, `halted, `catching, `inc, `born, `kills, `sequences, `crowded,
              `struck, `refused, `naps, `opModes, `curState, `prevState, `priorState, table
      ensures Sound() && old(naps) <= naps && r.Ok() && r.tab == tab && r.modes == old(opModes)
      ensures r.levels == old(Now()) && r.before == old(table[..])
      ensures NapsFit(|old(naps)|, r)
      ensures halted || (r.stage == Ended && r.end == Now() && r.endModes == opModes)
    {
      r := PassRemove(tab);
      if halted {
        return;
      }
      r := PassSpawn(tab, r);
      if halted {
        return;
      }
      r := PassRest(tab, r);
    }

    // What follows spawn()
    method PassRest(tab: Inittab, ghost r0: Round) returns (ghost r: Round)
      requires Sound() && !halted && AllNamed(tab.spawned) && Bound(r0, tab) && r0.stage == Spawned
      requires r0.scan.modes == opModes && (opModes == NormalModes && !IsDemand(curState) ==> Ready(tab, false))
      requires r0.refused == refused
      modifies `env, `wakeup, `newState, `timeUp, `halted, `catching, `inc, `born, `naps, `opModes, `curState,
              `prevState, `priorState, table
      ensures Sound() && old(naps) <= naps && r.Ok() && r.tab == r0.tab && r.modes == r0.modes
      ensures r.levels == r0.levels && r.before == r0.before
      ensures NapsFit(|old(naps)|, r)
      ensures halted || (r.stage == Ended && r.end == Now() && r.endModes == opModes)
    {
      var over;
      ghost var stray;
      over, stray, r := PassSingle(tab, r0);
      if !halted && !over {
        r := PassEnd(tab, stray, r);
      }
    }

    // single(), if init is in single-user mode; the round is over if that ended with another level
    // but a, b and c.
    method PassSingle(tab: Inittab, ghost r0: Round) returns (over: bool, ghost stray: bool, ghost r: Round)
      requires Sound() && !halted && AllNamed(tab.spawned) && Bound(r0, tab) && r0.stage == Spawned
      requires r0.scan.modes == opModes && (opModes == NormalModes && !IsDemand(curState) ==> Ready(tab, false))
      modifies `env, `wakeup, `newState, `timeUp, `halted, `catching, `inc, `born, `curState, `prevState,
              `priorState, table
      ensures Sound() && r.Ok() && r.tab == r0.tab && r.modes == r0.modes && r.levels == r0.levels
              && r.before == r0.before
      ensures over ==> halted || (r.stage == Ended && r.end == Now() && r.endModes == opModes)
      ensures !over && !halted ==> r.stage == Levelled && r.left == Now() && r.scan.modes == opModes
      ensures !over && !halted && r0.levels.cur == SingleUser ==> curState == SingleUser || IsDemand(curState)
      ensures !over && !halted && opModes == NormalModes && !IsDemand(curState) ==> Ready(tab, stray)
      ensures r.refused == r0.refused && (stray ==> r0.levels.cur == SingleUser == curState)
    {
      over, stray, r := false, false, r0.(left := Now(), stage := Levelled);
      if curState == SingleUser {
        r := Stay(tab, r0);
        if halted {
          return;
        }
        over, stray := curState != prevState && !IsDemand(curState), curState == SingleUser;
        if over {
          r := r.(end := Now(), endModes := opModes, stage := Ended);
        }
      }
    }

    lemma NapsFitRound(n: nat, tab: Inittab, level: Level, stray: bool, r: Round)
      requires NapsAt(n, tab, level, refused, stray) && r.stage.Rank() >= 3 && r.tab == tab && r.left.cur == level
      requires r.refused == refused && (stray ==> r.levels.cur == SingleUser == level)
      ensures NapsFit(n, r)
    {
    }

    // The naps from the n-th on were taken in this round.
    ghost predicate NapsFit(n: nat, r: Round)
      reads `naps
    {
      forall i :: n <= i < |naps| ==> NapFits(naps[i], r)
    }

    ghost predicate Bound(r: Round, tab: Inittab)
      reads `curState, `prevState, `priorState
    {
      r.Ok() && r.tab == tab && r.levels == Now()
    }

    // remove(), or its omission
    method PassRemove(tab: Inittab) returns (ghost r: Round)
      requires Sound() && !halted && AllNamed(tab.swept)
      modifies `env, `wakeup, `newState, `timeUp, `halted, `catching, `inc, `born, `kills, `sequences, `crowded,
              `struck, table
      ensures Sound() && Bound(r, tab) && r.modes == opModes && r.before == old(table[..])
      ensures halted || (r.stage == Removed && r.swept == table[..])
      ensures halted || (opModes == NormalModes && !IsDemand(curState) ==> Settled(table[..], Allowed(tab), curState))
    {
      ghost var w := OutsetNow(tab.swept);
      r := Round(tab, opModes, Now(), table[..], w, table[..], inc, Scan([], opModes, curState, prevState, [], [], []),
                 {}, Now(), false, curState, [[], [], []], Now(), opModes, Begun);
      if opModes == NormalModes && !IsDemand(curState) {
        Remove(tab.swept);
        if halted {
          return;
        }
        SettledMore(table[..], tab.swept, tab.spawned, curState);
      }
      r := r.(swept := table[..], inc := inc, stage := Removed);
    }

    // spawn()
    method PassSpawn(tab: Inittab, ghost r0: Round) returns (ghost r: Round)
      requires Sound() && !halted && AllNamed(tab.spawned) && Bound(r0, tab) && r0.modes == opModes
      requires r0.stage == Removed && r0.swept == table[..]
      requires opModes == NormalModes && !IsDemand(curState) ==> Settled(table[..], Allowed(tab), curState)
      modifies `env, `wakeup, `newState, `timeUp, `halted, `catching, `inc, `born, `refused, `opModes, table
      ensures Sound() && Bound(r, tab) && r.modes == r0.modes && r.before == r0.before
      ensures halted || (r.stage == Spawned && r.scan.modes == opModes && r.scan.Table(|tab.spawned|) == table[..]
                         && r.refused == refused)
      ensures !halted && opModes == NormalModes && !IsDemand(curState) ==> Ready(tab, false)
    {
      ghost var scan := Spawn(tab.spawned, Allowed(tab));
      r := r0;
      if !halted {
        r := ScanOf(r0, scan, refused);
      }
    }

    // single-user mode, in a round of the main loop
    method Stay(ghost tab: Inittab, ghost r0: Round) returns (ghost r: Round)
      requires Sound() && !halted && curState == SingleUser && AllNamed(tab.spawned)
      requires opModes == NormalModes ==> Settled(table[..], Allowed(tab), curState)
      requires Bound(r0, tab) && r0.stage == Spawned && r0.scan.modes == opModes
      modifies `env, `wakeup, `newState, `timeUp, `halted, `catching, `inc, `born, `curState, `prevState,
              `priorState, table
      ensures Sound() && (halted || Now() == Levels(curState, SingleUser, SingleUser))
      ensures opModes == NormalModes && curState == SingleUser && !halted ==> Ready(tab, true)
      ensures r == if halted then r0 else r0.(left := Now(), stage := Levelled)
      ensures halted || (r.Ok() && |env.forks| < |old(env.forks)|)
      ensures halted || exists tested, batch :: SingleEnds(None, old(NewsNow()), old(born), tested, batch)
    {
      ghost var tested, batch := Single(None, Allowed(tab));
      r := r0;
      if !halted {
        r := r0.(left := Now(), stage := Levelled);
      }
    }

    // The rest of the round
    method PassOn(ghost tab: Inittab, ghost stray: bool, ghost r0: Round) returns (ghost r: Round)
      requires Sound() && !halted && r0.Ok() && r0.stage == Levelled && r0.left == Now() && r0.scan.modes == opModes
      requires r0.levels.cur == SingleUser ==> curState == SingleUser || IsDemand(curState)
      requires opModes == NormalModes && !IsDemand(curState) ==> Ready(tab, stray)
      modifies `env, `wakeup, `newState, `timeUp, `halted, `naps, `opModes, `curState, `prevState, `priorState, table
      ensures Sound() && old(naps) <= naps && r.Ok() && r.tab == r0.tab && r.modes == r0.modes
      ensures r.levels == r0.levels && r.before == r0.before
      ensures NapsAt(|old(naps)|, tab, old(curState), refused, stray)
      ensures r.stage.Rank() >= 3 && r.scan == r0.scan && r.left == r0.left && r.refused == r0.refused
      ensures halted || (r.stage == Ended && r.end == Now() && r.endModes == opModes)
    {
      ghost var hit, cur := wakeup.powerHit, curState;
      ghost var news, b := Continue(tab, stray);
      if halted {
        r := r0;
      } else {
        r := EndOf(r0, hit, AskedLevel(news, cur), b, Now(), opModes);
      }
    }

    method PassEnd(ghost tab: Inittab, ghost stray: bool, ghost r0: Round) returns (ghost r: Round)
      requires Sound() && !halted && r0.Ok() && r0.stage == Levelled && r0.left == Now() && r0.scan.modes == opModes
      requires r0.levels.cur == SingleUser ==> curState == SingleUser || IsDemand(curState)
      requires r0.refused == refused && (stray ==> r0.levels.cur == SingleUser == curState) && r0.tab == tab
      requires opModes == NormalModes && !IsDemand(curState) ==> Ready(tab, stray)
      modifies `env, `wakeup, `newState, `timeUp, `halted, `naps, `opModes, `curState, `prevState, `priorState, table
      ensures Sound() && old(naps) <= naps && r.Ok() && r.tab == r0.tab && r.modes == r0.modes
      ensures r.levels == r0.levels && r.before == r0.before && NapsFit(|old(naps)|, r)
      ensures halted || (r.stage == Ended && r.end == Now() && r.endModes == opModes)
    {
      r := PassOn(tab, stray, r0);
      NapsFitRound(|old(naps)|, tab, r0.left.cur, stray, r);
    }

    // The level the news ask for
    ghost function AskedLevel(news: News, cur: Level): Level {
      if news.told then news.asked else cur
    }

    // The rest of a round, spawn() having been called in the present mode; news are those when a sleep
    // has ended, and b what arrives then.
    method Continue(ghost tab: Inittab, ghost stray: bool) returns (ghost news: News, ghost b: seq<seq<Event>>)
      requires Sound() && !halted
      requires opModes == NormalModes && !IsDemand(curState) ==> Ready(tab, stray)
      modifies `env, `wakeup, `newState, `timeUp, `halted, `naps, `opModes, `curState, `prevState, `priorState, table
      ensures Sound() && old(naps) <= naps
      ensures NapsAt(|old(naps)|, tab, old(curState), refused, stray)
      ensures halted
              || GoesOn(old(Now()), old(opModes), old(wakeup.powerHit), AskedLevel(news, old(curState)), b, Now(),
                      opModes)
      ensures if !old(wakeup.powerHit) && old(opModes) == NormalModes && !IsDemand(old(curState))
              then Slept(old(wakeup), old(NewsNow()), news, b, |old(naps)|, old(curState))
              else !halted && naps == old(naps) && env == old(env) && table[..] == old(table[..])
    {
      news, b := NewsNow(), [[], [], []];
      if wakeup.powerHit {
        opModes, prevState := PfModes, Other(0);
      } else if opModes != NormalModes {
        if opModes == PfModes {
          prevState := curState;
        }
        opModes := NormalModes;
      } else if IsDemand(curState) {
        curState, priorState := priorState, prevState;
        prevState := curState;
      } else {
        news, b := SleepAndWake(tab, stray);
      }
    }

    // init has slept, unless something had happened before: the news when it woke up follow those
    // before, no signal being lost, and b has what arrived while it changed the level.
    ghost predicate Slept(awake: Wakeup, a: News, news: News, b: seq<seq<Event>>, naps0: nat, cur: Level)
      reads `naps, `halted
    {
      && (awake == ASLEEP && BatchAt(batches, a.at) == [] ==> |naps| > naps0)
      && (!halted ==> Followed(batches, a, news, cur) && (news.told && news.asked != cur ==> Arrives(news.at, b)))
    }

    method SleepAndWake(ghost tab: Inittab, ghost stray: bool)
      returns (ghost news: News, ghost b: seq<seq<Event>>)
      requires Sound() && !halted && Ready(tab, stray) && opModes == NormalModes
      modifies `env, `wakeup, `newState, `timeUp, `halted, `naps, `opModes, `curState, `prevState, `priorState, table
      ensures Sound() && old(naps) <= naps && |b| == 3
      ensures halted || Woken(Levels(old(curState), old(curState), old(priorState)), AskedLevel(news, old(curState)), b)
      ensures NapsAt(|old(naps)|, tab, old(curState), refused, stray)
      ensures Slept(old(wakeup), old(NewsNow()), news, b, |old(naps)|, old(curState))
    {
      b := [[], [], []];
      news := Rest(tab, stray);
      if !halted {
        b := WakeUp();
      }
    }

    // init has attended to what woke it up, having been at l and asked for a level.
    ghost predicate Woken(l: Levels, asked: Level, b: seq<seq<Event>>)
      reads `wakeup, `opModes, `curState, `prevState, `priorState
    {
      |b| == 3 && wakeup == ASLEEP && opModes != BootModes && Now() == Taken(l, asked, b[0], b[1])
    }

    // Wake(), all else staying sound
    method WakeUp() returns (ghost b: seq<seq<Event>>)
      requires Sound() && opModes == NormalModes
      modifies `env, `wakeup, `newState, `timeUp, `opModes, `curState, `prevState, `priorState, table
      ensures Sound() && |b| == 3 && Woken(old(Now()), AskedLevel(old(NewsNow()), old(curState)), b)
      ensures old(wakeup.userSignal) && old(newState) != old(curState) ==> Arrives(old(env.at), b)
    {
      b := Wake();
    }

    // A sleep, which something may precede; news are those at its end.
    method Rest(ghost tab: Inittab, ghost stray: bool) returns (ghost news: News)
      requires Sound() && !halted && Ready(tab, stray)
      modifies `env, `wakeup, `newState, `timeUp, `halted, `naps, `prevState, table
      ensures Sound() && old(naps) <= naps && news == NewsNow() && (halted || wakeup != ASLEEP) && prevState == curState
      ensures Followed(batches, old(NewsNow()), news, curState)
      ensures NapsAt(|old(naps)|, tab, curState, refused, stray)
      ensures old(wakeup) == ASLEEP && BatchAt(batches, old(env.at)) == [] ==> |naps| > |old(naps)|
    {
      prevState := curState;
      Slumber(tab, stray, NewsNow());
      news := NewsNow();
    }

    method Slumber(ghost tab: Inittab, ghost stray: bool, ghost a: News)
      requires Sound() && !halted && Ready(tab, stray) && FollowedFrom(a)
      modifies `env, `wakeup, `newState, `timeUp, `halted, `naps, table
      ensures Sound() && old(naps) <= naps && FollowedFrom(a) && (halted || wakeup != ASLEEP)
      ensures NapsHere(|old(naps)|, tab, stray)
      ensures old(wakeup) == ASLEEP && BatchAt(batches, old(env.at)) == [] ==> |naps| > |old(naps)|
    {
      var gap := InterruptReady(tab, stray, a);
      Sleep(tab, stray, a);
    }

    // What woke init up is attended to; b has what arrives meanwhile. The level of a signal
    // that is not noted before the tests is forgotten.
    method Wake() returns (ghost b: seq<seq<Event>>)
      requires Ok() && opModes == NormalModes
      modifies `env, `wakeup, `newState, `timeUp, `opModes, `curState, `prevState, `priorState, table
      ensures Ok() && wakeup == ASLEEP && |b| == 3
      ensures opModes == if old(wakeup.powerHit) || PowerFails(b) then PfModes else NormalModes
      ensures Now() == if old(wakeup.userSignal) then Taken(old(Now()), old(newState), b[0], b[1]) else old(Now())
      ensures Now() == Taken(old(Now()), AskedLevel(old(NewsNow()), old(curState)), b[0], b[1])
      ensures old(wakeup.userSignal) && old(newState) != old(curState) ==> Arrives(old(env.at), b)
    {
      b := [[], [], []];
      if wakeup.userSignal {
        b := NewLevel();
      }
      if wakeup.powerHit {
        opModes := PfModes;
      }
      ghost var late := InterruptWaking();
      wakeup := ASLEEP;
    }

    // init from the moment its table is empty. The level is that of the initdefault line.
    constructor (slots: nat, batches: seq<seq<Event>>, env: Env)
      ensures Sound() && naps == [] && kills == multiset{} && curState == SingleUser
      ensures fresh(table) && table[..] == seq(slots, i => ZEROED)
      ensures this.batches == batches && this.env == env && wakeup == ASLEEP && !halted && catching
      ensures sequences == multiset{} && crowded == {} && refused == {}
    {
      this.batches, this.env := batches, env;
      table := new Slot[slots](i => ZEROED);
      curState, prevState, priorState, newState := SingleUser, Other(0), Other(0), Other(0);
      opModes, wakeup, timeUp, catching, halted := BootModes, ASLEEP, true, true, false;
      inc, born, kills := seq(slots, i => 0), 1, multiset{};
      sequences, crowded, struck, refused, naps := multiset{}, {}, {}, {}, [];
    }

    // The first level: the default if it is not single-user mode, and else what a child asked for or
    // single() ended with
    method Begin(defaultLevel: Option<Level>)
      requires Sound() && !halted && curState == SingleUser
      modifies `env, `wakeup, `newState, `timeUp, `halted, `catching, `inc, `born, `curState, `prevState,
              `priorState, table
      ensures Sound() && (halted || Now() == Levels(curState, SingleUser, SingleUser))
      ensures defaultLevel.Some? && defaultLevel.value != SingleUser
              ==> !halted && curState == defaultLevel.value && env == old(env) && table[..] == old(table[..])
      ensures halted || (defaultLevel.Some? && curState == defaultLevel.value)
              || exists tested, batch :: SingleEnds(defaultLevel, old(NewsNow()), old(born), tested, batch)
    {
      ghost var a, b := NewsNow(), born;
      var level := AskLevel(defaultLevel, [], a);
      if !halted {
        BeginAt(level, defaultLevel, a, b);
      }
    }

    // The level is known; a were the news and b the next number some time before.
    method BeginAt(level: Level, defaultLevel: Option<Level>, ghost a: News, ghost b: nat)
      requires Sound() && !halted && catching && curState == SingleUser && HeardFrom(a) && b <= born
      requires if defaultLevel.Some? then level == defaultLevel.value else AskedFor(level, b)
      modifies `env, `wakeup, `newState, `timeUp, `halted, `catching, `inc, `born, `curState, `prevState,
              `priorState, table
      ensures Sound() && (halted || Now() == Levels(curState, SingleUser, SingleUser))
      ensures level != SingleUser ==> !halted && curState == level && env == old(env) && table[..] == old(table[..])
      ensures halted || (defaultLevel.Some? && curState == defaultLevel.value)
              || exists tested, batch :: SingleEnds(defaultLevel, a, b, tested, batch)
    {
      if level == SingleUser {
        BeginAlone(defaultLevel, a, b);
      } else {
        prevState, priorState, curState := curState, curState, level;
        assert defaultLevel.None? ==> SingleEnds(defaultLevel, a, b, level, []);
      }
    }

    method BeginAlone(defaultLevel: Option<Level>, ghost a: News, ghost b: nat)
      requires Sound() && !halted && catching && curState == SingleUser && HeardFrom(a) && b <= born
      modifies `env, `wakeup, `newState, `timeUp, `halted, `catching, `inc, `born, `curState, `prevState,
              `priorState, table
      ensures Sound() && (halted || Now() == Levels(curState, SingleUser, SingleUser))
      ensures halted || exists tested, batch :: SingleEnds(defaultLevel, a, b, tested, batch)
    {
      ghost var news, next := NewsNow(), born;
      ghost var tested, batch := Single(defaultLevel, []);
      if !halted {
        EndsBefore(defaultLevel, a, b, news, next, tested, batch);
      }
    }

    lemma EndsBefore(defaultLevel: Option<Level>, a: News, b: nat, a1: News, b1: nat, tested: Level, batch: seq<Event>)
      requires HeardOf(batches, a, a1, SingleUser) && b <= b1 && SingleEnds(defaultLevel, a1, b1, tested, batch)
      ensures SingleEnds(defaultLevel, a, b, tested, batch)
    {
      if ToldOf(batches, a1, tested, SingleUser) {
        ToldBefore(batches, a, a1, tested, SingleUser);
      }
      if AskedFor(curState, b1) {
        EarlierBirth(curState, b, b1);
      }
    }

    // The whole run, as far as the given rounds and the given environment take it, and the record of
    // its rounds
    method Run(defaultLevel: Option<Level>, rounds: seq<Inittab>) returns (ghost log: seq<Round>)
      requires Sound() && !halted && curState == SingleUser
      requires forall i :: 0 <= i < |rounds| ==> AllNamed(rounds[i].swept) && AllNamed(rounds[i].spawned)
      modifies this, table
      ensures Sound() && LogOk(log, rounds) && (halted || |log| == |rounds|) && NapsLogged(|old(naps)|, log)
      ensures log != [] ==> log[0].modes == old(opModes) && log[0].levels.prev == SingleUser
      ensures defaultLevel.Some? && defaultLevel.value != SingleUser && rounds != []
              ==> log != [] && log[0].levels == Levels(defaultLevel.value, SingleUser, SingleUser)
                  && log[0].before == old(table[..])
    {
      log := [];
      Begin(defaultLevel);
      if !halted {
        log := RunRounds(rounds);
      }
    }

    // All the rounds
    method RunRounds(rounds: seq<Inittab>) returns (ghost log: seq<Round>)
      requires Sound() && !halted
      requires forall i :: 0 <= i < |rounds| ==> AllNamed(rounds[i].swept) && AllNamed(rounds[i].spawned)
      modifies `env, `wakeup, `newState, `timeUp, `halted, `catching, `inc, `born, `kills, `sequences, `crowded,
              `struck, `refused, `naps, `opModes, `curState, `prevState, `priorState, table
      ensures Sound() && LogOk(log, rounds) && (halted || |log| == |rounds|) && NapsLogged(|old(naps)|, log)
      ensures log == [] <==> rounds == []
      ensures log != [] ==> StartsFrom(log[0], old(opModes), old(Now()), old(table[..]))
    {
      log := [];
      for i := 0 to |rounds|
        invariant Sound() && LogOk(log, rounds) && (halted || |log| == i) && NapsLogged(|old(naps)|, log)
        invariant i == 0 ==> log == [] && opModes == old(opModes) && Now() == old(Now()) && table[..] == old(table[..])
        invariant i == 0 ==> !halted && |naps| == |old(naps)|
        invariant i > 0 ==> log != [] && StartsFrom(log[0], old(opModes), old(Now()), old(table[..]))
        invariant !halted && log != [] ==> Follows(log[|log| - 1])
      {
        if halted {
          return;
        }
        log := RunOn(rounds, i, log, |old(naps)|);
      }
    }

    predicate StartsFrom(r: Round, modes: Modes, levels: Levels, table: seq<Slot>) {
      r.modes == modes && r.levels == levels && r.before == table
    }

    // Every nap from the n-th on was taken in one of the rounds.
    ghost predicate NapsLogged(n: nat, log: seq<Round>)
      reads `naps
    {
      n <= |naps| && forall i :: n <= i < |naps| ==> Logged(naps[i], log)
    }

    // One more round; the naps from the n-th on are of interest.
    method RunOn(rounds: seq<Inittab>, i: nat, ghost log0: seq<Round>, ghost n: nat) returns (ghost log: seq<Round>)
      requires Sound() && !halted && |log0| == i < |rounds| && LogOk(log0, rounds) && NapsLogged(n, log0)
      requires log0 != [] ==> Follows(log0[|log0| - 1])
      requires AllNamed(rounds[i].swept) && AllNamed(rounds[i].spawned)
      modifies `env, `wakeup, `newState, `timeUp, `halted, `catching, `inc, `born, `kills, `sequences, `crowded,
              `struck, `refused, `naps, `opModes, `curState, `prevState, `priorState, table
      ensures Sound() && LogOk(log, rounds) && |log| == |log0| + 1 && log[..|log0|] == log0 && NapsLogged(n, log)
      ensures halted || Follows(log[|log0|])
      ensures StartsFrom(log[|log0|], old(opModes), old(Now()), old(table[..]))
    {
      ghost var r := Pass(rounds[i]);
      log := log0 + [r];
      LogOn(log0, rounds, r);
      forall j | n <= j < |naps| ensures Logged(naps[j], log) {
        LoggedOn(naps[j], log0, r);
      }
    }

    // The round is over, and led to the present levels and modes.
    ghost predicate Follows(r: Round)
      reads `curState, `prevState, `priorState, `opModes
    {
      r.stage == Ended && r.end == Now() && r.endModes == opModes
    }
  }

  // The rounds of a run, each with its inittab and each beginning where the one before has ended
  ghost predicate LogOk(log: seq<Round>, rounds: seq<Inittab>) {
    && |log| <= |rounds| && (forall i :: 0 <= i < |log| ==> RoundFits(log, rounds, i))
    && forall i :: 1 <= i < |log| ==> Follow(log, i)
  }

  ghost predicate RoundFits(log: seq<Round>, rounds: seq<Inittab>, i: nat)
    requires i < |log| <= |rounds|
  {
    log[i].Ok() && log[i].tab == rounds[i]
  }

  predicate Follow(log: seq<Round>, i: nat)
    requires 1 <= i < |log|
  {
    Leads(log[i - 1], log[i])
  }

  ghost predicate Logged(nap: Nap, log: seq<Round>) {
    exists j :: 0 <= j < |log| && NapFits(nap, log[j])
  }

  lemma LoggedOn(nap: Nap, log: seq<Round>, r: Round)
    requires Logged(nap, log) || NapFits(nap, r)
    ensures Logged(nap, log + [r])
  {
    if Logged(nap, log) {
      var j :| 0 <= j < |log| && NapFits(nap, log[j]);
      assert (log + [r])[j] == log[j];
    } else {
      assert (log + [r])[|log|] == r;
    }
  }

  lemma LogOn(log: seq<Round>, rounds: seq<Inittab>, r: Round)
    requires LogOk(log, rounds) && |log| < |rounds| && r.Ok() && r.tab == rounds[|log|]
    requires log != [] ==> Leads(log[|log| - 1], r)
    ensures LogOk(log + [r], rounds) && (log + [r])[..|log|] == log
  {
    var next := log + [r];
    forall i | 0 <= i < |next| ensures RoundFits(next, rounds, i) {
      assert i < |log| ==> RoundFits(log, rounds, i);
    }
    forall i | 1 <= i < |next| ensures Follow(next, i) {
      assert i < |log| ==> Follow(log, i);
    }
  }

  predicate Leads(r: Round, next: Round) {
    r.stage == Ended && next.levels == r.end && next.modes == r.endModes
  }

  // ---- Two runs --------------------------------------------------------------------------------

  // A process that init keeps alive has been started, in a table of one slot.
  method StartOne(batches: seq<seq<Event>>, more: seq<Fork>) returns (init: Supervisor)
    ensures fresh(init) && fresh(init.table) && init.Sound() && init.catching && init.wakeup == ASLEEP && !init.halted
    ensures init.curState == L2 && init.opModes == NormalModes && init.batches == batches
            && init.env == Env(0, more, 0, [])
    ensures init.naps == [] && init.sequences == multiset{} && init.crowded == {} && init.refused == {}
    ensures init.table.Length == 1 && OnlyProcess(init.table[0])
  {
    init := new Supervisor(1, batches, Env(0, [Child(7)] + more, 0, []));
    assert init.table[..][0] == init.table[0];
    init.StartAtTwo();
  }

  const CO := Line("co", {L2}, Action.Respawn)

  predicate OnlyProcess(x: Slot) {
    x.id == CO.id && x.pid == 7 && x.occupied && x.living && x.named && !x.killed && !x.demand
  }

  // The only process dies between the test and the pause(): init sleeps without it.
  lemma TakenInTheGap(nap: Nap)
    requires NapOk(nap) && !nap.stray && nap.tab.spawned == [CO] && nap.level == L2 && CO.id !in nap.refused
    requires |nap.before| == 1 && OnlyProcess(nap.before[0]) && nap.gap == [ChildDeath(7, 0)]
    ensures AllServed(nap.before, [CO], 1, L2, nap.refused) && !AllServed(nap.table, [CO], 1, L2, nap.refused)
  {
    assert Takes(nap.before, nap.gap[0], 0);
    assert Lost(nap.before, nap.gap, nap.tab.spawned[0], L2, nap.refused, 0);
    assert Serves(nap.before, CO.id);
  }

  // init gets there.
  method LostDeath() returns (init: Supervisor)
    ensures fresh(init) && |init.naps| == 1 && init.naps[0].gap == [ChildDeath(7, 0)]
    ensures var nap := init.naps[0];
            && NapOk(nap) && !nap.stray && nap.tab == Inittab([CO], [CO])
            && AllServed(nap.before, [CO], 1, L2, nap.refused) && !AllServed(nap.table, [CO], 1, L2, nap.refused)
  {
    init := StartOne([[ChildDeath(7, 0)]], []);
    assert init.table[..][0] == init.table[0];
    ghost var tab, s := Inittab([CO], [CO]), init.table[..];
    assert Serves(s, CO.id) && Allowed(tab)[0] == CO && Listed(Allowed(tab), CO.id, L2);
    init.DozeFirst(tab);
    TakenInTheGap(init.naps[0]);
  }

  // The line of the process is taken out of the inittab: the process has to go, and the table has
  // no room for the child that would kill it. A kill sequence is started twice, and would be
  // again.
  method FullTable() returns (init: Supervisor, ghost full: seq<Slot>, ghost n: nat)
    ensures fresh(init) && |full| == 1 && OnlyProcess(full[0]) && !HasRoom(full) && !Settled(full, [], L2)
    ensures init.halted && init.sequences[n] == 2 && init.crowded == {n}
  {
    init := StartOne([[]], [Child(8), Child(9)]);
    assert init.table[..][0] == init.table[0];
    full, n := init.table[..], init.inc[0];
    assert !SlotSettled(full[0], [], L2);
    init.KillProc(n);
  }
}
