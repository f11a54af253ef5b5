// init.c: what happens to init from outside, what a batch of it does to the process table, and
// what may be said of a pause in the main loop.
module Events {
  import opened ProcTable

  // What can happen to init from outside. A status is that of wait(2). The handler for PowerHit
  // is never installed.
  datatype Event = ChildDeath(pid: int, status: int) | Signal(level: Level) | PowerHit | Alarm | Clock(now: int)

  datatype Fork = ForkFails | Child(pid: int)

  datatype Death = Death(pid: int, status: int)

  // The environment: at each point where init can be interrupted the next batch of events
  // arrives, and each fork(2) has its outcome. Where a wait finds the batches used up, the
  // run ends. Here are the number of batches so far, the outcomes to come, the time, and the
  // deaths of which init does not know yet.
  datatype Env = Env(at: nat, forks: seq<Fork>, now: int, pending: seq<Death>)

  datatype Wakeup = Wakeup(userSignal: bool, childDeath: bool, powerHit: bool)

  const ASLEEP := Wakeup(false, false, false)

  // The level whose signal number is the exit code of status.
  function LevelOf(status: int): Level {
    var code := status / 256 % 256;
    if code == 1 then LQ
    else if code == 2 then L0
    else if code == 3 then L1
    else if code == 4 then L2
    else if code == 5 then L3
    else if code == 6 then L4
    else if code == 7 then L5
    else if code == 8 then L6
    else if code == 10 then SingleUser
    else if code == 11 then LA
    else if code == 12 then LB
    else if code == 13 then LC
    else Other(code)
  }

  predicate IsRunLevel(l: Level) {
    l == L0 || l == L1 || l == L2 || l == L3 || l == L4 || l == L5 || l == L6
  }

  // The exit codes that name a level: 1 for the present one, 2 to 8 for the levels 0 to 6, 10 for single-user
  // mode, and 11 to 13 for a, b and c, each being the number of the signal that asks for it
  const NUMBERED: seq<Level> := [LQ, L0, L1, L2, L3, L4, L5, L6]

  lemma LevelsByCode(code: nat, signal: nat)
    requires code < 256 && signal < 256
    ensures var l := LevelOf(256 * code + signal);
            && (1 <= code <= 8 ==> l == NUMBERED[code - 1]) && (code == 10 ==> l == SingleUser)
            && (code == 11 ==> l == LA) && (code == 12 ==> l == LB) && (code == 13 ==> l == LC)
            && (code !in {1, 2, 3, 4, 5, 6, 7, 8, 10, 11, 12, 13} ==> l == Other(code))
            && (IsRunLevel(l) <==> 2 <= code <= 8) && (IsDemand(l) <==> 11 <= code <= 13)
  {
    assert (256 * code + signal) / 256 % 256 == code;
  }

  // ---- What a batch of events does ---------------------------------------------------------

  // Batch i; nothing happens when they are used up.
  function BatchAt(batches: seq<seq<Event>>, i: nat): seq<Event> {
    if i < |batches| then batches[i] else []
  }

  function AfterEvent(s: seq<Slot>, e: Event): seq<Slot> {
    match e
    case ChildDeath(pid, status) => AfterDeath(s, pid, status, 0)
    case Signal(_) => TimesCleared(s)
    case _ => s
  }

  // The table after the first n events
  function AfterEvents(s: seq<Slot>, batch: seq<Event>, n: nat): seq<Slot>
    requires n <= |batch|
  {
    if n == 0 then s else AfterEvent(AfterEvents(s, batch, n - 1), batch[n - 1])
  }

  // The level asked for after an event, if it was level before and init is at cur
  function AskedNext(level: Level, cur: Level, e: Event): Level {
    if !e.Signal? then level else if e.level == LQ then cur else e.level
  }

  function AskedBy(level: Level, cur: Level, batch: seq<Event>, n: nat): Level
    requires n <= |batch|
  {
    if n == 0 then level else AskedNext(AskedBy(level, cur, batch, n - 1), cur, batch[n - 1])
  }

  // None of the events from i to before n is a signal.
  ghost predicate Silent(batch: seq<Event>, i: nat, n: nat)
    requires n <= |batch|
  {
    forall j :: i <= j < n ==> !batch[j].Signal?
  }

  lemma {:induction false} NoSignal(level: Level, cur: Level, batch: seq<Event>, n: nat)
    requires n <= |batch| && Silent(batch, 0, n)
    ensures AskedBy(level, cur, batch, n) == level
  {
    if n > 0 {
      NoSignal(level, cur, batch, n - 1);
    }
  }

  // The level asked for is that of the last signal.
  lemma {:induction false} LastSignalCounts(level: Level, cur: Level, batch: seq<Event>, i: nat, n: nat)
    requires i < n <= |batch| && batch[i].Signal? && Silent(batch, i + 1, n)
    ensures AskedBy(level, cur, batch, n) == if batch[i].level == LQ then cur else batch[i].level
  {
    if i < n - 1 {
      LastSignalCounts(level, cur, batch, i, n - 1);
    }
  }

  // The deaths among the first n events
  function Deaths(batch: seq<Event>, n: nat): seq<Death>
    requires n <= |batch|
  {
    if n == 0 then []
    else
      var d, e := Deaths(batch, n - 1), batch[n - 1];
      if e.ChildDeath? then d + [Death(e.pid, e.status)] else d
  }

  // The table after the first n deaths
  function AfterDeaths(s: seq<Slot>, deaths: seq<Death>, n: nat): seq<Slot>
    requires n <= |deaths|
  {
    if n == 0 then s
    else AfterDeath(AfterDeaths(s, deaths, n - 1), deaths[n - 1].pid, deaths[n - 1].status, 0)
  }

  // The table after deaths that had been held back and then a batch of events
  function NoticedAll(s: seq<Slot>, deaths: seq<Death>, batch: seq<Event>): seq<Slot> {
    AfterEvents(AfterDeaths(s, deaths, |deaths|), batch, |batch|)
  }

  // The table after the first n events if SIGCLD is not caught
  function AfterSignals(s: seq<Slot>, batch: seq<Event>, n: nat): seq<Slot>
    requires n <= |batch|
  {
    if n == 0 then s
    else if batch[n - 1].Signal? then TimesCleared(AfterSignals(s, batch, n - 1))
    else AfterSignals(s, batch, n - 1)
  }

  lemma {:induction false} DeathTakesSameSlot(s: seq<Slot>, t: seq<Slot>, pid: int, status: int, k: nat)
    requires SameLives(s, t) && k <= |s|
    ensures SameLives(AfterDeath(s, pid, status, k), AfterDeath(t, pid, status, k))
    decreases |s| - k
  {
    if k < |s| {
      assert SameLife(s[k], t[k]);
      if Owned(s[k], pid) {
        var s', t' := AfterDeath(s, pid, status, k), AfterDeath(t, pid, status, k);
        forall j | 0 <= j < |s'| ensures SameLife(s'[j], t'[j]) {
          assert SameLife(s[j], t[j]);
        }
      } else {
        DeathTakesSameSlot(s, t, pid, status, k + 1);
      }
    }
  }

  lemma {:induction false} DeathsTakeSameSlots(s: seq<Slot>, t: seq<Slot>, deaths: seq<Death>, n: nat)
    requires SameLives(s, t) && n <= |deaths|
    ensures SameLives(AfterDeaths(s, deaths, n), AfterDeaths(t, deaths, n))
  {
    if n > 0 {
      DeathsTakeSameSlots(s, t, deaths, n - 1);
      DeathTakesSameSlot(AfterDeaths(s, deaths, n - 1), AfterDeaths(t, deaths, n - 1), deaths[n - 1].pid,
                         deaths[n - 1].status, 0);
    }
  }

  lemma {:induction false} EarlierDeaths(s: seq<Slot>, deaths: seq<Death>, more: seq<Death>, n: nat)
    requires n <= |deaths|
    ensures AfterDeaths(s, deaths + more, n) == AfterDeaths(s, deaths, n)
  {
    if n > 0 {
      EarlierDeaths(s, deaths, more, n - 1);
    }
  }

  lemma TimesDoNotMatter(s: seq<Slot>)
    ensures SameLives(s, TimesCleared(s)) && SameLives(TimesCleared(s), s)
  {
  }

  // A death that is held back and noticed later is as good as one noticed at once: the slots
  // end up the same, but for the times.
  lemma {:induction false} HeldBack(s: seq<Slot>, batch: seq<Event>, n: nat)
    requires n <= |batch|
    ensures var d := Deaths(batch, n);
            SameLives(AfterEvents(s, batch, n), AfterDeaths(AfterSignals(s, batch, n), d, |d|))
  {
    if n > 0 {
      HeldBack(s, batch, n - 1);
      var e, d := batch[n - 1], Deaths(batch, n - 1);
      var seen, later := AfterEvents(s, batch, n - 1), AfterSignals(s, batch, n - 1);
      if e.ChildDeath? {
        EarlierDeaths(later, d, [Death(e.pid, e.status)], |d|);
        DeathTakesSameSlot(seen, AfterDeaths(later, d, |d|), e.pid, e.status, 0);
      } else if e.Signal? {
        TimesDoNotMatter(later);
        TimesDoNotMatter(seen);
        DeathsTakeSameSlots(later, TimesCleared(later), d, |d|);
        SameLivesCompose(seen, AfterDeaths(later, d, |d|), AfterDeaths(TimesCleared(later), d, |d|));
        SameLivesCompose(TimesCleared(seen), seen, AfterDeaths(TimesCleared(later), d, |d|));
      }
    }
  }

  // A signal of the batch asks for level l while init is at cur.
  ghost predicate AsksFor(batch: seq<Event>, l: Level, cur: Level) {
    exists j :: 0 <= j < |batch| && batch[j].Signal? && l == if batch[j].level == LQ then cur else batch[j].level
  }

  // So does one of the batches from i on and before j.
  ghost predicate AskedIn(batches: seq<seq<Event>>, i: nat, j: nat, l: Level, cur: Level) {
    exists k: nat :: i <= k < j && AsksFor(BatchAt(batches, k), l, cur)
  }

  ghost predicate Noisy(batch: seq<Event>) {
    !Silent(batch, 0, |batch|)
  }

  ghost predicate SignalIn(batches: seq<seq<Event>>, i: nat, j: nat) {
    exists k: nat :: i <= k < j && Noisy(BatchAt(batches, k))
  }

  // How many batches have been taken, the level asked for, and whether a signal was noted
  datatype News = News(at: nat, asked: Level, told: bool)

  // The next batch is taken.
  ghost function NewsAfter(batches: seq<seq<Event>>, a: News, cur: Level): News {
    var batch := BatchAt(batches, a.at);
    News(a.at + 1, AskedBy(a.asked, cur, batch, |batch|), a.told || Noisy(batch))
  }

  // From a to b a level is asked for or a signal noted only if one of the batches says so.
  ghost predicate HeardOf(batches: seq<seq<Event>>, a: News, b: News, cur: Level) {
    && a.at <= b.at && (b.asked == a.asked || AskedIn(batches, a.at, b.at, b.asked, cur))
    && (b.told ==> a.told || SignalIn(batches, a.at, b.at))
  }

  lemma HeardMeanwhile(batches: seq<seq<Event>>, a: News, b: News, c: News, cur: Level)
    requires HeardOf(batches, a, b, cur) && HeardOf(batches, b, c, cur)
    ensures HeardOf(batches, a, c, cur)
  {
  }

  lemma HeardBatch(batches: seq<seq<Event>>, a: News, cur: Level)
    ensures HeardOf(batches, a, NewsAfter(batches, a, cur), cur)
  {
    var batch := BatchAt(batches, a.at);
    AskedByBatch(a.asked, cur, batch, |batch|);
  }

  // The level was asked for, and this was noted or will be.
  ghost predicate ToldOf(batches: seq<seq<Event>>, a: News, l: Level, cur: Level) {
    || (l == a.asked && (a.told || exists k: nat :: a.at <= k && Noisy(BatchAt(batches, k))))
    || exists k: nat :: a.at <= k && AsksFor(BatchAt(batches, k), l, cur)
  }

  lemma ToldSince(batches: seq<seq<Event>>, a: News, b: News, cur: Level)
    requires HeardOf(batches, a, b, cur) && b.told
    ensures ToldOf(batches, a, b.asked, cur)
  {
  }

  lemma ToldBefore(batches: seq<seq<Event>>, a: News, b: News, l: Level, cur: Level)
    requires HeardOf(batches, a, b, cur) && ToldOf(batches, b, l, cur)
    ensures ToldOf(batches, a, l, cur)
  {
  }

  // The batch is one of those from i on, or nothing.
  ghost predicate Comes(batches: seq<seq<Event>>, i: nat, batch: seq<Event>) {
    batch == [] || exists k: nat :: i <= k && batch == BatchAt(batches, k)
  }

  // The last signal of the batch asks for one of the levels 0 to 6.
  ghost predicate Calls(batch: seq<Event>) {
    exists i: nat :: i < |batch| && LastCall(batch, i)
  }

  ghost predicate LastCall(batch: seq<Event>, i: nat)
    requires i < |batch|
  {
    batch[i].Signal? && IsRunLevel(batch[i].level) && Silent(batch, i + 1, |batch|)
  }

  lemma CallIsHeard(level: Level, cur: Level, batch: seq<Event>)
    requires Calls(batch)
    ensures Noisy(batch) && IsRunLevel(AskedBy(level, cur, batch, |batch|))
  {
    var i: nat :| i < |batch| && LastCall(batch, i);
    LastSignalCounts(level, cur, batch, i, |batch|);
  }

  // None of the batches from i on and before j calls for one of the levels 0 to 6.
  ghost predicate Unheeded(batches: seq<seq<Event>>, i: nat, j: int) {
    forall k: nat :: i <= k < j ==> !Calls(BatchAt(batches, k))
  }

  lemma UnheededMore(batches: seq<seq<Event>>, i: nat, a: News, cur: Level)
    requires Unheeded(batches, i, a.at)
    ensures var c := NewsAfter(batches, a, cur);
            !(c.told && IsRunLevel(c.asked)) || a.at >= |batches| ==> Unheeded(batches, i, a.at + 1)
  {
    if Calls(BatchAt(batches, a.at)) {
      CallIsHeard(a.asked, cur, BatchAt(batches, a.at));
    }
  }

  // The level asked for after the batches from i on and before j
  function AskedThrough(batches: seq<seq<Event>>, level: Level, cur: Level, i: nat, j: nat): Level
    requires i <= j
    decreases j - i
  {
    if i == j then level
    else
      var batch := BatchAt(batches, j - 1);
      AskedBy(AskedThrough(batches, level, cur, i, j - 1), cur, batch, |batch|)
  }

  // From a to b nothing was forgotten.
  ghost predicate Followed(batches: seq<seq<Event>>, a: News, b: News, cur: Level) {
    && a.at <= b.at && b.asked == AskedThrough(batches, a.asked, cur, a.at, b.at)
    && (b.told <==> a.told || SignalIn(batches, a.at, b.at))
  }

  lemma FollowedMore(batches: seq<seq<Event>>, a: News, b: News, cur: Level)
    requires Followed(batches, a, b, cur)
    ensures Followed(batches, a, NewsAfter(batches, b, cur), cur)
  {
    var c := NewsAfter(batches, b, cur);
    assert Noisy(BatchAt(batches, b.at)) ==> SignalIn(batches, a.at, c.at);
  }

  // Besides, the table may have gone from s to t, but not while init was calm, as c' says it is
  // and c that it was.
  ghost predicate ChangedSince(batches: seq<seq<Event>>, s: seq<Slot>, c: bool, a: News, t: seq<Slot>, c': bool,
                               b: News,
                               cur: Level)
  {
    Dims(s, t) && (c' ==> c && t == s) && HeardOf(batches, a, b, cur)
  }

  lemma ChangedMeanwhile(batches: seq<seq<Event>>, s: seq<Slot>, c: bool, a: News, s1: seq<Slot>, c1: bool, a1: News,
                         s2: seq<Slot>, c2: bool, a2: News, cur: Level)
    requires ChangedSince(batches, s, c, a, s1, c1, a1, cur) && ChangedSince(batches, s1, c1, a1, s2, c2, a2, cur)
    ensures ChangedSince(batches, s, c, a, s2, c2, a2, cur)
  {
    DimsCompose(s, s1, s2);
    HeardMeanwhile(batches, a, a1, a2, cur);
  }

  lemma {:induction false} AskedByBatch(level: Level, cur: Level, batch: seq<Event>, n: nat)
    requires n <= |batch|
    ensures AskedBy(level, cur, batch, n) == level || AsksFor(batch, AskedBy(level, cur, batch, n), cur)
  {
    if n > 0 {
      AskedByBatch(level, cur, batch, n - 1);
      assert batch[n - 1].Signal? ==> AsksFor(batch, AskedBy(level, cur, batch, n), cur);
    }
  }

  ghost predicate Rings(batch: seq<Event>, n: nat)
    requires n <= |batch|
  {
    exists i :: 0 <= i < n && batch[i] == Alarm
  }

  function ClockAfter(now: int, batch: seq<Event>, n: nat): int
    requires n <= |batch|
  {
    if n == 0 then now else if batch[n - 1].Clock? then batch[n - 1].now else ClockAfter(now, batch, n - 1)
  }

  // An event that tells of the death of the process in slot k
  ghost predicate Takes(s: seq<Slot>, e: Event, k: nat) {
    e.ChildDeath? && FirstOwner(s, e.pid, k)
  }

  ghost predicate Dies(s: seq<Slot>, batch: seq<Event>, n: nat, k: nat)
    requires n <= |batch|
  {
    exists i :: 0 <= i < n && Takes(s, batch[i], k)
  }

  // A slot is as before but for the life of its process and the times.
  predicate SameBody(x: Slot, y: Slot) {
    y == x.(living := y.living, exit := y.exit, series := y.series)
  }

  lemma {:induction false} AfterEventsAt(s: seq<Slot>, batch: seq<Event>, n: nat, k: nat)
    requires n <= |batch| && k < |s|
    ensures |AfterEvents(s, batch, n)| == |s| && SameBody(s[k], AfterEvents(s, batch, n)[k])
    ensures AfterEvents(s, batch, n)[k].living <==> s[k].living && !Dies(s, batch, n, k)
  {
    if n > 0 {
      var t, e := AfterEvents(s, batch, n - 1), batch[n - 1];
      forall j | 0 <= j < |s| ensures |t| == |s| && SameBody(s[j], t[j]) {
        AfterEventsAt(s, batch, n - 1, j);
      }
      AfterEventsAt(s, batch, n - 1, k);
      if e.ChildDeath? {
        AfterDeathAt(t, e.pid, e.status, 0, k);
        assert FirstOwner(t, e.pid, k) <==> FirstOwner(s, e.pid, k);
      }
      assert Dies(s, batch, n, k) <==> Dies(s, batch, n - 1, k) || Takes(s, e, k);
    }
  }

  // The batch tells of the death of a process that init has to keep alive: it is the living
  // process of a line wanted at the level, and the line was not refused.
  ghost predicate TakesWanted(s: seq<Slot>, batch: seq<Event>, lines: seq<Line>, level: Level, refused: set<Id>) {
    exists l, k: nat :: 0 <= l < |lines| && Lost(s, batch, lines[l], level, refused, k)
  }

  ghost predicate Lost(s: seq<Slot>, batch: seq<Event>, line: Line, level: Level, refused: set<Id>, k: nat) {
    && Wanted(line, level) && line.id !in refused
    && k < |s| && s[k].living && s[k].named && s[k].id == line.id && Dies(s, batch, |batch|, k)
  }

  // What is served remains served if and only if the batch takes no process that is wanted.
  lemma ServedUnlessTaken(s: seq<Slot>, inc: seq<nat>, born: nat, kills: multiset<nat>, batch: seq<Event>,
                          lines: seq<Line>, level: Level, refused: set<Id>)
    requires Inv(s, inc, born, kills) && AllServed(s, lines, |lines|, level, refused) && AllNamed(lines)
    ensures AllServed(AfterEvents(s, batch, |batch|), lines, |lines|, level, refused)
            <==> !TakesWanted(s, batch, lines, level, refused)
  {
    var t := AfterEvents(s, batch, |batch|);
    forall k | 0 <= k < |s|
      ensures |t| == |s| && SameBody(s[k], t[k])
      ensures t[k].living <==> s[k].living && !Dies(s, batch, |batch|, k)
    {
      AfterEventsAt(s, batch, |batch|, k);
    }
    forall l | 0 <= l < |lines| && Wanted(lines[l], level) && lines[l].id !in refused
      ensures Serves(t, lines[l].id) <==> !exists k: nat :: Lost(s, batch, lines[l], level, refused, k)
    {
      var k :| 0 <= k < |s| && s[k].living && s[k].named && s[k].id == lines[l].id;
      OnlyServer(s, t, inc, born, kills, lines[l].id, k);
      forall j: nat | Lost(s, batch, lines[l], level, refused, j) ensures j == k {
        OneSlotEach(s, inc, born, kills, j, k);
      }
      assert Lost(s, batch, lines[l], level, refused, k) <==> Dies(s, batch, |batch|, k);
    }
  }

  // The name is served in t only by the slot that serves it in s.
  lemma OnlyServer(s: seq<Slot>, t: seq<Slot>, inc: seq<nat>, born: nat, kills: multiset<nat>, id: Id, k: nat)
    requires Inv(s, inc, born, kills) && |t| == |s| && forall j :: 0 <= j < |s| ==> SameBody(s[j], t[j])
    requires forall j :: 0 <= j < |s| && t[j].living ==> s[j].living
    requires k < |s| && s[k].living && s[k].named && s[k].id == id && id != NO_ID
    ensures Serves(t, id) <==> t[k].living
  {
    if Serves(t, id) {
      var j :| 0 <= j < |t| && t[j].living && t[j].named && t[j].id == id;
      assert SlotOk(s[j], inc[j], born, kills) && SlotOk(s[k], inc[k], born, kills);
      OneSlotEach(s, inc, born, kills, j, k);
    }
  }

  // The last signal of the first n events asks for single-user mode.
  ghost predicate SlipsBack(batch: seq<Event>, n: nat)
    requires n <= |batch|
  {
    exists i :: 0 <= i < n && LastSlip(batch, i, n)
  }

  ghost predicate LastSlip(batch: seq<Event>, i: nat, n: nat)
    requires i < n <= |batch|
  {
    (batch[i] == Signal(SingleUser) || batch[i] == Signal(LQ)) && Silent(batch, i + 1, n)
  }

  // When single() has found one of the levels 0 to 6, a signal can still make it single-user mode.
  lemma {:induction false} SlipsBackIff(tested: Level, batch: seq<Event>, n: nat)
    requires n <= |batch| && IsRunLevel(tested)
    ensures AskedBy(tested, SingleUser, batch, n) == SingleUser <==> SlipsBack(batch, n)
  {
    if n > 0 {
      SlipsBackIff(tested, batch, n - 1);
      var e := batch[n - 1];
      assert LastSlip(batch, n - 1, n) <==> e == Signal(SingleUser) || e == Signal(LQ);
      if SlipsBack(batch, n) {
        var i :| 0 <= i < n && LastSlip(batch, i, n);
        assert i < n - 1 ==> LastSlip(batch, i, n - 1) && !e.Signal?;
      }
      if SlipsBack(batch, n - 1) && !e.Signal? {
        var i :| 0 <= i < n - 1 && LastSlip(batch, i, n - 1);
        assert LastSlip(batch, i, n);
      }
    }
  }

  // The levels after a signal asked for another, b0 having arrived between the first test of
  // that level and the second, and b1 between the second and its use
  function Taken(l: Levels, asked: Level, b0: seq<Event>, b1: seq<Event>): Levels {
    var sorted := AskedBy(asked, l.cur, b0, |b0|);
    Changed(l, asked, sorted, AskedBy(sorted, l.cur, b1, |b1|))
  }

  // The level asked for is taken up properly unless another has replaced it, or had replaced
  // it when init looked of which kind it is; so it is if no signal arrives in between.
  lemma TakenUpIff(l: Levels, asked: Level, b0: seq<Event>, b1: seq<Event>)
    ensures var sorted := AskedBy(asked, l.cur, b0, |b0|);
            Taken(l, asked, b0, b1) == Asked(l, asked)
            <==> asked == l.cur || (AskedBy(sorted, l.cur, b1, |b1|) == asked
                                    && (IsDemand(sorted) == IsDemand(asked) || l.prior == l.cur))
    ensures Silent(b0, 0, |b0|) && Silent(b1, 0, |b1|) ==> Taken(l, asked, b0, b1) == Asked(l, asked)
  {
    if Silent(b0, 0, |b0|) && Silent(b1, 0, |b1|) {
      NoSignal(asked, l.cur, b0, |b0|);
      NoSignal(asked, l.cur, b1, |b1|);
    }
  }

  ghost predicate HitBy(batch: seq<Event>, n: nat)
    requires n <= |batch|
  {
    exists i :: 0 <= i < n && batch[i] == PowerHit
  }

  ghost predicate PowerFails(b: seq<seq<Event>>)
    requires |b| == 3
  {
    HitBy(b[0], |b[0]|) || HitBy(b[1], |b[1]|) || HitBy(b[2], |b[2]|)
  }

  // ---- Sleeping ----------------------------------------------------------------------------

  // The inittab as remove() and then spawn() read it in one round; it may be edited at any time
  datatype Inittab = Inittab(swept: seq<Line>, spawned: seq<Line>)

  function Allowed(tab: Inittab): seq<Line> {
    tab.swept + tab.spawned
  }

  // One pause() of the main loop: the table when init found nothing to do, what arrived between
  // that test and the pause, and the table at the pause. A nap is stray if single() came back
  // to single-user mode itself, which it does only if a signal slips in between the test of
  // a level and its use.
  datatype Nap = Nap(before: seq<Slot>, gap: seq<Event>, table: seq<Slot>, tab: Inittab, level: Level,
                     refused: set<Id>, stray: bool)

  // At the pause, init has no living process with a name that it is not killing, was not asked
  // for and does not belong there. When it found nothing to do it had every process it wants
  // alive, unless respawn() would not restart it or there was no slot for it, and at the pause
  // it has if and only if none of them was taken in between.
  ghost predicate NapOk(nap: Nap) {
    var lines := nap.tab.spawned;
    && Settled(nap.table, Allowed(nap.tab), nap.level)
    && nap.table == AfterEvents(nap.before, nap.gap, |nap.gap|)
    && (!nap.stray ==>
          && AllServed(nap.before, lines, |lines|, nap.level, nap.refused)
          && (AllServed(nap.table, lines, |lines|, nap.level, nap.refused)
              <==> !TakesWanted(nap.before, nap.gap, lines, nap.level, nap.refused)))
  }

  lemma RecordIsOk(nap: Nap, inc: seq<nat>, born: nat, kills: multiset<nat>)
    requires Inv(nap.before, inc, born, kills) && AllNamed(nap.tab.spawned)
    requires Settled(nap.table, Allowed(nap.tab), nap.level)
    requires nap.table == AfterEvents(nap.before, nap.gap, |nap.gap|)
    requires !nap.stray
             ==> AllServed(nap.before, nap.tab.spawned, |nap.tab.spawned|, nap.level, nap.refused)
    ensures NapOk(nap)
  {
    if !nap.stray {
      ServedUnlessTaken(nap.before, inc, born, kills, nap.gap, nap.tab.spawned, nap.level, nap.refused);
    }
  }

  // The outcomes of fork(2) from the first success on
  function FromSuccess(forks: seq<Fork>): seq<Fork> {
    if forks == [] || forks[0].Child? then forks else FromSuccess(forks[1..])
  }

  // The next fork that succeeds makes process pid, and rest is still to come.
  predicate NextChild(forks: seq<Fork>, pid: int, rest: seq<Fork>) {
    var from := FromSuccess(forks);
    from != [] && from[0] == Child(pid) && rest == from[1..]
  }

  // The next fork succeeds, and no death waits to be noticed.
  predicate Quiet(env: Env) {
    env.pending == [] && env.forks != [] && env.forks[0].Child?
  }

  function Min(a: nat, b: nat): nat {
    if a < b then a else b
  }

  predicate NoFailure(forks: seq<Fork>) {
    forall i :: 0 <= i < |forks| ==> forks[i].Child?
  }
}
