// init.c: how respawn() limits the restarts of one entry of the process table.
module Throttle {

  const SPAWN_INTERVAL := 120
  const SPAWN_LIMIT := 10
  const INHIBIT := 300

  // p_time and p_count of the entry
  datatype Series = Series(time: int, count: nat)

  const CLEARED := Series(0, 0)

  datatype Answer = Answer(launched: bool, series: Series)

  // The decision at clock now, and what it leaves in the entry.
  function Respawn(s: Series, now: int): Answer {
    if s.time == 0 then Answer(true, s.(time := now))
    else if s.count == SPAWN_LIMIT then
      if now - s.time < SPAWN_INTERVAL then Answer(false, s.(count := s.count + 1))
      else Answer(true, Series(now, 0))
    else if s.count + 1 > SPAWN_LIMIT then
      if now - s.time < SPAWN_INTERVAL + INHIBIT then Answer(false, s.(count := s.count + 1))
      else Answer(true, Series(now, 0))
    else Answer(true, s.(count := s.count + 1))
  }

  // The entry after the calls at the given times, none of them cleared in between.
  function After(calls: seq<int>): Series {
    if calls == [] then CLEARED
    else Respawn(After(calls[..|calls| - 1]), calls[|calls| - 1]).series
  }

  predicate Launched(calls: seq<int>, k: nat)
    requires k < |calls|
  {
    Respawn(After(calls[..k]), calls[k]).launched
  }

  // The launches of the calls within 120 seconds from w on.
  function LaunchesIn(calls: seq<int>, w: int): nat {
    if calls == [] then 0
    else
      var n := |calls| - 1;
      var earlier := LaunchesIn(calls[..n], w);
      if w <= calls[n] < w + 120 && Respawn(After(calls[..n]), calls[n]).launched then earlier + 1
      else earlier
  }

  // time() does not go backwards and is never 0.
  predicate Clock(calls: seq<int>) {
    forall a, b :: 0 <= a <= b < |calls| ==> 0 < calls[a] <= calls[b]
  }

  // What the entry says about the launches counted in a window that opened at w.
  predicate Accounts(s: Series, w: int, launches: nat, last: int) {
    && s.time <= last
    && (s.time == 0 ==> s.count == 0 && launches == 0)
    && (last < w ==> launches == 0)
    && (s.time < w ==> launches <= s.count && launches <= SPAWN_LIMIT)
    && (w <= s.time < w + SPAWN_INTERVAL
        ==> launches <= SPAWN_LIMIT + 1 + s.count && launches <= 2 * SPAWN_LIMIT + 1)
    && (w + SPAWN_INTERVAL <= s.time ==> launches <= 2 * SPAWN_LIMIT + 1)
  }

  lemma {:induction false} WindowAccount(calls: seq<int>, w: int)
    requires Clock(calls)
    ensures Accounts(After(calls), w, LaunchesIn(calls, w), if calls == [] then 0 else calls[|calls| - 1])
  {
    if calls != [] {
      WindowAccount(calls[..|calls| - 1], w);
    }
  }

  // However the calls fall, no window of 120 seconds sees more than 21 launches.
  lemma AtMost21(calls: seq<int>, w: int)
    requires Clock(calls)
    ensures LaunchesIn(calls, w) <= 21
  {
    WindowAccount(calls, w);
  }

  // The state once a series that began at t has made n further launches.
  lemma {:induction false} SeriesGoesOn(calls: seq<int>, t: int, now: int, n: nat, w: int)
    requires After(calls) == Series(t, 0) && t != 0 && n <= SPAWN_LIMIT && w <= now < w + SPAWN_INTERVAL
    ensures After(calls + seq(n, i => now)) == Series(t, n)
    ensures LaunchesIn(calls + seq(n, i => now), w) == LaunchesIn(calls, w) + n
  {
    var all := calls + seq(n, i => now);
    if n == 0 {
      assert all == calls;
    } else {
      SeriesGoesOn(calls, t, now, n - 1, w);
      assert all[..|all| - 1] == calls + seq(n - 1, i => now);
    }
  }

  // The bound is met: one launch at 1, ten at 120, and eleven at 121 once the first series
  // is old enough to be forgotten.
  lemma BoundIsMet()
    ensures exists calls, w :: Clock(calls) && LaunchesIn(calls, w) == 21
  {
    var w := 120;
    var first := [1];
    assert first[..0] == [];
    assert After(first) == Series(1, 0) && LaunchesIn(first, w) == 0;
    SeriesGoesOn(first, 1, 120, SPAWN_LIMIT, w);
    var second := first + seq(SPAWN_LIMIT, i => 120);
    var third := second + [121];
    assert third[..|second|] == second;
    assert After(third) == Series(121, 0) && LaunchesIn(third, w) == SPAWN_LIMIT + 1;
    SeriesGoesOn(third, 121, 121, SPAWN_LIMIT, w);
    var calls := third + seq(SPAWN_LIMIT, i => 121);
    assert Clock(calls);
  }

  // ---- Refusals, by times and launches ------------------------------------------------------

  // The launches after call o and before call k
  function Further(calls: seq<int>, o: nat, k: nat): nat
    requires k <= |calls|
    decreases k
  {
    if k <= o + 1 then 0 else Further(calls, o, k - 1) + if Launched(calls, k - 1) then 1 else 0
  }

  // The last call before call k that opened a series: the first of all, or a launch when ten
  // had followed the opening before it
  function Opening(calls: seq<int>, k: nat): (o: nat)
    requires 1 <= k <= |calls|
    ensures o < k
  {
    if k == 1 then 0
    else
      var o := Opening(calls, k - 1);
      if Launched(calls, k - 1) && Further(calls, o, k - 1) == 10 then k - 1 else o
  }

  // A call was refused between call o and call k.
  ghost predicate RefusedSince(calls: seq<int>, o: nat, k: nat)
    requires k <= |calls|
  {
    exists j: nat :: o < j < k && !Launched(calls, j)
  }

  // What the entry says about the series
  ghost predicate Tells(calls: seq<int>, k: nat, s: Series)
    requires 1 <= k <= |calls|
  {
    var o := Opening(calls, k);
    && s.time == calls[o] && Launched(calls, o) && Further(calls, o, k) == (if s.count < 10 then s.count else 10)
    && (RefusedSince(calls, o, k) <==> s.count > 10)
  }

  lemma {:induction false} EntryTells(calls: seq<int>, k: nat)
    requires Clock(calls) && 1 <= k <= |calls|
    ensures Tells(calls, k, After(calls[..k]))
  {
    assert calls[..k][..k - 1] == calls[..k - 1];
    if k > 1 {
      EntryTells(calls, k - 1);
      TellsOn(calls, k, After(calls[..k - 1]));
    }
  }

  lemma TellsOn(calls: seq<int>, k: nat, s: Series)
    requires Clock(calls) && 2 <= k <= |calls| && Tells(calls, k - 1, s) && s == After(calls[..k - 1])
    ensures Tells(calls, k, Respawn(s, calls[k - 1]).series)
  {
    var o := Opening(calls, k - 1);
    assert RefusedSince(calls, o, k) <==> RefusedSince(calls, o, k - 1) || !Launched(calls, k - 1);
  }

  // A call is refused if and only if ten launches followed the opening of its series, and it
  // comes within 120 seconds of that opening or, if one was refused already, within 420.
  lemma RefusedIff(calls: seq<int>, k: nat)
    requires Clock(calls) && k < |calls|
    ensures !Launched(calls, k)
            <==> k > 0 && (var o := Opening(calls, k);
                           Further(calls, o, k) == 10
                           && calls[k] - calls[o] < if RefusedSince(calls, o, k) then 420 else 120)
  {
    if k > 0 {
      EntryTells(calls, k);
    } else {
      assert calls[..0] == [];
    }
  }

  // After a refusal nothing is launched before 420 seconds from the opening have passed, and
  // the first call after that is launched.
  lemma {:induction false} RefusalLasts(calls: seq<int>, j: nat, k: nat)
    requires Clock(calls) && 0 < j < k < |calls| && !Launched(calls, j)
    requires forall i :: j < i < k ==> calls[i] - calls[Opening(calls, j)] < 420
    ensures Opening(calls, k) == Opening(calls, j) && Further(calls, Opening(calls, j), k) == 10
    ensures Launched(calls, k) <==> calls[k] - calls[Opening(calls, j)] >= 420
    decreases k
  {
    RefusedIff(calls, j);
    if k > j + 1 {
      RefusalLasts(calls, j, k - 1);
    }
    RefusedIff(calls, k);
    assert RefusedSince(calls, Opening(calls, j), k);
  }
}
