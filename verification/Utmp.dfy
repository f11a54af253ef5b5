// init.c: the utmp file behind its cursor and its one-record cache.
module Utmp {

  const EMPTY := 0
  const RUN_LVL := 1
  const NEW_TIME := 4
  const INIT_PROCESS := 5
  const DEAD_PROCESS := 8

  datatype Record = Record(user: string, id: string, line: string, pid: int, kind: int,
                           termination: int, exit: int, time: int)

  const ZEROED := Record("", "", "", 0, EMPTY, 0, 0, 0)

  // Types of which only the type has to match: RUN_LVL, BOOT_TIME, OLD_TIME, NEW_TIME.
  predicate IsEvent(kind: int) {
    RUN_LVL <= kind <= NEW_TIME
  }

  // INIT_PROCESS, LOGIN_PROCESS, USER_PROCESS, DEAD_PROCESS
  predicate IsProcess(kind: int) {
    INIT_PROCESS <= kind <= DEAD_PROCESS
  }

  // Does getutid() take r for the record of entry?
  predicate Matches(entry: Record, r: Record) {
    || (IsEvent(entry.kind) && r.kind == entry.kind)
    || (IsProcess(entry.kind) && IsProcess(r.kind) && r.id == entry.id)
  }

  // By the numbers of utmp.h: 1 to 4 match their own kind only, 5 to 8 each other if the ids agree, and
  // nothing else matches.
  lemma MatchesByNumber(entry: Record, r: Record)
    ensures Matches(entry, r)
            <==> match entry.kind
                 case 1 | 2 | 3 | 4 => r.kind == entry.kind
                 case 5 | 6 | 7 | 8 => r.kind in {5, 6, 7, 8} && r.id == entry.id
                 case _ => false
  {
  }

  // ---- The file ----------------------------------------------------------------------

  // The first record from k on that matches, |file| if there is none.
  function FirstMatch(file: seq<Record>, entry: Record, k: nat): (i: nat)
    requires k <= |file|
    ensures k <= i <= |file|
    ensures i < |file| ==> Matches(entry, file[i])
    ensures forall j :: k <= j < i ==> !Matches(entry, file[j])
    decreases |file| - k
  {
    if k == |file| || Matches(entry, file[k]) then k else FirstMatch(file, entry, k + 1)
  }

  // Where pututline() writes: the first match from the cursor on, or else the first match
  // of all, or else the end of the file.
  function Place(file: seq<Record>, entry: Record, cursor: nat): (i: nat)
    requires cursor <= |file|
    ensures i <= |file|
  {
    var i := FirstMatch(file, entry, cursor);
    if i < |file| then i else FirstMatch(file, entry, 0)
  }

  function Put(file: seq<Record>, entry: Record, cursor: nat): (file': seq<Record>)
    requires cursor <= |file|
  {
    var i := Place(file, entry, cursor);
    if i < |file| then file[i := entry] else file + [entry]
  }

  // At most one process record for an id, one record for an event.
  ghost predicate OneEach(file: seq<Record>) {
    forall a, b :: 0 <= a < |file| && 0 <= b < |file| && Matches(file[a], file[b]) ==> a == b
  }

  lemma MatchesIsSymmetric(a: Record, b: Record)
    ensures Matches(a, b) == Matches(b, a)
  {
  }

  lemma MatchesIsTransitive(a: Record, b: Record, c: Record)
    requires Matches(a, b) && Matches(b, c)
    ensures Matches(a, c)
  {
  }

  // pututline() keeps one record each: the entry replaces the one it matches, wherever the
  // cursor was, and all other records stay as they are.
  lemma PutKeepsOneEach(file: seq<Record>, entry: Record, cursor: nat)
    requires OneEach(file) && cursor <= |file|
    ensures OneEach(Put(file, entry, cursor))
    ensures Put(file, entry, cursor) == Put(file, entry, 0)
    ensures forall r :: r in file && !Matches(entry, r) ==> r in Put(file, entry, cursor)
    ensures forall r :: r in Put(file, entry, cursor) && Matches(entry, r) ==> r == entry
  {
    var i, i0 := Place(file, entry, cursor), Place(file, entry, 0);
    if i < |file| {
      assert Matches(file[i], file[i0]) by {
        MatchesIsSymmetric(entry, file[i]);
        MatchesIsTransitive(file[i], entry, file[i0]);
      }
    }
    var file' := Put(file, entry, cursor);
    forall r | r in file && !Matches(entry, r) ensures r in file' {
      var k :| 0 <= k < |file| && file[k] == r;
      assert file'[k] == r;
    }
    forall k | 0 <= k < |file'| && k != i ensures !Matches(entry, file'[k]) && !Matches(file'[k], entry) {
      OthersDiffer(file, entry, i, k);
      MatchesIsSymmetric(entry, file[k]);
    }
  }

  lemma OthersDiffer(file: seq<Record>, entry: Record, i: nat, k: nat)
    requires OneEach(file) && k < |file| && k != i
    requires if i < |file| then Matches(entry, file[i]) else forall j :: 0 <= j < |file| ==> !Matches(entry, file[j])
    ensures !Matches(entry, file[k])
  {
    if i < |file| && Matches(entry, file[k]) {
      MatchesIsSymmetric(entry, file[i]);
      MatchesIsTransitive(file[i], entry, file[k]);
    }
  }

  // ---- A history of entries -------------------------------------------------------------

  // The file after the entries were put, each from the cursor position beside it.
  function PutAll(entries: seq<Record>, cursors: seq<nat>): seq<Record>
    requires |cursors| == |entries|
  {
    if entries == [] then []
    else
      var n := |entries| - 1;
      var file := PutAll(entries[..n], cursors[..n]);
      Put(file, entries[n], if cursors[n] <= |file| then cursors[n] else |file|)
  }

  // The file holds an entry exactly when it is the last of its kind that was put: nothing
  // else is ever in it, nothing is lost, and no cursor position makes a difference.
  lemma {:induction false} LastEntryWins(entries: seq<Record>, cursors: seq<nat>)
    requires |cursors| == |entries|
    ensures OneEach(PutAll(entries, cursors))
    ensures forall r :: r in PutAll(entries, cursors) <==> IsLast(entries, r)
  {
    if entries != [] {
      var n := |entries| - 1;
      LastEntryWins(entries[..n], cursors[..n]);
      var file := PutAll(entries[..n], cursors[..n]);
      var file' := PutAll(entries, cursors);
      var cursor := if cursors[n] <= |file| then cursors[n] else |file|;
      PutKeepsOneEach(file, entries[n], cursor);
      forall r ensures r in file' <==> IsLast(entries, r) {
        LastOfMore(entries, r);
        PutHolds(file, entries[n], cursor, r);
      }
    }
  }

  lemma PutHolds(file: seq<Record>, entry: Record, cursor: nat, r: Record)
    requires OneEach(file) && cursor <= |file|
    ensures r in Put(file, entry, cursor) <==> r == entry || (r in file && !Matches(entry, r))
  {
    PutKeepsOneEach(file, entry, cursor);
    var i, file' := Place(file, entry, cursor), Put(file, entry, cursor);
    assert file'[i] == entry;
    if r in file' && r != entry {
      var k :| 0 <= k < |file'| && file'[k] == r;
      assert file[k] == r;
    }
  }

  ghost predicate IsLast(entries: seq<Record>, r: Record) {
    exists k :: 0 <= k < |entries| && LastAt(entries, r, k)
  }

  ghost predicate LastAt(entries: seq<Record>, r: Record, k: nat)
    requires k < |entries|
  {
    entries[k] == r && forall l :: k < l < |entries| ==> !Matches(entries[l], r)
  }

  lemma LastOfMore(entries: seq<Record>, r: Record)
    requires entries != []
    ensures var n := |entries| - 1;
            IsLast(entries, r) <==> r == entries[n] || (IsLast(entries[..n], r) && !Matches(entries[n], r))
  {
    var n := |entries| - 1;
    if r == entries[n] {
      assert LastAt(entries, r, n);
    } else if IsLast(entries, r) {
      var k :| 0 <= k < |entries| && LastAt(entries, r, k);
      assert LastAt(entries[..n], r, k);
    } else if IsLast(entries[..n], r) {
      var k :| 0 <= k < n && LastAt(entries[..n], r, k);
      if !Matches(entries[n], r) {
        assert LastAt(entries, r, k);
      }
    }
  }

  // ---- The routines ----------------------------------------------------------------------

  datatype Access = None | ReadOnly | ReadWrite

  class File {
    const access: Access
    var records: seq<Record>
    // the file ends within a record
    var ragged: bool
    var open: bool
    var pos: nat
    var ubuf: Record

    constructor (access: Access, records: seq<Record>, ragged: bool)
      ensures this.access == access && Contents() == (if ragged then [] else records)
      ensures Valid() && Cached() && !open
    {
      this.access, this.records, this.ragged := access, records, ragged;
      open, pos, ubuf := false, 0, ZEROED;
    }

    // What the file holds once it is open; a ragged file is removed then.
    ghost function Contents(): seq<Record>
      reads this
    {
      if ragged then [] else records
    }

    ghost predicate Valid()
      reads this
    {
      if open then access != None && !ragged && pos <= |records| else pos == 0 && ubuf == ZEROED
    }

    // ubuf is the record before the cursor, or empty.
    ghost predicate Cached()
      reads this
    {
      ubuf == ZEROED || (open && 0 < pos <= |records| && ubuf == records[pos - 1])
    }

    method GetUtEnt() returns (found: bool)
      requires Valid()
      modifies this
      ensures Valid() && Cached() && Contents() == old(Contents()) && open == (access != None)
      ensures found <==> open && old(pos) < |Contents()|
      ensures if found then pos == old(pos) + 1 && ubuf == Contents()[old(pos)] else pos == old(pos) && ubuf == ZEROED
    {
      if !open {
        if access == None {
          return false;
        }
        if ragged {
          records, ragged := [], false;
        }
        open := true;
      }
      if pos == |records| {
        ubuf := ZEROED;
        return false;
      }
      ubuf := records[pos];
      pos := pos + 1;
      return true;
    }

    method SetUtEnt()
      requires Valid()
      modifies `pos, `ubuf
      ensures Valid() && Cached() && pos == 0 && ubuf == ZEROED
    {
      pos, ubuf := 0, ZEROED;
    }

    method EndUtEnt()
      requires Valid()
      modifies `open, `pos, `ubuf
      ensures Valid() && Cached() && !open && Contents() == old(Contents())
    {
      open, pos, ubuf := false, 0, ZEROED;
    }

    // The record looked for is the cached one, or else the first match ahead of the cursor,
    // which then becomes the cached one.
    method GetUtId(entry: Record) returns (found: bool)
      requires Valid()
      modifies this
      ensures Valid() && Contents() == old(Contents()) && (old(Cached()) ==> Cached())
      ensures found
        <==> Matches(entry, old(ubuf)) || (access != None && FirstMatch(Contents(), entry, old(pos)) < |Contents()|)
      ensures found && Matches(entry, old(ubuf)) ==> pos == old(pos) && ubuf == old(ubuf)
      ensures found && !Matches(entry, old(ubuf))
        ==> open && pos == FirstMatch(Contents(), entry, old(pos)) + 1 && ubuf == Contents()[pos - 1]
      ensures old(open) ==> open
    {
      while true
        invariant Valid() && Contents() == old(Contents()) && old(pos) <= pos <= |Contents()|
        invariant old(Cached()) ==> Cached()
        invariant old(open) ==> open
        invariant if pos == old(pos) then ubuf == old(ubuf) else open && ubuf == Contents()[pos - 1]
        invariant pos > old(pos) ==> !Matches(entry, old(ubuf))
        invariant forall k :: old(pos) <= k < pos - 1 ==> !Matches(entry, Contents()[k])
        decreases |Contents()| - pos
      {
        if ubuf.kind != EMPTY {
          if entry.kind == EMPTY {
            return false;
          } else if IsEvent(entry.kind) {
            if entry.kind == ubuf.kind {
              return true;
            }
          } else if IsProcess(entry.kind) {
            if IsProcess(ubuf.kind) && ubuf.id == entry.id {
              return true;
            }
          } else {
            return false;
          }
        }
        var more := GetUtEnt();
        if !more {
          return false;
        }
      }
    }

    // The search of pututline(): the record before the cursor, then the records ahead, then
    // all from the first. The cursor is put before the record to be overwritten, if there is one.
    method Seek(entry: Record) returns (ready: bool, found: bool)
      requires Valid()
      modifies this
      ensures Valid() && Contents() == old(Contents()) && (ready <==> open && access == ReadWrite)
      ensures ready <==> access == ReadWrite
      ensures !(ready && found) ==> Cached()
      ensures ready ==> (found <==> Place(Contents(), entry, old(pos)) < |Contents()|)
      ensures ready && found ==> pos == Place(Contents(), entry, old(pos))
      ensures ready && found ==> ubuf == Contents()[pos]
    {
      ghost var file, cursor := Contents(), pos;
      found := GetUtEnt();
      ready := open && access == ReadWrite;
      if !ready {
        return;
      }
      FirstMatchStep(file, entry, cursor);
      found := GetUtId(entry);
      if !found {
        SetUtEnt();
        found := GetUtId(entry);
      }
      if found {
        pos := pos - 1;
      }
    }

    // The entry goes to its place, in a file that can be written, and is cached; a write may
    // fail, and leaves the file alone then, but the cursor before a record that is cached.
    method PutUtLine(entry: Record, writes: bool) returns (written: bool)
      requires Valid()
      modifies this
      ensures Valid() && (written || Contents() == old(Contents()))
      ensures written <==> access == ReadWrite && writes
      ensures written ==> Cached() && ubuf == entry
      ensures written ==> Contents() == Put(old(Contents()), entry, old(pos))
      ensures OneEach(old(Contents()))
              ==> (Cached() <==> written || access != ReadWrite
                                 || Place(old(Contents()), entry, old(pos)) == |old(Contents())|)
    {
      var ready, found := Seek(entry);
      if !ready {
        return false;
      }
      if !writes {
        if found && OneEach(Contents()) {
          NotCached(Contents(), pos);
        }
        return false;
      }
      if found {
        records := records[pos := entry];
        pos := pos + 1;
      } else {
        records := records + [entry];
        pos := |records|;
      }
      ubuf := entry;
      return true;
    }
  }

  lemma FirstMatchStep(file: seq<Record>, entry: Record, cursor: nat)
    requires cursor <= |file|
    ensures FirstMatch(file, entry, cursor)
         == if cursor == |file| || Matches(entry, file[cursor]) then cursor else FirstMatch(file, entry, cursor + 1)
  {
  }

  // A record that matches something is not the one before it.
  lemma NotCached(file: seq<Record>, i: nat)
    requires OneEach(file) && i < |file| && file[i].kind != EMPTY
    ensures file[i] != ZEROED && (0 < i && Matches(file[i], file[i]) ==> file[i - 1] != file[i])
  {
  }
}
