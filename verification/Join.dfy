// join.c: a merge join over two files, the second of which is rewound to the start of a
// group of equal keys for every further line of the first file with that key.
module Join {
  import opened JoinRelation

  class Merge {
    const files: Files
    const aflg: nat
    // n1 and n2 count the fields of the current lines, 0 at end of file; pos1 and pos2 are
    // the offsets of the files, in lines.
    var n1: nat
    var n2: nat
    var line1: Line
    var line2: Line
    var pos1: nat
    var pos2: nat
    var out: seq<Row>

    constructor (files: Files, aflg: nat)
      ensures this.files == files && this.aflg == aflg && pos1 == pos2 == 0 && out == []
    {
      this.files, this.aflg := files, aflg;
      n1, n2, line1, line2, pos1, pos2, out := 0, 0, [], [], 0, 0, [];
    }

    // The index of the line a file is at.
    ghost function I(): nat
      reads this
    {
      if n1 > 0 && pos1 > 0 then pos1 - 1 else |files.f1|
    }

    ghost function J(): nat
      reads this
    {
      if n2 > 0 && pos2 > 0 then pos2 - 1 else |files.f2|
    }

    ghost predicate Valid1()
      reads this
    {
      && files.Valid() && pos1 <= |files.f1|
      && if n1 > 0 then 0 < pos1 && line1 == files.f1[pos1 - 1] && n1 == |line1| else pos1 == |files.f1|
    }

    ghost predicate Valid2()
      reads this
    {
      && files.Valid() && pos2 <= |files.f2|
      && if n2 > 0 then 0 < pos2 && line2 == files.f2[pos2 - 1] && n2 == |line2| else pos2 == |files.f2|
    }

    ghost predicate Valid()
      reads this
      ensures Valid() ==> I() <= |files.f1| && J() <= |files.f2|
    {
      Valid1() && Valid2()
    }

    // input(F1), input(F2)
    method Get1()
      requires files.Valid() && pos1 <= |files.f1|
      modifies `n1, `line1, `pos1
      ensures Valid1() && I() == old(pos1)
    {
      if pos1 < |files.f1| {
        line1 := files.f1[pos1];
        n1, pos1 := |line1|, pos1 + 1;
      } else {
        n1 := 0;
      }
    }

    method Get2()
      requires files.Valid() && pos2 <= |files.f2|
      modifies `n2, `line2, `pos2
      ensures Valid2() && J() == old(pos2)
    {
      if pos2 < |files.f2| {
        line2 := files.f2[pos2];
        n2, pos2 := |line2|, pos2 + 1;
      } else {
        n2 := 0;
      }
    }

    // fseek and the read that follows it
    method Rewind(pos: nat)
      requires files.Valid() && pos <= |files.f2|
      modifies `n2, `line2, `pos2
      ensures Valid2() && J() == pos
    {
      pos2 := pos;
      Get2();
    }

    function Comp(): int
      requires Valid() && n1 > 0 && n2 > 0
      reads this
    {
      Compare(line1[files.j1], line2[files.j2])
    }

    // The current lines make a pair.
    method PrintPair(ghost sorted: bool, ghost j: nat)
      requires Valid() && n1 > 0 && n2 > 0 && Comp() == 0 && j <= J()
      requires sorted ==> Pairing(files, aflg, out, I(), j, J(), files.Key1(I()))
      modifies `n2, `line2, `pos2, `out
      ensures Valid() && I() == old(I()) && J() == old(J()) + 1 && J() == old(pos2)
      ensures sorted ==> Pairing(files, aflg, out, I(), j, J(), files.Key1(I()))
    {
      CompareEqual(line1[files.j1], line2[files.j2]);
      if sorted {
        PairPrinted(files, aflg, out, I(), j, J());
      }
      out := out + [Both(line1, line2)];
      Get2();
    }

    // The first pass over the group at lines I() and J(); the result is top2.
    method FirstPass(ghost sorted: bool) returns (top2: nat)
      requires Valid() && n1 > 0 && n2 > 0 && Comp() == 0
      requires sorted ==> files.InOrder() && Merging(files, aflg, out, I(), J())
      modifies `n2, `line2, `pos2, `out
      ensures Valid() && I() == old(I()) && J() == top2 && old(J()) < top2
      ensures sorted ==> Within(files, aflg, out, I() + 1, old(J()), top2, old(J()))
    {
      ghost var i, j := I(), J();
      top2 := pos2 - 1;
      CompareEqual(line1[files.j1], line2[files.j2]);
      if sorted {
        StartPairing(files, aflg, out, i, j);
      }
      while n2 > 0 && Comp() == 0
        invariant Valid() && I() == i && n1 > 0 && top2 == J() && j <= top2
        invariant J() == j ==> n2 > 0 && Comp() == 0
        invariant sorted ==> Pairing(files, aflg, out, i, j, J(), files.Key1(i))
        decreases |files.f2| - J()
      {
        top2 := pos2;
        PrintPair(sorted, j);
      }
      if sorted {
        if n2 > 0 {
          CompareEqual(files.Key1(i), files.Key2(top2));
        }
        FirstLineDone(files, aflg, out, i, j, top2);
      }
    }

    // On sorted files the current line of the first is paired with the lines of the group
    // [bot2, top2) before the current one of the second.
    ghost predicate InGroup(sorted: bool, bot2: nat, top2: nat)
      reads this
    {
      && Valid() && bot2 <= J() && (n2 == 0 ==> n1 > 0)
      && (sorted ==> files.InOrder() && Within(files, aflg, out, I(), bot2, top2, J()))
    }

    method PairAgain(ghost sorted: bool, ghost bot2: nat, ghost top2: nat)
      requires InGroup(sorted, bot2, top2) && n1 > 0 && n2 > 0 && Comp() == 0
      modifies `n2, `line2, `pos2, `out
      ensures InGroup(sorted, bot2, top2) && I() == old(I()) && J() == old(J()) + 1
    {
      CompareEqual(line1[files.j1], line2[files.j2]);
      if sorted {
        WithinEqual(files, aflg, out, I(), bot2, top2, J());
      }
      out := out + [Both(line1, line2)];
      Get2();
    }

    method NextFirst(bot2: nat, ghost sorted: bool, ghost top2: nat)
      requires InGroup(sorted, bot2, top2) && bot2 < |files.f2| && n1 > 0 && (n2 > 0 ==> Comp() < 0)
      modifies `n1, `line1, `pos1, `n2, `line2, `pos2
      ensures InGroup(sorted, bot2, top2) && I() == old(I()) + 1
    {
      if sorted {
        WithinLess(files, aflg, out, I(), bot2, top2, J());
      }
      Rewind(bot2);
      Get1();
    }

    // The further lines of the first file, each against the group from bot2 on; the file is
    // left at top2, behind the group.
    method FurtherLines(bot2: nat, top2: nat, ghost sorted: bool)
      requires Valid() && bot2 == J() < top2 <= |files.f2|
      requires sorted ==> files.InOrder() && Within(files, aflg, out, I(), bot2, top2, bot2)
      modifies `n1, `line1, `pos1, `n2, `line2, `pos2, `out
      ensures Valid() && I() >= old(I()) && J() == top2
      ensures sorted ==> Merging(files, aflg, out, I(), J())
    {
      while true
        invariant InGroup(sorted, bot2, top2) && I() >= old(I())
        decreases |files.f1| - I(), |files.f2| - J()
      {
        if n1 > 0 && n2 > 0 && Comp() == 0 {
          PairAgain(sorted, bot2, top2);
        } else if (n1 > 0 && n2 > 0 && Comp() < 0) || n2 == 0 {
          NextFirst(bot2, sorted, top2);
        } else {
          if sorted {
            WithinGreater(files, aflg, out, I(), bot2, top2, J());
          }
          Rewind(top2);
          break;
        }
      }
    }

    // On sorted files everything due was printed for the lines behind.
    ghost predicate OnTheWay(sorted: bool)
      reads this
    {
      Valid() && (sorted ==> files.InOrder() && Merging(files, aflg, out, I(), J()))
    }

    // The line of the second file is below that of the first.
    method SkipSecond(ghost sorted: bool) returns (bot2: nat)
      requires OnTheWay(sorted) && n2 > 0 && (n1 > 0 ==> Comp() > 0)
      modifies `n2, `line2, `pos2, `out
      ensures OnTheWay(sorted) && I() == old(I()) && old(J()) < bot2 == J()
    {
      if sorted {
        PassSecond(files, aflg, out, I(), J());
      }
      if aflg / 2 % 2 == 1 {
        out := out + [Right(line2)];
      }
      bot2 := pos2;
      Get2();
    }

    method SkipFirst(ghost sorted: bool)
      requires OnTheWay(sorted) && n1 > 0 && (n2 > 0 ==> Comp() < 0)
      modifies `n1, `line1, `pos1, `out
      ensures OnTheWay(sorted) && I() == old(I()) + 1 && J() == old(J())
    {
      if sorted {
        PassFirst(files, aflg, out, I(), J());
      }
      if aflg % 2 == 1 {
        out := out + [Left(line1)];
      }
      Get1();
    }

    // A group of equal keys in both files
    method JoinGroup(bot2: nat, ghost sorted: bool) returns (top2: nat)
      requires OnTheWay(sorted) && n1 > 0 && n2 > 0 && Comp() == 0 && bot2 == J()
      modifies `n1, `line1, `pos1, `n2, `line2, `pos2, `out
      ensures OnTheWay(sorted) && I() > old(I()) && old(J()) < top2 == J()
    {
      top2 := FirstPass(sorted);
      Rewind(bot2);
      Get1();
      FurtherLines(bot2, top2, sorted);
    }

    // The main loop. It ends on all files; on sorted ones it prints the nested-loop join and,
    // each in its place, the unpairable lines asked for.
    method Run()
      requires files.Valid() && pos1 == pos2 == 0 && out == []
      modifies this
      ensures files.InOrder() ==> BothsOf(out) == files.Pairs(|files.f1|, 0)
      ensures files.InOrder() ==> LeftsOf(out) == files.Lonely1(|files.f1|, WantsLeft(aflg))
      ensures files.InOrder() ==> RightsOf(out) == files.Lonely2(|files.f2|, WantsRight(aflg))
      ensures files.InOrder() ==> RowsInOrder(files, out)
    {
      ghost var sorted := files.InOrder();
      Get1();
      var bot2 := pos2;
      Get2();
      while (n1 > 0 && n2 > 0) || (aflg != 0 && n1 + n2 > 0)
        invariant OnTheWay(sorted) && bot2 == J()
        decreases |files.f1| - I() + |files.f2| - J()
      {
        if (n1 > 0 && n2 > 0 && Comp() > 0) || n1 == 0 {
          bot2 := SkipSecond(sorted);
        } else if (n1 > 0 && n2 > 0 && Comp() < 0) || n2 == 0 {
          SkipFirst(sorted);
        } else {
          bot2 := JoinGroup(bot2, sorted);
        }
      }
      if sorted {
        RestIsSilent(files, aflg, out, I(), J());
        ChainedInOrder(files, out);
      }
    }
  }
}
