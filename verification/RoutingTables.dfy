/**
 * The routing table itself: the vector of cells, updated in place, and the
 * loops that look for a place, a victim or the next hop.
 */
module RoutingTables {
  import opened Keys
  import opened Hosts
  import opened TableCells

  // ------------------------------------------------------------ choosing a hop

  method BestEntry(e1: Host, e2: Host, key: Key) returns (e: Host)
    ensures Graded(e) == BetterOf(Graded(e1), Graded(e2), key)
  {
    var e1match, e2match := KeyIndex(e1.key, key), KeyIndex(e2.key, key);
    if e1match > e2match {
      return e1;
    }
    if e2match > e1match {
      return e2;
    }
    if e1.successAvg > e2.successAvg || (e1.successAvg == e2.successAvg && e1.latency < e2.latency) {
      return e1;
    } else {
      return e2;
    }
  }

  /** The selection loop of routeLookup over the entries of one cell. */
  method ChooseFrom(cell: seq<Host?>, key: Key) returns (nextHop: Host?)
    ensures Graded(nextHop) == BestUsable(Seen(cell), key)
    ensures Chosen(Seen(cell), Graded(nextHop), key)
  {
    nextHop := null;
    for k := 0 to |cell|
      invariant Graded(nextHop) == BestUsable(Seen(cell[..k]), key)
    {
      var c := cell[k];
      SeenSnoc(cell, k);
      if c != null && c.successAvg > BAD_LINK {
        if nextHop == null {
          nextHop := c;
        } else {
          nextHop := BestEntry(nextHop, c, key);
        }
      }
    }
    assert cell[..|cell|] == cell;
    BestUsableIsChosen(Seen(cell), key);
  }

  lemma SeenSnoc(cell: seq<Host?>, k: nat)
    requires k < |cell|
    ensures var v := Seen(cell[..k + 1]);
            |v| == k + 1 && v[..k] == Seen(cell[..k]) && v[k] == Graded(cell[k])
  {
  }

  /** Where the clockwise walk ends: past the last column of the row it crosses, or one row too far. */
  lemma ClockwiseEnd(me: Host, cells: seq<Host?>, v: seq<Entry>, key: Key, i: nat, j: nat)
    requires WellPlaced(me.key, cells) && v == Seen(cells)
    requires CrossedRow(me.key, key) == i && 2 <= i <= MAX_ROW
    requires if i == MAX_ROW then j < MAX_COL else j == MAX_COL
    ensures BestFrom(v, i, j, 0, Gap) ==
            match Clockwise(me, v, key)
            case Throws => Outside
            case Reaches(h) => if i == MAX_ROW || v[Index(i, 0, 1)].Gap? then Picked(Gap) else Picked(v[Index(i, 0, 1)])
  {
    if i == MAX_ROW {
      PastLastRow(me, cells, v, j);
    } else {
      PastLastColumn(v, i);
    }
  }

  /** One column past the last is column 0 one deeper, and then the end of the vector. */
  lemma PastLastColumn(v: seq<Entry>, i: nat)
    requires |v| == TABLE_SIZE && i < MAX_ROW
    ensures BestFrom(v, i, MAX_COL, 0, Gap) ==
            if v[Index(i, 0, 1)].Gap? then Picked(Gap)
            else if v[Index(i, 0, 2)].Gap? then Picked(v[Index(i, 0, 1)])
            else Outside
  {
    assert Index(i, MAX_COL, 0) == Index(i, 0, 1) && Index(i, MAX_COL, 1) == Index(i, 0, 2);
    assert Index(i, MAX_COL, 2) >= TABLE_SIZE;
    if v[Index(i, 0, 1)].Entry? && v[Index(i, 0, 2)].Entry? {
      var b := if Better(v[Index(i, 0, 2)], v[Index(i, 0, 1)]) then v[Index(i, 0, 2)] else v[Index(i, 0, 1)];
      assert BestFrom(v, i, MAX_COL, 2, b) == Outside;
      assert BestFrom(v, i, MAX_COL, 1, v[Index(i, 0, 1)]) == Outside;
    }
  }

  lemma CounterStep(me: Host, v: seq<Entry>, i: nat, j: nat, s: Stop)
    requires |v| == TABLE_SIZE && 2 <= i < MAX_ROW && j < MAX_COL && s == LeftOf(me.key, i, j)
    ensures var e := BestAt(v, s.i, s.j);
            CounterFrom(me, v, i, j) ==
            if e.Entry? then e.host else if s.last then me else CounterFrom(me, v, s.i, s.j)
  {
  }

  /** One row past the last is row 0 of the next column, which is empty. */
  lemma PastLastRow(me: Host, cells: seq<Host?>, v: seq<Entry>, j: nat)
    requires WellPlaced(me.key, cells) && v == Seen(cells) && j < MAX_COL
    ensures BestFrom(v, MAX_ROW, j, 0, Gap) == Picked(Gap)
  {
    FirstRowsEmpty(me.key, cells, Index(MAX_ROW, j, 0));
  }

  class RoutingTable {
    var me: Host
    const table: array<Host?>

    ghost predicate Valid()
      reads this, table
    {
      WellPlaced(me.key, table[..])
    }

    constructor (me: Host)
      ensures Valid() && this.me == me && fresh(table)
      ensures forall n :: 0 <= n < TABLE_SIZE ==> table[n] == null
    {
      this.me := me;
      table := new Host?[TABLE_SIZE](_ => null);
    }

    method Clear()
      requires table.Length == TABLE_SIZE
      modifies table
      ensures forall n :: 0 <= n < TABLE_SIZE ==> table[n] == null
    {
      for n := 0 to TABLE_SIZE
        invariant forall m :: 0 <= m < n ==> table[m] == null
      {
        table[n] := null;
      }
    }

    method KeyUpdate(newMe: Host)
      requires table.Length == TABLE_SIZE
      modifies this, table
      ensures Valid() && me == newMe
      ensures forall n :: 0 <= n < TABLE_SIZE ==> table[n] == null
    {
      me := newMe;
      Clear();
    }

    method FindWorstEntry(line: nat, column: nat) returns (worst: nat)
      requires table.Length == TABLE_SIZE && line < MAX_ROW && column < MAX_COL
      ensures worst == MAX_ENTRY <==> table[Index(line, column, 0)] == null
      ensures worst <= MAX_ENTRY
      ensures worst < MAX_ENTRY ==> IsWorst(Seen(table[..]), line, column, worst)
    {
      ghost var v := Seen(table[..]);
      worst := MAX_ENTRY;
      var k := 0;
      while k < MAX_ENTRY && table[Index(line, column, k)] != null
        invariant 0 <= k <= MAX_ENTRY
        invariant k == 0 <==> worst == MAX_ENTRY
        invariant k > 0 ==> WorstAmong(v, line, column, worst, k)
      {
        if worst == MAX_ENTRY {
          worst := k;
        } else {
          var w, c := table[Index(line, column, worst)], table[Index(line, column, k)];
          if w.successAvg > c.successAvg || (w.successAvg == c.successAvg && w.latency < c.latency) {
            worst := k;
          }
        }
        k := k + 1;
      }
      assert Filled(v, line, column, k);
    }

    /** The scanning loop of add: up to the first gap or the entry itself. */
    method FindSlot(i: nat, j: nat, key: Key) returns (present: bool, k: nat)
      requires table.Length == TABLE_SIZE && i < MAX_ROW && j < MAX_COL
      ensures var s := ScanCell(table[..], i, j, key, 0);
              if s.Present? then present else !present && k == if s.Free? then s.k else MAX_ENTRY
    {
      k := 0;
      while k < MAX_ENTRY && table[Index(i, j, k)] != null
        invariant 0 <= k <= MAX_ENTRY
        invariant ScanCell(table[..], i, j, key, 0) == ScanCell(table[..], i, j, key, k)
      {
        if table[Index(i, j, k)].key == key {
          return true, k;
        }
        k := k + 1;
      }
      present := false;
    }

    method Add(entry: Host) returns (added: bool)
      requires Valid()
      modifies table
      ensures Valid()
      ensures AddedTo(me.key, old(table[..]), old(Seen(table[..])), entry, added, table[..])
    {
      if me.key == entry.key {
        return false;
      }
      var i := Row(me.key, entry.key);
      var j := Column(entry.key, i);
      var present, k := FindSlot(i, j, entry.key);
      if present {
        return false;
      }
      if k == MAX_ENTRY {
        k := FindWorstEntry(i, j);
      }
      PlacingKeepsPlaces(me.key, table[..], i, j, k, entry);
      table[Index(i, j, k)] := entry;
      assert table[..] == old(table[..])[Index(i, j, k) := entry];
      return true;
    }

    /** Only the key of the entry matters; that of the invalid host is 0. */
    method Remove(key: Key) returns (removed: bool)
      requires Valid()
      modifies table
      ensures Valid()
      ensures removed <==> exists n :: 0 <= n < TABLE_SIZE && HasKey(old(table[..])[n], key)
      ensures table[..] == Emptied(old(table[..]), key) && CellGone(old(table[..]), key, table[..])
    {
      EmptiesTheFirst(table[..], key);
      IndexIsBijective();
      if me.key == key {
        return false;
      }
      var i := Row(me.key, key);
      var j := Column(key, i);
      forall n | 0 <= n < TABLE_SIZE && HasKey(table[n], key) ensures n == Index(i, j, DepthOf(n)) {
      }
      var k := 0;
      while k < MAX_ENTRY
        invariant 0 <= k <= MAX_ENTRY && table[..] == old(table[..])
        invariant forall m :: 0 <= m < k ==> !HasKey(table[Index(i, j, m)], key)
      {
        var c := table[Index(i, j, k)];
        if c != null && c.key == key {
          table[Index(i, j, k)] := null;
          assert table[..] == old(table[..])[Index(i, j, k) := null];
          assert FirstWith(old(table[..]), key, 0) == Index(i, j, k);
          return true;
        }
        k := k + 1;
      }
      return false;
    }

    /** The selection in the cell of the key. */
    method PerfectMatch(key: Key) returns (nextHop: Host?)
      requires Valid() && key != me.key
      ensures Graded(nextHop) == BestUsable(MatchCell(me.key, Seen(table[..]), key), key)
    {
      var i := Row(me.key, key);
      var j := Column(key, i);
      var cell := [table[Index(i, j, 0)], table[Index(i, j, 1)], table[Index(i, j, 2)]];
      assert Seen(cell) == MatchCell(me.key, Seen(table[..]), key);
      nextHop := ChooseFrom(cell, key);
    }

    /** Index past the vector: thrown is set and nothing else is meant. */
    method FindBestEntry(line: nat, column: nat) returns (thrown: bool, best: nat)
      requires table.Length == TABLE_SIZE
      ensures BestFrom(Seen(table[..]), line, column, 0, Gap) ==
              if thrown then Outside else Picked(At(line, column, best))
      ensures !thrown ==> best <= MAX_ENTRY
      ensures !thrown && best < MAX_ENTRY ==> IsBest(Seen(table[..]), line, column, best)
      ensures !thrown && best == MAX_ENTRY ==>
                Index(line, column, 0) < TABLE_SIZE && table[Index(line, column, 0)] == null
    {
      ghost var v := Seen(table[..]);
      best := MAX_ENTRY;
      var k := 0;
      while k < MAX_ENTRY
        invariant 0 <= k <= MAX_ENTRY
        invariant k == 0 <==> best == MAX_ENTRY
        invariant k > 0 ==> BestAmong(v, line, column, best, k)
        invariant BestFrom(v, line, column, 0, Gap) == BestFrom(v, line, column, k, At(line, column, best))
      {
        if Index(line, column, k) >= TABLE_SIZE {
          return true, MAX_ENTRY;
        }
        var c := table[Index(line, column, k)];
        if c == null {
          break;
        }
        if best == MAX_ENTRY {
          best := k;
        } else {
          var b := table[Index(line, column, best)];
          if b.successAvg < c.successAvg || (b.successAvg == c.successAvg && b.latency > c.latency) {
            best := k;
          }
        }
        k := k + 1;
      }
      thrown := false;
      assert Filled(v, line, column, k);
    }

    /** The entry at a depth of a cell; a gap at depth MAX_ENTRY. */
    ghost function At(i: nat, j: nat, k: nat): Entry
      reads this, table, set h: Host | h in table[..]
    {
      if k < MAX_ENTRY && Index(i, j, k) < table.Length then Seen(table[..])[Index(i, j, k)] else Gap
    }

    /** The walk to the right of the wanted cell, as written. */
    method ClockwiseBest(key: Key) returns (thrown: bool, cw: Host)
      requires Valid() && key != me.key
      ensures Clockwise(me, Seen(table[..]), key) == if thrown then Throws else Reaches(cw)
    {
      var i := Row(me.key, key);
      var j := Column(key, i);
      cw := me;
      var done := false;
      while !done
        invariant 2 <= i <= MAX_ROW && 0 <= j && (j < MAX_COL || done)
        invariant i == MAX_ROW ==> done
        invariant !done ==> CrossedRow(me.key, key) == EndRow(me.key, i, j) && cw == me
        invariant done ==> Clockwise(me, Seen(table[..]), key) == Reaches(cw)
        modifies {}
        decreases !done, MAX_ROW - i, MAX_COL - j
      {
        j := j + 1;
        if j >= MAX_COL {
          cw, done := me, true;
        } else if Column(me.key, i) == j {
          i := i + 1;
          if i >= MAX_ROW {
            cw, done := me, true;
          } else {
            j := 0;
          }
        }
        if done {
          ClockwiseEnd(me, table[..], Seen(table[..]), key, i, j);
          var outside, best := FindBestEntry(i, j);
          if outside {
            return true, me;
          }
          if best < MAX_ENTRY {
            cw := table[Index(i, j, best)];
          }
        }
      }
      thrown := false;
    }

    /** The best entry of a cell, or of the empty one that row 40 is. */
    method BestHost(i: nat, j: nat, ghost v: seq<Entry>) returns (thrown: bool, h: Host?)
      requires Valid() && i <= MAX_ROW && j < MAX_COL && v == Seen(table[..])
      ensures !thrown
      ensures var e := BestAt(v, i, j); h == if e.Entry? then e.host else null
    {
      if i == MAX_ROW {
        PastLastRow(me, table[..], v, j);
      }
      var best;
      thrown, best := FindBestEntry(i, j);
      h := if !thrown && best < MAX_ENTRY then table[Index(i, j, best)] else null;
    }

    /** The walk to the left, which looks into every cell it passes. */
    method CounterClockwiseBest(key: Key) returns (thrown: bool, ccw: Host)
      requires Valid() && key != me.key
      ensures !thrown && ccw == CounterClockwise(me, Seen(table[..]), key)
    {
      var i := Row(me.key, key);
      var j := Column(key, i);
      ghost var v := Seen(table[..]);
      ghost var goal := CounterClockwise(me, v, key);
      ccw := me;
      var done := false;
      while !done
        invariant 2 <= i <= MAX_ROW && 0 <= j < MAX_COL
        invariant i == MAX_ROW ==> done
        invariant goal == if done then ccw else CounterFrom(me, v, i, j)
        modifies {}
        decreases !done, MAX_ROW - i, j
      {
        ghost var stop := LeftOf(me.key, i, j);
        CounterStep(me, v, i, j, stop);
        if j == 0 {
          ccw, done := me, true;
        } else {
          j := j - 1;
          if Column(me.key, i) == j {
            i := i + 1;
            if i == MAX_ROW {
              ccw, done := me, true;
            } else {
              j := MAX_COL - 1;
            }
          }
        }
        assert stop == Stop(i, j, done);
        var outside, best := BestHost(i, j, v);
        if outside {
          return true, me;
        }
        if best != null {
          ccw, done := best, true;
        }
      }
      thrown := false;
    }

    method RouteLookup(key: Key) returns (r: TableLookup, perfectMatch: bool)
      requires Valid()
      ensures r == LookupTable(me, Seen(table[..]), key)
      ensures perfectMatch <==> key != me.key && !NoMatch(me.key, Seen(table[..]), key)
    {
      NoMatchIff(me.key, Seen(table[..]), key);
      if me.key == key {
        return Found(me), false;
      }
      var nextHop := PerfectMatch(key);
      if nextHop != null {
        return Found(nextHop), true;
      }
      var thrown, cw := ClockwiseBest(key);
      if thrown {
        return OutOfRange, false;
      }
      var thrown', ccw := CounterClockwiseBest(key);
      if thrown' {
        return OutOfRange, false;
      }
      var distCW, distCCW := Distance(cw.key, key), Distance(ccw.key, key);
      if distCW < distCCW {
        return Found(cw), false;
      }
      if distCW > distCCW {
        return Found(ccw), false;
      }
      if cw == me {
        return Found(cw), false;
      }
      return Invalid, false;
    }
  }
}
