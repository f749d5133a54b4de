/**
 * Leafset and table together: where a host is kept, and what the two make of
 * a key.
 */
module Routings {
  import opened Keys
  import opened Hosts
  import opened Leafsets
  import opened RoutingTables
  import opened TableCells

  // ------------------------------------------------------------- what is stored

  /** Number of occupied cells. */
  function Occupied(cells: seq<Host?>): nat {
    if cells == [] then 0 else (if cells[0] != null then 1 else 0) + Occupied(cells[1..])
  }

  lemma {:induction false} OccupiedUpdate(cells: seq<Host?>, n: nat)
    requires n < |cells| && cells[n] != null
    ensures Occupied(cells[n := null]) == Occupied(cells) - 1
  {
    var after := cells[n := null];
    if n == 0 {
      assert after[1..] == cells[1..];
    } else {
      assert after[1..] == cells[1..][n - 1 := null];
      OccupiedUpdate(cells[1..], n - 1);
    }
  }

  lemma EmptiedKeeps(cells: seq<Host?>, key: Key)
    ensures var r := Emptied(cells, key);
            (forall n :: 0 <= n < |cells| ==> r[n] == cells[n] || r[n] == null) &&
            Occupied(r) ==
            Occupied(cells) - (if exists n :: 0 <= n < |cells| && HasKey(cells[n], key) then 1 else 0)
  {
    var n := FirstWith(cells, key, 0);
    if n < |cells| {
      OccupiedUpdate(cells, n);
    }
  }

  // ----------------------------------------------------------------- the lookup

  /** Where to send next: a host, the invalid host, or an index past the table. */
  datatype Hop = Next(host: Host) | NoHost | Thrown

  /** The invalid host answers with the zero key. */
  function HopKey(hop: Hop): Key {
    if hop.Next? then hop.host.key else 0
  }

  /** The nearer of the leafset's answer and the table's; on a tie the table's, but for the local host. */
  function Decided(me: Host, leaf: Host, found: Hop, key: Key): Hop {
    if Distance(leaf.key, key) < Distance(HopKey(found), key) then Next(leaf)
    else if Distance(leaf.key, key) == Distance(HopKey(found), key) && leaf == me then Next(leaf)
    else found
  }

  /** Where the copy goes: the leaf with the key, or the first in the table if there is none. */
  ghost predicate CopyGone(l: Leaves, cells: seq<Host?>, key: Key, r: Leaves, left: seq<Host?>) {
    if key in KeysOf(l.cw) + KeysOf(l.ccw) then IsRemoval(l, key, r) && left == cells
    else r == l && CellGone(cells, key, left)
  }

  lemma DropsTheCopy(l: Leaves, cells: seq<Host?>, key: Key)
    requires ValidLeaves(l)
    ensures CopyGone(l, cells, key, RemoveFrom(l, key),
                     if key in KeysOf(l.cw) + KeysOf(l.ccw) then cells else Emptied(cells, key))
  {
    RemovesTheHost(l, key);
    EmptiesTheFirst(cells, key);
  }

  function LookupIn(l: Leaves, v: seq<Entry>, key: Key): Hop
    requires |v| == TABLE_SIZE
  {
    if l.me.key == key then Next(l.me)
    else if key in KeysOf(l.cw) + KeysOf(l.ccw) then Next(Lookup(l, key))
    else
      match LookupTable(l.me, v, key)
      case OutOfRange => Thrown
      case Invalid => Decided(l.me, Lookup(l, key), NoHost, key)
      case Found(h) =>
        if BestUsable(MatchCell(l.me.key, v, key), key).Entry? then Next(h)
        else Decided(l.me, Lookup(l, key), Next(h), key)
  }

  /** The key is not the local one, no leaf has it, and nothing in its cell is usable. */
  ghost predicate Undecided(l: Leaves, v: seq<Entry>, key: Key)
    requires |v| == TABLE_SIZE
  {
    key != l.me.key && key !in KeysOf(l.cw) + KeysOf(l.ccw) && NoMatch(l.me.key, v, key)
  }

  /**
   * Then the answer is that of the leafset or that of the table, whichever is
   * nearer; on a tie the table's, unless the leafset's is the local host.  The
   * invalid host counts as key 0, and the table may throw.
   */
  ghost predicate IsNearer(l: Leaves, v: seq<Entry>, key: Key, r: Hop)
    requires |v| == TABLE_SIZE
  {
    var leaf := Lookup(l, key);
    match LookupTable(l.me, v, key)
    case OutOfRange => r == Thrown
    case Invalid => if Distance(leaf.key, key) < Distance(0, key) then r == Next(leaf)
                    else if Distance(leaf.key, key) > Distance(0, key) then r == NoHost
                    else r == if leaf == l.me then Next(leaf) else NoHost
    case Found(h) =>
      && (r == Next(leaf) || r == Next(h))
      && Distance(r.host.key, key) <= Distance(leaf.key, key)
      && Distance(r.host.key, key) <= Distance(h.key, key)
      && (Distance(leaf.key, key) == Distance(h.key, key) ==> r.host == if leaf == l.me then leaf else h)
  }

  lemma AnswerIsNearer(l: Leaves, v: seq<Entry>, key: Key)
    requires |v| == TABLE_SIZE && Undecided(l, v, key)
    ensures IsNearer(l, v, key, LookupIn(l, v, key))
  {
    NoMatchIff(l.me.key, v, key);
  }

  /** Before that: the local host for its own key, a leaf with the key, a usable entry of its cell. */
  lemma AnswerIsDirect(l: Leaves, v: seq<Entry>, key: Key)
    requires |v| == TABLE_SIZE && ValidLeaves(l) && !Undecided(l, v, key)
    ensures var r := LookupIn(l, v, key);
            && r.Next?
            && (if key == l.me.key then r.host == l.me
                else if key in KeysOf(l.cw) + KeysOf(l.ccw) then IsAnswer(l, key, r.host)
                else exists e :: e in MatchCell(l.me.key, v, key) && Usable(e) && e.host == r.host)
  {
    NoMatchIff(l.me.key, v, key);
    LookupIsAnswer(l, key);
    BestUsableIsChosen(MatchCell(l.me.key, v, key), key);
  }

  /** With an empty table: the farthest leaf towards the key, if it is nearer to the key than the local host. */
  lemma LeafsetDecides(l: Leaves, v: seq<Entry>, key: Key, far: Host)
    requires |v| == TABLE_SIZE && forall n :: 0 <= n < TABLE_SIZE ==> v[n].Gap?
    requires ValidLeaves(l) && key != l.me.key && key !in KeysOf(l.cw) + KeysOf(l.ccw)
    requires if key > l.me.key then far in l.cw && forall g :: g in l.cw ==> g.key <= far.key
             else far in l.ccw && forall g :: g in l.ccw ==> far.key <= g.key
    ensures LookupIn(l, v, key) == Next(if Distance(far.key, key) < Distance(l.me.key, key) then far else l.me)
  {
    var w := Clockwise(l.me, v, key);
    assert NoMatch(l.me.key, v, key);
    CounterOfEmpty(l.me, v, Row(l.me.key, key), Column(key, Row(l.me.key, key)));
    FoundIsNearer(l.me, v, key, l.me, l.me);
    LookupIsAnswer(l, key);
    OneGreatest(l, key, Lookup(l, key), far);
    AnswerIsNearer(l, v, key);
  }

  lemma OneGreatest(l: Leaves, key: Key, a: Host, b: Host)
    requires ValidLeaves(l)
    requires if key > l.me.key then a in l.cw && b in l.cw && forall g :: g in l.cw ==> g.key <= a.key && g.key <= b.key
             else a in l.ccw && b in l.ccw && forall g :: g in l.ccw ==> a.key <= g.key && b.key <= g.key
    ensures a == b
  {
  }

  lemma {:induction false} CounterOfEmpty(me: Host, v: seq<Entry>, i: nat, j: nat)
    requires |v| == TABLE_SIZE && 2 <= i < MAX_ROW && j < MAX_COL && forall n :: 0 <= n < TABLE_SIZE ==> v[n].Gap?
    ensures CounterFrom(me, v, i, j) == me
    decreases MAX_ROW - i, j
  {
    var s := LeftOf(me.key, i, j);
    if !s.last {
      CounterOfEmpty(me, v, s.i, s.j);
    }
  }

  class Routing {
    const me: Host
    const leafset: Leafset
    const routingTable: RoutingTable

    ghost predicate Valid()
      reads this, leafset, routingTable, routingTable.table
    {
      && leafset.Valid() && routingTable.Valid()
      && leafset.me == me && routingTable.me == me
    }

    /** Stored copies, counted with repetition. */
    ghost function Copies(): nat
      reads this, leafset, routingTable, routingTable.table
    {
      |leafset.leavesCW| + |leafset.leavesCCW| + Occupied(routingTable.table[..])
    }

    ghost function Stored(): set<Host>
      reads this, leafset, routingTable, routingTable.table
    {
      StoredIn(leafset.leavesCW, leafset.leavesCCW, routingTable.table[..])
    }

    /** What a lookup would answer now. */
    ghost function Looked(key: Key): Hop
      requires routingTable.table.Length == TABLE_SIZE
      reads this, leafset, routingTable, routingTable.table, set h: Host | h in routingTable.table[..]
    {
      LookupIn(leafset.State(), Seen(routingTable.table[..]), key)
    }

    constructor (me: Host)
      ensures Valid() && this.me == me && Copies() == 0 && leafset.State() == Empty(me)
      ensures forall n :: 0 <= n < TABLE_SIZE ==> routingTable.table[n] == null
      ensures fresh(leafset) && fresh(routingTable) && fresh(routingTable.table)
    {
      this.me := me;
      leafset := new Leafset(me);
      routingTable := new RoutingTable(me);
      new;
      NoneOccupied(routingTable.table[..]);
    }

    /** The table is tried only when the leafset does not take the host. */
    method Add(host: Host) returns (added: bool)
      requires Valid()
      modifies leafset, routingTable.table
      ensures Valid()
      ensures leafset.State() == AddTo(old(leafset.State()), host)
      ensures if leafset.State() != old(leafset.State())
              then added && routingTable.table[..] == old(routingTable.table[..])
              else AddedTo(me.key, old(routingTable.table[..]), old(Seen(routingTable.table[..])), host, added,
                           routingTable.table[..])
    {
      added := leafset.Add(host);
      if !added {
        added := routingTable.Add(host);
      }
    }

    /** One copy at most goes, and one does go if any is stored. */
    method Remove(key: Key) returns (removed: bool)
      requires Valid()
      modifies leafset, routingTable.table
      ensures Valid()
      ensures leafset.State() == RemoveFrom(old(leafset.State()), key)
      ensures removed <==> old(Has(key))
      ensures routingTable.table[..] ==
              if key in KeysOf(old(leafset.leavesCW)) + KeysOf(old(leafset.leavesCCW)) then old(routingTable.table[..])
              else Emptied(old(routingTable.table[..]), key)
      ensures CopyGone(old(leafset.State()), old(routingTable.table[..]), key, leafset.State(), routingTable.table[..])
      ensures Copies() == old(Copies()) - if removed then 1 else 0
      ensures Stored() <= old(Stored())
      ensures !removed ==> leafset.State() == old(leafset.State()) && Stored() == old(Stored())
      ensures !removed ==> Seen(routingTable.table[..]) == old(Seen(routingTable.table[..]))
    {
      ghost var cells := routingTable.table[..];
      ghost var cw, ccw := leafset.leavesCW, leafset.leavesCCW;
      RemoveIsSubsequence(CW, cw, key);
      RemoveIsSubsequence(CCW, ccw, key);
      StoredWithKey(cw, ccw, cells, key);
      EmptiedKeeps(cells, key);
      DropsTheCopy(leafset.State(), cells, key);
      removed := leafset.Remove(key);
      if !removed {
        removed := routingTable.Remove(key);
      }
    }

    /** A host with this key is stored somewhere. */
    ghost predicate Has(key: Key)
      reads this, leafset, routingTable, routingTable.table
    {
      exists h :: h in Stored() && h.key == key
    }

    /** The lookup gives the invalid host, and no copy of key 0 is there to be dropped for it. */
    ghost predicate Stuck(key: Key)
      requires routingTable.table.Length == TABLE_SIZE
      reads this, leafset, routingTable, routingTable.table, set h: Host | h in routingTable.table[..]
    {
      Looked(key) == NoHost && !Has(0)
    }

    /** Leafset first, then a prefix match, then the nearer of what both offer. */
    method RouteLookup(key: Key) returns (r: Hop)
      requires Valid()
      ensures r == Looked(key)
      ensures r.Next? ==> r.host == me || r.host in Stored()
    {
      ghost var v := Seen(routingTable.table[..]);
      LookedIsKnown(leafset.State(), routingTable.table[..], v, key);
      if me.key == key {
        return Next(me);
      }
      var leafsetBest, b := leafset.RouteLookup(key);
      if b {
        return Next(leafsetBest);
      }
      NoMatchIff(me.key, v, key);
      var found, b' := routingTable.RouteLookup(key);
      if found.OutOfRange? {
        return Thrown;
      }
      var hop := if found.Found? then Next(found.host) else NoHost;
      if b' {
        return hop;
      }
      var distLB, distRB := Distance(leafsetBest.key, key), Distance(HopKey(hop), key);
      if distLB < distRB {
        return Next(leafsetBest);
      }
      if distLB > distRB {
        return hop;
      }
      if leafsetBest == me {
        return Next(leafsetBest);
      }
      return hop;
    }
  }

  lemma LookedIsKnown(l: Leaves, cells: seq<Host?>, v: seq<Entry>, key: Key)
    requires |cells| == TABLE_SIZE && Shows(cells, v)
    ensures var r := LookupIn(l, v, key); r.Next? ==> r.host == l.me || r.host in StoredIn(l.cw, l.ccw, cells)
  {
    LookupIsKnown(l, key);
    LookupIsSeen(l.me, v, key);
    var t := LookupTable(l.me, v, key);
    if t.Found? && t.host != l.me {
      var n :| 0 <= n < |v| && v[n].Entry? && v[n].host == t.host;
      assert cells[n] == t.host;
    }
  }

  lemma LookupIsKnown(l: Leaves, key: Key)
    ensures var h := Lookup(l, key); h == l.me || h in l.cw || h in l.ccw
    ensures key in KeysOf(l.cw) + KeysOf(l.ccw) ==> Lookup(l, key).key == key
  {
  }

  function StoredIn(cw: seq<Host>, ccw: seq<Host>, cells: seq<Host?>): set<Host> {
    (set h | h in cw) + (set h | h in ccw) + (set n | 0 <= n < |cells| && cells[n] != null :: cells[n])
  }

  lemma StoredWithKey(cw: seq<Host>, ccw: seq<Host>, cells: seq<Host?>, key: Key)
    ensures (exists h :: h in StoredIn(cw, ccw, cells) && h.key == key) <==>
            key in KeysOf(cw) + KeysOf(ccw) || exists n :: 0 <= n < |cells| && HasKey(cells[n], key)
  {
    forall n | 0 <= n < |cells| && HasKey(cells[n], key)
      ensures exists h :: h in StoredIn(cw, ccw, cells) && h.key == key
    {
      assert cells[n] in StoredIn(cw, ccw, cells);
    }
    if key in KeysOf(cw) + KeysOf(ccw) {
      var h :| (h in cw || h in ccw) && h.key == key;
      assert h in StoredIn(cw, ccw, cells);
    }
  }

  lemma {:induction false} NoneOccupied(cells: seq<Host?>)
    requires forall n :: 0 <= n < |cells| ==> cells[n] == null
    ensures Occupied(cells) == 0
  {
    if cells != [] {
      NoneOccupied(cells[1..]);
    }
  }
}
