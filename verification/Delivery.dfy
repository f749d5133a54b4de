/**
 * Leafset and table together, over a whole network: where the key of a node is
 * sent, hop by hop, when leafsets are filled and tables have what prefix
 * routing wants.
 */
module Delivery {
  import opened Keys
  import opened Hosts
  import opened Leafsets
  import opened LeafsetNetwork
  import opened PrefixRouting
  import opened Routings
  import opened TableCells

  /** Cells and view of the table of each node. */
  datatype Table = Table(cells: seq<Host?>, view: seq<Entry>)

  /** Every node has a well-placed table, with nodes of the network only. */
  ghost predicate Tables(nodes: seq<Host>, tables: map<Host, Table>) {
    forall h :: h in nodes ==>
      && h in tables && WellPlaced(h.key, tables[h].cells) && Shows(tables[h].cells, tables[h].view)
      && forall n :: 0 <= n < TABLE_SIZE && tables[h].cells[n] != null ==> tables[h].cells[n] in nodes
  }

  /** A node and another are no more than four ranks apart. */
  predicate Near(i: nat, j: nat) {
    Abs(i - j) <= ONE_SIDE_LEAFSET_SIZE
  }

  /** For every node that is no leaf the cell of its key has a usable entry. */
  ghost predicate Equipped(nodes: seq<Host>, tables: map<Host, Table>)
    requires Tables(nodes, tables)
  {
    forall i, j :: 0 <= i < |nodes| && 0 <= j < |nodes| && !Near(i, j) ==>
      nodes[i] in nodes && !NoMatch(nodes[i].key, tables[nodes[i]].view, nodes[j].key)
  }

  /** The nodes at ranks i and j share 38 digits and are no leaves of each other. */
  predicate Aside(nodes: seq<Host>, i: nat, j: nat)
    requires i < |nodes| && j < |nodes|
  {
    Common(nodes[i].key, nodes[j].key) >= SETTLED && !Near(i, j)
  }

  /** No node has two others that share 38 digits with it and are no leaves of it. */
  ghost predicate Spread(nodes: seq<Host>) {
    forall i, k, j ::
      (0 <= i < |nodes| && 0 <= k < |nodes| && 0 <= j < |nodes| && Aside(nodes, i, j) && Aside(nodes, k, j)) ==> i == k
  }

  /** No node has even one. */
  ghost predicate WideSpread(nodes: seq<Host>) {
    forall i, j :: 0 <= i < |nodes| && 0 <= j < |nodes| ==> !Aside(nodes, i, j)
  }

  /** Where the lookup at h sends the key; nowhere if it has no host to give. */
  function Hopped(adds: map<Host, seq<Host>>, tables: map<Host, Table>, h: Host, key: Key): Host {
    if h in adds && h in tables && |tables[h].view| == TABLE_SIZE then
      var hop := LookupIn(LeavesOf(adds, h), tables[h].view, key);
      if hop.Next? then hop.host else h
    else h
  }

  function Journey(adds: map<Host, seq<Host>>, tables: map<Host, Table>, h: Host, key: Key, n: nat): Host {
    if n == 0 then h else Journey(adds, tables, Hopped(adds, tables, h, key), key, n - 1)
  }

  /** A node four ranks away or less is reached at once. */
  lemma LeafHop(nodes: seq<Host>, adds: map<Host, seq<Host>>, tables: map<Host, Table>, i: nat, j: nat)
    requires Network(nodes, adds) && Tables(nodes, tables) && i < |nodes| && j < |nodes| && Near(i, j)
    ensures Hopped(adds, tables, nodes[i], nodes[j].key) == nodes[j]
  {
    assert nodes[i] in nodes;
    HopTowardsNode(nodes, adds, i, j);
    NeighboursAreLeaves(nodes, adds, i);
    KeyInLeaves(nodes, i, j);
  }

  /** More digits are shared with the key, or 38 as before. */
  predicate Gains(before: Key, after: Key, key: Key) {
    var c := Common(before, key);
    if c < SETTLED then Common(after, key) > c else Common(after, key) >= SETTLED
  }

  /** The key of a node farther away is sent to one that shares more digits with it, or 38 of them. */
  lemma TableHop(nodes: seq<Host>, adds: map<Host, seq<Host>>, tables: map<Host, Table>, i: nat, j: nat)
    returns (k: nat)
    requires Network(nodes, adds) && Tables(nodes, tables) && Equipped(nodes, tables)
    requires i < |nodes| && j < |nodes|
    ensures k < |nodes|
    ensures !Near(i, j) ==>
              && k != i && Hopped(adds, tables, nodes[i], nodes[j].key) == nodes[k]
              && Gains(nodes[i].key, nodes[k].key, nodes[j].key)
  {
    k := i;
    if !Near(i, j) {
      var me, key := nodes[i], nodes[j].key;
      var t := tables[me];
      assert me in nodes;
      NotALeaf(nodes, adds, i, j);
      MatchIsPerfectHop(me, t.cells, t.view, key);
      NoMatchIff(me.key, t.view, key);
      var next := LookupTable(me, t.view, key).host;
      HopLengthensPrefix(me, t.cells, key, next);
      k := RankOfEntry(nodes, t.cells, me, key, next);
      EntryIsNotMe(t.cells, me, key, next);
    }
  }

  lemma EntryIsNotMe(cells: seq<Host?>, me: Host, key: Key, next: Host)
    requires WellPlaced(me.key, cells) && PerfectHop(me, cells, key, next)
    ensures next != me
  {
    var i := Row(me.key, key);
    var j := Column(key, i);
    assert next == cells[Index(i, j, 0)] || next == cells[Index(i, j, 1)] || next == cells[Index(i, j, 2)];
  }

  lemma NotALeaf(nodes: seq<Host>, adds: map<Host, seq<Host>>, i: nat, j: nat)
    requires Network(nodes, adds) && i < |nodes| && j < |nodes| && !Near(i, j)
    ensures var l := LeavesOf(adds, nodes[i]);
            l.me == nodes[i] && nodes[j].key != l.me.key && nodes[j].key !in KeysOf(l.cw) + KeysOf(l.ccw)
  {
    NeighboursAreLeaves(nodes, adds, i);
    KeyInLeaves(nodes, i, j);
  }

  lemma RankOfEntry(nodes: seq<Host>, cells: seq<Host?>, me: Host, key: Key, next: Host) returns (k: nat)
    requires |cells| == TABLE_SIZE && PerfectHop(me, cells, key, next)
    requires forall n :: 0 <= n < TABLE_SIZE && cells[n] != null ==> cells[n] in nodes
    ensures k < |nodes| && nodes[k] == next
  {
    var i := Row(me.key, key);
    var j := Column(key, i);
    assert next == cells[Index(i, j, 0)] || next == cells[Index(i, j, 1)] || next == cells[Index(i, j, 2)];
    k :| 0 <= k < |nodes| && nodes[k] == next;
  }

  /** Hops enough from rank i to rank j: one for each of the first 38 digits not shared yet, and the last ones. */
  function Needed(nodes: seq<Host>, i: nat, j: nat, last: nat): (n: nat)
    requires i < |nodes| && j < |nodes|
  {
    if i == j then 0
    else if Near(i, j) then 1
    else
      var c := Common(nodes[i].key, nodes[j].key);
      if c < SETTLED then SETTLED - c + last else last
  }

  /** One hop is enough at the end when all that share 38 digits are leaves of each other, else two. */
  ghost predicate Enough(nodes: seq<Host>, last: nat) {
    (last == 2 && Spread(nodes)) || (last == 1 && WideSpread(nodes))
  }

  /** Every hop leads nearer. */
  lemma HopNeeds(nodes: seq<Host>, adds: map<Host, seq<Host>>, tables: map<Host, Table>, i: nat, j: nat, last: nat)
    returns (k: nat)
    requires Network(nodes, adds) && Tables(nodes, tables) && Equipped(nodes, tables) && Enough(nodes, last)
    requires i < |nodes| && j < |nodes|
    ensures k < |nodes| && Hopped(adds, tables, nodes[i], nodes[j].key) == nodes[k]
    ensures i == j ==> k == j
    ensures i != j ==> Needed(nodes, k, j, last) < Needed(nodes, i, j, last)
  {
    if Near(i, j) {
      LeafHop(nodes, adds, tables, i, j);
      k := j;
    } else {
      k := TableHop(nodes, adds, tables, i, j);
      NeedsLess(nodes, i, k, j, last);
    }
  }

  lemma NeedsLess(nodes: seq<Host>, i: nat, k: nat, j: nat, last: nat)
    requires i < |nodes| && j < |nodes| && k < |nodes| && k != i && !Near(i, j) && Enough(nodes, last)
    requires Gains(nodes[i].key, nodes[k].key, nodes[j].key)
    ensures Needed(nodes, k, j, last) < Needed(nodes, i, j, last)
  {
    assert Aside(nodes, i, j) ==> !Aside(nodes, k, j);
  }

  lemma {:induction false} Arrives(nodes: seq<Host>, adds: map<Host, seq<Host>>, tables: map<Host, Table>,
                                   i: nat, j: nat, n: nat, last: nat)
    requires i < |nodes| && j < |nodes| && n >= Needed(nodes, i, j, last)
    ensures Network(nodes, adds) && Tables(nodes, tables) && Equipped(nodes, tables) && Enough(nodes, last) ==>
              Journey(adds, tables, nodes[i], nodes[j].key, n) == nodes[j]
    decreases n
  {
    if n > 0 && Network(nodes, adds) && Tables(nodes, tables) && Equipped(nodes, tables) && Enough(nodes, last) {
      var k := HopNeeds(nodes, adds, tables, i, j, last);
      Arrives(nodes, adds, tables, k, j, n - 1, last);
    }
  }

  /** Within 40 hops, whatever the two nodes, and then the packet stays. */
  lemma DeliversWithin40(nodes: seq<Host>, adds: map<Host, seq<Host>>, tables: map<Host, Table>, i: nat, j: nat, n: nat)
    requires Network(nodes, adds) && Tables(nodes, tables) && Equipped(nodes, tables) && Spread(nodes)
    requires i < |nodes| && j < |nodes| && n >= 40
    ensures Journey(adds, tables, nodes[i], nodes[j].key, n) == nodes[j]
  {
    Arrives(nodes, adds, tables, i, j, n, 2);
  }

  /** Within 39 if all that share 38 digits are leaves of each other. */
  lemma DeliversWithin39(nodes: seq<Host>, adds: map<Host, seq<Host>>, tables: map<Host, Table>, i: nat, j: nat, n: nat)
    requires Network(nodes, adds) && Tables(nodes, tables) && Equipped(nodes, tables) && WideSpread(nodes)
    requires i < |nodes| && j < |nodes| && n >= 39
    ensures Journey(adds, tables, nodes[i], nodes[j].key, n) == nodes[j]
  {
    Arrives(nodes, adds, tables, i, j, n, 1);
  }

  // ------------------------------------------------------------- crowded nodes

  /** The entry of an otherwise empty cell of h in which a node belongs: that node, or the one preferred there. */
  ghost function Occupant(nodes: seq<Host>, h: Host, n: nat, preferred: Host): (e: Host?)
    requires n < TABLE_SIZE
    ensures e != null ==> PlacedAt(h.key, e.key, n) && (e in nodes || e == preferred)
    ensures e == null ==> DepthOf(n) > 0 || forall t :: t in nodes ==> !PlacedAt(h.key, t.key, n)
    ensures DepthOf(n) == 0 && PlacedAt(h.key, preferred.key, n) ==> e == preferred
    ensures DepthOf(n) > 0 ==> e == null
  {
    if DepthOf(n) > 0 then null
    else if PlacedAt(h.key, preferred.key, n) then preferred
    else if exists t :: t in nodes && PlacedAt(h.key, t.key, n) then
      var t :| t in nodes && PlacedAt(h.key, t.key, n);
      t
    else null
  }

  function FairEntry(e: Host?): Entry {
    if e == null then Gap else Entry(e, 0.5, 0.0)
  }

  /** A table with one entry, of a fair link, in each cell in which a node belongs. */
  ghost function TableFor(nodes: seq<Host>, h: Host, preferred: Host): (t: Table)
    ensures |t.cells| == |t.view| == TABLE_SIZE && Shows(t.cells, t.view)
    ensures forall n :: 0 <= n < TABLE_SIZE ==>
              t.cells[n] == Occupant(nodes, h, n, preferred) && t.view[n] == FairEntry(t.cells[n])
  {
    var cells := seq(TABLE_SIZE, n requires 0 <= n < TABLE_SIZE => Occupant(nodes, h, n, preferred));
    Table(cells, seq(TABLE_SIZE, n requires 0 <= n < TABLE_SIZE => FairEntry(cells[n])))
  }

  lemma TableIsPlaced(nodes: seq<Host>, h: Host, preferred: Host)
    requires preferred in nodes
    ensures var t := TableFor(nodes, h, preferred);
            && WellPlaced(h.key, t.cells)
            && forall n :: 0 <= n < TABLE_SIZE && t.cells[n] != null ==> t.cells[n] in nodes
  {
  }

  lemma EntryUsable(nodes: seq<Host>, h: Host, preferred: Host, key: Key, n: nat)
    requires n == Index(Row(h.key, key), Column(key, Row(h.key, key)), 0) && n < TABLE_SIZE
    requires TableFor(nodes, h, preferred).cells[n] != null
    ensures var v := TableFor(nodes, h, preferred).view;
            !NoMatch(h.key, v, key) && BestUsable(MatchCell(h.key, v, key), key) == v[n]
  {
    var t := TableFor(nodes, h, preferred);
    var i, j := Row(h.key, key), Column(key, Row(h.key, key));
    IndexIsBijective();
    assert DepthOf(Index(i, j, 1)) == 1 && DepthOf(Index(i, j, 2)) == 2;
    var cell := MatchCell(h.key, t.view, key);
    OnlyEntry(cell, key);
    NoMatchIff(h.key, t.view, key);
  }

  lemma OnlyEntry(cell: seq<Entry>, key: Key)
    requires |cell| == 3 && Usable(cell[0]) && cell[1] == Gap && cell[2] == Gap
    ensures BestUsable(cell, key) == cell[0]
  {
    assert cell[..2][..1] == cell[..1] && cell[..1][..0] == [];
    assert BestUsable(cell[..1], key) == cell[0];
    assert BestUsable(cell[..2], key) == cell[0];
  }

  /** The tables of all nodes; those of a and b prefer each other. */
  ghost function CrowdedTables(nodes: seq<Host>, a: Host, b: Host): (tables: map<Host, Table>)
  {
    map h | h in nodes :: TableFor(nodes, h, if h == a then b else if h == b then a else h)
  }

  lemma CrowdedAreTables(nodes: seq<Host>, a: Host, b: Host)
    requires a in nodes && b in nodes
    ensures Tables(nodes, CrowdedTables(nodes, a, b))
  {
    forall h | h in nodes {
      TableIsPlaced(nodes, h, if h == a then b else if h == b then a else h);
    }
  }

  lemma CrowdedAreEquipped(nodes: seq<Host>, a: Host, b: Host)
    requires Ordered(CW, nodes) && a in nodes && b in nodes && Tables(nodes, CrowdedTables(nodes, a, b))
    ensures Equipped(nodes, CrowdedTables(nodes, a, b))
  {
    forall i, j | 0 <= i < |nodes| && 0 <= j < |nodes| && !Near(i, j)
      ensures nodes[i] in nodes && !NoMatch(nodes[i].key, CrowdedTables(nodes, a, b)[nodes[i]].view, nodes[j].key)
    {
      var h := nodes[i];
      TargetHasEntry(nodes, h, if h == a then b else if h == b then a else h, nodes[j]);
    }
  }

  lemma TargetHasEntry(nodes: seq<Host>, h: Host, preferred: Host, target: Host)
    requires target in nodes && target.key != h.key
    ensures !NoMatch(h.key, TableFor(nodes, h, preferred).view, target.key)
  {
    IndexIsBijective();
    var i := Row(h.key, target.key);
    var n := Index(i, Column(target.key, i), 0);
    assert PlacedAt(h.key, target.key, n) && DepthOf(n) == 0;
    EntryUsable(nodes, h, preferred, target.key, n);
  }

  /** At a the lookup of a key that shares 38 digits with a and b gives b. */
  lemma GoesToPreferred(nodes: seq<Host>, adds: map<Host, seq<Host>>, tables: map<Host, Table>, i: nat, k: nat, j: nat)
    requires Network(nodes, adds) && i < |nodes| && k < |nodes| && j < |nodes| && i != k
    requires Aside(nodes, i, j) && Aside(nodes, k, j)
    requires nodes[i] in tables && tables[nodes[i]] == TableFor(nodes, nodes[i], nodes[k])
    ensures Hopped(adds, tables, nodes[i], nodes[j].key) == nodes[k]
  {
    var a, b, key := nodes[i], nodes[k], nodes[j].key;
    assert a in nodes && a.key != b.key && a.key != key;
    IndexIsBijective();
    SettledRow(a.key, b.key, key);
    var n := Index(39, Column(key, 39), 0);
    assert PlacedAt(a.key, b.key, n) && DepthOf(n) == 0;
    EntryUsable(nodes, a, b, key, n);
    NotALeaf(nodes, adds, i, j);
  }

  lemma Parity(n: nat)
    requires n > 0
    ensures n % 2 == 0 <==> (n - 1) % 2 != 0
  {
  }

  lemma {:induction false} ToAndFro(adds: map<Host, seq<Host>>, tables: map<Host, Table>, a: Host, b: Host, key: Key,
                                    n: nat)
    requires Hopped(adds, tables, a, key) == b && Hopped(adds, tables, b, key) == a
    ensures Journey(adds, tables, a, key, n) == if n % 2 == 0 then a else b
    decreases n
  {
    if n > 0 {
      ToAndFro(adds, tables, b, a, key, n - 1);
      Parity(n);
      assert Journey(adds, tables, a, key, n) == Journey(adds, tables, b, key, n - 1);
    }
  }

  /**
   * If some node has two such others, there are tables with an entry wherever
   * one is wanted that send a packet for it to and fro between the two for ever.
   */
  lemma CrowdedGoesAround(nodes: seq<Host>, adds: map<Host, seq<Host>>, i: nat, k: nat, j: nat)
    returns (tables: map<Host, Table>)
    requires Network(nodes, adds) && i < |nodes| && k < |nodes| && j < |nodes| && i != k
    requires Aside(nodes, i, j) && Aside(nodes, k, j)
    ensures Tables(nodes, tables) && Equipped(nodes, tables)
    ensures forall n: nat :: Journey(adds, tables, nodes[i], nodes[j].key, n) != nodes[j]
  {
    var a, b := nodes[i], nodes[k];
    assert a in nodes && b in nodes && a != b;
    tables := CrowdedTables(nodes, a, b);
    CrowdedAreTables(nodes, a, b);
    CrowdedAreEquipped(nodes, a, b);
    GoesToPreferred(nodes, adds, tables, i, k, j);
    GoesToPreferred(nodes, adds, tables, k, i, j);
    forall n: nat ensures Journey(adds, tables, a, nodes[j].key, n) != nodes[j] {
      ToAndFro(adds, tables, a, b, nodes[j].key, n);
    }
  }

  ghost predicate Reached(nodes: seq<Host>, adds: map<Host, seq<Host>>, tables: map<Host, Table>, i: nat, j: nat)
    requires i < |nodes| && j < |nodes|
  {
    exists n: nat :: Journey(adds, tables, nodes[i], nodes[j].key, n) == nodes[j]
  }

  /** So which nodes are always reached, whatever the tables, depends on their keys alone. */
  lemma DeliversIff(nodes: seq<Host>, adds: map<Host, seq<Host>>)
    requires Network(nodes, adds)
    ensures Spread(nodes) <==>
            forall tables: map<Host, Table>, i: nat, j: nat ::
              i < |nodes| && j < |nodes| && Tables(nodes, tables) && Equipped(nodes, tables) ==>
                Reached(nodes, adds, tables, i, j)
  {
    if Spread(nodes) {
      forall tables: map<Host, Table>, i: nat, j: nat
        | i < |nodes| && j < |nodes| && Tables(nodes, tables) && Equipped(nodes, tables)
        ensures Reached(nodes, adds, tables, i, j)
      {
        DeliversWithin40(nodes, adds, tables, i, j, 40);
      }
    } else {
      var i: nat, k: nat, j: nat :|
        i < |nodes| && k < |nodes| && j < |nodes| && Aside(nodes, i, j) && Aside(nodes, k, j) && i != k;
      var tables := CrowdedGoesAround(nodes, adds, i, k, j);
      assert !Reached(nodes, adds, tables, i, j);
    }
  }
}
