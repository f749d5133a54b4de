/**
 * Whole networks in which every node's leafset was filled by adding every
 * other node, each in an order of its own.  Nodes are listed by ascending key.
 */
module LeafsetNetwork {
  import opened Keys
  import opened Hosts
  import opened Leafsets
  import opened NearestLeaves

  function HostsOf(s: seq<Host>): set<Host> {
    set h | h in s
  }

  /** adds[h] is the run of additions that filled the leafset of h. */
  ghost predicate Network(nodes: seq<Host>, adds: map<Host, seq<Host>>) {
    && Ordered(CW, nodes)
    && forall h :: h in nodes ==> h in adds && HostsOf(adds[h]) == HostsOf(nodes) - {h}
  }

  function LeavesOf(adds: map<Host, seq<Host>>, h: Host): Leaves
    requires h in adds
  {
    AddAll(Empty(h), adds[h])
  }

  function Min(a: int, b: int): int {
    if a < b then a else b
  }

  function Above(nodes: seq<Host>, i: nat): (s: seq<Host>)
    requires i < |nodes|
    ensures |s| == Min(ONE_SIDE_LEAFSET_SIZE, |nodes| - 1 - i)
    ensures forall d :: 0 <= d < |s| ==> s[d] == nodes[i + 1 + d]
    ensures forall h :: h in s ==> h in nodes
  {
    seq(Min(ONE_SIDE_LEAFSET_SIZE, |nodes| - 1 - i),
        d requires 0 <= d < Min(ONE_SIDE_LEAFSET_SIZE, |nodes| - 1 - i) => nodes[i + 1 + d])
  }

  function Below(nodes: seq<Host>, i: nat): (s: seq<Host>)
    requires i < |nodes|
    ensures |s| == Min(ONE_SIDE_LEAFSET_SIZE, i)
    ensures forall d :: 0 <= d < |s| ==> s[d] == nodes[i - 1 - d]
    ensures forall h :: h in s ==> h in nodes
  {
    seq(Min(ONE_SIDE_LEAFSET_SIZE, i), d requires 0 <= d < Min(ONE_SIDE_LEAFSET_SIZE, i) => nodes[i - 1 - d])
  }

  lemma KeyDeterminesNode(nodes: seq<Host>, a: Host, b: Host)
    requires Ordered(CW, nodes) && a in nodes && b in nodes && a.key == b.key
    ensures a == b
  {
  }

  lemma AboveIsNearest(nodes: seq<Host>, i: nat, es: seq<Host>)
    requires Ordered(CW, nodes) && i < |nodes| && HostsOf(es) == HostsOf(nodes) - {nodes[i]}
    ensures Nearest(CW, Above(nodes, i), KeysOn(CW, nodes[i].key, es))
  {
    var s, me := Above(nodes, i), nodes[i].key;
    forall h | h in s ensures h.key in KeysOn(CW, me, es) {
      assert h in HostsOf(nodes) - {nodes[i]};
      assert h in es;
    }
    forall k | k in KeysOn(CW, me, es) && k !in KeysOf(s)
      ensures |s| == ONE_SIDE_LEAFSET_SIZE && Before(CW, s[|s| - 1].key, k)
    {
      var h :| h in es && h.key == k;
      assert h in HostsOf(es) && h in HostsOf(nodes);
      var j :| 0 <= j < |nodes| && nodes[j] == h;
      assert j > i;
      forall m | i < m <= i + |s| ensures nodes[m] != h {
        assert s[m - i - 1] in s;
      }
    }
  }

  lemma BelowIsNearest(nodes: seq<Host>, i: nat, es: seq<Host>)
    requires Ordered(CW, nodes) && i < |nodes| && HostsOf(es) == HostsOf(nodes) - {nodes[i]}
    ensures Nearest(CCW, Below(nodes, i), KeysOn(CCW, nodes[i].key, es))
  {
    var s, me := Below(nodes, i), nodes[i].key;
    forall h | h in s ensures h.key in KeysOn(CCW, me, es) {
      assert h in HostsOf(nodes) - {nodes[i]};
      assert h in es;
    }
    forall k | k in KeysOn(CCW, me, es) && k !in KeysOf(s)
      ensures |s| == ONE_SIDE_LEAFSET_SIZE && Before(CCW, s[|s| - 1].key, k)
    {
      var h :| h in es && h.key == k;
      assert h in HostsOf(es) && h in HostsOf(nodes);
      var j :| 0 <= j < |nodes| && nodes[j] == h;
      assert j < i;
      forall m | i - |s| <= m < i ensures nodes[m] != h {
        assert s[i - 1 - m] in s;
      }
    }
  }

  /** Each node knows exactly its four neighbours either way, nearest first. */
  lemma NeighboursAreLeaves(nodes: seq<Host>, adds: map<Host, seq<Host>>, i: nat)
    requires Network(nodes, adds) && i < |nodes|
    ensures LeavesOf(adds, nodes[i]) == Leaves(nodes[i], Above(nodes, i), Below(nodes, i))
  {
    var me := nodes[i];
    var es := adds[me];
    var l := LeavesOf(adds, me);
    FilledSides(me, es);
    AboveIsNearest(nodes, i, es);
    BelowIsNearest(nodes, i, es);
    SameHosts(nodes, CW, l.cw, Above(nodes, i), KeysOn(CW, me.key, es), es);
    SameHosts(nodes, CCW, l.ccw, Below(nodes, i), KeysOn(CCW, me.key, es), es);
  }

  lemma SameHosts(nodes: seq<Host>, side: Side, s: seq<Host>, t: seq<Host>, ks: set<Key>, es: seq<Host>)
    requires Ordered(CW, nodes) && Nearest(side, s, ks) && Nearest(side, t, ks)
    requires HostsOf(es) <= HostsOf(nodes)
    requires forall h :: h in s ==> h in es
    requires forall h :: h in t ==> h in nodes
    ensures s == t
  {
    NearestIsUnique(side, s, t, ks);
    forall d | 0 <= d < |s| ensures s[d] == t[d] {
      assert s[d] in s && s[d] in es && s[d] in HostsOf(es) && s[d] in HostsOf(nodes);
      assert t[d] in t;
      KeyDeterminesNode(nodes, s[d], t[d]);
    }
  }

  // ----------------------------------------------------------------- routing

  function Step(adds: map<Host, seq<Host>>, h: Host, key: Key): Host {
    if h in adds then Lookup(LeavesOf(adds, h), key) else h
  }

  /** Where n applications of the leafset lookup lead. */
  function Walk(adds: map<Host, seq<Host>>, h: Host, key: Key, n: nat): Host {
    if n == 0 then h else Walk(adds, Step(adds, h, key), key, n - 1)
  }

  /** Rank of the next hop from rank i towards rank j. */
  function NextRank(i: int, j: int): int {
    if i < j then Min(j, i + ONE_SIDE_LEAFSET_SIZE)
    else if j < i - ONE_SIDE_LEAFSET_SIZE then i - ONE_SIDE_LEAFSET_SIZE
    else j
  }

  lemma HostWithKeyIs(nodes: seq<Host>, s: seq<Host>, d: nat)
    requires Ordered(CW, nodes) && d < |s| && forall h :: h in s ==> h in nodes
    ensures s[d].key in KeysOf(s) && HostWithKey(s, s[d].key) == s[d]
  {
    assert s[d] in s;
    KeyDeterminesNode(nodes, HostWithKey(s, s[d].key), s[d]);
  }

  lemma HopTowardsNode(nodes: seq<Host>, adds: map<Host, seq<Host>>, i: nat, j: nat)
    requires Network(nodes, adds) && i < |nodes| && j < |nodes|
    ensures 0 <= NextRank(i, j) < |nodes|
    ensures Step(adds, nodes[i], nodes[j].key) == nodes[NextRank(i, j)]
  {
    NeighboursAreLeaves(nodes, adds, i);
    if i < j {
      LookupUp(nodes, i, j);
    } else {
      LookupDown(nodes, i, j);
    }
  }

  lemma LookupUp(nodes: seq<Host>, i: nat, j: nat)
    requires Ordered(CW, nodes) && i < j < |nodes|
    ensures Lookup(Leaves(nodes[i], Above(nodes, i), Below(nodes, i)), nodes[j].key) == nodes[NextRank(i, j)]
  {
    KeyInLeaves(nodes, i, j);
    if j <= i + |Above(nodes, i)| {
      HostWithKeyIs(nodes, Above(nodes, i), j - i - 1);
    }
  }

  lemma LookupDown(nodes: seq<Host>, i: nat, j: nat)
    requires Ordered(CW, nodes) && j <= i < |nodes|
    ensures Lookup(Leaves(nodes[i], Above(nodes, i), Below(nodes, i)), nodes[j].key) == nodes[NextRank(i, j)]
  {
    KeyInLeaves(nodes, i, j);
    if i - |Below(nodes, i)| <= j < i {
      HostWithKeyIs(nodes, Below(nodes, i), i - 1 - j);
    }
  }

  lemma KeyInLeaves(nodes: seq<Host>, i: nat, j: nat)
    requires Ordered(CW, nodes) && i < |nodes| && j < |nodes|
    ensures nodes[j].key in KeysOf(Above(nodes, i)) <==> i < j <= i + |Above(nodes, i)|
    ensures nodes[j].key in KeysOf(Below(nodes, i)) <==> i - |Below(nodes, i)| <= j < i
  {
    var cw, ccw := Above(nodes, i), Below(nodes, i);
    if i < j <= i + |cw| {
      assert cw[j - i - 1] in cw;
    }
    if i - |ccw| <= j < i {
      assert ccw[i - 1 - j] in ccw;
    }
  }

  /**
   * From rank i, the key of the node at rank j is reached after exactly
   * ceil(|i - j| / 4) hops: at that count and at no smaller one.
   */
  lemma {:induction false} ArrivesInExactly(nodes: seq<Host>, adds: map<Host, seq<Host>>, i: nat, j: nat, n: nat)
    requires Network(nodes, adds) && i < |nodes| && j < |nodes|
    requires n <= (Abs(i - j) + 3) / 4
    ensures Walk(adds, nodes[i], nodes[j].key, n) == nodes[j] <==> n == (Abs(i - j) + 3) / 4
    decreases n
  {
    if n == 0 {
      assert i != j ==> nodes[i].key != nodes[j].key;
    } else {
      HopTowardsNode(nodes, adds, i, j);
      var k := NextRank(i, j);
      ArrivesInExactly(nodes, adds, k, j, n - 1);
    }
  }

  /** Having arrived, the lookup stays. */
  lemma {:induction false} StaysThere(nodes: seq<Host>, adds: map<Host, seq<Host>>, j: nat, n: nat)
    requires Network(nodes, adds) && j < |nodes|
    ensures Walk(adds, nodes[j], nodes[j].key, n) == nodes[j]
  {
    if n > 0 {
      HopTowardsNode(nodes, adds, j, j);
      StaysThere(nodes, adds, j, n - 1);
    }
  }

  /** A lookup rests only at the key itself or at the end of the key line. */
  lemma RestsOnlyAtEnds(nodes: seq<Host>, adds: map<Host, seq<Host>>, i: nat, key: Key)
    requires Network(nodes, adds) && i < |nodes|
    ensures Step(adds, nodes[i], key) == nodes[i] <==>
            key == nodes[i].key || (key > nodes[i].key && i == |nodes| - 1) || (key < nodes[i].key && i == 0)
    ensures Step(adds, nodes[i], key) in nodes
  {
    NeighboursAreLeaves(nodes, adds, i);
    var l := LeavesOf(adds, nodes[i]);
    assert forall h :: h in l.cw || h in l.ccw ==> h in nodes && h.key != nodes[i].key;
    assert Step(adds, nodes[i], key) == Lookup(l, key);
  }

  /** Towards a key no node has, a lookup moves four ranks, or to the end of the key line. */
  lemma HopTowardsAbsent(nodes: seq<Host>, adds: map<Host, seq<Host>>, i: nat, key: Key)
    requires Network(nodes, adds) && i < |nodes| && key !in KeysOf(nodes)
    ensures key > nodes[i].key ==> Step(adds, nodes[i], key) == nodes[Min(|nodes| - 1, i + 4)]
    ensures key < nodes[i].key ==> Step(adds, nodes[i], key) == nodes[if i < 4 then 0 else i - 4]
  {
    NeighboursAreLeaves(nodes, adds, i);
    var cw, ccw := Above(nodes, i), Below(nodes, i);
    assert forall h :: h in cw || h in ccw ==> h.key in KeysOf(nodes);
    assert key !in KeysOf(cw) && key !in KeysOf(ccw) && nodes[i] in nodes;
  }

  /** A key that lies between nodes but belongs to none is never settled. */
  lemma {:induction false} AbsentKeyNeverSettles(nodes: seq<Host>, adds: map<Host, seq<Host>>, i: nat, key: Key, n: nat)
    requires Network(nodes, adds) && i < |nodes|
    requires key !in KeysOf(nodes) && nodes[0].key < key < nodes[|nodes| - 1].key
    ensures Walk(adds, nodes[i], key, n + 1) != Walk(adds, nodes[i], key, n)
    decreases n
  {
    assert nodes[i] in nodes;
    RestsOnlyAtEnds(nodes, adds, i, key);
    var next := Step(adds, nodes[i], key);
    assert Walk(adds, nodes[i], key, n + 1) == Walk(adds, next, key, n);
    if n > 0 {
      var j :| 0 <= j < |nodes| && nodes[j] == next;
      AbsentKeyNeverSettles(nodes, adds, j, key, n - 1);
    }
  }

  /** A key leads to the node that has it, or to the end of the key line it lies beyond. */
  predicate LeadsTo(nodes: seq<Host>, key: Key, j: nat)
    requires j < |nodes|
  {
    || nodes[j].key == key
    || (j == |nodes| - 1 && nodes[j].key < key)
    || (j == 0 && key < nodes[j].key)
  }

  lemma StepsAlike(nodes: seq<Host>, adds: map<Host, seq<Host>>, i: nat, j: nat, key: Key)
    requires Network(nodes, adds) && i < |nodes| && j < |nodes| && LeadsTo(nodes, key, j)
    ensures 0 <= NextRank(i, j) < |nodes| && Step(adds, nodes[i], key) == nodes[NextRank(i, j)]
  {
    HopTowardsNode(nodes, adds, i, j);
    NeighboursAreLeaves(nodes, adds, i);
    if nodes[j].key != key {
      NoneBeyond(nodes, i, j, key);
    }
  }

  lemma NoneBeyond(nodes: seq<Host>, i: nat, j: nat, key: Key)
    requires Ordered(CW, nodes) && i < |nodes| && j < |nodes| && LeadsTo(nodes, key, j) && nodes[j].key != key
    ensures Lookup(Leaves(nodes[i], Above(nodes, i), Below(nodes, i)), key) == nodes[NextRank(i, j)]
  {
    var cw, ccw := Above(nodes, i), Below(nodes, i);
    forall h | h in cw || h in ccw || h == nodes[i] ensures if key > nodes[j].key then h.key < key else h.key > key {
      var m :| 0 <= m < |nodes| && nodes[m] == h;
    }
    assert key !in KeysOf(cw) && key !in KeysOf(ccw);
  }

  lemma {:induction false} WalksAlike(nodes: seq<Host>, adds: map<Host, seq<Host>>, i: nat, j: nat, key: Key, n: nat)
    requires Network(nodes, adds) && i < |nodes| && j < |nodes| && LeadsTo(nodes, key, j)
    ensures Walk(adds, nodes[i], key, n) == Walk(adds, nodes[i], nodes[j].key, n)
    decreases n
  {
    if n > 0 {
      StepsAlike(nodes, adds, i, j, key);
      HopTowardsNode(nodes, adds, i, j);
      WalksAlike(nodes, adds, NextRank(i, j), j, key, n - 1);
    }
  }

  lemma {:induction false} WalkOn(adds: map<Host, seq<Host>>, h: Host, key: Key, n: nat, m: nat)
    ensures Walk(adds, h, key, n + m) == Walk(adds, Walk(adds, h, key, n), key, m)
    decreases n
  {
    if n > 0 {
      WalkOn(adds, Step(adds, h, key), key, n - 1, m);
    }
  }

  /** Such a key is reached after exactly ceil(|i - j| / 4) hops, and then the walk rests. */
  lemma ReachesAndRests(nodes: seq<Host>, adds: map<Host, seq<Host>>, i: nat, j: nat, key: Key, n: nat)
    requires Network(nodes, adds) && i < |nodes| && j < |nodes| && LeadsTo(nodes, key, j)
    ensures Walk(adds, nodes[i], key, n) == nodes[j] <==> n >= (Abs(i - j) + 3) / 4
  {
    var hops: nat := (Abs(i - j) + 3) / 4;
    WalksAlike(nodes, adds, i, j, key, n);
    if n <= hops {
      ArrivesInExactly(nodes, adds, i, j, n);
    } else {
      ArrivesInExactly(nodes, adds, i, j, hops);
      WalkOn(adds, nodes[i], nodes[j].key, hops, n - hops);
      StaysThere(nodes, adds, j, n - hops);
    }
  }

  predicate Rests(adds: map<Host, seq<Host>>, h: Host, key: Key, n: nat) {
    var next := n + 1;
    Walk(adds, h, key, next) == Walk(adds, h, key, n)
  }

  lemma SettlesAt(nodes: seq<Host>, adds: map<Host, seq<Host>>, i: nat, j: nat, key: Key)
    requires Network(nodes, adds) && i < |nodes| && j < |nodes| && LeadsTo(nodes, key, j)
    ensures exists n: nat :: Rests(adds, nodes[i], key, n)
  {
    var hops: nat := (Abs(i - j) + 3) / 4;
    ReachesAndRests(nodes, adds, i, j, key, hops);
    ReachesAndRests(nodes, adds, i, j, key, hops + 1);
    assert Rests(adds, nodes[i], key, hops);
  }

  /** Which walks come to rest: those for the key of a node, or beyond either end of the key line. */
  lemma SettlesIff(nodes: seq<Host>, adds: map<Host, seq<Host>>, i: nat, key: Key)
    requires Network(nodes, adds) && i < |nodes|
    ensures (exists n: nat :: Rests(adds, nodes[i], key, n)) <==>
            key in KeysOf(nodes) || key < nodes[0].key || key > nodes[|nodes| - 1].key
  {
    if key in KeysOf(nodes) {
      var h :| h in nodes && h.key == key;
      var j :| 0 <= j < |nodes| && nodes[j] == h;
      SettlesAt(nodes, adds, i, j, key);
    } else if key < nodes[0].key {
      SettlesAt(nodes, adds, i, 0, key);
    } else if key > nodes[|nodes| - 1].key {
      SettlesAt(nodes, adds, i, |nodes| - 1, key);
    } else {
      assert nodes[0] in nodes && nodes[|nodes| - 1] in nodes;
      forall n: nat ensures !Rests(adds, nodes[i], key, n) {
        AbsentKeyNeverSettles(nodes, adds, i, key, n);
      }
    }
  }
}
