/**
 * When a lookup has no host to give: exactly which tables lead to the invalid
 * host and which to an index past the vector, and two runs of additions that do.
 */
module InvalidHosts {
  import opened Keys
  import opened Hosts
  import opened Leafsets
  import opened Options
  import opened Retries
  import opened RouteRuns
  import opened Routings
  import opened TableCells

  /** The answer of the leafset is farther from the key than key 0, or as far and not the local host. */
  predicate LosesToZero(l: Leaves, key: Key) {
    var leaf := Lookup(l, key);
    Distance(leaf.key, key) > Distance(0, key) || (Distance(leaf.key, key) == Distance(0, key) && leaf != l.me)
  }

  /** The lookup gives the invalid host exactly then. */
  lemma NoHostIff(l: Leaves, v: seq<Entry>, key: Key)
    requires |v| == TABLE_SIZE
    ensures LookupIn(l, v, key) == NoHost <==>
            Undecided(l, v, key) && Tied(l.me, v, key) && LosesToZero(l, key)
  {
    NoMatchIff(l.me.key, v, key);
    InvalidIff(l.me, v, key);
  }

  /** And it throws exactly then. */
  lemma ThrownIff(l: Leaves, v: seq<Entry>, key: Key)
    requires |v| == TABLE_SIZE
    ensures LookupIn(l, v, key) == Thrown <==> Undecided(l, v, key) && Crowded(l.me.key, v, key)
  {
    NoMatchIff(l.me.key, v, key);
    ThrowsIff(l.me, v, key);
  }

  // ------------------------------------------------------------- two such runs

  /** 16^39, the least key whose first digit is 1. */
  const TOP: Key := 0x1_000_0000_0000_0000_0000_0000_0000_0000_0000_0000

  lemma TopIsPower()
    ensures Pow16(39) == TOP
  {
    assert Pow16(8) == 0x1_0000_0000;
    assert Pow16(16) == 0x1_0000_0000_0000_0000;
    assert Pow16(24) == 0x1_0000_0000_0000_0000_0000_0000;
    assert Pow16(32) == 0x1_0000_0000_0000_0000_0000_0000_0000_0000;
  }

  lemma TopDigit(d: nat, lo: nat, k: Key)
    requires d < 16 && lo < TOP && k == d * TOP + lo
    ensures Digit(k, 0) == d
  {
    TopIsPower();
    DigitsConcat(d, 1, lo, 39);
    assert Digits(d, 1) == [d];
  }

  /** Seen from TOP, a key with another first digit belongs in row 2. */
  lemma FarKey(d: nat, lo: nat, k: Key)
    requires d < 16 && lo < TOP && k == d * TOP + lo && d != 1
    ensures Row(TOP, k) == 2 && Column(k, 2) == d && Column(TOP, 2) == 1
  {
    TopDigit(d, lo, k);
    TopDigit(1, 0, TOP);
  }

  lemma {:induction false} InsertLast(side: Side, s: seq<Host>, e: Host)
    requires forall h :: h in s ==> Before(side, h.key, e.key)
    ensures Insert(side, s, e) == s + [e]
  {
    if s != [] {
      assert s[0] in s;
      InsertLast(side, s[1..], e);
    }
  }

  /** A key beyond the last leaf goes last, if there is room. */
  lemma AddBeyond(l: Leaves, e: Host)
    requires ValidLeaves(l)
    requires e.key > l.me.key ==> forall h :: h in l.cw ==> h.key < e.key
    requires e.key < l.me.key ==> forall h :: h in l.ccw ==> h.key > e.key
    ensures e.key > l.me.key ==> AddTo(l, e) == if |l.cw| < 4 then l.(cw := l.cw + [e]) else l
    ensures e.key < l.me.key ==> AddTo(l, e) == if |l.ccw| < 4 then l.(ccw := l.ccw + [e]) else l
  {
    if e.key > l.me.key {
      InsertLast(CW, l.cw, e);
      assert |l.cw| == 4 ==> (l.cw + [e])[..4] == l.cw;
    } else if e.key < l.me.key {
      InsertLast(CCW, l.ccw, e);
      assert |l.ccw| == 4 ==> (l.ccw + [e])[..4] == l.ccw;
    }
  }

  /** The four nearest keys either way are leaves. */
  predicate FullAround(l: Leaves) {
    && l.me.key == TOP && |l.cw| == 4 && |l.ccw| == 4
    && (forall i :: 0 <= i < 4 ==> l.cw[i].key == TOP + 1 + i)
    && (forall i :: 0 <= i < 4 ==> l.ccw[i].key == TOP - 1 - i)
  }

  method AddLeaves(routing: Routing)
    requires routing.Valid() && routing.me.key == TOP && routing.leafset.State() == Empty(routing.me)
    modifies routing.leafset, routing.routingTable.table
    ensures routing.Valid() && FullAround(routing.leafset.State())
    ensures routing.routingTable.table[..] == old(routing.routingTable.table[..])
  {
    for i := 0 to 4
      invariant routing.Valid() && |routing.leafset.leavesCW| == i && routing.leafset.leavesCCW == []
      invariant forall k :: 0 <= k < i ==> routing.leafset.leavesCW[k].key == TOP + 1 + k
      invariant routing.routingTable.table[..] == old(routing.routingTable.table[..])
    {
      var h := new Host(TOP + 1 + i);
      AddBeyond(routing.leafset.State(), h);
      var _ := routing.Add(h);
    }
    for i := 0 to 4
      invariant routing.Valid() && |routing.leafset.leavesCW| == 4 && |routing.leafset.leavesCCW| == i
      invariant forall k :: 0 <= k < 4 ==> routing.leafset.leavesCW[k].key == TOP + 1 + k
      invariant forall k :: 0 <= k < i ==> routing.leafset.leavesCCW[k].key == TOP - 1 - k
      invariant routing.routingTable.table[..] == old(routing.routingTable.table[..])
    {
      var h := new Host(TOP - 1 - i);
      AddBeyond(routing.leafset.State(), h);
      var _ := routing.Add(h);
    }
  }

  /** The first gap of cell (2, d) is at depth k, and the key is not before it. */
  predicate GapAt(cells: seq<Host?>, d: nat, k: nat, key: Key) {
    && |cells| == TABLE_SIZE && d < MAX_COL && k < MAX_ENTRY
    && (forall m :: 0 <= m < k ==> cells[Index(2, d, m)] != null && cells[Index(2, d, m)].key != key)
    && cells[Index(2, d, k)] == null
  }

  function Placed(cells: seq<Host?>, d: nat, k: nat, h: Host): (r: seq<Host?>)
    requires |cells| == TABLE_SIZE && d < MAX_COL && k < MAX_ENTRY
    ensures |r| == TABLE_SIZE
  {
    cells[Index(2, d, k) := h]
  }

  /** With full leaves, a farther host goes to the first gap of its cell in row 2. */
  method AddFar(routing: Routing, d: nat, lo: nat, k: nat, ghost cells: seq<Host?>) returns (h: Host)
    requires routing.Valid() && FullAround(routing.leafset.State()) && routing.me.key == TOP
    requires d < 16 && d != 1 && lo < TOP && (d == 0 ==> lo < TOP - 4)
    requires cells == routing.routingTable.table[..] && GapAt(cells, d, k, d * TOP + lo)
    modifies routing.leafset, routing.routingTable.table
    ensures routing.Valid() && routing.leafset.State() == old(routing.leafset.State())
    ensures h.key == d * TOP + lo
    ensures routing.routingTable.table[..] == Placed(cells, d, k, h)
  {
    h := new Host(d * TOP + lo);
    FarKey(d, lo, h.key);
    AddBeyond(routing.leafset.State(), h);
    ScanToGap(cells, 2, d, h.key, 0, k);
    var _ := routing.Add(h);
  }

  lemma {:induction false} ScanToGap(cells: seq<Host?>, i: nat, j: nat, key: Key, m: nat, k: nat)
    requires |cells| == TABLE_SIZE && i < MAX_ROW && j < MAX_COL && m <= k < MAX_ENTRY
    requires forall n :: m <= n < k ==> cells[Index(i, j, n)] != null && cells[Index(i, j, n)].key != key
    requires cells[Index(i, j, k)] == null
    ensures ScanCell(cells, i, j, key, m) == Free(k)
    decreases k - m
  {
    if m < k {
      ScanToGap(cells, i, j, key, m + 1, k);
    }
  }

  /** Three far entries, and nothing else in the table. */
  predicate ThreeFar(cells: seq<Host?>, two: Host, one: Host, far: Host) {
    && two.key == 2 && one.key == 1 && far.key == 14 * TOP
    && |cells| == TABLE_SIZE
    && cells[Index(2, 0, 0)] == two && cells[Index(2, 0, 1)] == one && cells[Index(2, 14, 0)] == far
    && cells[Index(2, 0, 2)] == null && cells[Index(2, 14, 1)] == null
    && (forall k :: 0 <= k < MAX_ENTRY ==> cells[Index(2, 15, k)] == null)
    && forall n :: 0 <= n < TABLE_SIZE && cells[n] != null ==> cells[n].key > 0
  }

  /** Keys 1 and 14 * TOP tie at distance TOP, and key 0 is nearer than any leaf. */
  lemma TieAtFifteen(l: Leaves, cells: seq<Host?>, v: seq<Entry>, two: Host, one: Host, far: Host)
    requires FullAround(l) && ThreeFar(cells, two, one, far) && v == Seen(cells)
    ensures LookupIn(l, v, 15 * TOP) == NoHost
  {
    var key: Key := 15 * TOP;
    NoMatchAtFifteen(l.me, cells, v);
    FarKey(15, 0, key);
    assert CrossedRow(l.me.key, key) == 2;
    assert Clockwise(l.me, v, key) == Reaches(one);
    CounterAtFifteen(l.me, v, far);
    NoHostIff(l, v, key);
  }

  lemma NoMatchAtFifteen(me: Host, cells: seq<Host?>, v: seq<Entry>)
    requires me.key == TOP && |cells| == TABLE_SIZE && v == Seen(cells)
    requires forall k :: 0 <= k < MAX_ENTRY ==> cells[Index(2, 15, k)] == null
    ensures NoMatch(TOP, v, 15 * TOP)
  {
    FarKey(15, 0, 15 * TOP);
  }

  lemma CounterAtFifteen(me: Host, v: seq<Entry>, far: Host)
    requires me.key == TOP && |v| == TABLE_SIZE
    requires v[Index(2, 14, 0)].Entry? && v[Index(2, 14, 0)].host == far && v[Index(2, 14, 1)].Gap?
    ensures CounterClockwise(me, v, 15 * TOP) == far
  {
    FarKey(15, 0, 15 * TOP);
    assert LeftOf(me.key, 2, 15) == Stop(2, 14, false);
    assert BestFrom(v, 2, 14, 0, Gap) == BestFrom(v, 2, 14, 1, v[Index(2, 14, 0)]);
  }

  ghost predicate AllEmpty(cells: seq<Host?>) {
    |cells| == TABLE_SIZE && forall n :: 0 <= n < TABLE_SIZE ==> cells[n] == null
  }

  lemma GapsInTurn(cells: seq<Host?>, two: Host, one: Host)
    requires AllEmpty(cells) && two.key == 2 && one.key == 1
    ensures GapAt(cells, 0, 0, 2) && GapAt(Placed(cells, 0, 0, two), 0, 1, 1)
    ensures GapAt(Placed(Placed(cells, 0, 0, two), 0, 1, one), 14, 0, 14 * TOP)
  {
  }

  lemma ThreePlaced(cells: seq<Host?>, two: Host, one: Host, far: Host)
    requires AllEmpty(cells) && two.key == 2 && one.key == 1 && far.key == 14 * TOP
    ensures ThreeFar(Placed(Placed(Placed(cells, 0, 0, two), 0, 1, one), 14, 0, far), two, one, far)
  {
  }

  method AddThreeFar(routing: Routing, ghost cells: seq<Host?>) returns (two: Host, one: Host, far: Host)
    requires routing.Valid() && FullAround(routing.leafset.State()) && routing.me.key == TOP
    requires cells == routing.routingTable.table[..] && AllEmpty(cells)
    modifies routing.leafset, routing.routingTable.table
    ensures routing.Valid() && routing.leafset.State() == old(routing.leafset.State())
    ensures ThreeFar(routing.routingTable.table[..], two, one, far)
  {
    assert GapAt(cells, 0, 0, 2);
    two := AddFar(routing, 0, 2, 0, cells);
    assert GapAt(Placed(cells, 0, 0, two), 0, 1, 1);
    one := AddFar(routing, 0, 1, 1, Placed(cells, 0, 0, two));
    GapsInTurn(cells, two, one);
    far := AddFar(routing, 14, 0, 0, Placed(Placed(cells, 0, 0, two), 0, 1, one));
    ThreePlaced(cells, two, one, far);
  }

  /** A new node after eleven additions, all of hosts with good links. */
  method ElevenHosts() returns (routing: Routing, two: Host, one: Host, far: Host)
    ensures fresh(routing) && fresh(routing.leafset) && fresh(routing.routingTable) && fresh(routing.routingTable.table)
    ensures routing.Valid() && routing.me.key == TOP && FullAround(routing.leafset.State())
    ensures ThreeFar(routing.routingTable.table[..], two, one, far)
  {
    var me := new Host(TOP);
    routing := new Routing(me);
    ghost var cells := routing.routingTable.table[..];
    assert AllEmpty(cells);
    AddLeaves(routing);
    assert routing.routingTable.table[..] == cells;
    two, one, far := AddThreeFar(routing, cells);
  }

  /** They are enough for a lookup to give the invalid host, and for sending to it for ever. */
  method ReachInvalidHost() returns (routing: Routing, key: Key, hop: Hop)
    ensures fresh(routing) && fresh(routing.leafset) && fresh(routing.routingTable) && fresh(routing.routingTable.table)
    ensures routing.Valid() && hop == NoHost && routing.Stuck(key)
  {
    var two, one, far;
    routing, two, one, far := ElevenHosts();
    key := 15 * TOP;
    hop := LookUpFifteen(routing, key, two, one, far);
  }

  method LookUpFifteen(routing: Routing, key: Key, ghost two: Host, ghost one: Host, ghost far: Host)
    returns (hop: Hop)
    requires key == 15 * TOP && routing.Valid() && FullAround(routing.leafset.State())
    requires ThreeFar(routing.routingTable.table[..], two, one, far)
    ensures hop == NoHost && routing.Stuck(key)
  {
    StuckAtFifteen(routing, two, one, far, key);
    hop := LookUpStuck(routing, key);
  }

  method LookUpStuck(routing: Routing, key: Key) returns (hop: Hop)
    requires routing.Valid()
    ensures routing.Stuck(key) ==> hop == NoHost
  {
    hop := routing.RouteLookup(key);
  }

  lemma StuckAtFifteen(routing: Routing, two: Host, one: Host, far: Host, key: Key)
    requires key == 15 * TOP && routing.Valid() && FullAround(routing.leafset.State())
    requires ThreeFar(routing.routingTable.table[..], two, one, far)
    ensures routing.Stuck(key)
  {
    ghost var l, cells := routing.leafset.State(), routing.routingTable.table[..];
    TieAtFifteen(l, cells, Seen(cells), two, one, far);
    NoKeyZero(l, cells, two, one, far);
  }

  /** However many rounds: when no send to the invalid host works, each ends where it began. */
  method SendForEver(rounds: nat) returns (routing: Routing, net: Network, key: Key, hop: Hop)
    ensures routing.Valid() && net.wire.void == iset{} && net.sent == rounds
    ensures hop == routing.Looked(key) == NoHost && routing.Stuck(key)
  {
    routing, key, hop := ReachInvalidHost();
    net := new Network(Channel(None, iset{}, iset{}, iset{}));
    for round := 0 to rounds
      invariant fresh(net) && net.wire.void == iset{} && net.sent == round
      invariant routing.Valid() && hop == NoHost && routing.Stuck(key)
    {
      hop := StuckRound(routing, net, key);
    }
  }

  method StuckRound(routing: Routing, net: Network, key: Key) returns (hop: Hop)
    requires routing.Valid() && routing.Stuck(key) && net.wire.void == iset{}
    modifies net, routing.leafset, routing.routingTable.table
    ensures routing.Valid() && routing.Stuck(key) && hop == NoHost && net.sent == old(net.sent) + 1
  {
    ghost var s := Node(routing.leafset.State(), routing.routingTable.table[..], map[]);
    assert StoredOf(s) == routing.Stored();
    DroppedKeeps(s, 0, StoredOf(s));
    var ok;
    ok, hop := VoidRound(routing, net, key, s);
    assert routing.Stored() == StoredOf(s);
  }

  lemma NoKeyZero(l: Leaves, cells: seq<Host?>, two: Host, one: Host, far: Host)
    requires FullAround(l) && ThreeFar(cells, two, one, far)
    ensures forall h :: h in StoredIn(l.cw, l.ccw, cells) ==> h.key != 0
  {
  }

  lemma GapBehindTwo(cells: seq<Host?>, two: Host, one: Host, far: Host)
    requires ThreeFar(cells, two, one, far)
    ensures GapAt(cells, 0, 2, 3)
  {
  }

  method AddThird(routing: Routing, ghost cells: seq<Host?>, ghost two: Host, ghost one: Host,
                  ghost far: Host)
    returns (three: Host)
    requires routing.Valid() && FullAround(routing.leafset.State()) && routing.me.key == TOP
    requires cells == routing.routingTable.table[..] && ThreeFar(cells, two, one, far)
    modifies routing.leafset, routing.routingTable.table
    ensures routing.Valid() && routing.leafset.State() == old(routing.leafset.State())
    ensures routing.routingTable.table[..] == Placed(cells, 0, 2, three)
  {
    GapBehindTwo(cells, two, one, far);
    three := AddFar(routing, 0, 3, 2, cells);
  }

  /** And a twelfth, for the same lookup to throw. */
  method ReachThrow() returns (routing: Routing, key: Key, hop: Hop)
    ensures fresh(routing) && routing.Valid() && hop == routing.Looked(key) == Thrown
  {
    var two, one, far;
    routing, two, one, far := ElevenHosts();
    key := 15 * TOP;
    ghost var cells := routing.routingTable.table[..];
    var three := AddThird(routing, cells, two, one, far);
    CrowdAtFifteen(routing.leafset.State(), cells, two, one, far, three, Seen(routing.routingTable.table[..]));
    hop := routing.RouteLookup(key);
  }

  lemma CrowdAtFifteen(l: Leaves, cells: seq<Host?>, two: Host, one: Host, far: Host, three: Host, v: seq<Entry>)
    requires FullAround(l) && ThreeFar(cells, two, one, far) && v == Seen(Placed(cells, 0, 2, three))
    ensures LookupIn(l, v, 15 * TOP) == Thrown
  {
    NoMatchAtFifteen(l.me, Placed(cells, 0, 2, three), v);
    FarKey(15, 0, 15 * TOP);
    assert CrossedRow(l.me.key, 15 * TOP) == 2;
    ThrownIff(l, v, 15 * TOP);
  }
}
