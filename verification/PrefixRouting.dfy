/**
 * Routing by prefix through a network of tables: each hop that finds an entry
 * in the wanted cell shares strictly more digits with the key.
 */
module PrefixRouting {
  import opened Keys
  import opened Hosts
  import opened TableCells

  /** Digits beyond which rows no longer tell keys apart. */
  const SETTLED: nat := 38

  /** The hosts of the cell where prefix routing looks for the key. */
  function CellAt(me: Key, cells: seq<Host?>, key: Key): (cell: seq<Host?>)
    requires |cells| == TABLE_SIZE
    ensures |cell| == MAX_ENTRY
  {
    var i := Row(me, key);
    var j := Column(key, i);
    [cells[Index(i, j, 0)], cells[Index(i, j, 1)], cells[Index(i, j, 2)]]
  }

  /** A hop routeLookup may take on a perfect match at me. */
  ghost predicate PerfectHop(me: Host, cells: seq<Host?>, key: Key, next: Host)
    requires |cells| == TABLE_SIZE
  {
    me.key != key && next in CellAt(me.key, cells, key)
  }

  /** Whenever something in the cell is usable, the lookup takes such a hop. */
  lemma MatchIsPerfectHop(me: Host, cells: seq<Host?>, v: seq<Entry>, key: Key)
    requires |cells| == TABLE_SIZE && Shows(cells, v)
    requires me.key != key && !NoMatch(me.key, v, key)
    ensures var r := LookupTable(me, v, key); r.Found? && PerfectHop(me, cells, key, r.host)
  {
    var cell := MatchCell(me.key, v, key);
    NoMatchIff(me.key, v, key);
    BestUsableIsChosen(cell, key);
    var e := BestUsable(cell, key);
    var m :| 0 <= m < |cell| && cell[m] == e;
    assert CellAt(me.key, cells, key)[m] == e.host;
  }

  lemma CellIsPlaced(me: Host, cells: seq<Host?>, key: Key, next: Host)
    requires WellPlaced(me.key, cells) && PerfectHop(me, cells, key, next)
    ensures Row(me.key, next.key) == Row(me.key, key)
    ensures Column(next.key, Row(me.key, key)) == Column(key, Row(me.key, key))
  {
    var i := Row(me.key, key);
    var j := Column(key, i);
    IndexIsBijective();
    assert next == cells[Index(i, j, 0)] || next == cells[Index(i, j, 1)] || next == cells[Index(i, j, 2)];
  }

  lemma HopLengthensPrefix(me: Host, cells: seq<Host?>, key: Key, next: Host)
    requires WellPlaced(me.key, cells) && PerfectHop(me, cells, key, next)
    ensures Common(me.key, key) < SETTLED ==> Common(next.key, key) > Common(me.key, key)
    ensures Common(me.key, key) >= SETTLED ==> Common(next.key, key) >= SETTLED
  {
    CellIsPlaced(me, cells, key, next);
    var i := Row(me.key, key);
    CommonVia(me.key, next.key, key, i - 2);
    OneMoreDigit(next.key, key, i - 2);
  }

  lemma OneMoreDigit(a: Key, b: Key, c: nat)
    requires c < HEXA_KEYLENGTH && c <= Common(a, b) && Digit(a, c) == Digit(b, c)
    ensures c + 1 <= Common(a, b)
  {
  }

  /** Tables of a network, each placed for its own node. */
  ghost predicate PlacedNetwork(tables: map<Host, seq<Host?>>) {
    forall h :: h in tables ==> WellPlaced(h.key, tables[h])
  }

  /** A chain of perfect hops towards one key. */
  ghost predicate Chain(tables: map<Host, seq<Host?>>, key: Key, path: seq<Host>)
    requires PlacedNetwork(tables)
  {
    && path != []
    && forall t :: 0 <= t < |path| - 1 ==> path[t] in tables && PerfectHop(path[t], tables[path[t]], key, path[t + 1])
  }

  lemma {:induction false} ChainGains(tables: map<Host, seq<Host?>>, key: Key, path: seq<Host>, t: nat)
    requires PlacedNetwork(tables) && Chain(tables, key, path) && t < |path|
    ensures Common(path[t].key, key) >= SETTLED || Common(path[t].key, key) >= Common(path[0].key, key) + t
  {
    if t > 0 {
      ChainGains(tables, key, path, t - 1);
      assert PerfectHop(path[t - 1], tables[path[t - 1]], key, path[t - 1 + 1]);
      HopLengthensPrefix(path[t - 1], tables[path[t - 1]], key, path[t]);
    }
  }

  /** After at most 38 hops 38 digits agree, so fewer than 256 keys lie between. */
  lemma ChainSettles(tables: map<Host, seq<Host?>>, key: Key, path: seq<Host>, t: nat)
    requires PlacedNetwork(tables) && Chain(tables, key, path) && t < |path|
    requires Common(path[0].key, key) + t >= SETTLED
    ensures Common(path[t].key, key) >= SETTLED
    ensures Distance(path[t].key, key) < 256
  {
    ChainGains(tables, key, path, t);
    var c := Common(path[t].key, key);
    PrefixBoundsDistance(path[t].key, key);
    assert c == 38 || c == 39 || c == 40;
    assert Pow16(2) == 256 && Pow16(1) == 16 && Pow16(0) == 1;
  }

  function OneEntry(n: nat, h: Host): (cells: seq<Host?>)
    requires n < TABLE_SIZE
    ensures |cells| == TABLE_SIZE && cells[n] == h
    ensures forall m :: 0 <= m < TABLE_SIZE && m != n ==> cells[m] == null
  {
    seq(TABLE_SIZE, m => if m == n then h else null)
  }

  lemma SettledRow(a: Key, b: Key, key: Key)
    requires Common(a, key) >= SETTLED && Common(b, key) >= SETTLED
    ensures Row(a, b) == 39 && Row(a, key) == 39 && Column(b, 39) == Column(key, 39)
  {
    CommonIsSymmetric(a, key);
    CommonIsSymmetric(b, key);
    CommonVia(key, a, b, SETTLED);
    assert Digit(key, 37) == Digit(b, 37);
  }

  lemma SettledEntry(me: Host, h: Host, key: Key, n: nat)
    requires me.key != h.key && me.key != key
    requires Common(me.key, key) >= SETTLED && Common(h.key, key) >= SETTLED
    requires n == Index(39, Column(key, 39), 0)
    ensures n < TABLE_SIZE && WellPlaced(me.key, OneEntry(n, h)) && PerfectHop(me, OneEntry(n, h), key, h)
  {
    IndexIsBijective();
    SettledRow(me.key, h.key, key);
    assert PlacedAt(me.key, h.key, n);
    assert CellAt(me.key, OneEntry(n, h), key)[0] == h;
  }

  /**
   * Beyond 38 digits hops need not make progress: two nodes that share them
   * with the key may each keep the other in the wanted cell.
   */
  lemma SettledNodesMayPingPong(a: Host, b: Host, key: Key) returns (tables: map<Host, seq<Host?>>)
    requires a.key != b.key && a.key != key && b.key != key
    requires Common(a.key, key) >= SETTLED && Common(b.key, key) >= SETTLED
    ensures PlacedNetwork(tables) && Chain(tables, key, [a, b, a])
  {
    var n := Index(39, Column(key, 39), 0);
    SettledEntry(a, b, key, n);
    SettledEntry(b, a, key, n);
    tables := map[a := OneEntry(n, b), b := OneEntry(n, a)];
    ThereAndBack(tables, key, a, b);
  }

  lemma ThereAndBack(tables: map<Host, seq<Host?>>, key: Key, a: Host, b: Host)
    requires PlacedNetwork(tables) && a in tables && b in tables
    ensures PerfectHop(a, tables[a], key, b) && PerfectHop(b, tables[b], key, a) ==> Chain(tables, key, [a, b, a])
  {
  }

  lemma CommonIsSymmetric(a: Key, b: Key)
    ensures Common(a, b) == Common(b, a)
  {
    var c, d := Common(a, b), Common(b, a);
  }
}
