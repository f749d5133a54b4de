/**
 * The cells of the routing table as values: 40 rows by 16 columns by 3 entries
 * in one flat vector.  A host belongs in the row of its common prefix with the
 * local key and in the column of its first digit after that prefix.  What a
 * lookup makes of the cells is a function here.
 */
module TableCells {
  import opened Keys
  import opened Hosts

  const MAX_ROW: nat := 40
  const MAX_COL: nat := 16
  const MAX_ENTRY: nat := 3
  const TABLE_SIZE: nat := 1920

  // ------------------------------------------------------------------ indices

  function Index(i: nat, j: nat, k: nat): nat {
    k * (MAX_COL * MAX_ROW) + j * MAX_ROW + i
  }

  function RowOf(n: nat): nat { n % MAX_ROW }
  function ColOf(n: nat): nat { n / MAX_ROW % MAX_COL }
  function DepthOf(n: nat): nat { n / (MAX_COL * MAX_ROW) }

  /** Coordinates and flat indices correspond one to one. */
  lemma IndexIsBijective()
    ensures forall i, j, k :: 0 <= i < MAX_ROW && 0 <= j < MAX_COL && 0 <= k < MAX_ENTRY ==>
              Index(i, j, k) < TABLE_SIZE && RowOf(Index(i, j, k)) == i && ColOf(Index(i, j, k)) == j &&
              DepthOf(Index(i, j, k)) == k
    ensures forall n :: 0 <= n < TABLE_SIZE ==>
              RowOf(n) < MAX_ROW && ColOf(n) < MAX_COL && DepthOf(n) < MAX_ENTRY &&
              Index(RowOf(n), ColOf(n), DepthOf(n)) == n
  {
  }

  // ------------------------------------------------------------------- places

  function Row(me: Key, k: Key): (i: nat)
    ensures 2 <= i < MAX_ROW
  {
    KeyIndex(me, k)
  }

  function Column(k: Key, i: nat): (j: nat)
    requires 2 <= i < MAX_ROW
    ensures j < MAX_COL
  {
    Digit(k, i - 2)
  }

  /** Where the key of a host may stand in the table of me. */
  predicate PlacedAt(me: Key, k: Key, n: nat) {
    k != me && RowOf(n) == Row(me, k) && ColOf(n) == Column(k, Row(me, k))
  }

  ghost predicate WellPlaced(me: Key, cells: seq<Host?>) {
    && |cells| == TABLE_SIZE
    && forall n :: 0 <= n < TABLE_SIZE && cells[n] != null ==> PlacedAt(me, cells[n].key, n)
  }

  /** Rows 0 and 1 stand for the "0x" of a printed key and stay empty. */
  lemma FirstRowsEmpty(me: Key, cells: seq<Host?>, n: nat)
    requires WellPlaced(me, cells) && n < TABLE_SIZE && RowOf(n) < 2
    ensures cells[n] == null
  {
    assert cells[n] != null ==> PlacedAt(me, cells[n].key, n);
  }

  /** The three entries of a cell, and what add makes of them. */
  datatype Scan = Free(k: nat) | Present | Full

  function ScanCell(cells: seq<Host?>, i: nat, j: nat, key: Key, k: nat): (s: Scan)
    requires |cells| == TABLE_SIZE && i < MAX_ROW && j < MAX_COL && k <= MAX_ENTRY
    ensures s.Free? ==> k <= s.k < MAX_ENTRY && cells[Index(i, j, s.k)] == null
    ensures s.Free? || s.Full? ==>
              forall m :: k <= m < (if s.Free? then s.k else MAX_ENTRY) ==>
                var c := cells[Index(i, j, m)]; c != null && c.key != key
    ensures s.Present? ==>
              exists m :: k <= m < MAX_ENTRY && var c := cells[Index(i, j, m)]; c != null && c.key == key
    decreases MAX_ENTRY - k
  {
    if k == MAX_ENTRY then Full
    else
      var c := cells[Index(i, j, k)];
      if c == null then Free(k) else if c.key == key then Present else ScanCell(cells, i, j, key, k + 1)
  }

  /** The entry itself is found only before any gap. */
  lemma {:induction false} PresentIs(cells: seq<Host?>, i: nat, j: nat, key: Key, k: nat) returns (m: nat)
    requires |cells| == TABLE_SIZE && i < MAX_ROW && j < MAX_COL && k <= MAX_ENTRY
    requires ScanCell(cells, i, j, key, k) == Present
    ensures k <= m < MAX_ENTRY && cells[Index(i, j, m)] != null && cells[Index(i, j, m)].key == key
    ensures forall n :: k <= n < m ==> cells[Index(i, j, n)] != null && cells[Index(i, j, n)].key != key
    decreases MAX_ENTRY - k
  {
    m := k;
    if cells[Index(i, j, k)].key != key {
      m := PresentIs(cells, i, j, key, k + 1);
    }
  }

  lemma PlacingKeepsPlaces(me: Key, cells: seq<Host?>, i: nat, j: nat, k: nat, e: Host)
    requires WellPlaced(me, cells) && e.key != me
    requires i == Row(me, e.key) && j == Column(e.key, i) && k < MAX_ENTRY
    ensures Index(i, j, k) < TABLE_SIZE && WellPlaced(me, cells[Index(i, j, k) := e])
  {
    IndexIsBijective();
  }

  predicate HasKey(h: Host?, k: Key) {
    h != null && h.key == k
  }

  /** Index, from n on, of the first cell that holds a host with the key, or the end. */
  function FirstWith(cells: seq<Host?>, key: Key, n: nat): (r: nat)
    requires n <= |cells|
    ensures n <= r <= |cells|
    ensures forall m :: n <= m < r ==> !HasKey(cells[m], key)
    ensures r < |cells| ==> HasKey(cells[r], key)
    decreases |cells| - n
  {
    if n == |cells| || HasKey(cells[n], key) then n else FirstWith(cells, key, n + 1)
  }

  /** The cells without the first copy of a host with the key. */
  function Emptied(cells: seq<Host?>, key: Key): (r: seq<Host?>)
    ensures |r| == |cells|
  {
    var n := FirstWith(cells, key, 0);
    if n < |cells| then cells[n := null] else cells
  }

  /** The first host with the key is gone, and nothing else has changed. */
  ghost predicate CellGone(before: seq<Host?>, key: Key, after: seq<Host?>) {
    if exists n :: 0 <= n < |before| && HasKey(before[n], key)
    then exists n :: 0 <= n < |before| && FirstIs(before, key, n) && after == before[n := null]
    else after == before
  }

  ghost predicate FirstIs(cells: seq<Host?>, key: Key, n: nat)
    requires n < |cells|
  {
    HasKey(cells[n], key) && forall m :: 0 <= m < n ==> !HasKey(cells[m], key)
  }

  lemma EmptiesTheFirst(cells: seq<Host?>, key: Key)
    ensures CellGone(cells, key, Emptied(cells, key))
  {
    var n := FirstWith(cells, key, 0);
    assert n < |cells| ==> FirstIs(cells, key, n);
  }

  // ------------------------------------------------------------- link quality

  /** A cell as a lookup sees it: who is there and how good the link is. */
  datatype Entry = Gap | Entry(host: Host, avg: real, latency: real)

  ghost function Graded(h: Host?): Entry
    reads h
  {
    if h == null then Gap else Entry(h, h.successAvg, h.latency)
  }

  ghost function Seen(cells: seq<Host?>): (v: seq<Entry>)
    reads set h: Host | h in cells
    ensures |v| == |cells| && forall n :: 0 <= n < |v| ==> v[n] == Graded(cells[n])
  {
    seq(|cells|, n requires 0 <= n < |cells| reads set h: Host | h in cells => Graded(cells[n]))
  }

  /** A view of these cells: each that is taken shows its host. */
  ghost predicate Shows(cells: seq<Host?>, v: seq<Entry>) {
    |v| == |cells| && forall n :: 0 <= n < |v| ==> if v[n].Entry? then cells[n] == v[n].host else cells[n] == null
  }

  predicate Usable(e: Entry) {
    e.Entry? && e.avg > BAD_LINK
  }

  /** Success first, latency second. */
  predicate Better(a: Entry, b: Entry)
    requires a.Entry? && b.Entry?
  {
    a.avg > b.avg || (a.avg == b.avg && a.latency < b.latency)
  }

  /** The first n entries of a cell are taken and the next, if any, is a gap. */
  predicate Filled(v: seq<Entry>, i: nat, j: nat, n: nat) {
    && n <= MAX_ENTRY
    && (forall m :: 0 <= m < n ==> Index(i, j, m) < |v| && v[Index(i, j, m)].Entry?)
    && (n < MAX_ENTRY ==> Index(i, j, n) < |v| && v[Index(i, j, n)].Gap?)
  }

  /** Entry w is the first worst of the first n. */
  predicate WorstAmong(v: seq<Entry>, i: nat, j: nat, w: nat, n: nat) {
    && w < n
    && (forall m :: 0 <= m < n ==> Index(i, j, m) < |v| && v[Index(i, j, m)].Entry?)
    && (forall m :: 0 <= m < n ==> !Better(v[Index(i, j, w)], v[Index(i, j, m)]))
    && (forall m :: 0 <= m < w ==> Better(v[Index(i, j, m)], v[Index(i, j, w)]))
  }

  /** Entry b is the first best of the first n. */
  predicate BestAmong(v: seq<Entry>, i: nat, j: nat, b: nat, n: nat) {
    && b < n
    && (forall m :: 0 <= m < n ==> Index(i, j, m) < |v| && v[Index(i, j, m)].Entry?)
    && (forall m :: 0 <= m < n ==> !Better(v[Index(i, j, m)], v[Index(i, j, b)]))
    && (forall m :: 0 <= m < b ==> Better(v[Index(i, j, b)], v[Index(i, j, m)]))
  }

  /** Entry w is the first worst, or best, of those before the first gap. */
  ghost predicate IsWorst(v: seq<Entry>, i: nat, j: nat, w: nat) {
    exists n :: w < n <= MAX_ENTRY && Filled(v, i, j, n) && WorstAmong(v, i, j, w, n)
  }

  ghost predicate IsBest(v: seq<Entry>, i: nat, j: nat, b: nat) {
    exists n :: b < n <= MAX_ENTRY && Filled(v, i, j, n) && BestAmong(v, i, j, b, n)
  }

  /**
   * What add does to the cells: nothing for the local key or for an entry that
   * comes before any gap; else the first gap is taken, or the worst entry.
   */
  ghost predicate AddedTo(me: Key, before: seq<Host?>, v: seq<Entry>, e: Host, added: bool, after: seq<Host?>)
    requires |before| == TABLE_SIZE
  {
    if e.key == me then !added && after == before
    else
      var i := Row(me, e.key);
      var j := Column(e.key, i);
      match ScanCell(before, i, j, e.key, 0)
      case Free(k) => added && after == before[Index(i, j, k) := e]
      case Present => !added && after == before
      case Full =>
        added && exists w :: 0 <= w < MAX_ENTRY && IsWorst(v, i, j, w) && after == before[Index(i, j, w) := e]
  }

  /** What the scan for the best entry comes to; a gap when the cell is empty. */
  datatype Pick = Outside | Picked(entry: Entry)

  /** The scan from depth k on, with the best so far. */
  function BestFrom(v: seq<Entry>, i: nat, j: nat, k: nat, best: Entry): (p: Pick)
    requires k <= MAX_ENTRY
    decreases MAX_ENTRY - k
  {
    if k == MAX_ENTRY then Picked(best)
    else if Index(i, j, k) >= |v| then Outside
    else
      var c := v[Index(i, j, k)];
      if c.Gap? then Picked(best)
      else BestFrom(v, i, j, k + 1, if best.Gap? || Better(c, best) then c else best)
  }

  /** Inside the table the scan never leaves it. */
  function BestIn(v: seq<Entry>, i: nat, j: nat): (e: Entry)
    requires |v| == TABLE_SIZE && i < MAX_ROW && j < MAX_COL
    ensures BestFrom(v, i, j, 0, Gap) == Picked(e)
    ensures e.Gap? <==> v[Index(i, j, 0)].Gap?
    ensures e.Entry? ==> exists k :: 0 <= k < MAX_ENTRY && e == v[Index(i, j, k)]
  {
    BestFrom(v, i, j, 0, Gap).entry
  }

  // ------------------------------------------------------------ perfect match

  /** Comparing two entries for a destination: prefix, then success, then latency. */
  predicate Beats(a: Entry, b: Entry, key: Key)
    requires a.Entry? && b.Entry?
  {
    KeyIndex(a.host.key, key) > KeyIndex(b.host.key, key) ||
    (KeyIndex(a.host.key, key) == KeyIndex(b.host.key, key) && Better(a, b))
  }

  /** A usable entry that no usable one of the cell beats; a gap if none is usable. */
  ghost predicate Chosen(cell: seq<Entry>, best: Entry, key: Key) {
    if best.Gap? then forall e :: e in cell ==> !Usable(e)
    else best in cell && Usable(best) && forall e :: e in cell && Usable(e) ==> !Beats(e, best, key)
  }

  /** bestEntry: the first only if it beats the second. */
  function BetterOf(a: Entry, b: Entry, key: Key): (e: Entry)
    requires a.Entry? && b.Entry?
  {
    if Beats(a, b, key) then a else b
  }

  /** The selection among the entries of one cell. */
  function BestUsable(cell: seq<Entry>, key: Key): (e: Entry)
    ensures e.Gap? || Usable(e)
  {
    if cell == [] then Gap
    else
      var b, c := BestUsable(cell[..|cell| - 1], key), cell[|cell| - 1];
      if !Usable(c) then b else if b.Gap? then c else BetterOf(b, c, key)
  }

  lemma {:induction false} BestUsableIsChosen(cell: seq<Entry>, key: Key)
    ensures Chosen(cell, BestUsable(cell, key), key)
  {
    if cell != [] {
      var rest, c := cell[..|cell| - 1], cell[|cell| - 1];
      BestUsableIsChosen(rest, key);
      assert cell == rest + [c];
    }
  }

  /** The cell where prefix routing looks for the key. */
  function MatchCell(me: Key, v: seq<Entry>, key: Key): (cell: seq<Entry>)
    requires |v| == TABLE_SIZE
    ensures |cell| == MAX_ENTRY
    ensures forall e :: e in cell ==> e in v
  {
    var i := Row(me, key);
    var j := Column(key, i);
    [v[Index(i, j, 0)], v[Index(i, j, 1)], v[Index(i, j, 2)]]
  }

  // -------------------------------------------------------- the fallback walks

  datatype Walk = Throws | Reaches(host: Host)

  /**
   * The row in which the walk to the right passes the last column: the first,
   * from row i on, with the local cell not right of where the walk comes in;
   * MAX_ROW when it goes down past the last row instead.
   */
  function EndRow(me: Key, i: nat, j: nat): (r: nat)
    requires 2 <= i < MAX_ROW
    ensures i <= r <= MAX_ROW
    ensures r < MAX_ROW ==> Column(me, r) <= if r == i then j else 0
    decreases MAX_ROW - i
  {
    if Column(me, i) <= j then i else if i + 1 == MAX_ROW then MAX_ROW else EndRow(me, i + 1, 0)
  }

  function CrossedRow(me: Key, key: Key): (r: nat)
    ensures 2 <= r <= MAX_ROW
  {
    EndRow(me, Row(me, key), Column(key, Row(me, key)))
  }

  /**
   * The clockwise candidate.  The walk looks at no cell until it has ended; then
   * it looks into column 16, which is depths 1 and 2 of column 0, and past the
   * vector if both are taken.
   */
  function Clockwise(me: Host, v: seq<Entry>, key: Key): (w: Walk)
    requires |v| == TABLE_SIZE
  {
    var r := CrossedRow(me.key, key);
    if r == MAX_ROW || v[Index(r, 0, 1)].Gap? then Reaches(me)
    else if v[Index(r, 0, 2)].Gap? then Reaches(v[Index(r, 0, 1)].host)
    else Throws
  }

  /** The clockwise candidate, from the row in which the walk passes the last column. */
  lemma ClockwiseIs(me: Host, v: seq<Entry>, key: Key, r: nat)
    requires |v| == TABLE_SIZE && Crosses(me.key, key, r)
    ensures Clockwise(me, v, key).Throws? <==> r < MAX_ROW && v[Index(r, 0, 1)].Entry? && v[Index(r, 0, 2)].Entry?
    ensures Clockwise(me, v, key).Reaches? ==>
              Clockwise(me, v, key).host ==
              if r < MAX_ROW && v[Index(r, 0, 1)].Entry? then v[Index(r, 0, 1)].host else me
  {
    EndRowIsFirst(me.key, Row(me.key, key), Column(key, Row(me.key, key)));
    CrossesOnce(me.key, key, r, CrossedRow(me.key, key));
  }

  lemma {:induction false} EndRowIsFirst(me: Key, i: nat, j: nat)
    requires 2 <= i < MAX_ROW
    ensures forall q :: i <= q < EndRow(me, i, j) ==> Column(me, q) > if q == i then j else 0
    decreases MAX_ROW - i
  {
    if Column(me, i) > j && i + 1 < MAX_ROW {
      EndRowIsFirst(me, i + 1, 0);
    }
  }

  lemma CrossesOnce(me: Key, key: Key, r: nat, c: nat)
    requires Crosses(me, key, r) && Crosses(me, key, c)
    ensures r == c
  {
  }

  /** The first row, from that of the key on, with the local cell not right of where the walk comes in, or 40. */
  predicate Crosses(me: Key, key: Key, r: nat) {
    var i := Row(me, key);
    var j := Column(key, i);
    && i <= r <= MAX_ROW
    && (r < MAX_ROW ==> Column(me, r) <= if r == i then j else 0)
    && forall q :: i <= q < r ==> Column(me, q) > if q == i then j else 0
  }

  /** One step of the walk to the left, and whether it is the last. */
  datatype Stop = Stop(i: nat, j: nat, last: bool)

  function LeftOf(me: Key, i: nat, j: nat): (s: Stop)
    requires 2 <= i < MAX_ROW && j < MAX_COL
    ensures s.i <= MAX_ROW && s.j < MAX_COL && (s.i == MAX_ROW ==> s.last)
    ensures !s.last ==> i < s.i || (i == s.i && s.j < j)
    ensures i <= s.i
  {
    if j == 0 then Stop(i, 0, true)
    else if Column(me, i) != j - 1 then Stop(i, j - 1, false)
    else if i + 1 == MAX_ROW then Stop(MAX_ROW, j - 1, true)
    else Stop(i + 1, MAX_COL - 1, false)
  }

  /** The best entry of a cell; row 40 is row 0 of the next column, which is empty. */
  function BestAt(v: seq<Entry>, i: nat, j: nat): (e: Entry)
    requires |v| == TABLE_SIZE && i <= MAX_ROW && j < MAX_COL
    ensures e.Entry? ==> exists n :: 0 <= n < |v| && e == v[n]
  {
    if i == MAX_ROW then Gap else BestIn(v, i, j)
  }

  /** The counter-clockwise candidate: the best of the first cell that is not empty on the walk to the left. */
  function CounterFrom(me: Host, v: seq<Entry>, i: nat, j: nat): (h: Host)
    requires |v| == TABLE_SIZE && 2 <= i < MAX_ROW && j < MAX_COL
    decreases MAX_ROW - i, j
  {
    var s := LeftOf(me.key, i, j);
    var e := BestAt(v, s.i, s.j);
    if e.Entry? then e.host else if s.last then me else CounterFrom(me, v, s.i, s.j)
  }

  /** Columns k + 1 to j - 1 of the row are empty, and the local cell is not among them. */
  predicate Passed(me: Key, v: seq<Entry>, i: nat, j: nat, k: int)
    requires |v| == TABLE_SIZE && 2 <= i < MAX_ROW && j < MAX_COL
  {
    forall c :: 0 <= c < j && k < c ==> Clear(me, v, i, c)
  }

  /** An empty cell that is not the local one. */
  predicate Clear(me: Key, v: seq<Entry>, i: nat, c: nat)
    requires |v| == TABLE_SIZE && 2 <= i < MAX_ROW && c < MAX_COL
  {
    Column(me, i) != c && v[Index(i, c, 0)].Gap?
  }

  /** Left of the wanted cell, in one row: the first cell that is not empty is the one. */
  lemma {:induction false} CounterStops(me: Host, v: seq<Entry>, i: nat, j: nat, k: nat)
    requires |v| == TABLE_SIZE && 2 <= i < MAX_ROW && k < j < MAX_COL
    requires Passed(me.key, v, i, j, k) && Column(me.key, i) != k && v[Index(i, k, 0)].Entry?
    ensures CounterFrom(me, v, i, j) == BestIn(v, i, k).host
    decreases j
  {
    if k < j - 1 {
      assert Clear(me.key, v, i, j - 1);
      CounterStops(me, v, i, j - 1, k);
    }
  }

  /** The local cell sends the walk to the end of the next row, or to the local host after the last. */
  lemma {:induction false} CounterGoesDown(me: Host, v: seq<Entry>, i: nat, j: nat)
    requires |v| == TABLE_SIZE && 2 <= i < MAX_ROW && Column(me.key, i) < j < MAX_COL
    requires Passed(me.key, v, i, j, Column(me.key, i))
    ensures CounterFrom(me, v, i, j) ==
            if i + 1 == MAX_ROW then me
            else if v[Index(i + 1, MAX_COL - 1, 0)].Entry? then BestIn(v, i + 1, MAX_COL - 1).host
            else CounterFrom(me, v, i + 1, MAX_COL - 1)
    decreases j
  {
    if Column(me.key, i) < j - 1 {
      assert Clear(me.key, v, i, j - 1);
      CounterGoesDown(me, v, i, j - 1);
    }
  }

  /** With nothing on the way to column 0 it is the local host; from column 0 itself, the best entry there. */
  lemma {:induction false} CounterRunsOut(me: Host, v: seq<Entry>, i: nat, j: nat)
    requires |v| == TABLE_SIZE && 2 <= i < MAX_ROW && j < MAX_COL && Passed(me.key, v, i, j, -1)
    ensures CounterFrom(me, v, i, j) ==
            if j == 0 && v[Index(i, 0, 0)].Entry? then BestIn(v, i, 0).host else me
    decreases j
  {
    if j > 0 {
      assert Clear(me.key, v, i, j - 1);
      CounterRunsOut(me, v, i, j - 1);
    }
  }

  function CounterClockwise(me: Host, v: seq<Entry>, key: Key): (h: Host)
    requires |v| == TABLE_SIZE
  {
    CounterFrom(me, v, Row(me.key, key), Column(key, Row(me.key, key)))
  }

  // -------------------------------------------------------------- the lookup

  /**
   * What a table lookup can come to: a host, the invalid host, or an index
   * past the end of the vector, which the implementation answers by throwing.
   */
  datatype TableLookup = Found(host: Host) | Invalid | OutOfRange

  /** The nearer of the two candidates; on a tie the local host or none. */
  function NearerOf(me: Host, cw: Host, ccw: Host, key: Key): TableLookup {
    if Distance(cw.key, key) < Distance(ccw.key, key) then Found(cw)
    else if Distance(cw.key, key) > Distance(ccw.key, key) then Found(ccw)
    else if cw == me then Found(cw)
    else Invalid
  }

  function LookupTable(me: Host, v: seq<Entry>, key: Key): (r: TableLookup)
    requires |v| == TABLE_SIZE
  {
    if me.key == key then Found(me)
    else
      var e := BestUsable(MatchCell(me.key, v, key), key);
      if e.Entry? then Found(e.host)
      else
        match Clockwise(me, v, key)
        case Throws => OutOfRange
        case Reaches(cw) => NearerOf(me, cw, CounterClockwise(me, v, key), key)
  }

  /** A host found without a match is one of the two candidates and no farther than either; on a tie it is me. */
  lemma FoundIsNearer(me: Host, v: seq<Entry>, key: Key, cw: Host, ccw: Host)
    requires |v| == TABLE_SIZE && key != me.key && NoMatch(me.key, v, key)
    requires Clockwise(me, v, key) == Reaches(cw) && CounterClockwise(me, v, key) == ccw
    ensures var r := LookupTable(me, v, key);
            if r.Found?
            then
              && (r.host == cw || r.host == ccw)
              && Distance(r.host.key, key) <= Distance(cw.key, key)
              && Distance(r.host.key, key) <= Distance(ccw.key, key)
              && (Distance(cw.key, key) == Distance(ccw.key, key) ==> r.host == cw == me)
            else r == Invalid && cw != me && Distance(cw.key, key) == Distance(ccw.key, key)
  {
    NoMatchIff(me.key, v, key);
  }

  /** The selection in numbers: most shared digits, then most success, then least latency; the last of equals. */
  lemma {:induction false} BestUsableInNumbers(cell: seq<Entry>, key: Key)
    ensures var b := BestUsable(cell, key);
            if b.Gap? then forall x :: x in cell && x.Entry? ==> x.avg <= BAD_LINK
            else b.avg > BAD_LINK && exists n :: 0 <= n < |cell| && b == cell[n] && LastBest(cell, n, key)
  {
    if cell != [] {
      var rest, c := cell[..|cell| - 1], cell[|cell| - 1];
      var b := BestUsable(rest, key);
      BestUsableInNumbers(rest, key);
      assert cell == rest + [c];
      if Usable(c) && (b.Gap? || !Beats(b, c, key)) {
        NewBest(rest, c, key);
        assert c == cell[|cell| - 1] && LastBest(cell, |cell| - 1, key);
      } else if b.Entry? {
        var n :| 0 <= n < |rest| && b == rest[n] && LastBest(rest, n, key);
        assert b == cell[n] && LastBest(cell, n, key);
      }
    }
  }

  /** An entry that the best so far does not beat is the best so far from then on. */
  lemma NewBest(rest: seq<Entry>, c: Entry, key: Key)
    requires Usable(c)
    requires if BestUsable(rest, key).Gap? then forall x :: x in rest && x.Entry? ==> x.avg <= BAD_LINK
             else !Beats(BestUsable(rest, key), c, key) &&
                  exists n :: 0 <= n < |rest| && BestUsable(rest, key) == rest[n] && LastBest(rest, n, key)
    ensures LastBest(rest + [c], |rest|, key)
  {
    var cell, b := rest + [c], BestUsable(rest, key);
    forall m | 0 <= m < |rest| && rest[m].Entry? && rest[m].avg > BAD_LINK ensures Behind(rest[m], c, key, true) {
      assert rest[m] in rest;
      if b.Entry? {
        var n :| 0 <= n < |rest| && b == rest[n] && LastBest(rest, n, key);
        assert m != n ==> Behind(rest[m], rest[n], key, m < n);
      }
    }
  }

  /** No usable entry is better than entry n, and none after it as good. */
  ghost predicate LastBest(cell: seq<Entry>, n: nat, key: Key) {
    && n < |cell| && cell[n].Entry?
    && forall m :: 0 <= m < |cell| && m != n && cell[m].Entry? && cell[m].avg > BAD_LINK ==>
         Behind(cell[m], cell[n], key, m < n)
  }

  /** a is worse than b, or as good if that is allowed. */
  predicate Behind(a: Entry, b: Entry, key: Key, orEqual: bool)
    requires a.Entry? && b.Entry?
  {
    var m, n := KeyIndex(a.host.key, key), KeyIndex(b.host.key, key);
    || m < n || (m == n && a.avg < b.avg) || (m == n && a.avg == b.avg && a.latency > b.latency)
    || (orEqual && m == n && a.avg == b.avg && a.latency == b.latency)
  }

  /** The worst has the least success, then the greatest latency; the best the other way round. */
  lemma WorstAndBestInNumbers(v: seq<Entry>, i: nat, j: nat, w: nat, n: nat)
    ensures WorstAmong(v, i, j, w, n) ==> forall m :: 0 <= m < n ==>
              var x, y := v[Index(i, j, w)], v[Index(i, j, m)];
              x.avg < y.avg || (x.avg == y.avg && x.latency >= y.latency)
    ensures BestAmong(v, i, j, w, n) ==> forall m :: 0 <= m < n ==>
              var x, y := v[Index(i, j, w)], v[Index(i, j, m)];
              x.avg > y.avg || (x.avg == y.avg && x.latency <= y.latency)
  {
  }

  // -------------------------------------------------- where the answers come from

  ghost predicate MeOrSeen(me: Host, v: seq<Entry>, h: Host) {
    h == me || exists n :: 0 <= n < |v| && v[n].Entry? && v[n].host == h
  }

  lemma {:induction false} CounterIsKnown(me: Host, v: seq<Entry>, i: nat, j: nat)
    requires |v| == TABLE_SIZE && 2 <= i < MAX_ROW && j < MAX_COL
    ensures MeOrSeen(me, v, CounterFrom(me, v, i, j))
    decreases MAX_ROW - i, j
  {
    var s := LeftOf(me.key, i, j);
    if !s.last {
      CounterIsKnown(me, v, s.i, s.j);
    }
  }

  lemma LookupIsSeen(me: Host, v: seq<Entry>, key: Key)
    requires |v| == TABLE_SIZE
    ensures var r := LookupTable(me, v, key); r.Found? ==> MeOrSeen(me, v, r.host)
  {
    var cell := MatchCell(me.key, v, key);
    BestUsableIsChosen(cell, key);
    CounterIsKnown(me, v, Row(me.key, key), Column(key, Row(me.key, key)));
    var e := BestUsable(cell, key);
    if e.Entry? {
      assert e in v;
    }
  }

  /** Nothing in the match cell is usable. */
  ghost predicate NoMatch(me: Key, v: seq<Entry>, key: Key)
    requires |v| == TABLE_SIZE
  {
    forall e :: e in MatchCell(me, v, key) ==> !Usable(e)
  }

  lemma NoMatchIff(me: Key, v: seq<Entry>, key: Key)
    requires |v| == TABLE_SIZE
    ensures NoMatch(me, v, key) <==> BestUsable(MatchCell(me, v, key), key) == Gap
  {
    BestUsableIsChosen(MatchCell(me, v, key), key);
  }

  /** Depths 1 and 2 of the column-0 cell in the row the clockwise walk crosses are both taken. */
  predicate Crowded(me: Key, v: seq<Entry>, key: Key)
    requires |v| == TABLE_SIZE
  {
    var r := CrossedRow(me, key);
    r < MAX_ROW && v[Index(r, 0, 1)].Entry? && v[Index(r, 0, 2)].Entry?
  }

  /** The lookup throws exactly then, and only if nothing matches. */
  lemma ThrowsIff(me: Host, v: seq<Entry>, key: Key)
    requires |v| == TABLE_SIZE
    ensures LookupTable(me, v, key) == OutOfRange <==>
            key != me.key && NoMatch(me.key, v, key) && Crowded(me.key, v, key)
  {
    NoMatchIff(me.key, v, key);
  }

  /** The clockwise candidate is another host, as far from the key as the counter-clockwise one. */
  predicate Tied(me: Host, v: seq<Entry>, key: Key)
    requires |v| == TABLE_SIZE
  {
    var w := Clockwise(me, v, key);
    w.Reaches? && w.host != me && Distance(w.host.key, key) == Distance(CounterClockwise(me, v, key).key, key)
  }

  /** The invalid host comes back exactly then. */
  lemma InvalidIff(me: Host, v: seq<Entry>, key: Key)
    requires |v| == TABLE_SIZE
    ensures LookupTable(me, v, key) == Invalid <==>
            key != me.key && NoMatch(me.key, v, key) && Tied(me, v, key)
  {
    NoMatchIff(me.key, v, key);
  }
}
