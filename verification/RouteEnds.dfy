/**
 * When routing a packet ends: all runs of Chimera::Route, whatever the wire does.
 */
module RouteEnds {
  import opened Keys
  import opened Hosts
  import opened RouteRuns
  import opened Routings
  import opened TableCells

  // ------------------------------------------------------------ what a run keeps

  /** The next send goes, or the last one went, where the last lookup said. */
  predicate LookedUp(outcome: Outcome, answer: Hop) {
    match outcome
    case DeliverHere => true
    case Forwarded(hop) => hop == answer
    case Raised => answer == Thrown
    case Sending(hop) => hop == answer && !hop.Thrown?
  }

  ghost predicate OnCourse(key: Key, c: Course, hosts: set<Host>) {
    Orderly(c.node, hosts) && LookedUp(c.outcome, Answer(c.node, key))
  }

  /** The next failed turn is idle. */
  ghost predicate Spinning(w: Channel, key: Key, c: Course, hosts: set<Host>) {
    && OnCourse(key, c, hosts) && c.outcome.Sending?
    && Idle(c.node, OpenAt(w, c.next), c.outcome.hop)
  }

  // -------------------------------------------------------- what counts of a run

  /** A run so far, as far as its end is concerned. */
  datatype Mark = Mark(outcome: Outcome, me: Host, next: nat, spinning: bool, rank: nat)

  ghost function MarkOf(w: Channel, key: Key, hosts: set<Host>, c: Course): Mark {
    Mark(c.outcome, c.node.leaves.me, c.next, Spinning(w, key, c, hosts), Rank(c.node, hosts))
  }

  ghost predicate Follows(w: Channel, a: Mark, b: Mark) {
    if !a.outcome.Sending? then b == a
    else
      && b.next == a.next + 1 && b.me == a.me
      && (if Works(w, a.me, a.next, a.outcome.hop) then b.outcome == Forwarded(a.outcome.hop)
          else if a.spinning then b.spinning && b.outcome == a.outcome
          else b.rank < a.rank && (b.outcome.Sending? || b.outcome.Raised?))
  }

  ghost predicate Marks(w: Channel, m: seq<Mark>) {
    forall i :: 0 <= i < |m| - 1 ==> Follows(w, m[i], m[i + 1])
  }

  lemma {:induction false} SendingSince(w: Channel, m: seq<Mark>, i: nat, j: nat)
    requires Marks(w, m) && i <= j < |m| && m[j].outcome.Sending?
    ensures m[i].outcome.Sending? && m[j].next == m[i].next + j - i && m[j].me == m[i].me
    decreases j - i
  {
    if i < j {
      assert Follows(w, m[j - 1], m[j - 1 + 1]);
      SendingSince(w, m, i, j - 1);
    }
  }

  /** Each round that fails lowers the rank until the run spins. */
  lemma {:induction false} RankRunsOut(w: Channel, m: seq<Mark>, j: nat)
    requires Marks(w, m) && j < |m| && m[j].outcome.Sending?
    ensures m[j].spinning || m[j].rank + j <= m[0].rank
  {
    if j > 0 {
      SendingSince(w, m, j - 1, j);
      assert Follows(w, m[j - 1], m[j - 1 + 1]);
      RankRunsOut(w, m, j - 1);
    }
  }

  /** A spinning run that goes on sends to the same place. */
  lemma {:induction false} SpinsOn(w: Channel, m: seq<Mark>, i: nat, j: nat)
    requires Marks(w, m) && i <= j < |m| && m[i].spinning && m[j].outcome.Sending?
    ensures m[j].spinning && m[j].outcome == m[i].outcome
    decreases j - i
  {
    if i < j {
      SendingSince(w, m, j - 1, j);
      assert Follows(w, m[j - 1], m[j - 1 + 1]);
      SpinsOn(w, m, i, j - 1);
    }
  }

  /** It goes on for as long as that does not work. */
  lemma {:induction false} SpinsForEver(w: Channel, m: seq<Mark>, i: nat, j: nat)
    requires Marks(w, m) && i <= j < |m| && m[i].spinning && m[i].outcome.Sending?
    requires forall k: nat :: k >= m[i].next ==> !Works(w, m[i].me, k, m[i].outcome.hop)
    ensures m[j].outcome.Sending?
    decreases j - i
  {
    if i < j {
      SpinsForEver(w, m, i, j - 1);
      SpinsOn(w, m, i, j - 1);
      SendingSince(w, m, i, j - 1);
      assert Follows(w, m[j - 1], m[j - 1 + 1]);
    }
  }

  /** And it ends with the first such send that does. */
  lemma SpinEnds(w: Channel, m: seq<Mark>, i: nat, j: nat, k: nat)
    requires Marks(w, m) && i < j < |m| && m[i].spinning && m[i].outcome.Sending?
    requires Works(w, m[i].me, k, m[i].outcome.hop) && k == m[i].next + j - i - 1
    ensures !m[j].outcome.Sending?
  {
    if m[j].outcome.Sending? {
      SendingSince(w, m, j - 1, j);
      SendingSince(w, m, i, j - 1);
      SpinsOn(w, m, i, j - 1);
    }
  }

  /** How many sends were made, and which of them worked. */
  ghost predicate Counted(w: Channel, a: Mark, b: Mark, rounds: nat) {
    && b.me == a.me
    && match b.outcome
       case DeliverHere => b == a
       case Forwarded(hop) => a.next < b.next <= a.next + rounds && Works(w, b.me, b.next - 1, hop)
       case Raised => a.next <= b.next <= a.next + rounds
       case Sending(hop) => b.next == a.next + rounds
  }

  lemma {:induction false} SendsAreCounted(w: Channel, m: seq<Mark>, j: nat)
    requires Marks(w, m) && j < |m| && !m[0].outcome.Forwarded?
    ensures Counted(w, m[0], m[j], j)
  {
    if j > 0 {
      SendsAreCounted(w, m, j - 1);
      assert Follows(w, m[j - 1], m[j - 1 + 1]);
    }
  }

  // -------------------------------------------------------------- routing a packet

  /** What a node can afford: fourteen failures for each host stored, and its copies. */
  function Bound(s: Node): nat {
    14 * |StoredOf(s)| + CopiesOf(s)
  }

  lemma JoinKeeps(s: Node, key: Key, isJoin: bool)
    requires Orderly(s, StoredOf(s))
    ensures var t := JoinDropped(s, key, isJoin);
            Orderly(t, StoredOf(s)) && t.leaves.me == s.leaves.me && CopiesOf(t) <= CopiesOf(s)
  {
    DroppedKeeps(s, key, StoredOf(s));
  }

  lemma FirstSendKeeps(s: Node, key: Key, n: nat, hosts: set<Host>)
    requires Orderly(s, hosts)
    ensures OnCourse(key, FirstSend(s, key, n), hosts)
  {
  }

  lemma StartKeeps(s: Node, key: Key, isJoin: bool, n: nat)
    requires Orderly(s, StoredOf(s))
    ensures var c := Started(s, key, isJoin, n);
            && OnCourse(key, c, StoredOf(s)) && c.node.leaves.me == s.leaves.me && c.next == n
            && Rank(c.node, StoredOf(s)) <= Bound(s) && !c.outcome.Forwarded?
            && (c.outcome.DeliverHere? ==> key == s.leaves.me.key || Answer(c.node, key) == Next(s.leaves.me))
  {
    JoinKeeps(s, key, isJoin);
    FirstSendKeeps(JoinDropped(s, key, isJoin), key, n, StoredOf(s));
    RankBound(Started(s, key, isJoin, n).node, StoredOf(s));
  }

  lemma {:induction false} RunKeeps(w: Channel, s: Node, key: Key, isJoin: bool, n: nat, rounds: nat)
    requires Orderly(s, StoredOf(s))
    ensures OnCourse(key, Routed(w, s, key, isJoin, n, rounds), StoredOf(s))
  {
    if rounds == 0 {
      StartKeeps(s, key, isJoin, n);
    } else {
      RunKeeps(w, s, key, isJoin, n, rounds - 1);
      TurnKeeps(w, key, Routed(w, s, key, isJoin, n, rounds - 1), StoredOf(s));
    }
  }

  lemma TurnKeeps(w: Channel, key: Key, c: Course, hosts: set<Host>)
    ensures OnCourse(key, c, hosts) ==> OnCourse(key, AfterTurn(w, key, c), hosts)
  {
    if OnCourse(key, c, hosts) && c.outcome.Sending? {
      FailureKeeps(c.node, OpenAt(w, c.next), c.outcome.hop, hosts);
    }
  }

  ghost function RunMark(w: Channel, s: Node, key: Key, isJoin: bool, n: nat, i: nat): Mark {
    MarkOf(w, key, StoredOf(s), Routed(w, s, key, isJoin, n, i))
  }

  /** The host to send to is the local one or stored. */
  ghost predicate Aimed(c: Course) {
    c.outcome.Sending? && !c.outcome.hop.Thrown? &&
    (c.outcome.hop.Next? ==> c.outcome.hop.host == c.node.leaves.me || c.outcome.hop.host in StoredOf(c.node))
  }

  /** A failed turn is idle, as the next will be, and the lookup answers the same; or it pays. */
  lemma FailedTurn(w: Channel, key: Key, c: Course, hosts: set<Host>)
    requires Orderly(c.node, hosts) && Aimed(c)
    ensures var hop, t := c.outcome.hop, AfterFailure(c.node, OpenAt(w, c.next), c.outcome.hop);
            && t.leaves.me == c.node.leaves.me
            && (if Idle(c.node, OpenAt(w, c.next), hop)
                then Idle(t, OpenAt(w, c.next + 1), hop) && Answer(t, key) == Answer(c.node, key)
                else Rank(t, hosts) < Rank(c.node, hosts))
  {
    var hop, open := c.outcome.hop, OpenAt(w, c.next);
    FailureKeeps(c.node, open, hop, hosts);
    if Idle(c.node, open, hop) {
      IdleRepeats(c.node, open, hop, hosts);
    } else {
      OtherTurnsPay(c.node, open, hop, hosts);
    }
  }

  /** A turn of a spinning run ends it or leaves it spinning; any other failed turn pays. */
  lemma TurnFollows(w: Channel, key: Key, c: Course, hosts: set<Host>)
    ensures OnCourse(key, c, hosts) ==>
              Follows(w, MarkOf(w, key, hosts, c), MarkOf(w, key, hosts, AfterTurn(w, key, c)))
  {
    if OnCourse(key, c, hosts) && c.outcome.Sending? {
      AnswerIsKnown(c.node, key);
      FailedTurn(w, key, c, hosts);
      FailureKeeps(c.node, OpenAt(w, c.next), c.outcome.hop, hosts);
    }
  }

  lemma RunFollows(w: Channel, s: Node, key: Key, isJoin: bool, n: nat, i: nat)
    requires Orderly(s, StoredOf(s))
    ensures Follows(w, RunMark(w, s, key, isJoin, n, i), RunMark(w, s, key, isJoin, n, i + 1))
  {
    RunKeeps(w, s, key, isJoin, n, i);
    TurnFollows(w, key, Routed(w, s, key, isJoin, n, i), StoredOf(s));
  }

  lemma RunBegins(w: Channel, s: Node, key: Key, isJoin: bool, n: nat)
    requires Orderly(s, StoredOf(s))
    ensures var a := RunMark(w, s, key, isJoin, n, 0);
            a.rank <= Bound(s) && a.next == n && a.me == s.leaves.me && !a.outcome.Forwarded?
  {
    StartKeeps(s, key, isJoin, n);
  }

  lemma RunMarks(w: Channel, s: Node, key: Key, isJoin: bool, n: nat, rounds: nat) returns (m: seq<Mark>)
    requires Orderly(s, StoredOf(s))
    ensures |m| == rounds + 1 && Marks(w, m) && m[0].rank <= Bound(s) && m[0].next == n && m[0].me == s.leaves.me
    ensures forall i: nat :: i <= rounds ==> m[i] == RunMark(w, s, key, isJoin, n, i)
    ensures !m[0].outcome.Forwarded?
  {
    RunBegins(w, s, key, isJoin, n);
    m := RunMarksOf(w, s, key, isJoin, n, rounds);
    MarksFollow(w, s, key, isJoin, n, m);
  }

  ghost function RunMarksOf(w: Channel, s: Node, key: Key, isJoin: bool, n: nat, rounds: nat): (m: seq<Mark>)
    ensures |m| == rounds + 1 && forall i: nat :: i <= rounds ==> m[i] == RunMark(w, s, key, isJoin, n, i)
  {
    seq(rounds + 1, i requires 0 <= i => RunMark(w, s, key, isJoin, n, i))
  }

  lemma MarksFollow(w: Channel, s: Node, key: Key, isJoin: bool, n: nat, m: seq<Mark>)
    requires Orderly(s, StoredOf(s)) && forall i: nat :: i < |m| ==> m[i] == RunMark(w, s, key, isJoin, n, i)
    ensures Marks(w, m)
  {
    forall i | 0 <= i < |m| - 1 ensures Follows(w, m[i], m[i + 1]) {
      RunFollows(w, s, key, isJoin, n, i);
    }
  }

  /** What an outcome says of the last lookup and of the sends made, the first of them the n-th. */
  ghost predicate Accounted(w: Channel, key: Key, me: Host, n: nat, rounds: nat, outcome: Outcome, next: nat,
                            answer: Hop) {
    match outcome
    case DeliverHere => next == n && (key == me.key || answer == Next(me))
    case Forwarded(hop) => n < next <= n + rounds && hop == answer && Works(w, me, next - 1, hop)
    case Raised => n <= next <= n + rounds && answer == Thrown
    case Sending(hop) => next == n + rounds && hop == answer && !hop.Thrown?
  }

  lemma {:induction false} OverIsOver(w: Channel, key: Key, c: Course, rounds: nat, more: nat)
    requires !AfterTurns(w, key, c, rounds).outcome.Sending?
    ensures AfterTurns(w, key, c, rounds + more) == AfterTurns(w, key, c, rounds)
  {
    if more > 0 {
      OverIsOver(w, key, c, rounds, more - 1);
    }
  }

  lemma {:induction false} DeliveredAtStart(w: Channel, key: Key, c: Course, rounds: nat)
    requires AfterTurns(w, key, c, rounds).outcome.DeliverHere?
    ensures AfterTurns(w, key, c, rounds) == c
  {
    if rounds > 0 {
      DeliveredAtStart(w, key, c, rounds - 1);
    }
  }

  lemma DeliveredIsLookedUp(w: Channel, s: Node, key: Key, isJoin: bool, n: nat, rounds: nat)
    requires Orderly(s, StoredOf(s))
    ensures var c := Routed(w, s, key, isJoin, n, rounds);
            c.outcome.DeliverHere? ==> key == s.leaves.me.key || Answer(c.node, key) == Next(s.leaves.me)
  {
    StartKeeps(s, key, isJoin, n);
    if Routed(w, s, key, isJoin, n, rounds).outcome.DeliverHere? {
      DeliveredAtStart(w, key, Started(s, key, isJoin, n), rounds);
    }
  }

  /** No outcome comes without the lookup and the sends that go with it. */
  lemma OutcomeIsLookedUp(w: Channel, s: Node, key: Key, isJoin: bool, n: nat, rounds: nat)
    requires Orderly(s, StoredOf(s))
    ensures var c := Routed(w, s, key, isJoin, n, rounds);
            Accounted(w, key, s.leaves.me, n, rounds, c.outcome, c.next, Answer(c.node, key))
  {
    RunKeeps(w, s, key, isJoin, n, rounds);
    DeliveredIsLookedUp(w, s, key, isJoin, n, rounds);
    var a := RunIsCounted(w, s, key, isJoin, n, rounds);
    var c := Routed(w, s, key, isJoin, n, rounds);
    CountedIsAccounted(w, key, a, RunMark(w, s, key, isJoin, n, rounds), rounds, Answer(c.node, key));
  }

  lemma RunIsCounted(w: Channel, s: Node, key: Key, isJoin: bool, n: nat, rounds: nat) returns (a: Mark)
    requires Orderly(s, StoredOf(s))
    ensures a.next == n && a.me == s.leaves.me && Counted(w, a, RunMark(w, s, key, isJoin, n, rounds), rounds)
  {
    var m := RunMarks(w, s, key, isJoin, n, rounds);
    SendsAreCounted(w, m, rounds);
    assert m[rounds] == RunMark(w, s, key, isJoin, n, rounds);
    a := m[0];
  }

  lemma CountedIsAccounted(w: Channel, key: Key, a: Mark, b: Mark, rounds: nat, answer: Hop)
    requires LookedUp(b.outcome, answer) && Counted(w, a, b, rounds)
    requires b.outcome.DeliverHere? ==> key == a.me.key || answer == Next(a.me)
    ensures Accounted(w, key, a.me, a.next, rounds, b.outcome, b.next, answer)
  {
  }

  /**
   * With H hosts stored in C copies, a packet that is still being sent after
   * more than 14 * H + C rounds is sent to the same place from then on, for
   * nothing: the local host, the invalid one, or a good host through a closed socket.
   */
  lemma BeyondTheBoundItSpins(w: Channel, s: Node, key: Key, isJoin: bool, n: nat, rounds: nat)
    requires Orderly(s, StoredOf(s))
    ensures var c := Routed(w, s, key, isJoin, n, rounds);
            rounds > Bound(s) && c.outcome.Sending? ==> Spinning(w, key, c, StoredOf(s))
  {
    var m := RunMarks(w, s, key, isJoin, n, rounds);
    assert m[rounds] == RunMark(w, s, key, isJoin, n, rounds);
    if rounds > Bound(s) && m[rounds].outcome.Sending? {
      RankRunsOut(w, m, rounds);
    }
  }

  /** A later send to where the run is sending works. */
  ghost predicate WorksYet(w: Channel, me: Host, outcome: Outcome, next: nat) {
    outcome.Sending? && exists k: nat :: k >= next && Works(w, me, k, outcome.hop)
  }

  lemma EndsBy(w: Channel, s: Node, key: Key, isJoin: bool, n: nat, b: nat, k: nat, j: nat)
    requires Orderly(s, StoredOf(s)) && b < j
    ensures var a := RunMark(w, s, key, isJoin, n, b);
            a.spinning && a.outcome.Sending? && Works(w, a.me, k, a.outcome.hop) && k == a.next + j - b - 1 ==>
              !Routed(w, s, key, isJoin, n, j).outcome.Sending?
  {
    var m := RunMarks(w, s, key, isJoin, n, j);
    assert m[b] == RunMark(w, s, key, isJoin, n, b);
    assert m[j] == RunMark(w, s, key, isJoin, n, j);
    if m[b].spinning && m[b].outcome.Sending? && Works(w, m[b].me, k, m[b].outcome.hop) && k == m[b].next + j - b - 1 {
      SpinEnds(w, m, b, j, k);
    }
  }

  lemma GoesOn(w: Channel, s: Node, key: Key, isJoin: bool, n: nat, b: nat, rounds: nat)
    requires Orderly(s, StoredOf(s))
    ensures var a := RunMark(w, s, key, isJoin, n, b);
            a.spinning && a.outcome.Sending? && !WorksYet(w, a.me, a.outcome, a.next) ==>
              Routed(w, s, key, isJoin, n, rounds).outcome.Sending?
  {
    var m := RunMarks(w, s, key, isJoin, n, if rounds < b then b else rounds);
    assert m[b] == RunMark(w, s, key, isJoin, n, b);
    assert m[rounds] == RunMark(w, s, key, isJoin, n, rounds);
    var a := m[b];
    if a.spinning && a.outcome.Sending? && !WorksYet(w, a.me, a.outcome, a.next) {
      if rounds < b {
        SendingSince(w, m, rounds, b);
      } else {
        SpinsForEver(w, m, b, rounds);
      }
    }
  }

  /** Routing ends exactly if it has after one round more than the bound, or a later send to that place works. */
  lemma EndsIff(w: Channel, s: Node, key: Key, isJoin: bool, n: nat)
    requires Orderly(s, StoredOf(s))
    ensures var c := Routed(w, s, key, isJoin, n, Bound(s) + 1);
            (exists rounds: nat :: !Routed(w, s, key, isJoin, n, rounds).outcome.Sending?) <==>
            !c.outcome.Sending? || WorksYet(w, c.node.leaves.me, c.outcome, c.next)
  {
    var b := Bound(s) + 1;
    var c := Routed(w, s, key, isJoin, n, b);
    BeyondTheBoundItSpins(w, s, key, isJoin, n, b);
    if WorksYet(w, c.node.leaves.me, c.outcome, c.next) {
      var k: nat :| k >= c.next && Works(w, c.node.leaves.me, k, c.outcome.hop);
      EndsBy(w, s, key, isJoin, n, b, k, b + k - c.next + 1);
    } else if c.outcome.Sending? {
      forall rounds: nat ensures Routed(w, s, key, isJoin, n, rounds).outcome.Sending? {
        GoesOn(w, s, key, isJoin, n, b, rounds);
      }
    }
  }

  // ------------------------------------------------- tables whose lookups never fail

  /** No row has an entry at depth 1 of column 0. */
  predicate Sparse(cells: Cells) {
    forall i :: 2 <= i < MAX_ROW ==> cells[Index(i, 0, 1)] == null
  }

  /** Every lookup then gives a host. */
  lemma SparseAnswers(s: Node, key: Key)
    requires Sparse(s.cells)
    ensures Answer(s, key).Next?
  {
    var v, me := ViewOf(s), s.leaves.me;
    IndexIsBijective();
    ThrowsIff(me, v, key);
    InvalidIff(me, v, key);
    NoMatchIff(me.key, v, key);
    assert v[Index(2, 0, 1)].Gap?;
    var r := CrossedRow(me.key, key);
    assert r < MAX_ROW ==> v[Index(r, 0, 1)].Gap?;
  }

  lemma DroppedStaysSparse(s: Node, key: Key)
    requires Sparse(s.cells)
    ensures Sparse(Dropped(s, key).cells)
  {
  }

  lemma SparseTurn(w: Channel, key: Key, c: Course)
    requires Sparse(c.node.cells)
    ensures Sparse(AfterTurn(w, key, c).node.cells)
  {
    if c.outcome.Sending? {
      var hop := c.outcome.hop;
      DroppedStaysSparse(c.node, 0);
      if hop.Next? {
        DroppedStaysSparse(c.node, hop.host.key);
        DroppedStaysSparse(Blamed(c.node, hop.host), hop.host.key);
      }
    }
  }

  lemma {:induction false} SparseTurns(w: Channel, key: Key, c: Course, rounds: nat)
    requires Sparse(c.node.cells)
    ensures Sparse(AfterTurns(w, key, c, rounds).node.cells)
  {
    if rounds > 0 {
      SparseTurns(w, key, c, rounds - 1);
      SparseTurn(w, key, AfterTurns(w, key, c, rounds - 1));
    }
  }

  /** Removals leave the table sparse, so no run of such a node throws or sends to the invalid host. */
  lemma SparseNeverFails(w: Channel, s: Node, key: Key, isJoin: bool, n: nat, rounds: nat)
    requires Orderly(s, StoredOf(s)) && Sparse(s.cells)
    ensures var c := Routed(w, s, key, isJoin, n, rounds);
            !c.outcome.Raised? && (c.outcome.Sending? || c.outcome.Forwarded? ==> c.outcome.hop.Next?)
  {
    DroppedStaysSparse(s, key);
    SparseTurns(w, key, Started(s, key, isJoin, n), rounds);
    RunKeeps(w, s, key, isJoin, n, rounds);
    SparseAnswers(Routed(w, s, key, isJoin, n, rounds).node, key);
  }

  /** With an open socket it can only be to the local host that it sends for ever. */
  lemma SparseSpinsAtMe(w: Channel, s: Node, key: Key, isJoin: bool, n: nat, rounds: nat)
    requires Orderly(s, StoredOf(s)) && Sparse(s.cells) && w.closesAt.None?
    ensures var c := Routed(w, s, key, isJoin, n, rounds);
            rounds > Bound(s) && c.outcome.Sending? ==> c.outcome.hop == Next(s.leaves.me)
  {
    SparseNeverFails(w, s, key, isJoin, n, rounds);
    BeyondTheBoundItSpins(w, s, key, isJoin, n, rounds);
    var m := RunMarks(w, s, key, isJoin, n, rounds);
    SendsAreCounted(w, m, rounds);
    assert m[rounds] == RunMark(w, s, key, isJoin, n, rounds);
  }

  /** The socket stays open, and from the n-th send on those to the local host work. */
  ghost predicate SelfWorks(w: Channel, n: nat) {
    w.closesAt.None? && forall k: nat :: k >= n ==> k in w.self
  }

  /** So if sends to the local host work, it ends within the bound, and well. */
  lemma SparseEnds(w: Channel, s: Node, key: Key, isJoin: bool, n: nat, rounds: nat)
    requires Orderly(s, StoredOf(s)) && Sparse(s.cells) && SelfWorks(w, n)
    ensures var c := Routed(w, s, key, isJoin, n, rounds);
            rounds > Bound(s) ==> c.outcome.DeliverHere? || (c.outcome.Forwarded? && c.outcome.hop.Next?)
  {
    SparseNeverFails(w, s, key, isJoin, n, rounds);
    SparseSpinsAtMe(w, s, key, isJoin, n, rounds);
    var m := RunMarks(w, s, key, isJoin, n, rounds);
    assert m[rounds] == RunMark(w, s, key, isJoin, n, rounds);
    if rounds > Bound(s) && m[rounds].outcome.Sending? {
      SpunBefore(w, m, rounds);
    }
  }

  /** A run still going beyond its rank made its last send spinning, and in vain. */
  lemma SpunBefore(w: Channel, m: seq<Mark>, j: nat)
    requires Marks(w, m) && 0 < j < |m| && m[0].rank < j && m[j].outcome.Sending?
    ensures var a := m[j - 1];
            a.outcome == m[j].outcome && a.me == m[0].me && a.next == m[0].next + j - 1 &&
            !Works(w, a.me, a.next, a.outcome.hop)
  {
    SendingSince(w, m, j - 1, j);
    SendingSince(w, m, 0, j - 1);
    RankRunsOut(w, m, j - 1);
    assert Follows(w, m[j - 1], m[j - 1 + 1]);
  }

  /** If no send works at all, then a packet that is sent at all is sent for ever. */
  lemma NothingWorks(w: Channel, s: Node, key: Key, isJoin: bool, n: nat, rounds: nat)
    requires Orderly(s, StoredOf(s)) && Sparse(s.cells)
    requires forall k: nat, hop :: k >= n ==> !Works(w, s.leaves.me, k, hop)
    ensures var c := Routed(w, s, key, isJoin, n, rounds);
            c.outcome.DeliverHere? || (c.outcome.Sending? && c.next == n + rounds)
  {
    SparseNeverFails(w, s, key, isJoin, n, rounds);
    OutcomeIsLookedUp(w, s, key, isJoin, n, rounds);
  }

  /** A JOIN goes to a host with its own key only if a copy of that key went and another was left. */
  lemma JoinGoesElsewhere(s: Node, key: Key, n: nat)
    requires Orderly(s, StoredOf(s))
    ensures var c := Started(s, key, true, n);
            c.outcome.Sending? && c.outcome.hop.Next? && HopKey(c.outcome.hop) == key ==>
              c.node == Dropped(s, key) && HasStored(c.node, key) && CopiesOf(c.node) == CopiesOf(s) - 1
  {
    var t := JoinDropped(s, key, true);
    AnswerIsKnown(t, key);
    DroppedKeeps(s, key, StoredOf(s));
    if Answer(t, key).Next? && Answer(t, key).host in StoredOf(t) && Answer(t, key).host.key == key {
      assert HasStored(t, key);
    }
  }

  // ------------------------------------------------------- stuck from the start

  /** The lookup gives the invalid host, no copy of key 0 is stored, and no send to it works: so it stays. */
  lemma StuckFromTheStart(w: Channel, s: Node, key: Key, isJoin: bool, n: nat, rounds: nat)
    requires Orderly(s, StoredOf(s)) && forall k: nat :: k >= n ==> !Works(w, s.leaves.me, k, NoHost)
    ensures Answer(s, key) == NoHost && !HasStored(s, 0) ==>
              Routed(w, s, key, isJoin, n, rounds).outcome == Sending(NoHost)
  {
    if Answer(s, key) == NoHost && !HasStored(s, 0) {
      StuckAtOnce(s, key, isJoin, n);
      var m := RunMarks(w, s, key, isJoin, n, rounds);
      assert m[0] == RunMark(w, s, key, isJoin, n, 0);
      assert m[rounds] == RunMark(w, s, key, isJoin, n, rounds);
      SpinsForEver(w, m, 0, rounds);
      SpinsOn(w, m, 0, rounds);
    }
  }

  lemma StuckAtOnce(s: Node, key: Key, isJoin: bool, n: nat)
    requires Orderly(s, StoredOf(s))
    ensures Answer(s, key) == NoHost && !HasStored(s, 0) ==>
              Started(s, key, isJoin, n) == Course(Sending(NoHost), s, n)
  {
    DroppedKeeps(s, 0, StoredOf(s));
  }
}
