/**
 * Chimera::Route as a function of what the node knows and of what the wire does:
 * the first hop, the rounds of the resend loop, and where a packet stands after
 * so many of them; and what one failed round uses up.
 */
module RouteRuns {
  import opened Keys
  import opened Hosts
  import opened Leafsets
  import opened Options
  import opened Routings
  import opened TableCells

  // ----------------------------------------------------------------- the wire

  /**
   * Which sends work, by number and by where they go: to a remote host, to the
   * local one, to the invalid one.  From one send on the socket may be closed.
   */
  datatype Channel = Channel(closesAt: Option<nat>, peer: iset<nat>, self: iset<nat>, void: iset<nat>)

  predicate OpenAt(w: Channel, n: nat) {
    w.closesAt.None? || n < w.closesAt.value
  }

  /** The n-th send, to where hop says, works. */
  predicate Works(w: Channel, me: Host, n: nat, hop: Hop) {
    OpenAt(w, n) && n in (if !hop.Next? then w.void else if hop.host == me then w.self else w.peer)
  }

  // ------------------------------------------------------------ what a node knows

  type Window = s: seq<int> | |s| == SUCCESS_WINDOW && Outcomes(s) witness seq(SUCCESS_WINDOW, _ => 0)
  type Cells = s: seq<Host?> | |s| == TABLE_SIZE witness seq(TABLE_SIZE, _ => null)

  datatype Record = Record(recent: Window, latency: real)

  datatype Node = Node(leaves: Leaves, cells: Cells, known: map<Host, Record>)

  /** A host without a record is as good as a new one. */
  function RecordOf(s: Node, h: Host): Record {
    if h in s.known then s.known[h] else Record(InitialWindow(), 0.0)
  }

  function EntryOf(s: Node, h: Host?): Entry {
    if h == null then Gap else Entry(h, Average(RecordOf(s, h).recent), RecordOf(s, h).latency)
  }

  function ViewOf(s: Node): (v: seq<Entry>)
    ensures |v| == TABLE_SIZE && forall n :: 0 <= n < TABLE_SIZE ==> v[n] == EntryOf(s, s.cells[n])
  {
    seq(TABLE_SIZE, n requires 0 <= n < TABLE_SIZE => EntryOf(s, s.cells[n]))
  }

  function Answer(s: Node, key: Key): Hop {
    LookupIn(s.leaves, ViewOf(s), key)
  }

  function StoredOf(s: Node): set<Host> {
    StoredIn(s.leaves.cw, s.leaves.ccw, s.cells)
  }

  function CopiesOf(s: Node): nat {
    |s.leaves.cw| + |s.leaves.ccw| + Occupied(s.cells)
  }

  ghost predicate HasStored(s: Node, key: Key) {
    exists h :: h in StoredOf(s) && h.key == key
  }

  ghost predicate Orderly(s: Node, hosts: set<Host>) {
    ValidLeaves(s.leaves) && WellPlaced(s.leaves.me.key, s.cells) && StoredOf(s) <= hosts
  }

  // ------------------------------------------------------------- one failed send

  /** One copy of a key goes: the leaf with it, else the first in the table. */
  function Dropped(s: Node, key: Key): Node {
    s.(leaves := RemoveFrom(s.leaves, key),
       cells := if key in KeysOf(s.leaves.cw) + KeysOf(s.leaves.ccw) then s.cells else Emptied(s.cells, key))
  }

  function Blamed(s: Node, h: Host): Node {
    var r := RecordOf(s, h);
    s.(known := s.known[h := r.(recent := r.recent[1..] + [0])])
  }

  predicate Bad(s: Node, h: Host) {
    Average(RecordOf(s, h).recent) < BAD_LINK
  }

  function Suspected(s: Node, h: Host): Node {
    if Bad(s, h) then Dropped(s, h.key) else s
  }

  /** A closed socket records nothing; the invalid host is always bad, and its key is 0. */
  function AfterFailure(s: Node, open: bool, hop: Hop): Node {
    match hop
    case Thrown => s
    case NoHost => Dropped(s, 0)
    case Next(h) => Suspected(if open then Blamed(s, h) else s, h)
  }

  // -------------------------------------------------------------------- the runs

  /** How routing a packet can end, or where the next send goes. */
  datatype Outcome = DeliverHere | Forwarded(hop: Hop) | Raised | Sending(hop: Hop)

  /** A run so far: what came of it, what the node knows, and the number of the next send. */
  datatype Course = Course(outcome: Outcome, node: Node, next: nat)

  function Onward(hop: Hop): Outcome {
    if hop.Thrown? then Raised else Sending(hop)
  }

  /** One round of the loop: send, and on failure look up again. */
  function AfterTurn(w: Channel, key: Key, c: Course): Course {
    if !c.outcome.Sending? then c
    else if Works(w, c.node.leaves.me, c.next, c.outcome.hop)
    then Course(Forwarded(c.outcome.hop), c.node, c.next + 1)
    else
      var s := AfterFailure(c.node, OpenAt(w, c.next), c.outcome.hop);
      Course(Onward(Answer(s, key)), s, c.next + 1)
  }

  function AfterTurns(w: Channel, key: Key, c: Course, rounds: nat): Course {
    if rounds == 0 then c else AfterTurn(w, key, AfterTurns(w, key, c, rounds - 1))
  }

  /** A JOIN answered with its own key is looked up again without that copy. */
  function JoinDropped(s: Node, key: Key, isJoin: bool): Node {
    if isJoin && !Answer(s, key).Thrown? && HopKey(Answer(s, key)) == key then Dropped(s, key) else s
  }

  function FirstSend(s: Node, key: Key, n: nat): Course {
    Course(if Answer(s, key) == Next(s.leaves.me) then DeliverHere else Onward(Answer(s, key)), s, n)
  }

  function Started(s: Node, key: Key, isJoin: bool, n: nat): Course {
    if key == s.leaves.me.key then Course(DeliverHere, s, n) else FirstSend(JoinDropped(s, key, isJoin), key, n)
  }

  /** Route, watched for so many rounds of its loop; its first send is the n-th. */
  function Routed(w: Channel, s: Node, key: Key, isJoin: bool, n: nat, rounds: nat): Course {
    AfterTurns(w, key, Started(s, key, isJoin, n), rounds)
  }

  // ------------------------------------------------------- dropping and blaming

  lemma DroppedKeeps(s: Node, key: Key, hosts: set<Host>)
    requires Orderly(s, hosts)
    ensures Orderly(Dropped(s, key), hosts) && Dropped(s, key).leaves.me == s.leaves.me
    ensures CopiesOf(Dropped(s, key)) == CopiesOf(s) - if HasStored(s, key) then 1 else 0
    ensures !HasStored(s, key) ==> Dropped(s, key) == s
    ensures var t := Dropped(s, key);
            CopyGone(s.leaves, s.cells, key, t.leaves, t.cells) && t.known == s.known
  {
    var l := s.leaves;
    DropsTheCopy(l, s.cells, key);
    RemoveKeepsValid(l, key);
    RemoveIsSubsequence(CW, l.cw, key);
    RemoveIsSubsequence(CCW, l.ccw, key);
    StoredWithKey(l.cw, l.ccw, s.cells, key);
    KeysApart(l, key);
    EmptiedKeeps(s.cells, key);
    if key !in KeysOf(l.cw) + KeysOf(l.ccw) {
      NoneRemoved(l.ccw, key);
    }
  }

  lemma KeysApart(l: Leaves, key: Key)
    requires ValidLeaves(l)
    ensures key == l.me.key ==> key !in KeysOf(l.cw) && key !in KeysOf(l.ccw)
    ensures key in KeysOf(l.cw) ==> key !in KeysOf(l.ccw)
  {
  }

  lemma NoneRemoved(s: seq<Host>, key: Key)
    requires key !in KeysOf(s)
    ensures RemoveKey(s, key) == s
  {
    NoneWithKey(s, key);
  }

  // ------------------------------------------------------------------- the rank

  /** How many of the next n failures in a row leave the link good. */
  function GoodFor(win: Window, n: nat): (r: nat)
    ensures r <= n
  {
    if n == 0 then 0 else GoodFor(win, n - 1) + if Average(AfterFailures(win, n)) < BAD_LINK then 0 else 1
  }

  /** How many failures in a row a host can afford. */
  function Afford(win: Window): (r: nat)
    ensures r <= 14
  {
    GoodFor(win, 14)
  }

  function OneMore(win: Window): Window {
    win[1..] + [0]
  }

  lemma AfterOneFailure(win: Window, n: nat)
    ensures AfterFailures(OneMore(win), n) == AfterFailures(win, n + 1)
  {
    assert AfterFailures(win, 1) == OneMore(win);
  }

  lemma {:induction false} GoodForShifts(win: Window, n: nat)
    ensures GoodFor(win, n + 1) == GoodFor(OneMore(win), n) + if Average(OneMore(win)) < BAD_LINK then 0 else 1
  {
    AfterOneFailure(win, n);
    if n == 0 {
      AfterOneFailure(win, 0);
      assert AfterFailures(OneMore(win), 0) == OneMore(win);
    } else {
      GoodForShifts(win, n - 1);
    }
  }

  /** A failure that leaves the link good is one the host can no longer afford. */
  lemma AffordStep(win: Window)
    ensures Afford(win) == Afford(OneMore(win)) + if Average(OneMore(win)) < BAD_LINK then 0 else 1
  {
    GoodForShifts(win, 14);
    FifteenFailuresAreBad(win, 15);
  }

  ghost function Pick(hosts: set<Host>): (h: Host)
    requires hosts != {}
    ensures h in hosts
  {
    var h :| h in hosts;
    h
  }

  ghost function AffordAll(s: Node, hosts: set<Host>): nat
    decreases hosts
  {
    if hosts == {} then 0
    else
      var h := Pick(hosts);
      Afford(RecordOf(s, h).recent) + AffordAll(s, hosts - {h})
  }

  lemma {:induction false} AffordAllBound(s: Node, hosts: set<Host>)
    ensures AffordAll(s, hosts) <= 14 * |hosts|
    decreases hosts
  {
    if hosts != {} {
      AffordAllBound(s, hosts - {Pick(hosts)});
    }
  }

  lemma {:induction false} AffordAllBlamed(s: Node, h: Host, hosts: set<Host>)
    ensures AffordAll(s, hosts) ==
            AffordAll(Blamed(s, h), hosts) + if h in hosts && !Bad(Blamed(s, h), h) then 1 else 0
    decreases hosts
  {
    if hosts != {} {
      AffordAllBlamed(s, h, hosts - {Pick(hosts)});
      AffordStep(RecordOf(s, h).recent);
    }
  }

  lemma {:induction false} AffordAllSame(s: Node, t: Node, hosts: set<Host>)
    requires s.known == t.known
    ensures AffordAll(s, hosts) == AffordAll(t, hosts)
    decreases hosts
  {
    if hosts != {} {
      AffordAllSame(s, t, hosts - {Pick(hosts)});
    }
  }

  /** Failures the hosts can afford, and copies that can be dropped. */
  ghost function Rank(s: Node, hosts: set<Host>): nat {
    AffordAll(s, hosts) + CopiesOf(s)
  }

  lemma RankBound(s: Node, hosts: set<Host>)
    ensures Rank(s, hosts) <= 14 * |hosts| + CopiesOf(s)
  {
    AffordAllBound(s, hosts);
  }

  // ------------------------------------------------- turns that change nothing

  /**
   * A failed send that leaves every lookup as it is: one to the local host; one
   * to the invalid host with no copy of key 0 to drop; one through a closed
   * socket to a host with a good link.
   */
  ghost predicate Idle(s: Node, open: bool, hop: Hop) {
    match hop
    case Thrown => false
    case NoHost => !HasStored(s, 0)
    case Next(h) => h == s.leaves.me || (!open && !Bad(s, h))
  }

  lemma AnswerIsKnown(s: Node, key: Key)
    ensures var r := Answer(s, key); r.Next? ==> r.host == s.leaves.me || r.host in StoredOf(s)
  {
    LookedIsKnown(s.leaves, s.cells, ViewOf(s), key);
  }

  lemma StoredIsNotMe(s: Node, h: Host, hosts: set<Host>)
    requires Orderly(s, hosts) && h in StoredOf(s)
    ensures h != s.leaves.me && h.key != s.leaves.me.key
  {
    var me := s.leaves.me;
    if h !in s.leaves.cw && h !in s.leaves.ccw {
      var n :| 0 <= n < |s.cells| && s.cells[n] == h;
      assert PlacedAt(me.key, s.cells[n].key, n);
    }
  }

  /** No record but that of the local host matters less: it is nowhere in the table. */
  lemma BlamingMeIsUnseen(s: Node, hosts: set<Host>)
    requires Orderly(s, hosts)
    ensures ViewOf(Blamed(s, s.leaves.me)) == ViewOf(s)
  {
    var t := Blamed(s, s.leaves.me);
    forall n | 0 <= n < TABLE_SIZE ensures EntryOf(t, t.cells[n]) == EntryOf(s, s.cells[n]) {
      if s.cells[n] != null {
        assert s.cells[n] in StoredOf(s);
        StoredIsNotMe(s, s.cells[n], hosts);
      }
    }
    assert ViewOf(t) == ViewOf(s);
  }

  lemma NoneWithMyKey(s: Node, hosts: set<Host>)
    requires Orderly(s, hosts)
    ensures !HasStored(s, s.leaves.me.key)
  {
    forall h | h in StoredOf(s) ensures h.key != s.leaves.me.key {
      StoredIsNotMe(s, h, hosts);
    }
  }

  /** An idle turn leaves leafset and table, and what every lookup answers, as they were. */
  lemma IdleRepeats(s: Node, open: bool, hop: Hop, hosts: set<Host>)
    requires Orderly(s, hosts) && Idle(s, open, hop)
    ensures var t := AfterFailure(s, open, hop);
            && t.leaves == s.leaves && t.cells == s.cells && ViewOf(t) == ViewOf(s) && (open || t == s)
  {
    match hop
    case NoHost => DroppedKeeps(s, 0, hosts);
    case Next(h) =>
      if h == s.leaves.me {
        var t := if open then Blamed(s, h) else s;
        BlamingMeIsUnseen(s, hosts);
        NoneWithMyKey(t, hosts);
        DroppedKeeps(t, h.key, hosts);
      }
  }

  /** Every other failed turn lowers the rank. */
  lemma OtherTurnsPay(s: Node, open: bool, hop: Hop, hosts: set<Host>)
    requires Orderly(s, hosts) && !hop.Thrown? && !Idle(s, open, hop)
    requires hop.Next? ==> hop.host == s.leaves.me || hop.host in StoredOf(s)
    ensures Rank(AfterFailure(s, open, hop), hosts) < Rank(s, hosts)
  {
    if hop == NoHost {
      DroppedKeeps(s, 0, hosts);
      AffordAllSame(s, Dropped(s, 0), hosts);
    } else {
      var h := hop.host;
      var t := if open then Blamed(s, h) else s;
      AffordAllBlamed(s, h, hosts);
      if Bad(t, h) {
        assert h in StoredOf(t) && HasStored(t, h.key);
        DroppedKeeps(t, h.key, hosts);
        AffordAllSame(t, Dropped(t, h.key), hosts);
      }
    }
  }

  lemma FailureKeeps(s: Node, open: bool, hop: Hop, hosts: set<Host>)
    requires Orderly(s, hosts)
    ensures var t := AfterFailure(s, open, hop);
            Orderly(t, hosts) && t.leaves.me == s.leaves.me
  {
    match hop
    case Thrown =>
    case NoHost => DroppedKeeps(s, 0, hosts);
    case Next(h) => DroppedKeeps(if open then Blamed(s, h) else s, h.key, hosts);
  }

  // ------------------------------------------------------- who survives a failure

  /** What a failed send makes of the window: a closed socket is not the fault of the host. */
  function FailedWindow(win: seq<int>, open: bool): seq<int>
    requires |win| == SUCCESS_WINDOW
  {
    if open then win[1..] + [0] else win
  }

  /** A stored host stays where it is exactly if its link is good after the failure; else one copy of its key goes. */
  lemma FailureOfHost(s: Node, open: bool, h: Host, hosts: set<Host>)
    requires Orderly(s, hosts) && h in StoredOf(s)
    ensures var t, win := AfterFailure(s, open, Next(h)), FailedWindow(RecordOf(s, h).recent, open);
            && (t.leaves == s.leaves && t.cells == s.cells <==> Average(win) >= BAD_LINK)
            && (Average(win) < BAD_LINK ==>
                  CopyGone(s.leaves, s.cells, h.key, t.leaves, t.cells) && CopiesOf(t) == CopiesOf(s) - 1)
            && t.known == if open then s.known[h := Record(win, RecordOf(s, h).latency)] else s.known
  {
    var b := if open then Blamed(s, h) else s;
    assert HasStored(b, h.key);
    DroppedKeeps(b, h.key, hosts);
  }

  /** What a failed round does to the leaves and cells, when the window of its host is then win. */
  ghost predicate SparedOrDropped(win: seq<int>, s: Node, key: Key, leaves: Leaves, cells: seq<Host?>) {
    if Average(win) >= BAD_LINK then leaves == s.leaves && cells == s.cells
    else CopyGone(s.leaves, s.cells, key, leaves, cells)
  }

  /** The local host stays whatever its window, and a failed send to the invalid host costs a copy of key 0 at most. */
  lemma FailureOfOthers(s: Node, open: bool, hosts: set<Host>)
    requires Orderly(s, hosts)
    ensures var t := AfterFailure(s, open, Next(s.leaves.me)); t.leaves == s.leaves && t.cells == s.cells
    ensures var t := AfterFailure(s, open, NoHost);
            CopyGone(s.leaves, s.cells, 0, t.leaves, t.cells) && t.known == s.known
  {
    IdleRepeats(s, open, Next(s.leaves.me), hosts);
    DroppedKeeps(s, 0, hosts);
  }

  /** The node after f failed sends to h through an open socket, and no others. */
  function FailedSends(s: Node, h: Host, f: nat): Node {
    if f == 0 then s else AfterFailure(FailedSends(s, h, f - 1), true, Next(h))
  }

  /** None of f failures in a row makes the link bad. */
  ghost predicate StaysGood(win: Window, f: nat) {
    forall g: nat :: 1 <= g <= f ==> Average(AfterFailures(win, g)) >= BAD_LINK
  }

  ghost predicate StoredOnce(s: Node, h: Host) {
    h in StoredOf(s) && !HasStored(Dropped(s, h.key), h.key)
  }

  lemma OneFailedSend(s: Node, h: Host, win: Window)
    requires RecordOf(s, h).recent == win
    ensures var t := AfterFailure(s, true, Next(h));
            && RecordOf(t, h).recent == OneMore(win)
            && t.leaves == (if Average(OneMore(win)) < BAD_LINK then Dropped(s, h.key).leaves else s.leaves)
            && t.cells == if Average(OneMore(win)) < BAD_LINK then Dropped(s, h.key).cells else s.cells
  {
  }

  lemma AgainDropped(s: Node, t: Node, key: Key, hosts: set<Host>)
    requires Orderly(s, hosts) && !HasStored(Dropped(s, key), key)
    ensures t.leaves == s.leaves && t.cells == s.cells ==>
              Dropped(t, key).leaves == Dropped(s, key).leaves && Dropped(t, key).cells == Dropped(s, key).cells
    ensures t.leaves == Dropped(s, key).leaves && t.cells == Dropped(s, key).cells ==>
              Dropped(t, key).leaves == t.leaves && Dropped(t, key).cells == t.cells
  {
    DroppedKeeps(s, key, hosts);
    DroppedKeeps(Dropped(s, key), key, hosts);
  }

  lemma {:induction false} AfterFailedSends(s: Node, h: Host, hosts: set<Host>, f: nat)
    requires Orderly(s, hosts) && StoredOnce(s, h)
    ensures var t, d, win := FailedSends(s, h, f), Dropped(s, h.key), RecordOf(s, h).recent;
            && RecordOf(t, h).recent == AfterFailures(win, f)
            && (if StaysGood(win, f) then t.leaves == s.leaves && t.cells == s.cells
                else t.leaves == d.leaves && t.cells == d.cells)
  {
    var win := RecordOf(s, h).recent;
    if f == 0 {
      assert AfterFailures(win, 0) == win;
    } else {
      AfterFailedSends(s, h, hosts, f - 1);
      var t := FailedSends(s, h, f - 1);
      OneMoreFailure(win, f - 1);
      OneFailedSend(t, h, AfterFailures(win, f - 1));
      AgainDropped(s, t, h.key, hosts);
      GoodOnceMore(win, f);
    }
  }

  lemma GoodOnceMore(win: Window, f: nat)
    requires f > 0
    ensures StaysGood(win, f) <==> StaysGood(win, f - 1) && Average(AfterFailures(win, f)) >= BAD_LINK
  {
  }

  lemma OneMoreFailure(win: Window, f: nat)
    ensures AfterFailures(win, f)[1..] + [0] == AfterFailures(win, f + 1)
  {
  }

  /** A host stored once is still stored after f failed sends exactly if none of them made its link bad. */
  lemma SurvivesIff(s: Node, h: Host, hosts: set<Host>, f: nat)
    requires Orderly(s, hosts) && StoredOnce(s, h)
    ensures h in StoredOf(FailedSends(s, h, f)) <==> StaysGood(RecordOf(s, h).recent, f)
  {
    AfterFailedSends(s, h, hosts, f);
    assert forall g :: g in StoredOf(Dropped(s, h.key)) ==> g.key != h.key;
  }

  /** A new host survives fourteen failures and not the fifteenth. */
  lemma NewHostSurvivesIff(s: Node, h: Host, hosts: set<Host>, f: nat)
    requires Orderly(s, hosts) && StoredOnce(s, h) && RecordOf(s, h).recent == InitialWindow()
    ensures h in StoredOf(FailedSends(s, h, f)) <==> f < 15
  {
    SurvivesIff(s, h, hosts, f);
    forall g: nat ensures Average(AfterFailures(InitialWindow(), g)) < BAD_LINK <==> g >= 15 {
      FreshHostTurnsBad(g);
    }
    assert f >= 15 ==> 1 <= 15 <= f && Average(AfterFailures(InitialWindow(), 15)) < BAD_LINK;
  }

  /** A lookup prefers a host by its prefix exactly as long as a failed send would not remove it. */
  lemma UsableIff(s: Node, h: Host)
    ensures Usable(EntryOf(s, h)) <==> Average(RecordOf(s, h).recent) >= BAD_LINK
    ensures Usable(EntryOf(s, h)) <==> Sum(RecordOf(s, h).recent) >= 6
  {
    BadLinkIff(RecordOf(s, h).recent);
  }

  // -------------------------------------------------------------- how a run begins

  /**
   * A packet for the local key is delivered without a lookup.  A JOIN whose
   * answer has its key loses that copy; then a packet is delivered exactly if
   * the answer is the local host, and sent to the answer otherwise.
   */
  lemma StartIs(s: Node, key: Key, isJoin: bool, n: nat)
    requires Orderly(s, StoredOf(s))
    ensures var c, a, me := Started(s, key, isJoin, n), Answer(s, key), s.leaves.me;
            if key == me.key then c == Course(DeliverHere, s, n)
            else
              && c.next == n
              && (if isJoin && !a.Thrown? && HopKey(a) == key
                  then CopyGone(s.leaves, s.cells, key, c.node.leaves, c.node.cells) && c.node.known == s.known
                  else c.node == s)
              && (c.outcome.DeliverHere? <==> Answer(c.node, key) == Next(me))
              && (c.outcome.Raised? <==> Answer(c.node, key) == Thrown)
              && (c.outcome.DeliverHere? || c.outcome.Raised? || c.outcome == Sending(Answer(c.node, key)))
  {
    DroppedKeeps(s, key, StoredOf(s));
    BeginsWith(JoinDropped(s, key, isJoin), key, n);
  }

  lemma BeginsWith(s: Node, key: Key, n: nat)
    ensures var c, a := FirstSend(s, key, n), Answer(s, key);
            && c.node == s && c.next == n
            && (c.outcome.DeliverHere? <==> a == Next(s.leaves.me)) && (c.outcome.Raised? <==> a == Thrown)
            && (c.outcome.DeliverHere? || c.outcome.Raised? || c.outcome == Sending(a))
  {
  }
}
