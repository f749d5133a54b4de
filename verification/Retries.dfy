/**
 * Chimera::Route on the node itself: the lookups, sends and removals change the
 * routing and the hosts in place, and leave what RouteRuns says.
 */
module Retries {
  import opened Keys
  import opened Hosts
  import opened Leafsets
  import opened RouteEnds
  import opened RouteRuns
  import opened Routings
  import opened TableCells

  // ---------------------------------------------------------------- sending

  class Network {
    const wire: Channel
    var sent: nat

    constructor (wire: Channel)
      ensures this.wire == wire && sent == 0
    {
      this.wire := wire;
      sent := 0;
    }

    /** A closed socket is not the fault of the host. */
    method Send(me: Host, dest: Host) returns (ok: bool)
      requires dest.Valid()
      modifies this`sent, dest`successWinIndex, dest`successAvg, dest.successWin
      ensures dest.Valid() && sent == old(sent) + 1 && (ok <==> Works(wire, me, old(sent), Next(dest)))
      ensures dest.Recent() ==
              if !ok && OpenAt(wire, old(sent)) then old(dest.Recent())[1..] + [0] else old(dest.Recent())
    {
      var number := sent;
      sent := sent + 1;
      if !OpenAt(wire, number) {
        return false;
      }
      ok := Works(wire, me, number, Next(dest));
      if !ok {
        dest.UpdateStat(0);
      }
    }

    /** To the invalid host: address 0, port 0, and no statistics to update. */
    method SendVoid(me: Host) returns (ok: bool)
      modifies this`sent
      ensures sent == old(sent) + 1 && (ok <==> Works(wire, me, old(sent), NoHost))
    {
      ok := Works(wire, me, sent, NoHost);
      sent := sent + 1;
    }
  }

  // ---------------------------------------------------------- the node as a value

  ghost predicate Holds(routing: Routing, leaves: Leaves, cells: Cells)
    reads routing, routing.leafset, routing.routingTable, routing.routingTable.table
  {
    routing.Valid() && routing.leafset.State() == leaves && routing.routingTable.table[..] == cells
  }

  /** Each host has a window of its own, and the record of it. */
  ghost predicate Recorded(hosts: set<Host>, wins: set<array<int>>, known: map<Host, Record>)
    reads hosts, wins
  {
    && (forall h :: h in hosts ==> h.successWin in wins)
    && (forall g, h :: g in hosts && h in hosts && g != h ==> g.successWin != h.successWin)
    && known.Keys == hosts
    && forall h :: h in hosts ==> h.Valid() && h.Recent() == known[h].recent && h.latency == known[h].latency
  }

  /** The node is as the value says; the records are those of the local host, all stored ones and perhaps others. */
  ghost predicate Mirrors(routing: Routing, hosts: set<Host>, wins: set<array<int>>, s: Node)
    reads routing, routing.leafset, routing.routingTable, routing.routingTable.table
    reads hosts, wins
  {
    && Holds(routing, s.leaves, s.cells) && Recorded(hosts, wins, s.known)
    && StoredOf(s) <= hosts && s.leaves.me in hosts
  }

  /** Any node in order whose windows hold zeros and ones is as some value says. */
  lemma SomeValue(routing: Routing, hosts: set<Host>, wins: set<array<int>>) returns (s: Node)
    requires routing.Valid() && routing.Stored() <= hosts && routing.me in hosts
    requires forall h :: h in hosts ==> h.successWin in wins
    requires forall g, h :: g in hosts && h in hosts && g != h ==> g.successWin != h.successWin
    requires forall h :: h in hosts ==> h.Valid() && h.successWin.Length == SUCCESS_WINDOW && Outcomes(h.Recent())
    ensures Mirrors(routing, hosts, wins, s)
    ensures StoredOf(s) == routing.Stored() && CopiesOf(s) == routing.Copies()
  {
    var known: map<Host, Record> := map h | h in hosts :: Record(h.Recent(), h.latency);
    s := Node(routing.leafset.State(), routing.routingTable.table[..], known);
  }

  lemma LookedIsAnswer(routing: Routing, hosts: set<Host>, wins: set<array<int>>, s: Node, key: Key)
    ensures Mirrors(routing, hosts, wins, s) ==> routing.Looked(key) == Answer(s, key)
  {
    if Mirrors(routing, hosts, wins, s) {
      var cells := routing.routingTable.table[..];
      forall n | 0 <= n < TABLE_SIZE ensures Graded(cells[n]) == EntryOf(s, cells[n]) {
        if cells[n] != null {
          assert cells[n] in StoredOf(s);
        }
      }
      assert Seen(cells) == ViewOf(s);
    }
  }

  // ------------------------------------------------------------- one round

  /** A copy of a key goes, if it has to, and the key is looked up again. */
  method Recover(routing: Routing, drop: bool, dropped: Key, key: Key, ghost s: Node) returns (hop: Hop)
    requires Holds(routing, s.leaves, s.cells)
    modifies routing.leafset, routing.routingTable.table
    ensures var t := if drop then Dropped(s, dropped) else s; Holds(routing, t.leaves, t.cells)
    ensures hop == routing.Looked(key)
  {
    if drop {
      var _ := routing.Remove(dropped);
    }
    hop := routing.RouteLookup(key);
  }

  /** The round of the invalid host: its success average is 0, so if the send fails key 0 is removed. */
  method VoidRound(routing: Routing, net: Network, key: Key, ghost s: Node) returns (ok: bool, hop: Hop)
    requires Holds(routing, s.leaves, s.cells)
    modifies net, routing.leafset, routing.routingTable.table
    ensures net.sent == old(net.sent) + 1 && (ok <==> Works(net.wire, s.leaves.me, old(net.sent), NoHost))
    ensures var t := if ok then s else Dropped(s, 0); Holds(routing, t.leaves, t.cells)
    ensures !ok ==> hop == routing.Looked(key)
  {
    hop := NoHost;
    ok := net.SendVoid(routing.me);
    if !ok {
      hop := Recover(routing, true, 0, key, s);
    }
  }

  /** A send to a host, and on failure the time of it. */
  method SendOnce(net: Network, me: Host, dest: Host, clock: nat -> real) returns (ok: bool)
    requires dest.Valid()
    modifies net, dest`successWinIndex, dest`successAvg, dest`failureTime, dest.successWin
    ensures dest.Valid() && net.sent == old(net.sent) + 1 && (ok <==> Works(net.wire, me, old(net.sent), Next(dest)))
    ensures dest.Recent() ==
            if !ok && OpenAt(net.wire, old(net.sent)) then old(dest.Recent())[1..] + [0] else old(dest.Recent())
    ensures dest.failureTime == if ok then old(dest.failureTime) else clock(net.sent)
  {
    ok := net.Send(me, dest);
    if !ok {
      dest.SetFailureTime(clock(net.sent));
    }
  }

  lemma OneRecordChanges(s: Node, hosts: set<Host>, wins: set<array<int>>, dest: Host, failed: bool)
    requires s.known.Keys == hosts && dest in hosts
    requires forall h :: h in hosts ==> h.successWin in wins
    requires forall g, h :: g in hosts && h in hosts && g != h ==> g.successWin != h.successWin
    requires forall h :: h in hosts ==> h.Valid() && h.latency == s.known[h].latency
    requires forall h :: h in hosts && h != dest ==> h.Valid() && h.Recent() == s.known[h].recent
    requires dest.Valid() && dest.Recent() == if failed then s.known[dest].recent[1..] + [0] else s.known[dest].recent
    ensures Recorded(hosts, wins, if failed then Blamed(s, dest).known else s.known)
  {
  }

  /** Among the hosts watched one window at most changes. */
  method SendNow(net: Network, me: Host, dest: Host, clock: nat -> real,
                 ghost hosts: set<Host>, ghost wins: set<array<int>>, ghost s: Node)
    returns (ok: bool)
    requires Recorded(hosts, wins, s.known) && dest in hosts
    modifies net, dest`successWinIndex, dest`successAvg, dest`failureTime, dest.successWin
    ensures net.sent == old(net.sent) + 1 && (ok <==> Works(net.wire, me, old(net.sent), Next(dest)))
    ensures Recorded(hosts, wins, if !ok && OpenAt(net.wire, old(net.sent)) then Blamed(s, dest).known else s.known)
    ensures !ok ==> dest.failureTime == clock(net.sent)
  {
    ghost var number := net.sent;
    ok := SendOnce(net, me, dest, clock);
    OneRecordChanges(s, hosts, wins, dest, !ok && OpenAt(net.wire, number));
  }

  /** The round of a host: if the send fails and the link is bad now, it is removed. */
  method HostRound(routing: Routing, net: Network, dest: Host, key: Key, clock: nat -> real,
                   ghost hosts: set<Host>, ghost wins: set<array<int>>, ghost s: Node)
    returns (ok: bool, hop: Hop)
    requires Holds(routing, s.leaves, s.cells) && Recorded(hosts, wins, s.known) && dest in hosts
    modifies net, routing.leafset, routing.routingTable.table
    modifies dest`successWinIndex, dest`successAvg, dest`failureTime, dest.successWin
    ensures net.sent == old(net.sent) + 1 && (ok <==> Works(net.wire, s.leaves.me, old(net.sent), Next(dest)))
    ensures var t := if ok then s else AfterFailure(s, OpenAt(net.wire, old(net.sent)), Next(dest));
            Holds(routing, t.leaves, t.cells) && Recorded(hosts, wins, t.known)
    ensures !ok ==> hop == routing.Looked(key) && dest.failureTime == clock(net.sent)
    ensures !ok && dest in StoredOf(s) ==>
              DroppedIfBad(routing, FailedWindow(s.known[dest].recent, OpenAt(net.wire, old(net.sent))), s, dest.key)
  {
    hop := NoHost;
    ghost var number := net.sent;
    ok := SendNow(net, routing.me, dest, clock, hosts, wins, s);
    if !ok {
      ghost var t := if OpenAt(net.wire, number) then Blamed(s, dest) else s;
      assert dest.successAvg < BAD_LINK <==> Bad(t, dest);
      hop := Recover(routing, dest.successAvg < BAD_LINK, dest.key, key, t);
      FailureShows(routing, s, OpenAt(net.wire, number), dest);
    }
  }

  /** With a window of good average nothing has changed; else one copy of the key is gone. */
  ghost predicate DroppedIfBad(routing: Routing, win: seq<int>, s: Node, key: Key)
    reads routing, routing.leafset, routing.routingTable, routing.routingTable.table
  {
    && SparedOrDropped(win, s, key, routing.leafset.State(), routing.routingTable.table[..])
    && routing.Copies() == CopiesOf(s) - if Average(win) < BAD_LINK then 1 else 0
  }

  lemma FailureShows(routing: Routing, s: Node, open: bool, dest: Host)
    requires ValidLeaves(s.leaves) && WellPlaced(s.leaves.me.key, s.cells) && dest in s.known
    requires var t := AfterFailure(s, open, Next(dest)); Holds(routing, t.leaves, t.cells)
    ensures dest in StoredOf(s) ==> DroppedIfBad(routing, FailedWindow(s.known[dest].recent, open), s, dest.key)
  {
    if dest in StoredOf(s) {
      FailureOfHost(s, open, dest, StoredOf(s));
    }
  }

  /** One round of the loop. */
  method Turn(routing: Routing, net: Network, dest: Hop, key: Key, clock: nat -> real,
              ghost hosts: set<Host>, ghost wins: set<array<int>>, ghost s: Node)
    returns (ok: bool, hop: Hop)
    requires Mirrors(routing, hosts, wins, s) && !dest.Thrown? && (dest.Next? ==> dest.host in hosts)
    modifies net, routing.leafset, routing.routingTable.table, hosts, wins
    ensures net.sent == old(net.sent) + 1 && (ok <==> Works(net.wire, s.leaves.me, old(net.sent), dest))
    ensures var t := if ok then s else AfterFailure(s, OpenAt(net.wire, old(net.sent)), dest);
            Mirrors(routing, hosts, wins, t) && (!ok ==> hop == Answer(t, key))
    ensures !ok && dest.Next? ==> dest.host.failureTime == clock(net.sent)
  {
    ghost var t := AfterFailure(s, OpenAt(net.wire, net.sent), dest);
    FailureKeeps(s, OpenAt(net.wire, net.sent), dest, hosts);
    if dest.NoHost? {
      ok, hop := VoidRound(routing, net, key, s);
    } else {
      ok, hop := HostRound(routing, net, dest.host, key, clock, hosts, wins, s);
    }
    LookedIsAnswer(routing, hosts, wins, if ok then s else t, key);
  }

  // ------------------------------------------------------------- the whole call

  /** The node and the network are where the run is. */
  ghost predicate Standing(routing: Routing, net: Network, hosts: set<Host>, wins: set<array<int>>, c: Course)
    reads routing, routing.leafset, routing.routingTable, routing.routingTable.table
    reads hosts, wins, net
  {
    && Mirrors(routing, hosts, wins, c.node) && net.sent == c.next
    && (c.outcome.Sending? ==> !c.outcome.hop.Thrown? && (c.outcome.hop.Next? ==> c.outcome.hop.host in hosts))
  }

  method Round(routing: Routing, net: Network, dest: Hop, key: Key, clock: nat -> real,
               ghost hosts: set<Host>, ghost wins: set<array<int>>, ghost c: Course)
    returns (outcome: Outcome)
    requires Standing(routing, net, hosts, wins, c) && c.outcome == Sending(dest)
    modifies net, routing.leafset, routing.routingTable.table, hosts, wins
    ensures Standing(routing, net, hosts, wins, AfterTurn(net.wire, key, c))
    ensures outcome == AfterTurn(net.wire, key, c).outcome
  {
    var ok, hop := Turn(routing, net, dest, key, clock, hosts, wins, c.node);
    outcome := if ok then Forwarded(dest) else Onward(hop);
    TurnIsDone(net.wire, key, c, ok, hop, outcome, hosts);
  }

  lemma TurnIsDone(w: Channel, key: Key, c: Course, ok: bool, hop: Hop, outcome: Outcome, hosts: set<Host>)
    requires c.outcome.Sending? && outcome == if ok then Forwarded(c.outcome.hop) else Onward(hop)
    requires ok <==> Works(w, c.node.leaves.me, c.next, c.outcome.hop)
    requires var t := AfterFailure(c.node, OpenAt(w, c.next), c.outcome.hop);
             !ok ==> hop == Answer(t, key) && StoredOf(t) <= hosts && t.leaves.me in hosts
    ensures var t := AfterFailure(c.node, OpenAt(w, c.next), c.outcome.hop);
            AfterTurn(w, key, c) == Course(outcome, if ok then c.node else t, c.next + 1)
    ensures outcome.Sending? ==> !outcome.hop.Thrown? && (outcome.hop.Next? ==> outcome.hop.host in hosts)
  {
    if !ok {
      AnswerIsKnown(AfterFailure(c.node, OpenAt(w, c.next), c.outcome.hop), key);
    }
  }

  /** The loop. */
  method RetryLoop(routing: Routing, net: Network, start: Outcome, key: Key, clock: nat -> real, rounds: nat,
                   ghost hosts: set<Host>, ghost wins: set<array<int>>, ghost first: Course)
    returns (outcome: Outcome)
    requires Standing(routing, net, hosts, wins, first) && first.outcome == start
    modifies net, routing.leafset, routing.routingTable.table, hosts, wins
    ensures var c := AfterTurns(net.wire, key, first, rounds);
            Standing(routing, net, hosts, wins, c) && outcome == c.outcome
  {
    outcome := start;
    ghost var c := first;
    var round := 0;
    while round < rounds && outcome.Sending?
      invariant round <= rounds && c == AfterTurns(net.wire, key, first, round)
      invariant Standing(routing, net, hosts, wins, c) && outcome == c.outcome
    {
      outcome := Round(routing, net, outcome.hop, key, clock, hosts, wins, c);
      c := AfterTurn(net.wire, key, c);
      round := round + 1;
    }
    RunIsOver(net.wire, key, first, c, round, rounds);
  }

  lemma RunIsOver(w: Channel, key: Key, first: Course, c: Course, round: nat, rounds: nat)
    requires c == AfterTurns(w, key, first, round) && round <= rounds && (round == rounds || !c.outcome.Sending?)
    ensures c == AfterTurns(w, key, first, rounds)
  {
    if round < rounds {
      OverIsOver(w, key, first, round, rounds - round);
    }
  }

  /** A JOIN answered with its own key loses that copy first. */
  method FirstHop(routing: Routing, key: Key, isJoin: bool,
                  ghost hosts: set<Host>, ghost wins: set<array<int>>, ghost s: Node)
    returns (next: Hop)
    requires Mirrors(routing, hosts, wins, s)
    modifies routing.leafset, routing.routingTable.table
    ensures Mirrors(routing, hosts, wins, JoinDropped(s, key, isJoin))
    ensures next == Answer(JoinDropped(s, key, isJoin), key)
  {
    next := LookNow(routing, key, hosts, wins, s);
    JoinDrops(s, key, isJoin, next);
    if !next.Thrown? && HopKey(next) == key && isJoin {
      next := DropNow(routing, key, hosts, wins, s);
    }
  }

  lemma JoinDrops(s: Node, key: Key, isJoin: bool, answer: Hop)
    ensures answer == Answer(s, key) ==>
              JoinDropped(s, key, isJoin) ==
              if !answer.Thrown? && HopKey(answer) == key && isJoin then Dropped(s, key) else s
  {
  }

  method LookNow(routing: Routing, key: Key, ghost hosts: set<Host>, ghost wins: set<array<int>>, ghost s: Node)
    returns (hop: Hop)
    requires Mirrors(routing, hosts, wins, s)
    ensures hop == Answer(s, key)
  {
    LookedIsAnswer(routing, hosts, wins, s, key);
    hop := routing.RouteLookup(key);
  }

  method DropNow(routing: Routing, key: Key, ghost hosts: set<Host>, ghost wins: set<array<int>>, ghost s: Node)
    returns (hop: Hop)
    requires Mirrors(routing, hosts, wins, s)
    modifies routing.leafset, routing.routingTable.table
    ensures Mirrors(routing, hosts, wins, Dropped(s, key)) && hop == Answer(Dropped(s, key), key)
  {
    ghost var t := Dropped(s, key);
    DroppedIsAmong(s, key, hosts);
    hop := Recover(routing, true, key, key, s);
    assert unchanged(hosts) && unchanged(wins);
    assert Recorded(hosts, wins, t.known);
    LookedIsAnswer(routing, hosts, wins, t, key);
  }

  lemma DroppedIsAmong(s: Node, key: Key, hosts: set<Host>)
    requires ValidLeaves(s.leaves) && WellPlaced(s.leaves.me.key, s.cells) && StoredOf(s) <= hosts
    ensures var t := Dropped(s, key); t.known == s.known && t.leaves.me == s.leaves.me && StoredOf(t) <= hosts
  {
    DroppedKeeps(s, key, hosts);
  }

  /**
   * Route a packet, and watch the loop for so many rounds: outcome, node and
   * number of sends are those of RouteRuns.Routed.  With H hosts stored in C
   * copies, a packet still being sent after more than 14 * H + C rounds spins;
   * and a sparse table and sends to itself that work are enough for it not to.
   */
  method Route(routing: Routing, net: Network, key: Key, isJoin: bool, clock: nat -> real, rounds: nat,
               ghost hosts: set<Host>, ghost wins: set<array<int>>, ghost s: Node)
    returns (outcome: Outcome)
    requires Mirrors(routing, hosts, wins, s)
    modifies net, routing.leafset, routing.routingTable.table, hosts, wins
    ensures var c := Routed(net.wire, s, key, isJoin, old(net.sent), rounds);
            && Mirrors(routing, hosts, wins, c.node) && net.sent == c.next && outcome == c.outcome
            && (rounds > Bound(s) && outcome.Sending? ==> Idle(c.node, OpenAt(net.wire, net.sent), outcome.hop))
    ensures rounds > Bound(s) && Sparse(s.cells) && SelfWorks(net.wire, old(net.sent)) ==>
              outcome.DeliverHere? || (outcome.Forwarded? && outcome.hop.Next?)
    ensures Accounted(net.wire, key, routing.me, old(net.sent), rounds, outcome, net.sent, routing.Looked(key))
  {
    ghost var first := Started(s, key, isJoin, net.sent);
    WhatItSays(net.wire, s, key, isJoin, net.sent, rounds);
    StartIsAimed(s, key, isJoin, net.sent, hosts);
    if key == routing.me.key {
      outcome := DeliverHere;
    } else {
      var next := FirstHop(routing, key, isJoin, hosts, wins, s);
      outcome := if next == Next(routing.me) then DeliverHere else Onward(next);
    }
    outcome := RetryLoop(routing, net, outcome, key, clock, rounds, hosts, wins, first);
    LookedIsAnswer(routing, hosts, wins, AfterTurns(net.wire, key, first, rounds).node, key);
  }

  lemma StartIsAimed(s: Node, key: Key, isJoin: bool, n: nat, hosts: set<Host>)
    requires Orderly(s, StoredOf(s)) && StoredOf(s) <= hosts && s.leaves.me in hosts
    ensures var c := Started(s, key, isJoin, n);
            c.outcome.Sending? ==> !c.outcome.hop.Thrown? && (c.outcome.hop.Next? ==> c.outcome.hop.host in hosts)
  {
    JoinKeeps(s, key, isJoin);
    AnswerIsKnown(JoinDropped(s, key, isJoin), key);
  }

  lemma WhatItSays(w: Channel, s: Node, key: Key, isJoin: bool, n: nat, rounds: nat)
    requires Orderly(s, StoredOf(s))
    ensures var c := Routed(w, s, key, isJoin, n, rounds);
            && Accounted(w, key, s.leaves.me, n, rounds, c.outcome, c.next, Answer(c.node, key))
            && (rounds > Bound(s) && c.outcome.Sending? ==> Idle(c.node, OpenAt(w, c.next), c.outcome.hop))
            && (rounds > Bound(s) && Sparse(s.cells) && SelfWorks(w, n) ==>
                  c.outcome.DeliverHere? || (c.outcome.Forwarded? && c.outcome.hop.Next?))
  {
    OutcomeIsLookedUp(w, s, key, isJoin, n, rounds);
    BeyondTheBoundItSpins(w, s, key, isJoin, n, rounds);
    if Sparse(s.cells) && SelfWorks(w, n) {
      SparseEnds(w, s, key, isJoin, n, rounds);
    }
  }
}
