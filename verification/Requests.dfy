/**
 * Asking peers for missing chunks: each pending chunk goes to the first sharer
 * that has it, going round from the one after the last sharer asked.
 */
module Requests {
  import opened Keys
  import opened FileChunks

  datatype Sharer = Sharer(key: Key, offset: int, size: int) {
    predicate Covers(d: Desc) {
      d.offset >= offset && d.End() <= offset + size
    }
  }

  datatype Request = Request(peer: Key, chunk: Desc)

  /** std::map iterates by ascending key. */
  ghost predicate Ascending(sharers: seq<Sharer>) {
    forall i, j :: 0 <= i < j < |sharers| ==> sharers[i].key < sharers[j].key
  }

  function Next(n: nat, i: nat): (r: nat)
    requires i < n
    ensures r < n
  {
    if i + 1 == n then 0 else i + 1
  }

  /** Index of the sharer with this key, or the number of sharers. */
  function Find(sharers: seq<Sharer>, key: Key, i: nat): (r: nat)
    requires i <= |sharers|
    ensures i <= r <= |sharers|
    ensures r < |sharers| ==> sharers[r].key == key
    ensures forall j :: i <= j < r ==> sharers[j].key != key
    decreases |sharers| - i
  {
    if i == |sharers| || sharers[i].key == key then i else Find(sharers, key, i + 1)
  }

  /** Where the search for a sharer starts; the zero key means nobody was asked. */
  function Start(sharers: seq<Sharer>, last: Key): (s: nat)
    requires sharers != []
    ensures s < |sharers|
  {
    var i := Find(sharers, last, 0);
    if last == 0 || i == |sharers| then 0 else Next(|sharers|, i)
  }

  /** The sharer t places round from s. */
  function Round(n: nat, s: nat, t: nat): (r: nat)
    requires s < n && t <= n
    ensures r < n
  {
    if s + t < n then s + t else s + t - n
  }

  /** Places to go from s to the first sharer that has d, or the number of sharers. */
  function Places(sharers: seq<Sharer>, s: nat, d: Desc, t: nat): (r: nat)
    requires s < |sharers| && t <= |sharers|
    ensures t <= r <= |sharers|
    ensures r < |sharers| ==> sharers[Round(|sharers|, s, r)].Covers(d)
    ensures forall u :: t <= u < r ==> !sharers[Round(|sharers|, s, u)].Covers(d)
    decreases |sharers| - t
  {
    if t == |sharers| || sharers[Round(|sharers|, s, t)].Covers(d) then t else Places(sharers, s, d, t + 1)
  }

  datatype Dispatched = Dispatched(sent: seq<Request>, left: seq<Desc>, last: Key)

  function Dispatch(sharers: seq<Sharer>, last: Key, pending: seq<Desc>): Dispatched
    requires sharers != []
    decreases |pending|
  {
    if pending == [] then Dispatched([], [], last)
    else
      var s := Start(sharers, last);
      var t := Places(sharers, s, pending[0], 0);
      if t == |sharers| then
        var r := Dispatch(sharers, last, pending[1..]);
        r.(left := [pending[0]] + r.left)
      else
        var peer := sharers[Round(|sharers|, s, t)].key;
        var r := Dispatch(sharers, peer, pending[1..]);
        r.(sent := [Request(peer, pending[0])] + r.sent)
  }

  /** goal is what was done so far followed by what r does. */
  ghost predicate Extends(goal: Dispatched, sent: seq<Request>, kept: seq<Desc>, r: Dispatched) {
    goal == Dispatched(sent + r.sent, kept + r.left, r.last)
  }

  lemma DispatchStep(sharers: seq<Sharer>, last: Key, rest: seq<Desc>, goal: Dispatched,
                     sent: seq<Request>, kept: seq<Desc>)
    requires sharers != [] && rest != [] && Extends(goal, sent, kept, Dispatch(sharers, last, rest))
    ensures var s := Start(sharers, last);
            var t := Places(sharers, s, rest[0], 0);
            if t == |sharers| then Extends(goal, sent, kept + [rest[0]], Dispatch(sharers, last, rest[1..]))
            else
              var peer := sharers[Round(|sharers|, s, t)].key;
              Extends(goal, sent + [Request(peer, rest[0])], kept, Dispatch(sharers, peer, rest[1..]))
  {
  }

  /** What erasing element it, or stepping past it, leaves before and after. */
  lemma Around(l: seq<Desc>, it: nat)
    requires it < |l|
    ensures l[it..][0] == l[it] && l[it..][1..] == l[it + 1..] && l[..it + 1] == l[..it] + [l[it]]
    ensures var m := l[..it] + l[it + 1..]; |m| == |l| - 1 && m[..it] == l[..it] && m[it..] == l[it + 1..]
  {
  }

  class RequestQueue {
    var pending: seq<Desc>
    var sharers: seq<Sharer>
    var lastPeerRequested: Key
    var sent: seq<Request>
    var accessTime: int

    constructor (sharers: seq<Sharer>, now: int)
      ensures pending == [] && this.sharers == sharers && lastPeerRequested == 0 && sent == []
    {
      pending, this.sharers, lastPeerRequested, sent, accessTime := [], sharers, 0, [], now;
    }

    method NetworkFlushRequests(now: int)
      modifies this`pending, this`lastPeerRequested, this`sent, this`accessTime
      ensures accessTime == now
      ensures sharers == [] ==> unchanged(this`pending, this`lastPeerRequested, this`sent)
      ensures sharers != [] ==>
                var r := Dispatch(sharers, old(lastPeerRequested), old(pending));
                pending == r.left && lastPeerRequested == r.last && sent == old(sent) + r.sent
    {
      accessTime := now;
      if sharers == [] {
        return;
      }
      ghost var goal := Dispatch(sharers, lastPeerRequested, pending);
      ghost var asked: seq<Request>, todo, was := [], goal, sent;
      var it := 0;
      assert pending[..0] == [] && pending[0..] == pending;
      while it < |pending|
        invariant 0 <= it <= |pending|
        invariant sent == was + asked
        invariant todo == Dispatch(sharers, lastPeerRequested, pending[it..])
        invariant Extends(goal, asked, pending[..it], todo)
        decreases |pending| - it
        modifies this`pending, this`lastPeerRequested, this`sent
      {
        ghost var kept, rest, last := pending[..it], pending[it..], lastPeerRequested;
        DispatchStep(sharers, last, rest, goal, asked, kept);
        Around(pending, it);
        var found := AskFor(it);
        if found {
          asked := asked + [sent[|sent| - 1]];
        } else {
          it := it + 1;
        }
        todo := Dispatch(sharers, lastPeerRequested, rest[1..]);
      }
      assert pending[it..] == [] && pending[..it] == pending;
    }

    /** One chunk: asked of a sharer and taken off the list, or left there. */
    method AskFor(it: nat) returns (found: bool)
      requires sharers != [] && it < |pending|
      modifies this`pending, this`lastPeerRequested, this`sent
      ensures var s := Start(sharers, old(lastPeerRequested));
              var t := Places(sharers, s, old(pending)[it], 0);
              found == (t < |sharers|) &&
              if found
              then lastPeerRequested == sharers[Round(|sharers|, s, t)].key &&
                   sent == old(sent) + [Request(lastPeerRequested, old(pending)[it])] &&
                   pending == old(pending)[..it] + old(pending)[it + 1..]
              else unchanged(this)
    {
      var peer;
      found, peer := ChooseSharer(pending[it]);
      if found {
        sent := sent + [Request(peer, pending[it])];
        lastPeerRequested := peer;
        pending := pending[..it] + pending[it + 1..];
      }
    }

    /** The two inner loops: find the last peer, then go round once. */
    method ChooseSharer(chunk: Desc) returns (found: bool, peer: Key)
      requires sharers != []
      ensures var s := Start(sharers, lastPeerRequested);
              var t := Places(sharers, s, chunk, 0);
              found == (t < |sharers|) && (found ==> peer == sharers[Round(|sharers|, s, t)].key)
    {
      var sh := 0;
      if lastPeerRequested != 0 {
        while sh < |sharers| && lastPeerRequested != sharers[sh].key
          invariant 0 <= sh <= |sharers|
          invariant Find(sharers, lastPeerRequested, 0) == Find(sharers, lastPeerRequested, sh)
        {
          sh := sh + 1;
        }
        if sh == |sharers| {
          sh := 0;
        } else {
          sh := sh + 1;
          if sh == |sharers| {
            sh := 0;
          }
        }
      }
      var nextIt := sh;
      assert nextIt == Start(sharers, lastPeerRequested);
      ghost var t := 0;
      while true
        invariant 0 <= t < |sharers| && sh == Round(|sharers|, nextIt, t)
        invariant Places(sharers, nextIt, chunk, 0) == Places(sharers, nextIt, chunk, t)
        decreases |sharers| - t
      {
        if sharers[sh].Covers(chunk) {
          return true, sharers[sh].key;
        }
        sh := sh + 1;
        if sh == |sharers| {
          sh := 0;
        }
        t := t + 1;
        if sh == nextIt {
          return false, 0;
        }
      }
    }
  }

  // ------------------------------------------------- what dispatching achieves

  ghost predicate Covered(sharers: seq<Sharer>, d: Desc) {
    exists i :: 0 <= i < |sharers| && sharers[i].Covers(d)
  }

  ghost function Uncovered(sharers: seq<Sharer>, pending: seq<Desc>): seq<Desc> {
    if pending == [] then []
    else (if Covered(sharers, pending[0]) then [] else [pending[0]]) + Uncovered(sharers, pending[1..])
  }

  ghost function CoveredOnes(sharers: seq<Sharer>, pending: seq<Desc>): seq<Desc> {
    if pending == [] then []
    else (if Covered(sharers, pending[0]) then [pending[0]] else []) + CoveredOnes(sharers, pending[1..])
  }

  function Chunks(sent: seq<Request>): (r: seq<Desc>)
    ensures |r| == |sent|
  {
    seq(|sent|, i requires 0 <= i < |sent| => sent[i].chunk)
  }

  lemma PlacesIff(sharers: seq<Sharer>, s: nat, d: Desc)
    requires s < |sharers|
    ensures Places(sharers, s, d, 0) < |sharers| <==> Covered(sharers, d)
  {
    if Covered(sharers, d) {
      var i :| 0 <= i < |sharers| && sharers[i].Covers(d);
      var t := if s <= i then i - s else i - s + |sharers|;
      assert Round(|sharers|, s, t) == i;
    }
  }

  /** Every chunk some sharer has is asked for once, in order; the others stay, in order. */
  lemma {:induction false} DispatchSplits(sharers: seq<Sharer>, last: Key, pending: seq<Desc>)
    requires sharers != []
    ensures var r := Dispatch(sharers, last, pending);
            Chunks(r.sent) == CoveredOnes(sharers, pending) && r.left == Uncovered(sharers, pending)
    decreases |pending|
  {
    if pending != [] {
      var s := Start(sharers, last);
      var t := Places(sharers, s, pending[0], 0);
      PlacesIff(sharers, s, pending[0]);
      if t == |sharers| {
        DispatchSplits(sharers, last, pending[1..]);
      } else {
        var peer := sharers[Round(|sharers|, s, t)].key;
        DispatchSplits(sharers, peer, pending[1..]);
        var r := Dispatch(sharers, peer, pending[1..]);
        assert Chunks([Request(peer, pending[0])] + r.sent) == [pending[0]] + Chunks(r.sent);
      }
    }
  }

  /** The last peer asked is remembered. */
  lemma {:induction false} LastIsKept(sharers: seq<Sharer>, last: Key, pending: seq<Desc>)
    requires sharers != []
    ensures var r := Dispatch(sharers, last, pending);
            r.last == if r.sent == [] then last else r.sent[|r.sent| - 1].peer
    decreases |pending|
  {
    if pending != [] {
      var s := Start(sharers, last);
      var t := Places(sharers, s, pending[0], 0);
      LastIsKept(sharers, if t == |sharers| then last else sharers[Round(|sharers|, s, t)].key, pending[1..]);
    }
  }

  /** The peer asked before request i. */
  function AskedBefore(sent: seq<Request>, last: Key, i: nat): Key
    requires i < |sent|
  {
    if i == 0 then last else sent[i - 1].peer
  }

  /** s is the place after the sharer with key last; the first place when no sharer has it, or nobody was asked. */
  ghost predicate StartsAt(sharers: seq<Sharer>, last: Key, s: nat) {
    && s < |sharers|
    && if last != 0 && exists i :: 0 <= i < |sharers| && sharers[i].key == last
       then sharers[if s == 0 then |sharers| - 1 else s - 1].key == last
       else s == 0
  }

  /** Going round upwards from s, place j comes before place p. */
  predicate ComesBefore(s: nat, j: nat, p: nat) {
    if s <= p then s <= j < p else s <= j || j < p
  }

  /** p is the first place, going round from s, whose sharer has the chunk of r, and r goes there. */
  ghost predicate GoesTo(sharers: seq<Sharer>, s: nat, p: nat, r: Request) {
    && p < |sharers| && r.peer == sharers[p].key && sharers[p].Covers(r.chunk)
    && forall j :: 0 <= j < |sharers| && ComesBefore(s, j, p) ==> !sharers[j].Covers(r.chunk)
  }

  /** Request r goes to the first covering sharer round from the one after last. */
  ghost predicate GoesRound(sharers: seq<Sharer>, last: Key, r: Request) {
    exists s, p :: StartsAt(sharers, last, s) && GoesTo(sharers, s, p, r)
  }

  lemma StartIs(sharers: seq<Sharer>, last: Key)
    requires sharers != []
    ensures StartsAt(sharers, last, Start(sharers, last))
  {
    assert forall j :: 0 <= j < Find(sharers, last, 0) ==> sharers[j].key != last;
  }

  lemma PlaceIs(sharers: seq<Sharer>, last: Key, d: Desc)
    requires sharers != []
    ensures var s := Start(sharers, last);
            var t := Places(sharers, s, d, 0);
            t < |sharers| ==> GoesRound(sharers, last, Request(sharers[Round(|sharers|, s, t)].key, d))
  {
    var s := Start(sharers, last);
    var t := Places(sharers, s, d, 0);
    StartIs(sharers, last);
    if t < |sharers| {
      var p := Round(|sharers|, s, t);
      forall j | 0 <= j < |sharers| && ComesBefore(s, j, p) ensures !sharers[j].Covers(d) {
        assert Round(|sharers|, s, if s <= j then j - s else j - s + |sharers|) == j;
      }
      assert GoesTo(sharers, s, p, Request(sharers[p].key, d));
    }
  }

  lemma {:induction false} EachGoesRound(sharers: seq<Sharer>, last: Key, pending: seq<Desc>, i: nat)
    requires sharers != [] && i < |Dispatch(sharers, last, pending).sent|
    ensures var sent := Dispatch(sharers, last, pending).sent;
            GoesRound(sharers, AskedBefore(sent, last, i), sent[i])
    decreases |pending|
  {
    var s := Start(sharers, last);
    var t := Places(sharers, s, pending[0], 0);
    PlaceIs(sharers, last, pending[0]);
    if t == |sharers| {
      EachGoesRound(sharers, last, pending[1..], i);
    } else if i > 0 {
      var peer := sharers[Round(|sharers|, s, t)].key;
      EachGoesRound(sharers, peer, pending[1..], i - 1);
    }
  }

  // ---------------------------------------------------------------- fairness

  ghost predicate AllCover(sharers: seq<Sharer>, pending: seq<Desc>) {
    forall i, d :: 0 <= i < |sharers| && d in pending ==> sharers[i].Covers(d)
  }

  function Asked(sent: seq<Request>, peer: Key): nat {
    if sent == [] then 0
    else (if sent[0].peer == peer then 1 else 0) + Asked(sent[1..], peer)
  }

  /** How many places x is round from s. */
  function Ahead(n: nat, s: nat, x: nat): (r: nat)
    requires s < n && x < n
    ensures r < n && Round(n, s, r) == x
  {
    if s <= x then x - s else x - s + n
  }

  lemma NextStart(sharers: seq<Sharer>, i: nat)
    requires Ascending(sharers) && i < |sharers| && sharers[i].key != 0
    ensures Start(sharers, sharers[i].key) == Next(|sharers|, i)
  {
  }

  /**
   * When every sharer has everything and no key is zero, the sharers are asked
   * in turn: all q times, and the first t round from the start once more.
   */
  lemma {:induction false} TurnsAreTaken(sharers: seq<Sharer>, last: Key, pending: seq<Desc>) returns (q: nat, t: nat)
    requires sharers != [] && Ascending(sharers) && sharers[0].key != 0 && AllCover(sharers, pending)
    ensures t < |sharers|
    ensures forall x :: 0 <= x < |sharers| ==>
              Asked(Dispatch(sharers, last, pending).sent, sharers[x].key) ==
              q + if Ahead(|sharers|, Start(sharers, last), x) < t then 1 else 0
    decreases |pending|
  {
    if pending == [] {
      return 0, 0;
    }
    var n, s := |sharers|, Start(sharers, last);
    var peer := sharers[s].key;
    FirstTurn(sharers, last, pending);
    var q0, t0 := TurnsAreTaken(sharers, peer, pending[1..]);
    q, t := if t0 + 1 == n then q0 + 1 else q0, if t0 + 1 == n then 0 else t0 + 1;
    forall x | 0 <= x < n
      ensures Asked(Dispatch(sharers, last, pending).sent, sharers[x].key) == q + if Ahead(n, s, x) < t then 1 else 0
    {
      assert sharers[x].key == peer <==> x == s;
      assert Ahead(n, Next(n, s), x) == if x == s then n - 1 else Ahead(n, s, x) - 1;
    }
  }

  lemma FirstTurn(sharers: seq<Sharer>, last: Key, pending: seq<Desc>)
    requires sharers != [] && Ascending(sharers) && AllCover(sharers, pending) && pending != []
    ensures var s := Start(sharers, last);
            && AllCover(sharers, pending[1..])
            && Start(sharers, sharers[s].key) == (if sharers[s].key == 0 then 0 else Next(|sharers|, s))
            && (sharers[s].key == 0 ==> s == 0)
            && Dispatch(sharers, last, pending).sent ==
               [Request(sharers[s].key, pending[0])] + Dispatch(sharers, sharers[s].key, pending[1..]).sent
  {
    var s := Start(sharers, last);
    assert pending[0] in pending && forall d :: d in pending[1..] ==> d in pending;
    assert Places(sharers, s, pending[0], 0) == 0;
    assert s > 0 ==> sharers[0].key < sharers[s].key;
    if sharers[s].key != 0 {
      NextStart(sharers, s);
    }
  }

  /** Then no sharer is asked more than once more often than another. */
  lemma RequestsAreFair(sharers: seq<Sharer>, last: Key, pending: seq<Desc>, x: nat, y: nat)
    requires sharers != [] && Ascending(sharers) && sharers[0].key != 0 && AllCover(sharers, pending)
    requires x < |sharers| && y < |sharers|
    ensures var sent := Dispatch(sharers, last, pending).sent;
            Asked(sent, sharers[x].key) <= Asked(sent, sharers[y].key) + 1
  {
    var q, t := TurnsAreTaken(sharers, last, pending);
  }

  /** How often sharer x of n is asked for p chunks from sharer s on, when sharer 0 has the zero key. */
  function WithZero(n: nat, s: nat, p: nat, x: nat): nat
    requires s < n && x < n
  {
    if x == 0 then (if s == 0 then p else if p > n - s then p - (n - s) else 0)
    else if 0 < s <= x < s + p then 1 else 0
  }

  /**
   * The zero key stands for nobody, so a sharer that has it is asked again and
   * again once its turn has come; those before it are asked once each.
   */
  lemma {:induction false} ZeroKeyIsAlwaysAsked(sharers: seq<Sharer>, last: Key, pending: seq<Desc>, x: nat)
    requires sharers != [] && Ascending(sharers) && sharers[0].key == 0 && AllCover(sharers, pending) && x < |sharers|
    ensures Asked(Dispatch(sharers, last, pending).sent, sharers[x].key) ==
            WithZero(|sharers|, Start(sharers, last), |pending|, x)
    decreases |pending|
  {
    if pending != [] {
      var s := Start(sharers, last);
      FirstTurn(sharers, last, pending);
      ZeroKeyIsAlwaysAsked(sharers, sharers[s].key, pending[1..], x);
      assert sharers[x].key == sharers[s].key <==> x == s;
    }
  }

  /** No sharer is asked more than once more often than another. */
  ghost predicate Fair(sharers: seq<Sharer>, sent: seq<Request>) {
    forall x, y :: 0 <= x < |sharers| && 0 <= y < |sharers| ==>
      Asked(sent, sharers[x].key) <= Asked(sent, sharers[y].key) + 1
  }

  /** How many chunks a dispatch from sharer s of n can hand out fairly when sharer 0 has the zero key. */
  function Allowance(n: nat, s: nat): nat
    requires s < n
  {
    if s == 0 then 1 else if s == 1 then n + 1 else n - s + 1
  }

  /** When all have everything: exactly which dispatches are fair. */
  lemma FairIff(sharers: seq<Sharer>, last: Key, pending: seq<Desc>)
    requires sharers != [] && Ascending(sharers) && AllCover(sharers, pending)
    ensures Fair(sharers, Dispatch(sharers, last, pending).sent) <==>
            sharers[0].key != 0 || |sharers| == 1 || |pending| <= Allowance(|sharers|, Start(sharers, last))
  {
    var n, s, p, sent := |sharers|, Start(sharers, last), |pending|, Dispatch(sharers, last, pending).sent;
    if sharers[0].key != 0 {
      var q, t := TurnsAreTaken(sharers, last, pending);
    } else {
      forall x | 0 <= x < n ensures Asked(sent, sharers[x].key) == WithZero(n, s, p, x) {
        ZeroKeyIsAlwaysAsked(sharers, last, pending, x);
      }
      if n > 1 && p > Allowance(n, s) {
        assert Asked(sent, sharers[0].key) == WithZero(n, s, p, 0);
        assert Asked(sent, sharers[1].key) == WithZero(n, s, p, 1);
      }
    }
  }

  /** With the zero key and another sharer, two chunks are enough to be unfair. */
  lemma TwoToZero(sharers: seq<Sharer>, two: seq<Desc>)
    requires sharers != [] && Ascending(sharers) && sharers[0].key == 0 && |sharers| > 1
    requires |two| == 2 && AllCover(sharers, two)
    ensures !Fair(sharers, Dispatch(sharers, 0, two).sent)
  {
    FairIff(sharers, 0, two);
  }

  /** Every dispatch of chunks that all have is fair exactly when no key is zero or there is but one sharer. */
  lemma AlwaysFairIff(sharers: seq<Sharer>, two: seq<Desc>)
    requires sharers != [] && Ascending(sharers) && |two| == 2 && AllCover(sharers, two)
    ensures (forall last: Key, pending: seq<Desc> :: AllCover(sharers, pending) ==>
               Fair(sharers, Dispatch(sharers, last, pending).sent)) <==>
            sharers[0].key != 0 || |sharers| == 1
  {
    if sharers[0].key != 0 || |sharers| == 1 {
      forall last: Key, pending: seq<Desc> | AllCover(sharers, pending)
        ensures Fair(sharers, Dispatch(sharers, last, pending).sent)
      {
        FairIff(sharers, last, pending);
      }
    } else {
      TwoToZero(sharers, two);
    }
  }
}
