/**
 * The leafset: the nearest known hosts with a greater key (clockwise) and with
 * a smaller key (counter-clockwise), each side sorted away from the local key.
 */
module Leafsets {
  import opened Keys
  import opened Hosts

  const ONE_SIDE_LEAFSET_SIZE: nat := 4

  // -------------------------------------------------------------- one side

  datatype Side = CW | CCW

  /** a comes before b when walking away from the local key. */
  predicate Before(side: Side, a: Key, b: Key) {
    if side.CW? then a < b else a > b
  }

  ghost predicate Ordered(side: Side, s: seq<Host>) {
    forall i, j :: 0 <= i < j < |s| ==> Before(side, s[i].key, s[j].key)
  }

  function KeysOf(s: seq<Host>): (ks: set<Key>) {
    set h | h in s :: h.key
  }

  /** Insertion before the first farther host, nothing when the key is there. */
  function Insert(side: Side, s: seq<Host>, e: Host): seq<Host> {
    if s == [] then [e]
    else if e.key == s[0].key then s
    else if Before(side, e.key, s[0].key) then [e] + s
    else [s[0]] + Insert(side, s[1..], e)
  }

  function Truncated(s: seq<Host>): seq<Host> {
    if |s| > ONE_SIDE_LEAFSET_SIZE then s[..ONE_SIDE_LEAFSET_SIZE] else s
  }

  function AddToSide(side: Side, s: seq<Host>, e: Host): seq<Host> {
    Truncated(Insert(side, s, e))
  }

  function RemoveKey(s: seq<Host>, k: Key): seq<Host> {
    if s == [] then [] else if s[0].key == k then s[1..] else [s[0]] + RemoveKey(s[1..], k)
  }

  // --------------------------------------------------------- the whole state

  datatype Leaves = Leaves(me: Host, cw: seq<Host>, ccw: seq<Host>)

  function Empty(me: Host): Leaves {
    Leaves(me, [], [])
  }

  function AddTo(l: Leaves, e: Host): Leaves {
    if e.key == l.me.key then l
    else if e.key > l.me.key then l.(cw := AddToSide(CW, l.cw, e))
    else l.(ccw := AddToSide(CCW, l.ccw, e))
  }

  /** Only the key of the entry matters; that of the invalid host is 0. */
  function RemoveFrom(l: Leaves, key: Key): Leaves {
    if key == l.me.key then l
    else if key in KeysOf(l.cw) then l.(cw := RemoveKey(l.cw, key))
    else l.(ccw := RemoveKey(l.ccw, key))
  }

  /** A stored host with exactly this key, else the extremity towards it. */
  function Lookup(l: Leaves, key: Key): Host {
    if key in KeysOf(l.cw) then HostWithKey(l.cw, key)
    else if key in KeysOf(l.ccw) then HostWithKey(l.ccw, key)
    else if key > l.me.key && l.cw != [] then l.cw[|l.cw| - 1]
    else if key < l.me.key && l.ccw != [] then l.ccw[|l.ccw| - 1]
    else l.me
  }

  function HostWithKey(s: seq<Host>, key: Key): (h: Host)
    requires key in KeysOf(s)
    ensures h in s && h.key == key
  {
    if s[0].key == key then s[0] else
      assert KeysOf(s) == {s[0].key} + KeysOf(s[1..]);
      HostWithKey(s[1..], key)
  }

  ghost predicate ValidSide(side: Side, s: seq<Host>, me: Key) {
    && |s| <= ONE_SIDE_LEAFSET_SIZE
    && Ordered(side, s)
    && forall h :: h in s ==> Before(side, me, h.key)
  }

  /** Order, side and bound; order being strict, no key occurs twice. */
  ghost predicate ValidLeaves(l: Leaves) {
    ValidSide(CW, l.cw, l.me.key) && ValidSide(CCW, l.ccw, l.me.key)
  }

  // ------------------------------------------------ what the operations come to

  /** The host with the key is gone, and all others stay in their order. */
  ghost predicate WithoutKey(before: seq<Host>, key: Key, after: seq<Host>) {
    if key in KeysOf(before)
    then exists i :: 0 <= i < |before| && before[i].key == key && after == before[..i] + before[i + 1..]
    else after == before
  }

  ghost predicate IsRemoval(l: Leaves, key: Key, r: Leaves) {
    r.me == l.me && WithoutKey(l.cw, key, r.cw) && WithoutKey(l.ccw, key, r.ccw)
  }

  /**
   * Nothing changes for a key that is there, whoever has it; another host goes
   * between those nearer to the local key and those farther, and of more than
   * four the last is dropped.
   */
  ghost predicate WithHost(side: Side, before: seq<Host>, e: Host, after: seq<Host>) {
    if e.key in KeysOf(before) then after == before
    else exists p :: 0 <= p <= |before| && PutAt(side, before, e, p, after)
  }

  ghost predicate PutAt(side: Side, before: seq<Host>, e: Host, p: nat, after: seq<Host>)
    requires p <= |before|
  {
    && (forall i :: 0 <= i < p ==> Before(side, before[i].key, e.key))
    && (forall i :: p <= i < |before| ==> Before(side, e.key, before[i].key))
    && (var all := before[..p] + [e] + before[p..]; after == if |all| > 4 then all[..4] else all)
  }

  ghost predicate IsAddition(l: Leaves, e: Host, r: Leaves) {
    && r.me == l.me
    && (if e.key > l.me.key then WithHost(CW, l.cw, e, r.cw) else r.cw == l.cw)
    && (if e.key < l.me.key then WithHost(CCW, l.ccw, e, r.ccw) else r.ccw == l.ccw)
  }

  /** The leaf with the key; else, above the local key, the greatest leaf, below it the least, or the local host. */
  ghost predicate IsAnswer(l: Leaves, key: Key, h: Host) {
    if key in KeysOf(l.cw) + KeysOf(l.ccw) then (h in l.cw || h in l.ccw) && h.key == key
    else if key > l.me.key && l.cw != [] then h in l.cw && forall g :: g in l.cw ==> g.key <= h.key
    else if key < l.me.key && l.ccw != [] then h in l.ccw && forall g :: g in l.ccw ==> h.key <= g.key
    else h == l.me
  }

  lemma LookupIsAnswer(l: Leaves, key: Key)
    requires ValidLeaves(l)
    ensures IsAnswer(l, key, Lookup(l, key))
  {
    if l.cw != [] {
      LastIsFarthest(CW, l.cw);
    }
    if l.ccw != [] {
      LastIsFarthest(CCW, l.ccw);
    }
  }

  lemma LastIsFarthest(side: Side, s: seq<Host>)
    requires s != [] && Ordered(side, s)
    ensures s[|s| - 1] in s
    ensures forall g :: g in s ==> g == s[|s| - 1] || Before(side, g.key, s[|s| - 1].key)
  {
  }

  lemma RemovesTheHost(l: Leaves, key: Key)
    requires ValidLeaves(l)
    ensures var r := RemoveFrom(l, key);
            IsRemoval(l, key, r) && KeysOf(r.cw) == KeysOf(l.cw) - {key} && KeysOf(r.ccw) == KeysOf(l.ccw) - {key}
  {
    RemoveIsSubsequence(CW, l.cw, key);
    RemoveIsSubsequence(CCW, l.ccw, key);
    RemovesTheKey(l.cw, key);
    RemovesTheKey(l.ccw, key);
    assert key in KeysOf(l.cw) ==> key !in KeysOf(l.ccw);
  }

  lemma RemovesTheKey(s: seq<Host>, key: Key)
    ensures WithoutKey(s, key, RemoveKey(s, key))
  {
    if key in KeysOf(s) {
      var i := SpotOf(s, key);
    } else {
      NoneWithKey(s, key);
    }
  }

  lemma {:induction false} SpotOf(s: seq<Host>, key: Key) returns (i: nat)
    requires key in KeysOf(s)
    ensures i < |s| && s[i].key == key && RemoveKey(s, key) == s[..i] + s[i + 1..]
  {
    if s[0].key == key {
      i := 0;
    } else {
      assert KeysOf(s) == {s[0].key} + KeysOf(s[1..]);
      var j := SpotOf(s[1..], key);
      i := j + 1;
      assert s[..i] == [s[0]] + s[1..][..j] && s[i + 1..] == s[1..][j + 1..];
    }
  }

  lemma AddsTheHost(l: Leaves, e: Host)
    requires ValidLeaves(l)
    ensures IsAddition(l, e, AddTo(l, e))
  {
    if e.key > l.me.key {
      PutsTheHost(CW, l.cw, e);
    } else if e.key < l.me.key {
      PutsTheHost(CCW, l.ccw, e);
    }
  }

  lemma {:induction false} PutsTheHost(side: Side, s: seq<Host>, e: Host)
    requires Ordered(side, s) && |s| <= 4
    ensures WithHost(side, s, e, AddToSide(side, s, e))
  {
    var r := AddToSide(side, s, e);
    var p := SpotFor(side, s, e);
    if p == |s| + 1 {
      assert s[..|s|] == s;
    } else {
      assert PutAt(side, s, e, p, r);
      forall h | h in s ensures h.key != e.key {
      }
    }
  }

  /** Where insertion puts a host; one more than the length if its key is there. */
  lemma {:induction false} SpotFor(side: Side, s: seq<Host>, e: Host) returns (p: nat)
    requires Ordered(side, s)
    ensures p <= |s| + 1
    ensures p == |s| + 1 ==> e.key in KeysOf(s) && Insert(side, s, e) == s
    ensures p <= |s| ==>
              && (forall i :: 0 <= i < p ==> Before(side, s[i].key, e.key))
              && (forall i :: p <= i < |s| ==> Before(side, e.key, s[i].key))
              && Insert(side, s, e) == s[..p] + [e] + s[p..]
  {
    if s == [] {
      p := 0;
    } else if e.key == s[0].key {
      assert s[0] in s;
      p := |s| + 1;
    } else if Before(side, e.key, s[0].key) {
      p := 0;
    } else {
      var q := SpotFor(side, s[1..], e);
      assert s == [s[0]] + s[1..] && KeysOf(s[1..]) <= KeysOf(s);
      p := q + 1;
      if p <= |s| {
        assert s[..p] == [s[0]] + s[1..][..q] && s[p..] == s[1..][q..];
        assert forall i :: 0 < i < p ==> s[i] == s[1..][i - 1];
        assert forall i :: p <= i < |s| ==> s[i] == s[1..][i - 1];
      }
    }
  }

  // ---------------------------------------------------------------- the class

  class Leafset {
    var me: Host
    var leavesCW: seq<Host>
    var leavesCCW: seq<Host>

    ghost function State(): Leaves
      reads this
    {
      Leaves(me, leavesCW, leavesCCW)
    }

    ghost predicate Valid()
      reads this
    {
      ValidLeaves(State())
    }

    constructor (me: Host)
      ensures Valid() && State() == Empty(me)
    {
      this.me := me;
      leavesCW, leavesCCW := [], [];
    }

    method Add(entry: Host) returns (added: bool)
      requires Valid()
      modifies this
      ensures Valid() && State() == AddTo(old(State()), entry)
      ensures added <==> State() != old(State())
      ensures IsAddition(old(State()), entry, State())
    {
      AddKeepsValid(State(), entry);
      AddsTheHost(State(), entry);
      if me.key == entry.key {
        return false;
      }
      if entry.key > me.key {
        leavesCW, added := Inserted(CW, leavesCW, entry);
      } else {
        leavesCCW, added := Inserted(CCW, leavesCCW, entry);
      }
    }

    method Remove(key: Key) returns (removed: bool)
      requires Valid()
      modifies this
      ensures Valid() && State() == RemoveFrom(old(State()), key)
      ensures removed <==> key in KeysOf(old(leavesCW)) + KeysOf(old(leavesCCW))
      ensures !removed ==> State() == old(State())
      ensures IsRemoval(old(State()), key, State())
      ensures KeysOf(leavesCW) == KeysOf(old(leavesCW)) - {key}
      ensures KeysOf(leavesCCW) == KeysOf(old(leavesCCW)) - {key}
    {
      RemoveKeepsValid(State(), key);
      RemovesTheHost(State(), key);
      if key == me.key {
        MeIsNotALeaf(State());
        return false;
      }
      var found, i := FindKey(leavesCW, key);
      if found {
        leavesCW := leavesCW[..i] + leavesCW[i + 1..];
        return true;
      }
      found, i := FindKey(leavesCCW, key);
      if found {
        leavesCCW := leavesCCW[..i] + leavesCCW[i + 1..];
        return true;
      }
      return false;
    }

    method Clear()
      modifies this`leavesCW, this`leavesCCW
      ensures State() == Empty(me)
    {
      leavesCW, leavesCCW := [], [];
    }

    method KeyUpdate(newMe: Host)
      modifies this
      ensures Valid() && State() == Empty(newMe)
    {
      Clear();
      me := newMe;
    }

    method RouteLookup(key: Key) returns (dest: Host, inLeafset: bool)
      requires Valid()
      ensures dest == Lookup(State(), key) && IsAnswer(State(), key, dest)
      ensures inLeafset <==> key in KeysOf(leavesCW) + KeysOf(leavesCCW)
    {
      LookupIsAnswer(State(), key);
      var found, i := FindKey(leavesCW, key);
      if found {
        return leavesCW[i], true;
      }
      found, i := FindKey(leavesCCW, key);
      if found {
        return leavesCCW[i], true;
      }
      if key > me.key {
        if leavesCW != [] {
          return leavesCW[|leavesCW| - 1], false;
        }
      } else if key < me.key {
        if leavesCCW != [] {
          return leavesCCW[|leavesCCW| - 1], false;
        }
      }
      return me, false;
    }
  }

  /** The insertion loop of add, the same on both sides but for the comparison. */
  method Inserted(side: Side, leaves: seq<Host>, entry: Host) returns (r: seq<Host>, added: bool)
    requires |leaves| <= ONE_SIDE_LEAFSET_SIZE
    ensures r == AddToSide(side, leaves, entry)
    ensures added <==> r != leaves
  {
    r := leaves;
    ghost var goal := Insert(side, leaves, entry);
    var i := 0;
    while i < |leaves|
      invariant 0 <= i <= |leaves| && r == leaves
      invariant goal == leaves[..i] + Insert(side, leaves[i..], entry)
    {
      InsertStep(side, leaves, i, entry, goal);
      if entry.key == leaves[i].key {
        return leaves, false;
      } else if Before(side, entry.key, leaves[i].key) {
        r := leaves[..i] + [entry] + leaves[i..];
        assert r[i] == entry != leaves[i];
        if |r| > ONE_SIDE_LEAFSET_SIZE {
          r := r[..|r| - 1];
          assert i < |r| ==> r[i] == entry;
        }
        return r, true;
      }
      i := i + 1;
    }
    assert leaves[..i] == leaves;
    if |r| < ONE_SIDE_LEAFSET_SIZE {
      return r + [entry], true;
    }
    return r, false;
  }

  /** The search loops of remove and routeLookup: first entry with the key. */
  method FindKey(s: seq<Host>, key: Key) returns (found: bool, i: nat)
    ensures found <==> key in KeysOf(s)
    ensures found ==> i < |s| && s[i].key == key && RemoveKey(s, key) == s[..i] + s[i + 1..]
    ensures found ==> HostWithKey(s, key) == s[i]
    ensures !found ==> RemoveKey(s, key) == s
  {
    i := 0;
    while i < |s|
      invariant 0 <= i <= |s|
      invariant forall j :: 0 <= j < i ==> s[j].key != key
    {
      if s[i].key == key {
        FirstWithKey(s, key, i);
        return true, i;
      }
      i := i + 1;
    }
    NoneWithKey(s, key);
    return false, i;
  }

  lemma {:induction false} FirstWithKey(s: seq<Host>, key: Key, i: nat)
    requires i < |s| && s[i].key == key && forall j :: 0 <= j < i ==> s[j].key != key
    ensures key in KeysOf(s) && HostWithKey(s, key) == s[i]
    ensures RemoveKey(s, key) == s[..i] + s[i + 1..]
  {
    assert s[i] in s;
    if i > 0 {
      FirstWithKey(s[1..], key, i - 1);
    }
  }

  lemma {:induction false} NoneWithKey(s: seq<Host>, key: Key)
    requires forall j :: 0 <= j < |s| ==> s[j].key != key
    ensures key !in KeysOf(s) && RemoveKey(s, key) == s
  {
    if s != [] {
      NoneWithKey(s[1..], key);
    }
  }

  lemma InsertStep(side: Side, s: seq<Host>, i: nat, e: Host, goal: seq<Host>)
    requires i < |s| && goal == s[..i] + Insert(side, s[i..], e)
    ensures e.key == s[i].key ==> goal == s
    ensures e.key != s[i].key && Before(side, e.key, s[i].key) ==> goal == s[..i] + [e] + s[i..]
    ensures e.key != s[i].key && !Before(side, e.key, s[i].key) ==> goal == s[..i + 1] + Insert(side, s[i + 1..], e)
  {
    assert s[i..][0] == s[i] && s[i..][1..] == s[i + 1..];
    assert s == s[..i] + s[i..];
    assert s[..i + 1] == s[..i] + [s[i]];
  }

  // --------------------------------------------------------------- invariants

  lemma KeysCons(h: Host, s: seq<Host>)
    ensures KeysOf([h] + s) == {h.key} + KeysOf(s)
    ensures forall g :: g in [h] + s <==> g == h || g in s
  {
  }

  lemma {:induction false} InsertKeys(side: Side, s: seq<Host>, e: Host)
    ensures KeysOf(Insert(side, s, e)) == KeysOf(s) + {e.key}
    ensures forall h :: h in Insert(side, s, e) ==> h in s || h == e
    ensures |s| <= |Insert(side, s, e)| <= |s| + 1
  {
    if s != [] {
      assert s == [s[0]] + s[1..];
      KeysCons(s[0], s[1..]);
      if e.key == s[0].key {
      } else if Before(side, e.key, s[0].key) {
        KeysCons(e, s);
      } else {
        InsertKeys(side, s[1..], e);
        KeysCons(s[0], Insert(side, s[1..], e));
      }
    }
  }

  lemma {:induction false} InsertOrdered(side: Side, s: seq<Host>, e: Host)
    requires Ordered(side, s)
    ensures Ordered(side, Insert(side, s, e))
  {
    if s != [] && e.key != s[0].key && !Before(side, e.key, s[0].key) {
      InsertOrdered(side, s[1..], e);
      InsertKeys(side, s[1..], e);
      var t := Insert(side, s[1..], e);
      forall j | 0 <= j < |t| ensures Before(side, s[0].key, t[j].key) {
        assert t[j] in t;
      }
    }
  }

  lemma AddKeepsValid(l: Leaves, e: Host)
    requires ValidLeaves(l)
    ensures ValidLeaves(AddTo(l, e))
  {
    InsertOrdered(CW, l.cw, e);
    InsertOrdered(CCW, l.ccw, e);
    InsertKeys(CW, l.cw, e);
    InsertKeys(CCW, l.ccw, e);
  }

  lemma {:induction false} RemoveIsSubsequence(side: Side, s: seq<Host>, k: Key)
    requires Ordered(side, s)
    ensures Ordered(side, RemoveKey(s, k))
    ensures KeysOf(RemoveKey(s, k)) == KeysOf(s) - {k}
    ensures forall h :: h in RemoveKey(s, k) ==> h in s
    ensures |RemoveKey(s, k)| == if k in KeysOf(s) then |s| - 1 else |s|
  {
    if s != [] {
      assert KeysOf(s) == {s[0].key} + KeysOf(s[1..]);
      if s[0].key != k {
        RemoveIsSubsequence(side, s[1..], k);
        var t := RemoveKey(s[1..], k);
        assert KeysOf([s[0]] + t) == {s[0].key} + KeysOf(t);
        forall j | 0 <= j < |t| ensures Before(side, s[0].key, t[j].key) {
          assert t[j] in s[1..];
        }
      }
    }
  }

  lemma RemoveKeepsValid(l: Leaves, key: Key)
    requires ValidLeaves(l)
    ensures ValidLeaves(RemoveFrom(l, key))
  {
    RemoveIsSubsequence(CW, l.cw, key);
    RemoveIsSubsequence(CCW, l.ccw, key);
  }

  lemma MeIsNotALeaf(l: Leaves)
    requires ValidLeaves(l)
    ensures l.me.key !in KeysOf(l.cw) && l.me.key !in KeysOf(l.ccw)
  {
  }

  datatype Op = AddOp(host: Host) | RemoveOp(key: Key) | KeyUpdateOp(host: Host)

  function Apply(l: Leaves, op: Op): Leaves {
    match op
    case AddOp(h) => AddTo(l, h)
    case RemoveOp(k) => RemoveFrom(l, k)
    case KeyUpdateOp(h) => Empty(h)
  }

  function Run(l: Leaves, ops: seq<Op>): Leaves {
    if ops == [] then l else Apply(Run(l, ops[..|ops| - 1]), ops[|ops| - 1])
  }

  /** Order, side and bound survive every run; order being strict, no key repeats. */
  lemma {:induction false} RunKeepsValid(me: Host, ops: seq<Op>)
    ensures ValidLeaves(Run(Empty(me), ops))
  {
    if ops != [] {
      var l := Run(Empty(me), ops[..|ops| - 1]);
      RunKeepsValid(me, ops[..|ops| - 1]);
      match ops[|ops| - 1]
      case AddOp(h) => AddKeepsValid(l, h);
      case RemoveOp(k) => RemoveKeepsValid(l, k);
      case KeyUpdateOp(h) =>
    }
  }
}
