/**
 * What a leafset that was only ever added to holds: on each side the four
 * nearest keys among all those added, whatever the order of the additions.
 */
module NearestLeaves {
  import opened Keys
  import opened Hosts
  import opened Leafsets

  /** s holds the nearest ONE_SIDE_LEAFSET_SIZE of the keys ks, nearest first. */
  ghost predicate Nearest(side: Side, s: seq<Host>, ks: set<Key>) {
    && Ordered(side, s)
    && |s| <= ONE_SIDE_LEAFSET_SIZE
    && KeysOf(s) <= ks
    && forall k :: k in ks && k !in KeysOf(s) ==>
         |s| == ONE_SIDE_LEAFSET_SIZE && Before(side, s[|s| - 1].key, k)
  }

  lemma InsertKeepsNearest(side: Side, s: seq<Host>, e: Host, ks: set<Key>)
    requires Nearest(side, s, ks)
    ensures Nearest(side, AddToSide(side, s, e), ks + {e.key})
  {
    InsertOrdered(side, s, e);
    InsertKeys(side, s, e);
    var t := Insert(side, s, e);
    var p := InsertShape(side, s, e);
    if |t| > ONE_SIDE_LEAFSET_SIZE {
      FullSideDropsLast(side, s, t, p, e, ks);
    }
  }

  lemma SnocKeys(r: seq<Host>, h: Host)
    ensures KeysOf(r + [h]) == KeysOf(r) + {h.key}
  {
    assert forall g :: g in r + [h] <==> g in r || g == h;
  }

  lemma FullSideDropsLast(side: Side, s: seq<Host>, t: seq<Host>, p: nat, e: Host, ks: set<Key>)
    requires Nearest(side, s, ks) && Ordered(side, t) && |t| > ONE_SIDE_LEAFSET_SIZE
    requires p <= |s| && t == s[..p] + [e] + s[p..] && KeysOf(t) == KeysOf(s) + {e.key}
    ensures Nearest(side, t[..ONE_SIDE_LEAFSET_SIZE], ks + {e.key})
  {
    var r := t[..ONE_SIDE_LEAFSET_SIZE];
    SnocKeys(r, t[4]);
    assert t == r + [t[4]];
    assert r[3] == if p == 4 then s[3] else if p == 3 then e else s[2];
    forall k | k in ks + {e.key} && k !in KeysOf(r)
      ensures Before(side, r[3].key, k)
    {
      assert Before(side, r[3].key, t[4].key);
    }
  }

  /** An insertion puts the new host between a prefix and a suffix. */
  lemma {:induction false} InsertShape(side: Side, s: seq<Host>, e: Host) returns (p: nat)
    requires Ordered(side, s)
    ensures p <= |s|
    ensures Insert(side, s, e) == s[..p] + [e] + s[p..] || (Insert(side, s, e) == s && e.key in KeysOf(s))
  {
    p := 0;
    if s != [] && e.key != s[0].key && !Before(side, e.key, s[0].key) {
      p := InsertShape(side, s[1..], e);
      assert s == [s[0]] + s[1..];
      KeysCons(s[0], s[1..]);
      assert s[..p + 1] == [s[0]] + s[1..][..p] && s[p + 1..] == s[1..][p..];
      p := p + 1;
    } else if s != [] {
      assert s[0] in s;
    }
  }

  /** Element n is the least of the keys that are not among the first n. */
  lemma LeastOfTheRest(side: Side, s: seq<Host>, ks: set<Key>, n: nat, k: Key)
    requires Nearest(side, s, ks) && n < |s|
    requires k in ks && k !in KeysOf(s[..n])
    ensures k == s[n].key || Before(side, s[n].key, k)
  {
    if k in KeysOf(s) {
      assert forall j :: 0 <= j < n ==> s[j] in s[..n];
      var h :| h in s && h.key == k;
      var i :| 0 <= i < |s| && s[i] == h;
    }
  }

  lemma {:induction false} NearestAgree(side: Side, s: seq<Host>, t: seq<Host>, ks: set<Key>, n: nat)
    requires Nearest(side, s, ks) && Nearest(side, t, ks)
    requires n <= |s| && n <= |t|
    ensures forall i :: 0 <= i < n ==> s[i].key == t[i].key
    ensures KeysOf(s[..n]) == KeysOf(t[..n])
  {
    if n > 0 {
      NearestAgree(side, s, t, ks, n - 1);
      NotBefore(side, s, n - 1);
      NotBefore(side, t, n - 1);
      LeastOfTheRest(side, s, ks, n - 1, t[n - 1].key);
      LeastOfTheRest(side, t, ks, n - 1, s[n - 1].key);
      assert s[..n] == s[..n - 1] + [s[n - 1]] && t[..n] == t[..n - 1] + [t[n - 1]];
      assert KeysOf(s[..n]) == KeysOf(s[..n - 1]) + {s[n - 1].key};
      assert KeysOf(t[..n]) == KeysOf(t[..n - 1]) + {t[n - 1].key};
    }
  }

  lemma NotBefore(side: Side, s: seq<Host>, n: nat)
    requires Ordered(side, s) && n < |s|
    ensures s[n].key in KeysOf(s) && s[n].key !in KeysOf(s[..n])
  {
    assert s[n] in s;
  }

  /** Two nearest-lists for the same keys show the same keys in the same order. */
  lemma NearestIsUnique(side: Side, s: seq<Host>, t: seq<Host>, ks: set<Key>)
    requires Nearest(side, s, ks) && Nearest(side, t, ks)
    ensures |s| == |t| && forall i :: 0 <= i < |s| ==> s[i].key == t[i].key
  {
    assert s[..|s|] == s && t[..|t|] == t;
    if |s| <= |t| {
      NearestAgree(side, s, t, ks, |s|);
      if |s| < |t| {
        NotBefore(side, t, |s|);
      }
    } else {
      NearestAgree(side, s, t, ks, |t|);
      NotBefore(side, s, |t|);
    }
  }

  lemma {:induction false} OrderedCount(side: Side, s: seq<Host>)
    requires Ordered(side, s)
    ensures |KeysOf(s)| == |s|
  {
    if s != [] {
      var n := |s| - 1;
      OrderedCount(side, s[..n]);
      NotBefore(side, s, n);
      assert s == s[..n] + [s[n]];
      assert KeysOf(s) == KeysOf(s[..n]) + {s[n].key};
    }
  }

  /** The size of a side, when so many keys were added on it. */
  function AtMostFour(n: nat): nat {
    if n < ONE_SIDE_LEAFSET_SIZE then n else ONE_SIDE_LEAFSET_SIZE
  }

  lemma NearestSize(side: Side, s: seq<Host>, ks: set<Key>)
    requires Nearest(side, s, ks)
    ensures |s| == AtMostFour(|ks|)
  {
    OrderedCount(side, s);
    Subset(KeysOf(s), ks);
    if |s| < ONE_SIDE_LEAFSET_SIZE {
      assert KeysOf(s) == ks;
    }
  }

  lemma Subset(a: set<Key>, b: set<Key>)
    requires a <= b
    ensures |a| <= |b|
  {
    assert b == a + (b - a);
  }

  // ------------------------------------------------------- runs of additions

  function AddAll(l: Leaves, es: seq<Host>): Leaves {
    if es == [] then l else AddTo(AddAll(l, es[..|es| - 1]), es[|es| - 1])
  }

  function KeysOn(side: Side, me: Key, es: seq<Host>): set<Key> {
    set h | h in es && Before(side, me, h.key) :: h.key
  }

  function OneSide(side: Side, l: Leaves): seq<Host> {
    if side.CW? then l.cw else l.ccw
  }

  lemma KeysOnSnoc(side: Side, me: Key, es: seq<Host>, e: Host)
    ensures KeysOn(side, me, es + [e]) == KeysOn(side, me, es) + if Before(side, me, e.key) then {e.key} else {}
  {
    assert forall h :: h in es + [e] <==> h in es || h == e;
  }

  /** After any additions: exactly the four nearest added keys on each side. */
  lemma {:induction false} AddsKeepTheNearest(me: Host, es: seq<Host>, side: Side)
    ensures var l := AddAll(Empty(me), es);
            && l.me == me
            && Nearest(side, OneSide(side, l), KeysOn(side, me.key, es))
            && (forall h :: h in OneSide(side, l) ==> h in es)
  {
    if es != [] {
      var fs, e := es[..|es| - 1], es[|es| - 1];
      var l := AddAll(Empty(me), fs);
      AddsKeepTheNearest(me, fs, side);
      assert es == fs + [e];
      KeysOnSnoc(side, me.key, fs, e);
      if Before(side, me.key, e.key) {
        InsertKeepsNearest(side, OneSide(side, l), e, KeysOn(side, me.key, fs));
        InsertKeys(side, OneSide(side, l), e);
      }
    }
  }

  lemma FilledSides(me: Host, es: seq<Host>)
    ensures var l := AddAll(Empty(me), es);
            && l.me == me && ValidLeaves(l)
            && Nearest(CW, l.cw, KeysOn(CW, me.key, es))
            && Nearest(CCW, l.ccw, KeysOn(CCW, me.key, es))
            && (forall h :: h in l.cw ==> h in es)
            && (forall h :: h in l.ccw ==> h in es)
            && |l.cw| == AtMostFour(|KeysOn(CW, me.key, es)|) && |l.ccw| == AtMostFour(|KeysOn(CCW, me.key, es)|)
  {
    AddsKeepTheNearest(me, es, CW);
    AddsKeepTheNearest(me, es, CCW);
    var l := AddAll(Empty(me), es);
    assert OneSide(CW, l) == l.cw && OneSide(CCW, l) == l.ccw;
    NearestSize(CW, l.cw, KeysOn(CW, me.key, es));
    NearestSize(CCW, l.ccw, KeysOn(CCW, me.key, es));
    forall h | h in l.cw ensures Before(CW, me.key, h.key) {
      assert h.key in KeysOn(CW, me.key, es);
    }
    forall h | h in l.ccw ensures Before(CCW, me.key, h.key) {
      assert h.key in KeysOn(CCW, me.key, es);
    }
  }

  /** The order (and repetition) of additions leaves no trace. */
  lemma AdditionOrderIsIrrelevant(me: Host, es: seq<Host>, fs: seq<Host>)
    requires KeysOf(es) == KeysOf(fs)
    ensures var l, m := AddAll(Empty(me), es), AddAll(Empty(me), fs);
            && |l.cw| == |m.cw| && (forall i :: 0 <= i < |l.cw| ==> l.cw[i].key == m.cw[i].key)
            && |l.ccw| == |m.ccw| && (forall i :: 0 <= i < |l.ccw| ==> l.ccw[i].key == m.ccw[i].key)
  {
    FilledSides(me, es);
    FilledSides(me, fs);
    forall side: Side ensures KeysOn(side, me.key, es) == KeysOn(side, me.key, fs) {
      KeysOnFromKeys(side, me.key, es);
      KeysOnFromKeys(side, me.key, fs);
    }
    var l, m := AddAll(Empty(me), es), AddAll(Empty(me), fs);
    NearestIsUnique(CW, l.cw, m.cw, KeysOn(CW, me.key, es));
    NearestIsUnique(CCW, l.ccw, m.ccw, KeysOn(CCW, me.key, es));
  }

  lemma KeysOnFromKeys(side: Side, me: Key, es: seq<Host>)
    ensures KeysOn(side, me, es) == set k | k in KeysOf(es) && Before(side, me, k)
  {
  }
}
