/**
 * Who owns a key: each node decides for itself, comparing its distance to the
 * key with that of its two nearest leaves only.
 */
module Ownership {
  import opened Keys
  import opened Hosts
  import opened Leafsets
  import opened LeafsetNetwork

  /** The test of Chimera::ClosestTo on a leafset value. */
  function Claims(l: Leaves, key: Key): bool {
    && (l.cw != [] ==> Distance(key, l.me.key) <= Distance(key, l.cw[0].key))
    && (l.ccw != [] ==> Distance(key, l.me.key) < Distance(key, l.ccw[0].key))
  }

  method ClosestTo(leafset: Leafset, key: Key) returns (r: bool)
    ensures r == Claims(leafset.State(), key)
  {
    var ownerCW, ownerCCW := true, true;
    if leafset.leavesCW != [] {
      if Distance(key, leafset.me.key) > Distance(key, leafset.leavesCW[0].key) {
        ownerCW := false;
      }
    }
    if leafset.leavesCCW != [] {
      if Distance(key, leafset.me.key) >= Distance(key, leafset.leavesCCW[0].key) {
        ownerCCW := false;
      }
    }
    return ownerCW && ownerCCW;
  }

  // ------------------------------------------------- the election, on ranks

  function At(nodes: seq<Host>, key: Key, i: nat): Key
    requires i < |nodes|
  {
    Distance(key, nodes[i].key)
  }

  /** Claiming in a filled network: no neighbour is nearer, the lower one is farther. */
  predicate ClaimsAt(nodes: seq<Host>, key: Key, i: nat)
    requires i < |nodes|
  {
    && (i + 1 < |nodes| ==> At(nodes, key, i) <= At(nodes, key, i + 1))
    && (i > 0 ==> At(nodes, key, i) < At(nodes, key, i - 1))
  }

  lemma ClaimsIsLocal(nodes: seq<Host>, adds: map<Host, seq<Host>>, i: nat, key: Key)
    requires Network(nodes, adds) && i < |nodes|
    ensures Claims(LeavesOf(adds, nodes[i]), key) <==> ClaimsAt(nodes, key, i)
  {
    NeighboursAreLeaves(nodes, adds, i);
  }

  /** The nearest node, the lower key among equals. */
  ghost predicate IsNearestNode(nodes: seq<Host>, key: Key, b: nat)
    requires b < |nodes|
  {
    && (forall j :: 0 <= j < |nodes| ==> At(nodes, key, b) <= At(nodes, key, j))
    && (forall j :: 0 <= j < b ==> At(nodes, key, b) < At(nodes, key, j))
  }

  lemma {:induction false} NearestUpTo(nodes: seq<Host>, key: Key, n: nat) returns (b: nat)
    requires 0 < n <= |nodes|
    ensures b < n
    ensures forall j :: 0 <= j < n ==> At(nodes, key, b) <= At(nodes, key, j)
    ensures forall j :: 0 <= j < b ==> At(nodes, key, b) < At(nodes, key, j)
  {
    if n == 1 {
      b := 0;
    } else {
      b := NearestUpTo(nodes, key, n - 1);
      if At(nodes, key, n - 1) < At(nodes, key, b) {
        b := n - 1;
      }
    }
  }

  /** Every key has an owner: the nearest node always claims. */
  lemma SomeNodeClaims(nodes: seq<Host>, adds: map<Host, seq<Host>>, key: Key) returns (b: nat)
    requires Network(nodes, adds) && nodes != []
    ensures b < |nodes| && IsNearestNode(nodes, key, b)
    ensures Claims(LeavesOf(adds, nodes[b]), key)
  {
    b := NearestUpTo(nodes, key, |nodes|);
    ClaimsIsLocal(nodes, adds, b, key);
  }

  /** All plain differences to the key are small enough for the ring not to wrap. */
  ghost predicate NoWrap(nodes: seq<Host>, key: Key) {
    forall i :: 0 <= i < |nodes| ==> Abs(nodes[i].key - key) <= KEY_HALF
  }

  /** Without wrapping, exactly the nearest node claims. */
  lemma OneOwnerWithoutWrap(nodes: seq<Host>, adds: map<Host, seq<Host>>, key: Key, i: nat)
    requires Network(nodes, adds) && i < |nodes| && NoWrap(nodes, key)
    ensures Claims(LeavesOf(adds, nodes[i]), key) <==> IsNearestNode(nodes, key, i)
  {
    ClaimsIsLocal(nodes, adds, i, key);
    if ClaimsAt(nodes, key, i) {
      forall j | 0 <= j < |nodes| && j != i
        ensures At(nodes, key, i) <= At(nodes, key, j)
        ensures j < i ==> At(nodes, key, i) < At(nodes, key, j)
      {
        if j < i {
          assert nodes[j].key <= nodes[i - 1].key < nodes[i].key;
        } else {
          assert nodes[i].key < nodes[i + 1].key <= nodes[j].key;
        }
      }
    }
  }

  /**
   * A node with neighbours on both sides never claims wrongly, whatever wraps:
   * it is a nearest node, and a lower one ties with it only when key 0 and
   * key KEY_MAX, the same point of the ring, are both taken.
   */
  lemma InteriorClaimIsRight(nodes: seq<Host>, key: Key, i: nat, j: nat)
    requires Ordered(CW, nodes) && 0 < i < |nodes| - 1 && j < |nodes|
    requires ClaimsAt(nodes, key, i)
    ensures At(nodes, key, i) <= At(nodes, key, j)
    ensures j < i && At(nodes, key, i) == At(nodes, key, j) ==> nodes[j].key == 0 && nodes[i + 1].key == KEY_MAX
  {
    var p, m, s := nodes[i - 1].key, nodes[i].key, nodes[i + 1].key;
    assert p < m < s;
    if j < i {
      assert nodes[j].key <= p;
      ValleyBelow(key, nodes[j].key, p, m, s);
    } else if i < j {
      assert s <= nodes[j].key;
      ValleyAbove(key, p, m, s, nodes[j].key);
    }
  }

  lemma ValleyBelow(key: Key, x: Key, p: Key, m: Key, s: Key)
    requires x <= p < m < s
    requires Distance(key, m) < Distance(key, p) && Distance(key, m) <= Distance(key, s)
    ensures Distance(key, m) <= Distance(key, x)
    ensures Distance(key, m) == Distance(key, x) ==> x == 0 && s == KEY_MAX
  {
  }

  lemma ValleyAbove(key: Key, p: Key, m: Key, s: Key, x: Key)
    requires p < m < s <= x
    requires Distance(key, m) < Distance(key, p) && Distance(key, m) <= Distance(key, s)
    ensures Distance(key, m) <= Distance(key, x)
  {
  }

  lemma InteriorClaimantIsNearest(nodes: seq<Host>, key: Key, i: nat, b: nat)
    requires Ordered(CW, nodes) && 0 < i < |nodes| - 1 && ClaimsAt(nodes, key, i)
    requires b < |nodes| && IsNearestNode(nodes, key, b) && !ZeroTakenTwice(nodes, b)
    ensures i == b
  {
    InteriorClaimIsRight(nodes, key, i, b);
    assert b > 0 ==> nodes[0].key < nodes[b].key;
    assert i + 1 < |nodes| - 1 ==> nodes[i + 1].key < nodes[|nodes| - 1].key;
  }

  ghost predicate OneClaim(nodes: seq<Host>, adds: map<Host, seq<Host>>, key: Key)
    requires Network(nodes, adds)
  {
    exists i :: 0 <= i < |nodes| && OnlyClaim(nodes, adds, key, i)
  }

  ghost predicate OnlyClaim(nodes: seq<Host>, adds: map<Host, seq<Host>>, key: Key, i: nat)
    requires Network(nodes, adds) && i < |nodes|
  {
    forall j :: 0 <= j < |nodes| ==> (Claims(LeavesOf(adds, nodes[j]), key) <==> j == i)
  }

  /** An end of the key line that is not the nearest node loses to its neighbour. */
  ghost predicate EndsYield(nodes: seq<Host>, key: Key, b: nat)
    requires b < |nodes|
  {
    && (b != 0 ==> At(nodes, key, 0) > At(nodes, key, 1))
    && (b != |nodes| - 1 ==> At(nodes, key, |nodes| - 1) >= At(nodes, key, |nodes| - 2))
  }

  /** Nodes at key 0 and at KEY_MAX, one point of the ring, and that point is nearest. */
  predicate ZeroTakenTwice(nodes: seq<Host>, b: nat) {
    b == 0 && |nodes| >= 4 && nodes[0].key == 0 && nodes[|nodes| - 1].key == KEY_MAX
  }

  lemma OnlyNearestClaims(nodes: seq<Host>, key: Key, b: nat, j: nat)
    requires Ordered(CW, nodes) && b < |nodes| && IsNearestNode(nodes, key, b)
    requires EndsYield(nodes, key, b) && !ZeroTakenTwice(nodes, b)
    requires j < |nodes|
    ensures ClaimsAt(nodes, key, j) <==> j == b
  {
    if 0 < j < |nodes| - 1 && ClaimsAt(nodes, key, j) {
      InteriorClaimantIsNearest(nodes, key, j, b);
    }
  }

  lemma NearestIsOnlyClaim(nodes: seq<Host>, adds: map<Host, seq<Host>>, key: Key, b: nat)
    requires Network(nodes, adds) && b < |nodes| && IsNearestNode(nodes, key, b)
    requires EndsYield(nodes, key, b) && !ZeroTakenTwice(nodes, b)
    ensures OnlyClaim(nodes, adds, key, b)
  {
    forall j | 0 <= j < |nodes| ensures Claims(LeavesOf(adds, nodes[j]), key) <==> j == b {
      ClaimsIsLocal(nodes, adds, j, key);
      OnlyNearestClaims(nodes, key, b, j);
    }
  }

  lemma OneClaimMakesEndsYield(nodes: seq<Host>, key: Key, b: nat, i: nat)
    requires b < |nodes| && IsNearestNode(nodes, key, b)
    requires i < |nodes| && ClaimsAt(nodes, key, b) == (b == i)
    requires ClaimsAt(nodes, key, 0) == (0 == i) && ClaimsAt(nodes, key, |nodes| - 1) == (|nodes| - 1 == i)
    ensures EndsYield(nodes, key, b)
  {
  }

  /** When 0 and KEY_MAX are both nodes and nearest, the node before KEY_MAX ties with them and claims too. */
  lemma SecondClaimant(nodes: seq<Host>, key: Key)
    requires Ordered(CW, nodes) && |nodes| >= 4 && nodes[0].key == 0 && nodes[|nodes| - 1].key == KEY_MAX
    requires IsNearestNode(nodes, key, 0) && EndsYield(nodes, key, 0)
    ensures ClaimsAt(nodes, key, |nodes| - 2)
  {
    var n := |nodes|;
    assert At(nodes, key, 0) <= At(nodes, key, n - 2) && At(nodes, key, 0) <= At(nodes, key, n - 3);
    assert 0 < nodes[n - 3].key < nodes[n - 2].key < KEY_MAX;
    TiedBesideZero(key, nodes[n - 3].key, nodes[n - 2].key);
  }

  lemma TiedBesideZero(key: Key, p: Key, m: Key)
    requires 0 < p < m < KEY_MAX && Distance(key, m) == Distance(key, 0) <= Distance(key, p)
    ensures Distance(key, m) < Distance(key, p)
  {
  }

  /**
   * When the owner is unique: exactly when neither end of the key line, unless
   * it is the nearest node itself, beats its only neighbour, and key 0 is not
   * both nearest and taken twice.
   */
  lemma OneOwnerIff(nodes: seq<Host>, adds: map<Host, seq<Host>>, key: Key, b: nat)
    requires Network(nodes, adds) && b < |nodes| && IsNearestNode(nodes, key, b)
    ensures OneClaim(nodes, adds, key) <==> EndsYield(nodes, key, b) && !ZeroTakenTwice(nodes, b)
  {
    if EndsYield(nodes, key, b) && !ZeroTakenTwice(nodes, b) {
      NearestIsOnlyClaim(nodes, adds, key, b);
    }
    if OneClaim(nodes, adds, key) {
      var i :| 0 <= i < |nodes| && OnlyClaim(nodes, adds, key, i);
      OneClaimIsSafe(nodes, adds, key, b, i);
    }
  }

  lemma OneClaimIsSafe(nodes: seq<Host>, adds: map<Host, seq<Host>>, key: Key, b: nat, i: nat)
    requires Network(nodes, adds) && b < |nodes| && IsNearestNode(nodes, key, b)
    requires i < |nodes| && OnlyClaim(nodes, adds, key, i)
    ensures EndsYield(nodes, key, b) && !ZeroTakenTwice(nodes, b)
  {
    forall j | 0 <= j < |nodes| ensures ClaimsAt(nodes, key, j) <==> j == i {
      ClaimsIsLocal(nodes, adds, j, key);
    }
    OneClaimMakesEndsYield(nodes, key, b, i);
    if ZeroTakenTwice(nodes, b) {
      SecondClaimant(nodes, key);
    }
  }

  /** Two owners: around key 0 both ends of the key line can claim it. */
  lemma TwoOwnersAcrossZero(nodes: seq<Host>)
    requires |nodes| == 3
    requires nodes[0].key == 2 && nodes[1].key == KEY_HALF && nodes[2].key == KEY_MAX - 1
    ensures ClaimsAt(nodes, 0, 0) && ClaimsAt(nodes, 0, 2)
    ensures At(nodes, 0, 2) < At(nodes, 0, 0)
  {
  }
}
