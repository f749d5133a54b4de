/**
 * Keys as the implementation stores them: five 32-bit limbs, least significant
 * first.  Every loop below is proved against the number the limbs denote.
 */
module KeyLimbs {
  import opened Keys

  const LIMB_BASE: int := 0x1_0000_0000
  const LIMB_MAX: int := 0xFFFF_FFFF
  const NLEN: nat := 5

  type Limb = x: int | 0 <= x < 0x1_0000_0000
  type Limbs = t: seq<Limb> | |t| == 5 witness [0, 0, 0, 0, 0]

  function PowLimb(e: nat): (p: nat)
    ensures p > 0
  {
    if e == 0 then 1 else LIMB_BASE * PowLimb(e - 1)
  }

  /** The number denoted by little-endian limbs. */
  function Val(t: seq<Limb>): nat {
    if t == [] then 0 else t[0] + LIMB_BASE * Val(t[1..])
  }

  lemma {:induction false} ValBound(t: seq<Limb>)
    ensures Val(t) < PowLimb(|t|)
  {
    if t != [] {
      ValBound(t[1..]);
    }
  }

  lemma {:induction false} ValConcat(s: seq<Limb>, t: seq<Limb>)
    ensures Val(s + t) == Val(s) + PowLimb(|s|) * Val(t)
  {
    if s == [] {
      assert s + t == t;
    } else {
      ValConcat(s[1..], t);
      assert (s + t)[1..] == s[1..] + t;
      assert LIMB_BASE * (PowLimb(|s| - 1) * Val(t)) == PowLimb(|s|) * Val(t);
    }
  }

  /** The most significant differing limb decides the order. */
  lemma ValOrder(a: seq<Limb>, b: seq<Limb>, i: nat)
    requires |a| == |b| && i < |a| && a[i] < b[i] && a[i + 1..] == b[i + 1..]
    ensures Val(a) < Val(b)
  {
    ValSplit(a, i);
    ValSplit(b, i);
    ValBound(a[..i]);
    MulStrict(PowLimb(i), Val(a[i..]), Val(b[i..]));
  }

  lemma MulStrict(p: nat, x: int, y: int)
    requires x < y
    ensures p * x + p <= p * y
  {
    assert p * (x + 1) <= p * y;
  }

  lemma ValSplit(t: seq<Limb>, i: nat)
    requires i < |t|
    ensures Val(t) == Val(t[..i]) + PowLimb(i) * Val(t[i..])
    ensures Val(t[i..]) == t[i] + LIMB_BASE * Val(t[i + 1..])
  {
    assert t == t[..i] + t[i..] && t[i..][1..] == t[i + 1..];
    ValConcat(t[..i], t[i..]);
  }

  lemma ValSnoc(t: seq<Limb>, x: Limb)
    ensures Val(t + [x]) == Val(t) + PowLimb(|t|) * x
  {
    ValConcat(t, [x]);
    assert [x][1..] == [];
    assert Val([x]) == x;
  }

  lemma LimbsAreKeys(t: Limbs)
    ensures Val(t) <= KEY_MAX
  {
    ValBound(t);
    assert PowLimb(5) == LIMB_BASE * PowLimb(4);
    assert PowLimb(5) == KEY_MAX + 1;
  }

  function ToKey(t: Limbs): (k: Key)
    ensures k == Val(t)
  {
    LimbsAreKeys(t);
    Val(t)
  }

  lemma {:induction false} ValInjective(a: seq<Limb>, b: seq<Limb>)
    requires |a| == |b|
    ensures Val(a) == Val(b) <==> a == b
  {
    if a != [] && Val(a) == Val(b) {
      assert a[0] == b[0] && Val(a[1..]) == Val(b[1..]);
      ValInjective(a[1..], b[1..]);
      assert a == [a[0]] + a[1..] && b == [b[0]] + b[1..];
    }
  }

  // ------------------------------------------------------------- comparisons

  method Less(a: Limbs, b: Limbs) returns (r: bool)
    ensures r <==> Val(a) < Val(b)
  {
    for i := NLEN downto 0
      invariant a[i..] == b[i..]
    {
      if a[i] < b[i] {
        ValOrder(a, b, i);
        return true;
      } else if a[i] > b[i] {
        ValOrder(b, a, i);
        return false;
      }
      assert a[i..] == [a[i]] + a[i + 1..] && b[i..] == [b[i]] + b[i + 1..];
    }
    assert a[0..] == a && b[0..] == b;
    return false;
  }

  method Greater(a: Limbs, b: Limbs) returns (r: bool)
    ensures r <==> Val(a) > Val(b)
  {
    for i := NLEN downto 0
      invariant a[i..] == b[i..]
    {
      if a[i] > b[i] {
        ValOrder(b, a, i);
        return true;
      } else if a[i] < b[i] {
        ValOrder(a, b, i);
        return false;
      }
      assert a[i..] == [a[i]] + a[i + 1..] && b[i..] == [b[i]] + b[i + 1..];
    }
    assert a[0..] == a && b[0..] == b;
    return false;
  }

  // ------------------------------------------------------------- subtraction

  /** One round of the borrow loop, on numbers. */
  lemma BorrowStep(a: seq<Limb>, b: seq<Limb>, t: seq<Limb>, carry: int, i: nat, digit: Limb, carry': int)
    requires |a| == |b| && i < |a| && |t| == i
    requires Val(a[..i]) - Val(b[..i]) == Val(t) - carry * PowLimb(i)
    requires a[i] - carry - b[i] == digit - carry' * LIMB_BASE
    ensures Val(a[..i + 1]) - Val(b[..i + 1]) == Val(t + [digit]) - carry' * PowLimb(i + 1)
  {
    assert a[..i + 1] == a[..i] + [a[i]] && b[..i + 1] == b[..i] + [b[i]];
    ValSnoc(a[..i], a[i]);
    ValSnoc(b[..i], b[i]);
    ValSnoc(t, digit);
    BorrowArithmetic(PowLimb(i), a[i], b[i], carry, digit, carry');
  }

  lemma BorrowArithmetic(p: int, x: int, y: int, carry: int, digit: int, carry': int)
    requires x - carry - y == digit - carry' * LIMB_BASE
    ensures p * x - p * y - carry * p == p * digit - carry' * (LIMB_BASE * p)
  {
    var z := carry' * LIMB_BASE;
    assert p * (x - carry - y) == p * x - p * carry - p * y;
    assert p * (digit - z) == p * digit - p * z;
    assert p * z == carry' * (LIMB_BASE * p);
  }

  /** Exact when a >= b; otherwise the freshly constructed zero key comes back. */
  method Subtract(a: Limbs, b: Limbs) returns (r: Limbs)
    ensures Val(r) == if Val(a) < Val(b) then 0 else Val(a) - Val(b)
  {
    var less := Less(a, b);
    if less {
      r := [0, 0, 0, 0, 0];
      assert Val([0, 0, 0, 0, 0]) == 0 by { ZeroLimbs(r); }
      return;
    }
    var t: seq<Limb> := [];
    var carry := 0;
    for i := 0 to NLEN
      invariant |t| == i && 0 <= carry <= 1
      invariant Val(a[..i]) - Val(b[..i]) == Val(t) - carry * PowLimb(i)
    {
      var x := a[i] - carry;
      var digit, carry' := 0, 0;
      if b[i] <= x {
        digit := x - b[i];
      } else {
        x := x + LIMB_MAX + 1;
        digit := x - b[i];
        carry' := 1;
      }
      BorrowStep(a, b, t, carry, i, digit, carry');
      t := t + [digit];
      carry := carry';
    }
    assert a[..NLEN] == a && b[..NLEN] == b;
    ValBound(t);
    r := t;
  }

  lemma {:induction false} ZeroLimbs(t: seq<Limb>)
    ensures Val(t) == 0 <==> forall i :: 0 <= i < |t| ==> t[i] == 0
  {
    if t != [] {
      ZeroLimbs(t[1..]);
      assert t == [t[0]] + t[1..];
      if Val(t) == 0 {
        assert t[0] == 0 && Val(t[1..]) == 0;
      }
      if forall i :: 0 <= i < |t| ==> t[i] == 0 {
        assert t[0] == 0;
        forall i | 0 <= i < |t[1..]| ensures t[1..][i] == 0 {
          assert t[1..][i] == t[i + 1];
        }
      }
    }
  }

  // ---------------------------------------------------- constants, distance

  method InitMax() returns (r: Limbs)
    ensures Val(r) == KEY_MAX
  {
    var t: seq<Limb> := [];
    for i := 0 to NLEN
      invariant |t| == i && Val(t) == PowLimb(i) - 1
    {
      ValSnoc(t, LIMB_MAX);
      t := t + [LIMB_MAX];
    }
    assert PowLimb(5) == KEY_MAX + 1 by { assert PowLimb(5) == LIMB_BASE * PowLimb(4); }
    r := t;
  }

  method InitHalf() returns (r: Limbs)
    ensures Val(r) == KEY_HALF
  {
    var m := InitMax();
    r := m[NLEN - 1 := m[NLEN - 1] / 2];
    ValMaxLimbs(m);
    ValSplit(r, 4);
    ValSplit(m, 4);
    assert r[..4] == m[..4] && r[5..] == [] && m[5..] == [];
    assert PowLimb(4) == 0x1_0000_0000_0000_0000_0000_0000_0000_0000;
  }

  lemma ValMaxLimbs(t: Limbs)
    requires Val(t) == KEY_MAX
    ensures t == [LIMB_MAX, LIMB_MAX, LIMB_MAX, LIMB_MAX, LIMB_MAX]
  {
    var m: Limbs := [LIMB_MAX, LIMB_MAX, LIMB_MAX, LIMB_MAX, LIMB_MAX];
    assert Val(m) == KEY_MAX by {
      ValSplit(m, 0);
      ValSplit(m, 1);
      ValSplit(m, 2);
      ValSplit(m, 3);
      ValSplit(m, 4);
      assert m[5..] == [] && m[0..] == m;
    }
    ValInjective(t, m);
  }

  method DistanceTo(a: Limbs, b: Limbs) returns (diff: Limbs)
    ensures ToKey(diff) == Distance(ToKey(a), ToKey(b))
  {
    var gt := Greater(a, b);
    if gt {
      diff := Subtract(a, b);
    } else {
      diff := Subtract(b, a);
    }
    var half := InitHalf();
    var far := Greater(diff, half);
    if far {
      var max := InitMax();
      diff := Subtract(max, diff);
    }
  }
}
