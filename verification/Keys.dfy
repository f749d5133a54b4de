/**
 * Overlay keys as numbers: the ring distance, hexadecimal digits and the
 * length of a common prefix.  KeyLimbs shows that the five-limb operations
 * of the implementation compute exactly these functions.
 */
module Keys {

  const KEY_MAX: int := 0xFFFF_FFFF_FFFF_FFFF_FFFF_FFFF_FFFF_FFFF_FFFF_FFFF
  const KEY_HALF: int := 0x7FFF_FFFF_FFFF_FFFF_FFFF_FFFF_FFFF_FFFF_FFFF_FFFF

  /** Number of hexadecimal digits of a key. */
  const HEXA_KEYLENGTH: nat := 40

  type Key = k: int | 0 <= k <= KEY_MAX

  function Abs(x: int): nat {
    if x < 0 then -x else x
  }

  // ---------------------------------------------------------------- distance

  /** The distance of the implementation: the modulus is KEY_MAX, not 2^160. */
  function Distance(a: Key, b: Key): Key {
    var diff := if a > b then a - b else b - a;
    if diff > KEY_HALF then KEY_MAX - diff else diff
  }

  /** Distance is the shorter way round a ring on which 0 and KEY_MAX coincide. */
  lemma DistanceIsShorterArc(a: Key, b: Key)
    ensures var d := Abs(a - b); Distance(a, b) == if d <= KEY_MAX - d then d else KEY_MAX - d
    ensures Distance(a, b) == Distance(b, a) <= KEY_HALF
    ensures Distance(a, b) == 0 <==> a == b || {a, b} == {0, KEY_MAX}
  {
    if Distance(a, b) == 0 && a != b {
      assert Abs(a - b) == KEY_MAX;
      assert (a == 0 && b == KEY_MAX) || (a == KEY_MAX && b == 0);
    }
    if {a, b} == {0, KEY_MAX} {
      assert 0 in {a, b} && KEY_MAX in {a, b};
    }
  }

  lemma DistanceTriangle(a: Key, b: Key, c: Key)
    ensures Distance(a, c) <= Distance(a, b) + Distance(b, c)
  {
  }

  // ------------------------------------------------------------------ digits

  function Pow16(e: nat): (p: nat)
    ensures p > 0
  {
    if e == 0 then 1 else 16 * Pow16(e - 1)
  }

  /** The w low hexadecimal digits of n, most significant first. */
  function Digits(n: nat, w: nat): (s: seq<nat>)
    ensures |s| == w
    ensures forall i :: 0 <= i < w ==> s[i] < 16
  {
    if w == 0 then [] else Digits(n / 16, w - 1) + [n % 16]
  }

  function FromDigits(s: seq<nat>): nat {
    if s == [] then 0 else 16 * FromDigits(s[..|s| - 1]) + s[|s| - 1]
  }

  lemma {:induction false} FromDigitsOfDigits(n: nat, w: nat)
    requires n < Pow16(w)
    ensures FromDigits(Digits(n, w)) == n
  {
    if w > 0 {
      FromDigitsOfDigits(n / 16, w - 1);
      assert Digits(n, w)[..w - 1] == Digits(n / 16, w - 1);
    }
  }

  /** Digits of a two-part number are the digits of the parts, side by side. */
  lemma {:induction false} DigitsConcat(hi: nat, w1: nat, lo: nat, w2: nat)
    requires lo < Pow16(w2)
    ensures Digits(lo + Pow16(w2) * hi, w1 + w2) == Digits(hi, w1) + Digits(lo, w2)
  {
    if w2 > 0 {
      var m := Pow16(w2 - 1) * hi;
      assert Pow16(w2) * hi == 16 * m by { MulAssoc16(Pow16(w2 - 1), hi); }
      DivMod16(lo, m);
      DigitsConcat(hi, w1, lo / 16, w2 - 1);
      assert Digits(lo + 16 * m, w1 + w2) == Digits(lo / 16 + m, w1 + w2 - 1) + [lo % 16];
    }
  }

  lemma MulAssoc16(p: int, h: int)
    ensures (16 * p) * h == 16 * (p * h)
  {
  }

  lemma DivMod16(lo: nat, m: nat)
    ensures (lo + 16 * m) / 16 == lo / 16 + m && (lo + 16 * m) % 16 == lo % 16
  {
  }

  /** Numbers that agree on the first n of w digits lie within 16^(w-n). */
  lemma {:induction false} SharedDigitsAreClose(a: nat, b: nat, w: nat, n: nat)
    requires a < Pow16(w) && b < Pow16(w) && n <= w
    requires Digits(a, w)[..n] == Digits(b, w)[..n]
    ensures Abs(a - b) < Pow16(w - n)
    decreases w
  {
    if n == w {
      FromDigitsOfDigits(a, w);
      FromDigitsOfDigits(b, w);
      assert Digits(a, w)[..n] == Digits(a, w) && Digits(b, w)[..n] == Digits(b, w);
    } else {
      assert Digits(a, w)[..n] == Digits(a / 16, w - 1)[..n];
      assert Digits(b, w)[..n] == Digits(b / 16, w - 1)[..n];
      SharedDigitsAreClose(a / 16, b / 16, w - 1, n);
    }
  }

  // ------------------------------------------------------------ common prefix

  function Digit(k: Key, i: nat): (d: nat)
    requires i < HEXA_KEYLENGTH
    ensures d < 16
  {
    Digits(k, HEXA_KEYLENGTH)[i]
  }

  function PrefixFrom(a: Key, b: Key, i: nat): (c: nat)
    requires i <= HEXA_KEYLENGTH
    ensures i <= c <= HEXA_KEYLENGTH
    ensures forall j :: i <= j < c ==> Digit(a, j) == Digit(b, j)
    ensures c < HEXA_KEYLENGTH ==> Digit(a, c) != Digit(b, c)
    decreases HEXA_KEYLENGTH - i
  {
    if i < HEXA_KEYLENGTH && Digit(a, i) == Digit(b, i) then PrefixFrom(a, b, i + 1) else i
  }

  /** Number of leading hexadecimal digits two keys share. */
  function Common(a: Key, b: Key): (c: nat)
    ensures c <= HEXA_KEYLENGTH
    ensures forall j :: 0 <= j < c ==> Digit(a, j) == Digit(b, j)
    ensures c < HEXA_KEYLENGTH ==> Digit(a, c) != Digit(b, c)
  {
    PrefixFrom(a, b, 0)
  }

  /**
   * The row of the routing table.  The implementation counts from the "0x" and
   * stops at character 39, so two is added and digits 38 and 39 do not count.
   */
  function KeyIndex(a: Key, b: Key): (i: nat)
    ensures 2 <= i < HEXA_KEYLENGTH
    ensures i < HEXA_KEYLENGTH - 1 ==> Common(a, b) == i - 2
    ensures i == HEXA_KEYLENGTH - 1 ==> Common(a, b) >= i - 2
  {
    var c := Common(a, b);
    if 2 + c < HEXA_KEYLENGTH then 2 + c else HEXA_KEYLENGTH - 1
  }

  lemma Pow16Of40()
    ensures Pow16(HEXA_KEYLENGTH) == KEY_MAX + 1
  {
    assert Pow16(8) == 0x1_0000_0000;
    assert Pow16(16) == 0x1_0000_0000_0000_0000;
    assert Pow16(24) == 0x1_0000_0000_0000_0000_0000_0000;
    assert Pow16(32) == 0x1_0000_0000_0000_0000_0000_0000_0000_0000;
  }

  lemma SharedPrefix(a: Key, b: Key, c: nat)
    requires c <= Common(a, b)
    ensures Digits(a, HEXA_KEYLENGTH)[..c] == Digits(b, HEXA_KEYLENGTH)[..c]
  {
    forall j | 0 <= j < c
      ensures Digits(a, HEXA_KEYLENGTH)[j] == Digits(b, HEXA_KEYLENGTH)[j]
    {
      assert Digit(a, j) == Digit(b, j);
    }
  }

  lemma PrefixBoundsGap(a: Key, b: Key)
    ensures Abs(a - b) < Pow16(HEXA_KEYLENGTH - Common(a, b))
  {
    Pow16Of40();
    SharedPrefix(a, b, Common(a, b));
    SharedDigitsAreClose(a, b, HEXA_KEYLENGTH, Common(a, b));
  }

  /** A long common prefix, hence a high row index, means a short distance. */
  lemma PrefixBoundsDistance(a: Key, b: Key)
    ensures Distance(a, b) <= Abs(a - b) < Pow16(HEXA_KEYLENGTH - Common(a, b))
    ensures KeyIndex(a, b) < HEXA_KEYLENGTH - 1 ==>
              Distance(a, b) < Pow16(HEXA_KEYLENGTH + 2 - KeyIndex(a, b))
  {
    PrefixBoundsGap(a, b);
  }

  /** Sharing n digits with a common third key is sharing n digits. */
  lemma CommonVia(a: Key, b: Key, c: Key, n: nat)
    requires n <= Common(a, b) && n <= Common(a, c)
    ensures n <= Common(b, c)
  {
  }
}
