/**
 * Hexadecimal form of keys: printing, the row index computed from two printed
 * keys, and parsing into a key that already holds a value.
 */
module KeyStrings {
  import opened Keys
  import opened KeyLimbs

  const HEX: string := "0123456789abcdef"

  // ---------------------------------------------------------------- printing

  function HexChars(s: seq<nat>): (r: string)
    requires forall i :: 0 <= i < |s| ==> s[i] < 16
    ensures |r| == |s| && forall i :: 0 <= i < |s| ==> r[i] == HEX[s[i]]
  {
    seq(|s|, i requires 0 <= i < |s| => HEX[s[i]])
  }

  /** "%08x" */
  function Hex8(x: Limb): (r: string)
    ensures |r| == 8
  {
    HexChars(Digits(x, 8))
  }

  function GetStr(t: Limbs): (r: string)
    ensures |r| == HEXA_KEYLENGTH + 2
  {
    "0x" + Hex8(t[4]) + Hex8(t[3]) + Hex8(t[2]) + Hex8(t[1]) + Hex8(t[0])
  }

  lemma HexCharsConcat(s: seq<nat>, t: seq<nat>)
    requires forall i :: 0 <= i < |s| ==> s[i] < 16
    requires forall i :: 0 <= i < |t| ==> t[i] < 16
    ensures HexChars(s + t) == HexChars(s) + HexChars(t)
  {
  }

  function LimbChars(t: seq<Limb>): (r: string)
    ensures |r| == 8 * |t|
  {
    if t == [] then "" else LimbChars(t[1..]) + Hex8(t[0])
  }

  lemma DigitsOfLimbs(t: seq<Limb>)
    requires t != []
    ensures Digits(Val(t), 8 * |t|) == Digits(Val(t[1..]), 8 * |t| - 8) + Digits(t[0], 8)
  {
    assert Pow16(8) == LIMB_BASE;
    DigitsJoin(Val(t[1..]), 8 * |t| - 8, t[0], 8, Val(t));
  }

  lemma DigitsJoin(hi: nat, w: nat, lo: nat, e: nat, n: nat)
    requires lo < Pow16(e) && n == lo + Pow16(e) * hi
    ensures Digits(n, w + e) == Digits(hi, w) + Digits(lo, e)
  {
    DigitsConcat(hi, w, lo, e);
  }

  /** Limb-wise printing writes the digits of the whole number. */
  lemma {:induction false} LimbCharsAreDigits(t: seq<Limb>)
    ensures LimbChars(t) == HexChars(Digits(Val(t), 8 * |t|))
  {
    if t != [] {
      LimbCharsAreDigits(t[1..]);
      DigitsOfLimbs(t);
      HexCharsConcat(Digits(Val(t[1..]), 8 * |t| - 8), Digits(t[0], 8));
    }
  }

  lemma GetStrIsLimbChars(t: Limbs)
    ensures GetStr(t) == "0x" + LimbChars(t)
  {
    assert t[1..][1..] == t[2..] && t[2..][1..] == t[3..] && t[3..][1..] == t[4..] && t[4..][1..] == [];
    assert LimbChars(t[4..]) == Hex8(t[4]);
    assert LimbChars(t[3..]) == Hex8(t[4]) + Hex8(t[3]);
    assert LimbChars(t[2..]) == LimbChars(t[3..]) + Hex8(t[2]);
    assert LimbChars(t[1..]) == LimbChars(t[2..]) + Hex8(t[1]);
    assert LimbChars(t) == LimbChars(t[1..]) + Hex8(t[0]);
  }

  /** A printed key is "0x" and the forty digits of its number. */
  lemma GetStrIsDigits(t: Limbs)
    ensures GetStr(t) == "0x" + HexChars(Digits(ToKey(t), HEXA_KEYLENGTH))
  {
    GetStrIsLimbChars(t);
    LimbCharsAreDigits(t);
  }

  /** Characters of two printed keys differ just where their digits do. */
  lemma GetStrAgreement(a: Limbs, b: Limbs, i: nat)
    requires i < HEXA_KEYLENGTH + 2
    ensures GetStr(a)[i] == GetStr(b)[i] <==> i < 2 || Digit(ToKey(a), i - 2) == Digit(ToKey(b), i - 2)
  {
    GetStrIsDigits(a);
    GetStrIsDigits(b);
    if 2 <= i {
      HexInjective(Digit(ToKey(a), i - 2), Digit(ToKey(b), i - 2));
    }
  }

  lemma HexInjective(d: nat, e: nat)
    requires d < 16 && e < 16
    ensures HEX[d] == HEX[e] <==> d == e
  {
  }

  // --------------------------------------------------------------- key_index

  lemma AgreeBelowCommon(a: Limbs, b: Limbs, i: nat)
    requires i < HEXA_KEYLENGTH + 2 && i <= 2 + Common(ToKey(a), ToKey(b))
    ensures GetStr(a)[i] == GetStr(b)[i] <==> i < 2 + Common(ToKey(a), ToKey(b))
  {
    GetStrAgreement(a, b, i);
  }

  /** Comparing printed keys from the "0x" on, at most 40 characters of them. */
  method KeyIndexOf(me: Limbs, k: Limbs) returns (i: nat)
    ensures i == KeyIndex(ToKey(me), ToKey(k))
  {
    var mystr, kstr := GetStr(me), GetStr(k);
    ghost var c := Common(ToKey(me), ToKey(k));
    i := 0;
    AgreeBelowCommon(me, k, 0);
    while mystr[i] == kstr[i] && i < HEXA_KEYLENGTH
      invariant 0 <= i <= HEXA_KEYLENGTH && i <= 2 + c
      invariant mystr[i] == kstr[i] <==> i < 2 + c
    {
      i := i + 1;
      AgreeBelowCommon(me, k, i);
    }
    if i == HEXA_KEYLENGTH {
      i := HEXA_KEYLENGTH - 1;
    }
  }

  /** The column of a table entry: index of the character, 0 for anything else. */
  method HexalphaToInt(c: char) returns (answer: nat)
    ensures answer < 16
    ensures forall d :: 0 <= d < 16 && HEX[d] == c ==> answer == d
    ensures c !in HEX ==> answer == 0
  {
    answer := 0;
    var i := 0;
    while answer == 0 && i < |HEX|
      invariant 0 <= i <= 16 && answer < 16
      invariant answer == 0 || (answer < i && HEX[answer] == c)
      invariant answer == 0 ==> forall d :: 0 < d < i ==> HEX[d] != c
    {
      if HEX[i] == c {
        answer := i;
      }
      i := i + 1;
    }
  }

  // ----------------------------------------------------------------- parsing

  predicate IsHex(c: char) {
    '0' <= c <= '9' || 'a' <= c <= 'f' || 'A' <= c <= 'F'
  }

  predicate AllHex(s: string) {
    forall i :: 0 <= i < |s| ==> IsHex(s[i])
  }

  function CharVal(c: char): (d: nat)
    requires IsHex(c)
    ensures d < 16
  {
    if c <= '9' then (c - '0') as int else if c <= 'F' then (c - 'A') as int + 10 else (c - 'a') as int + 10
  }

  /** What reading a run of hexadecimal digits yields. */
  function HexVal(s: string): (n: nat)
    requires AllHex(s)
    ensures n < Pow16(|s|)
  {
    if s == [] then 0 else 16 * HexVal(s[..|s| - 1]) + CharVal(s[|s| - 1])
  }

  predicate Contains0x(s: string) {
    exists i :: 0 <= i < |s| - 1 && s[i] == '0' && s[i + 1] == 'x'
  }

  /** Wherever "0x" occurs, it is the first two characters that are dropped. */
  function Strip(s: string): string {
    if Contains0x(s) then s[2..] else s
  }

  /** A string of digits loses nothing, one that starts with "0x" only that. */
  lemma StripOfDigits(s: string)
    requires AllHex(s)
    ensures Strip(s) == s && Strip("0x" + s) == s
  {
    assert !Contains0x(s);
    assert ("0x" + s)[0] == '0' && ("0x" + s)[1] == 'x';
  }

  /** With "0x" further on, two digits are lost and "0x" stays. */
  lemma StripElsewhere(p: string, s: string)
    requires AllHex(p) && |p| >= 2
    ensures Strip(p + "0x" + s) == p[2..] + "0x" + s && !AllHex(Strip(p + "0x" + s))
  {
    var t := p + "0x" + s;
    assert t[|p|] == '0' && t[|p| + 1] == 'x';
    assert t[2..] == p[2..] + "0x" + s;
    assert t[2..][|p| - 1] == 'x';
  }

  lemma Pow16Mono(m: nat, n: nat)
    requires m <= n
    ensures Pow16(m) <= Pow16(n)
  {
    if m < n {
      Pow16Mono(m, n - 1);
    }
  }

  /** One limb from at most eight digits. */
  function LimbOf(s: string): (x: Limb)
    requires AllHex(s) && |s| <= 8
    ensures x == HexVal(s)
  {
    Pow16Mono(|s|, 8);
    assert Pow16(8) == LIMB_BASE;
    HexVal(s)
  }

  /** Limbs after parsing s: eight digits a limb, from the right; the rest kept. */
  function Assigned(old_t: seq<Limb>, s: string): (r: seq<Limb>)
    requires AllHex(s)
    ensures |r| == |old_t|
  {
    if old_t == [] || s == [] then old_t
    else if |s| > 8 then [LimbOf(s[|s| - 8..])] + Assigned(old_t[1..], s[..|s| - 8])
    else [LimbOf(s)] + old_t[1..]
  }

  method Parse(old_t: Limbs, text: string) returns (t: Limbs)
    requires AllHex(Strip(text))
    ensures t == Assigned(old_t, Strip(text))
  {
    var str := Strip(text);
    ghost var goal := Assigned(old_t, str);
    t := old_t;
    var i := 0;
    while i < NLEN && |str| > 0
      invariant 0 <= i <= NLEN && AllHex(str)
      invariant t[..i] + Assigned(t[i..], str) == goal
    {
      var x, rest := LastLimb(str, t[i..]);
      ParseStep(t, i, str, x, rest);
      t := t[i := x];
      str := rest;
      i := i + 1;
    }
    assert t == t[..i] + t[i..];
  }

  /** The last eight characters as a limb, or all there are, and the characters before them. */
  method LastLimb(str: string, ghost old_t: seq<Limb>) returns (x: Limb, rest: string)
    requires str != "" && AllHex(str) && old_t != []
    ensures AllHex(rest) && |rest| < |str| && Assigned(old_t, str) == [x] + Assigned(old_t[1..], rest)
  {
    if |str| > 8 {
      x := LimbOf(str[|str| - 8..]);
      rest := str[..|str| - 8];
    } else {
      x := LimbOf(str);
      rest := "";
    }
  }

  lemma OneMoved(a: seq<Limb>, x: Limb, b: seq<Limb>)
    ensures a + [x] + b == a + ([x] + b)
  {
  }

  lemma ParseStep(t: Limbs, i: nat, str: string, x: Limb, rest: string)
    requires i < NLEN && AllHex(str) && AllHex(rest)
    requires Assigned(t[i..], str) == [x] + Assigned(t[i..][1..], rest)
    ensures var t' := t[i := x]; t'[..i + 1] + Assigned(t'[i + 1..], rest) == t[..i] + Assigned(t[i..], str)
  {
    var t' := t[i := x];
    assert t'[..i + 1] == t[..i] + [x];
    assert t'[i + 1..] == t[i..][1..];
    OneMoved(t[..i], x, Assigned(t[i..][1..], rest));
  }

  lemma {:induction false} HexValConcat(s: string, t: string)
    requires AllHex(s) && AllHex(t)
    ensures AllHex(s + t) && HexVal(s + t) == HexVal(s) * Pow16(|t|) + HexVal(t)
  {
    if t == [] {
      assert s + t == s;
    } else {
      HexValConcat(s, t[..|t| - 1]);
      assert (s + t)[..|s + t| - 1] == s + t[..|t| - 1];
      Shift16(HexVal(s), Pow16(|t| - 1), HexVal(t[..|t| - 1]));
    }
  }

  lemma Shift16(h: int, p: int, v: int)
    ensures 16 * (h * p + v) == h * (16 * p) + 16 * v
  {
  }

  /** Number of limbs that n digits overwrite. */
  function LimbsWritten(n: nat): nat {
    (n + 7) / 8
  }

  /** Parsing sets the low limbs to the number written and keeps the others. */
  lemma {:induction false} AssignedValue(old_t: seq<Limb>, s: string)
    requires AllHex(s) && |s| <= 8 * |old_t|
    ensures Val(Assigned(old_t, s)) ==
            HexVal(s) + PowLimb(LimbsWritten(|s|)) * Val(old_t[LimbsWritten(|s|)..])
    decreases |s|
  {
    if s == [] {
      assert old_t[0..] == old_t;
    } else if |s| <= 8 {
      assert LimbsWritten(|s|) == 1;
      assert Assigned(old_t, s)[1..] == old_t[1..];
      assert PowLimb(1) == LIMB_BASE;
    } else {
      var hi, lo := s[..|s| - 8], s[|s| - 8..];
      assert s == hi + lo;
      HexValConcat(hi, lo);
      AssignedValue(old_t[1..], hi);
      var w := LimbsWritten(|hi|);
      assert LimbsWritten(|s|) == w + 1;
      assert old_t[1..][w..] == old_t[w + 1..];
      assert Assigned(old_t, s)[1..] == Assigned(old_t[1..], hi);
      assert Pow16(8) == LIMB_BASE;
      ScaleSum(HexVal(hi), PowLimb(w), Val(old_t[w + 1..]));
    }
  }

  lemma ScaleSum(h: int, p: int, v: int)
    ensures LIMB_BASE * (h + p * v) == h * LIMB_BASE + (LIMB_BASE * p) * v
  {
  }

  lemma MulZero(p: nat, v: nat)
    requires p > 0
    ensures p * v == 0 <==> v == 0
  {
  }

  /**
   * A key string of at most 40 digits is read back as the number it writes
   * exactly when every limb it is too short to reach already holds zero.
   */
  lemma ParseIsExactIff(old_t: Limbs, s: string)
    requires AllHex(s) && |s| <= HEXA_KEYLENGTH
    ensures Val(Assigned(old_t, s)) == HexVal(s) <==>
            forall i :: LimbsWritten(|s|) <= i < NLEN ==> old_t[i] == 0
  {
    var w := LimbsWritten(|s|);
    AssignedValue(old_t, s);
    ZeroLimbs(old_t[w..]);
    MulZero(PowLimb(w), Val(old_t[w..]));
    forall i | 0 <= i < |old_t[w..]| ensures old_t[w..][i] == old_t[w + i] {
    }
    if Val(Assigned(old_t, s)) == HexVal(s) {
      forall i | w <= i < NLEN ensures old_t[i] == 0 {
        assert old_t[w..][i - w] == 0;
      }
    }
  }

  /** A short string leaves stale limbs: "1" over a full key does not give 1. */
  lemma ShortKeyKeepsStaleLimbs()
    ensures Val(Assigned([0, 0, 0, 0, 7], "1")) != HexVal("1")
  {
    ParseIsExactIff([0, 0, 0, 0, 7], "1");
  }

  lemma {:induction false} HexValOfHexChars(s: seq<nat>)
    requires forall i :: 0 <= i < |s| ==> s[i] < 16
    ensures AllHex(HexChars(s)) && HexVal(HexChars(s)) == FromDigits(s)
  {
    forall i | 0 <= i < |s| ensures IsHex(HexChars(s)[i]) && CharVal(HexChars(s)[i]) == s[i] {
      CharValOfHex(s[i]);
    }
    if s != [] {
      HexValOfHexChars(s[..|s| - 1]);
      assert HexChars(s)[..|s| - 1] == HexChars(s[..|s| - 1]);
    }
  }

  /** Either case is read. */
  lemma CharValOfHex(d: nat)
    requires d < 16
    ensures IsHex(HEX[d]) && CharVal(HEX[d]) == d
    ensures IsHex("0123456789ABCDEF"[d]) && CharVal("0123456789ABCDEF"[d]) == d
  {
  }

  /** Of a longer string only the digits that fill the limbs count. */
  lemma {:induction false} ParseLong(old_t: seq<Limb>, s: string)
    requires AllHex(s) && |s| >= 8 * |old_t|
    ensures Assigned(old_t, s) == Assigned(old_t, s[|s| - 8 * |old_t|..])
    decreases |old_t|
  {
    var u := s[|s| - 8 * |old_t|..];
    if |old_t| > 1 {
      ParseLong(old_t[1..], s[..|s| - 8]);
      assert s[..|s| - 8][|s| - 8 - 8 * |old_t[1..]|..] == u[..|u| - 8];
      assert s[|s| - 8..] == u[|u| - 8..];
    } else if |old_t| == 1 && |s| > 8 {
      assert old_t[1..] == [] && u == s[|s| - 8..];
    }
  }

  /** Printing then parsing restores the key, whatever the target held. */
  lemma PrintThenParse(k: Limbs, old_t: Limbs)
    ensures AllHex(Strip(GetStr(k)))
    ensures Assigned(old_t, Strip(GetStr(k))) == k
  {
    var s := GetStr(k);
    assert s[0] == '0' && s[1] == 'x';
    GetStrIsDigits(k);
    var d := Digits(ToKey(k), HEXA_KEYLENGTH);
    assert Strip(s) == HexChars(d);
    HexValOfHexChars(d);
    Pow16Of40();
    FromDigitsOfDigits(ToKey(k), HEXA_KEYLENGTH);
    ParseIsExactIff(old_t, Strip(s));
    ValInjective(Assigned(old_t, Strip(s)), k);
  }
}
