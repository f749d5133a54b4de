/**
 * The wire form of argument values.  A reader that would run past its buffer,
 * or meets an unknown data tag, yields nothing; the original has no defined
 * behaviour for the first and throws for the second.
 */
module Wire {
  import opened KeyLimbs
  import opened ByteOrder
  import opened Options

  // ---------------------------------------------------------------- integers

  /** An integer of w bytes at the front of a buffer. */
  function ReadInt(b: Bytes, w: nat): (r: Option<nat>)
    ensures r.Some? ==> r.value < Pow256(w)
  {
    if |b| < w then None else Some(Read(b[..w]))
  }

  lemma ReadDumpInt(n: nat, w: nat, rest: Bytes)
    requires n < Pow256(w)
    ensures ReadInt(Dump(n, w) + rest, w) == Some(n) && (Dump(n, w) + rest)[w..] == rest
  {
    assert (Dump(n, w) + rest)[..w] == Dump(n, w);
    ReadDump(n, w);
  }

  function Dump32(n: nat): (b: Bytes)
    requires n < WORD
    ensures |b| == 4
  {
    Dump(n, 4)
  }

  function Read32(b: Bytes): (r: Option<Limb>)
    ensures r.Some? <==> |b| >= 4
  {
    Pow256Values();
    var r := ReadInt(b, 4);
    if r.None? then None else Some(r.value)
  }

  lemma ReadDump32(n: nat, rest: Bytes)
    requires n < WORD
    ensures Read32(Dump32(n) + rest) == Some(n) && (Dump32(n) + rest)[4..] == rest
  {
    Pow256Values();
    ReadDumpInt(n, 4, rest);
  }

  function Dump64(n: nat): (b: Bytes)
    requires n < WORD * WORD
    ensures |b| == 8
  {
    Dump(n, 8)
  }

  lemma ReadDump64(n: nat, rest: Bytes)
    requires n < WORD * WORD
    ensures ReadInt(Dump64(n) + rest, 8) == Some(n) && (Dump64(n) + rest)[8..] == rest
  {
    Pow256Values();
    ReadDumpInt(n, 8, rest);
  }

  // ------------------------------------------------------------ keys, addresses

  function DumpWords(t: seq<Limb>): (b: Bytes)
    ensures |b| == 4 * |t|
  {
    if t == [] then [] else Dump32(t[0]) + DumpWords(t[1..])
  }

  function ReadWords(b: Bytes, n: nat): (r: Option<seq<Limb>>)
    ensures r.Some? ==> |r.value| == n
  {
    if n == 0 then Some([])
    else if |b| < 4 then None
    else
      var rest := ReadWords(b[4..], n - 1);
      if rest.None? then None else Some([Read32(b).value] + rest.value)
  }

  lemma {:induction false} ReadDumpWords(t: seq<Limb>, rest: Bytes)
    ensures ReadWords(DumpWords(t) + rest, |t|) == Some(t) && (DumpWords(t) + rest)[4 * |t|..] == rest
  {
    if t == [] {
      assert DumpWords(t) + rest == rest;
    } else {
      assert DumpWords(t) + rest == Dump32(t[0]) + (DumpWords(t[1..]) + rest);
      ReadDump32(t[0], DumpWords(t[1..]) + rest);
      ReadDumpWords(t[1..], rest);
      var b := DumpWords(t) + rest;
      assert b[4 * |t|..] == b[4..][4 * |t[1..]|..];
      assert t == [t[0]] + t[1..];
    }
  }

  const KEY_SIZE: nat := 20
  const ADDR_SIZE: nat := 38

  datatype Addr = Addr(ip: seq<Limb>, port: nat, key: Limbs) {
    predicate Valid() {
      |ip| == 4 && port < 0x1_0000
    }
  }

  function DumpAddr(a: Addr): (b: Bytes)
    requires a.Valid()
    ensures |b| == ADDR_SIZE
  {
    DumpWords(a.ip) + Dump(a.port, 2) + DumpWords(a.key)
  }

  function ReadAddr(b: Bytes): (r: Option<Addr>)
    ensures r.Some? ==> r.value.Valid() && |b| >= ADDR_SIZE
  {
    Pow256Values();
    if |b| < ADDR_SIZE then None
    else
      var ip, port, key := ReadWords(b, 4), ReadInt(b[16..], 2), ReadWords(b[18..], 5);
      if ip.None? || key.None? then None else Some(Addr(ip.value, port.value, key.value))
  }

  lemma ReadDumpAddr(a: Addr, rest: Bytes)
    requires a.Valid()
    ensures ReadAddr(DumpAddr(a) + rest) == Some(a) && (DumpAddr(a) + rest)[ADDR_SIZE..] == rest
  {
    var b := DumpAddr(a) + rest;
    assert b == DumpWords(a.ip) + (Dump(a.port, 2) + (DumpWords(a.key) + rest));
    ReadDumpWords(a.ip, Dump(a.port, 2) + (DumpWords(a.key) + rest));
    Pow256Values();
    ReadDumpInt(a.port, 2, DumpWords(a.key) + rest);
    ReadDumpWords(a.key, rest);
    assert b[18..] == b[16..][2..];
  }

  function DumpAddrs(l: seq<Addr>): (b: Bytes)
    requires forall a :: a in l ==> a.Valid()
    ensures |b| == ADDR_SIZE * |l|
  {
    if l == [] then [] else DumpAddr(l[0]) + DumpAddrs(l[1..])
  }

  function ReadAddrs(b: Bytes, n: nat): (r: Option<seq<Addr>>)
    ensures r.Some? ==> |r.value| == n && forall a :: a in r.value ==> a.Valid()
  {
    if n == 0 then Some([])
    else
      var a := ReadAddr(b);
      if a.None? then None
      else
        var rest := ReadAddrs(b[ADDR_SIZE..], n - 1);
        if rest.None? then None else Some([a.value] + rest.value)
  }

  lemma {:induction false} ReadDumpAddrs(l: seq<Addr>, rest: Bytes)
    requires forall a :: a in l ==> a.Valid()
    ensures ReadAddrs(DumpAddrs(l) + rest, |l|) == Some(l)
  {
    if l != [] {
      assert DumpAddrs(l) + rest == DumpAddr(l[0]) + (DumpAddrs(l[1..]) + rest);
      assert l[0] in l;
      ReadDumpAddr(l[0], DumpAddrs(l[1..]) + rest);
      ReadDumpAddrs(l[1..], rest);
      assert l == [l[0]] + l[1..];
    }
  }

  // ----------------------------------------------------------------- strings

  predicate NulFree(s: Bytes) {
    0 !in s
  }

  /** What std::string(const char*) keeps of a buffer. */
  function UpToNul(s: Bytes): (r: Bytes)
    ensures |r| <= |s|
  {
    if s == [] || s[0] == 0 then [] else [s[0]] + UpToNul(s[1..])
  }

  /** What is kept ends right before the first NUL. */
  lemma {:induction false} UpToNulIff(s: Bytes)
    ensures UpToNul(s) == s <==> NulFree(s)
    ensures NulFree(UpToNul(s))
    ensures UpToNul(s) == s[..|UpToNul(s)|] && (|UpToNul(s)| < |s| ==> s[|UpToNul(s)|] == 0)
  {
    if s != [] && s[0] != 0 {
      UpToNulIff(s[1..]);
      assert s == [s[0]] + s[1..];
      assert UpToNul(s) == [s[0]] + UpToNul(s[1..]);
      assert UpToNul(s)[1..] == UpToNul(s[1..]);
    }
  }

  function DumpStr(s: Bytes): (b: Bytes)
    requires |s| < WORD
    ensures |b| == StrSize(s)
  {
    Dump32(|s|) + s
  }

  function StrSize(s: Bytes): nat {
    |s| + 4
  }

  function ReadStr(b: Bytes): (r: Option<Bytes>) {
    var n := Read32(b);
    if n.None? || 4 + n.value > |b| then None else Some(UpToNul(b[4..4 + n.value]))
  }

  lemma ReadStrAt(b: Bytes, n: nat, s: Bytes)
    requires Read32(b) == Some(n) && 4 + n <= |b| && b[4..4 + n] == s
    ensures ReadStr(b) == Some(UpToNul(s))
  {
  }

  lemma StrFirst(s: Bytes, rest: Bytes)
    requires |s| < WORD
    ensures var b := DumpStr(s) + rest;
            |b| >= 4 && Read32(b) == Some(|s|) && b[4..] == s + rest
  {
    assert DumpStr(s) + rest == Dump32(|s|) + (s + rest);
    ReadDump32(|s|, s + rest);
  }

  /** A string comes back up to its first NUL: whole exactly when it has none. */
  lemma ReadDumpStr(s: Bytes, rest: Bytes)
    requires |s| < WORD
    ensures ReadStr(DumpStr(s) + rest) == Some(UpToNul(s))
    ensures ReadStr(DumpStr(s) + rest) == Some(s) <==> NulFree(s)
    ensures (DumpStr(s) + rest)[StrSize(s)..] == rest
  {
    StrFirst(s, rest);
    StrBuffer(DumpStr(s) + rest, s, rest);
    ReadStrAt(DumpStr(s) + rest, |s|, s);
    UpToNulIff(s);
  }

  lemma StrBuffer(b: Bytes, s: Bytes, rest: Bytes)
    requires |b| >= 4 && b[4..] == s + rest
    ensures 4 + |s| <= |b| && b[4..4 + |s|] == s && b[4 + |s|..] == rest
  {
    assert b[4..4 + |s|] == b[4..][..|s|];
    assert b[4 + |s|..] == b[4..][|s|..];
  }

  // ------------------------------------------------------- sets, kept in order

  /** Order of std::set<std::string>: bytes compared as unsigned. */
  predicate StrLess(a: Bytes, b: Bytes) {
    if b == [] then false
    else if a == [] then true
    else a[0] < b[0] || (a[0] == b[0] && StrLess(a[1..], b[1..]))
  }

  predicate KeyLess(a: Limbs, b: Limbs) {
    Val(a) < Val(b)
  }

  predicate SortedStrs(s: seq<Bytes>) {
    forall i, j :: 0 <= i < j < |s| ==> StrLess(s[i], s[j])
  }

  predicate SortedKeys(s: seq<Limbs>) {
    forall i, j :: 0 <= i < j < |s| ==> KeyLess(s[i], s[j])
  }

  /** std::set::insert on the elements in iteration order. */
  function InsertedStr(s: seq<Bytes>, x: Bytes): seq<Bytes> {
    if s == [] then [x]
    else if StrLess(s[0], x) then [s[0]] + InsertedStr(s[1..], x)
    else if StrLess(x, s[0]) then [x] + s
    else s
  }

  function InsertedKey(s: seq<Limbs>, x: Limbs): seq<Limbs> {
    if s == [] then [x]
    else if KeyLess(s[0], x) then [s[0]] + InsertedKey(s[1..], x)
    else if KeyLess(x, s[0]) then [x] + s
    else s
  }

  lemma {:induction false} StrLessTotal(a: Bytes, b: Bytes)
    ensures a == b <==> !StrLess(a, b) && !StrLess(b, a)
    ensures !(StrLess(a, b) && StrLess(b, a))
  {
    if a != [] && b != [] {
      StrLessTotal(a[1..], b[1..]);
      assert a == [a[0]] + a[1..] && b == [b[0]] + b[1..];
    }
  }

  lemma {:induction false} StrLessTrans(a: Bytes, b: Bytes, c: Bytes)
    requires StrLess(a, b) && StrLess(b, c)
    ensures StrLess(a, c)
  {
    if a != [] && a[0] == b[0] == c[0] {
      StrLessTrans(a[1..], b[1..], c[1..]);
    }
  }

  lemma SortedStrsCons(x: Bytes, s: seq<Bytes>)
    requires SortedStrs(s) && forall y :: y in s ==> StrLess(x, y)
    ensures SortedStrs([x] + s)
  {
    forall i, j | 0 <= i < j < |s| + 1 ensures StrLess(([x] + s)[i], ([x] + s)[j]) {
      assert s[j - 1] in s;
    }
  }

  /** Insertion into a sorted set: the element is in, all others stay, and the order is kept. */
  lemma {:induction false} InsertedStrIs(s: seq<Bytes>, x: Bytes)
    requires SortedStrs(s)
    ensures SortedStrs(InsertedStr(s, x)) && forall y :: y in InsertedStr(s, x) <==> y in s || y == x
  {
    if s != [] {
      assert s == [s[0]] + s[1..] && forall y :: y in s[1..] ==> StrLess(s[0], y);
      StrLessTotal(s[0], x);
      if StrLess(s[0], x) {
        InsertedStrIs(s[1..], x);
        SortedStrsCons(s[0], InsertedStr(s[1..], x));
      } else if StrLess(x, s[0]) {
        forall y | y in s[1..] ensures StrLess(x, y) {
          StrLessTrans(x, s[0], y);
        }
        SortedStrsCons(x, s);
      }
    }
  }

  lemma SortedKeysCons(x: Limbs, s: seq<Limbs>)
    requires SortedKeys(s) && forall y :: y in s ==> KeyLess(x, y)
    ensures SortedKeys([x] + s)
  {
    forall i, j | 0 <= i < j < |s| + 1 ensures KeyLess(([x] + s)[i], ([x] + s)[j]) {
      assert s[j - 1] in s;
    }
  }

  lemma {:induction false} InsertedKeyIs(s: seq<Limbs>, x: Limbs)
    requires SortedKeys(s)
    ensures SortedKeys(InsertedKey(s, x)) && forall y :: y in InsertedKey(s, x) <==> y in s || y == x
  {
    if s != [] {
      assert s == [s[0]] + s[1..] && forall y :: y in s[1..] ==> KeyLess(s[0], y);
      if KeyLess(s[0], x) {
        InsertedKeyIs(s[1..], x);
        SortedKeysCons(s[0], InsertedKey(s[1..], x));
      } else if KeyLess(x, s[0]) {
        SortedKeysCons(x, s);
      } else {
        ValInjective(s[0], x);
      }
    }
  }

  /** An element above all others goes last. */
  lemma {:induction false} InsertedStrLast(s: seq<Bytes>, x: Bytes)
    requires forall i :: 0 <= i < |s| ==> StrLess(s[i], x)
    ensures InsertedStr(s, x) == s + [x]
  {
    if s != [] {
      InsertedStrLast(s[1..], x);
      assert s + [x] == [s[0]] + (s[1..] + [x]);
    }
  }

  lemma {:induction false} InsertedKeyLast(s: seq<Limbs>, x: Limbs)
    requires forall i :: 0 <= i < |s| ==> KeyLess(s[i], x)
    ensures InsertedKey(s, x) == s + [x]
  {
    if s != [] {
      InsertedKeyLast(s[1..], x);
      assert s + [x] == [s[0]] + (s[1..] + [x]);
    }
  }

  /** In a sorted whole, the first of the second part goes after the first part. */
  lemma AboveAllStrs(acc: seq<Bytes>, l: seq<Bytes>)
    requires l != [] && SortedStrs(acc + l)
    ensures InsertedStr(acc, l[0]) == acc + [l[0]]
  {
    forall i | 0 <= i < |acc| ensures StrLess(acc[i], l[0]) {
      assert (acc + l)[i] == acc[i] && (acc + l)[|acc|] == l[0];
    }
    InsertedStrLast(acc, l[0]);
  }

  function DumpStrs(l: seq<Bytes>): (b: Bytes)
    requires forall s :: s in l ==> |s| < WORD
    ensures |b| == StrsSize(l)
  {
    if l == [] then [] else DumpStr(l[0]) + DumpStrs(l[1..])
  }

  function StrsSize(l: seq<Bytes>): nat {
    if l == [] then 0 else StrSize(l[0]) + StrsSize(l[1..])
  }

  function ReadStrList(b: Bytes, n: nat): (r: Option<seq<Bytes>>)
    ensures r.Some? ==> |r.value| == n
  {
    if n == 0 then Some([])
    else
      var s := ReadStr(b);
      if s.None? || StrSize(s.value) > |b| then None
      else
        var rest := ReadStrList(b[StrSize(s.value)..], n - 1);
        if rest.None? then None else Some([s.value] + rest.value)
  }

  function InsertAllStrs(acc: seq<Bytes>, l: seq<Bytes>): seq<Bytes>
    decreases |l|
  {
    if l == [] then acc else InsertAllStrs(InsertedStr(acc, l[0]), l[1..])
  }

  /** DataString from a buffer: each string read goes into the set. */
  function ReadStrs(b: Bytes, n: nat): Option<seq<Bytes>> {
    var l := ReadStrList(b, n);
    if l.None? then None else Some(InsertAllStrs([], l.value))
  }

  lemma {:induction false} InsertAllStrsIs(acc: seq<Bytes>, l: seq<Bytes>)
    requires SortedStrs(acc)
    ensures var r := InsertAllStrs(acc, l); SortedStrs(r) && forall y :: y in r <==> y in acc || y in l
    decreases |l|
  {
    if l != [] {
      InsertedStrIs(acc, l[0]);
      InsertAllStrsIs(InsertedStr(acc, l[0]), l[1..]);
      assert l == [l[0]] + l[1..];
    }
  }

  /** However a peer ordered them, the strings read are the set of those in the buffer. */
  lemma ReadStrsIs(b: Bytes, n: nat)
    ensures var l, r := ReadStrList(b, n), ReadStrs(b, n);
            && (l.Some? <==> r.Some?)
            && (r.Some? ==> SortedStrs(r.value) && forall y :: y in r.value <==> y in l.value)
  {
    if ReadStrList(b, n).Some? {
      InsertAllStrsIs([], ReadStrList(b, n).value);
    }
  }

  ghost predicate AllNulFree(l: seq<Bytes>) {
    forall i :: 0 <= i < |l| ==> NulFree(l[i])
  }

  lemma {:induction false} InsertedNulFree(s: seq<Bytes>, x: Bytes)
    requires AllNulFree(s) && NulFree(x)
    ensures AllNulFree(InsertedStr(s, x))
  {
    if s != [] && StrLess(s[0], x) {
      InsertedNulFree(s[1..], x);
    }
  }

  lemma {:induction false} InsertAllNulFree(acc: seq<Bytes>, l: seq<Bytes>)
    requires AllNulFree(acc) && AllNulFree(l)
    ensures AllNulFree(InsertAllStrs(acc, l))
    decreases |l|
  {
    if l != [] {
      InsertedNulFree(acc, l[0]);
      InsertAllNulFree(InsertedStr(acc, l[0]), l[1..]);
    }
  }

  lemma {:induction false} ListNulFree(b: Bytes, n: nat)
    ensures var r := ReadStrList(b, n); r.Some? ==> AllNulFree(r.value)
    decreases n
  {
    if n > 0 {
      var s := ReadStr(b);
      if s.Some? && StrSize(s.value) <= |b| {
        UpToNulIff(b[4..4 + Read32(b).value]);
        ListNulFree(b[StrSize(s.value)..], n - 1);
      }
    }
  }

  /** No string that is read holds a NUL. */
  lemma ReadNulFree(b: Bytes, n: nat)
    ensures var s := ReadStr(b); s.Some? ==> NulFree(s.value)
    ensures var r := ReadStrs(b, n); r.Some? ==> AllNulFree(r.value)
  {
    if ReadStr(b).Some? {
      UpToNulIff(b[4..4 + Read32(b).value]);
    }
    ListNulFree(b, n);
    if ReadStrList(b, n).Some? {
      InsertAllNulFree([], ReadStrList(b, n).value);
    }
  }

  lemma {:induction false} SortedInsertAllStrs(acc: seq<Bytes>, l: seq<Bytes>)
    requires SortedStrs(acc + l)
    ensures InsertAllStrs(acc, l) == acc + l
    decreases |l|
  {
    if l != [] {
      AboveAllStrs(acc, l);
      assert acc + [l[0]] + l[1..] == acc + l;
      SortedInsertAllStrs(acc + [l[0]], l[1..]);
    }
  }

  lemma StrListHead(b: Bytes, n: nat, s: Bytes, tail: Bytes)
    requires n > 0 && ReadStr(b) == Some(s) && StrSize(s) <= |b| && b[StrSize(s)..] == tail
    ensures ReadStrList(b, n) == Consed(s, ReadStrList(tail, n - 1))
  {
  }

  function Consed<T>(x: T, rest: Option<seq<T>>): Option<seq<T>> {
    if rest.None? then None else Some([x] + rest.value)
  }

  lemma {:induction false} ReadDumpStrList(l: seq<Bytes>, rest: Bytes)
    requires forall s :: s in l ==> |s| < WORD && NulFree(s)
    ensures ReadStrList(DumpStrs(l) + rest, |l|) == Some(l)
  {
    if l != [] {
      StrsHead(l, rest);
      ReadDumpStrList(l[1..], rest);
      assert l == [l[0]] + l[1..];
    }
  }

  lemma StrsHead(l: seq<Bytes>, rest: Bytes)
    requires l != [] && forall s :: s in l ==> |s| < WORD && NulFree(s)
    ensures ReadStrList(DumpStrs(l) + rest, |l|) == Consed(l[0], ReadStrList(DumpStrs(l[1..]) + rest, |l| - 1))
  {
    var s, tail := l[0], DumpStrs(l[1..]) + rest;
    assert s in l;
    StrsApart(l, rest);
    ReadDumpStr(s, tail);
    StrsHeadOf(DumpStr(s) + tail, |l|, s, tail);
  }

  lemma StrsApart(l: seq<Bytes>, rest: Bytes)
    requires l != [] && forall s :: s in l ==> |s| < WORD
    ensures l[0] in l && DumpStrs(l) + rest == DumpStr(l[0]) + (DumpStrs(l[1..]) + rest)
  {
    assert l[0] in l;
  }

  lemma StrsHeadOf(b: Bytes, n: nat, s: Bytes, tail: Bytes)
    requires n > 0 && ReadStr(b) == Some(s) && |b| == StrSize(s) + |tail| && b[StrSize(s)..] == tail
    ensures ReadStrList(b, n) == Consed(s, ReadStrList(tail, n - 1))
  {
    StrListHead(b, n, s, tail);
  }

  lemma ReadDumpStrs(l: seq<Bytes>, rest: Bytes)
    requires SortedStrs(l) && forall s :: s in l ==> |s| < WORD && NulFree(s)
    ensures ReadStrs(DumpStrs(l) + rest, |l|) == Some(l)
  {
    ReadDumpStrList(l, rest);
    StrSetOf(DumpStrs(l) + rest, |l|, l);
  }

  lemma StrSetOf(b: Bytes, n: nat, l: seq<Bytes>)
    requires SortedStrs(l) && ReadStrList(b, n) == Some(l)
    ensures ReadStrs(b, n) == Some(l)
  {
    assert [] + l == l;
    SortedInsertAllStrs([], l);
  }

  function DumpKeys(l: seq<Limbs>): (b: Bytes)
    ensures |b| == KEY_SIZE * |l|
  {
    if l == [] then [] else DumpWords(l[0]) + DumpKeys(l[1..])
  }

  function ReadKey(b: Bytes): (r: Option<Limbs>) {
    var k := ReadWords(b, 5);
    if k.None? then None else var t: Limbs := k.value; Some(t)
  }

  function ReadKeyList(b: Bytes, n: nat): (r: Option<seq<Limbs>>)
    ensures r.Some? ==> |r.value| == n
  {
    if n == 0 then Some([])
    else
      var k := ReadKey(b);
      if k.None? || |b| < KEY_SIZE then None
      else
        var rest := ReadKeyList(b[KEY_SIZE..], n - 1);
        if rest.None? then None else Some([k.value] + rest.value)
  }

  function InsertAllKeys(acc: seq<Limbs>, l: seq<Limbs>): seq<Limbs>
    decreases |l|
  {
    if l == [] then acc else InsertAllKeys(InsertedKey(acc, l[0]), l[1..])
  }

  /** DataKey from a buffer. */
  function ReadKeys(b: Bytes, n: nat): Option<seq<Limbs>> {
    var l := ReadKeyList(b, n);
    if l.None? then None else Some(InsertAllKeys([], l.value))
  }

  lemma {:induction false} InsertAllKeysIs(acc: seq<Limbs>, l: seq<Limbs>)
    requires SortedKeys(acc)
    ensures var r := InsertAllKeys(acc, l); SortedKeys(r) && forall y :: y in r <==> y in acc || y in l
    decreases |l|
  {
    if l != [] {
      InsertedKeyIs(acc, l[0]);
      InsertAllKeysIs(InsertedKey(acc, l[0]), l[1..]);
      assert l == [l[0]] + l[1..];
    }
  }

  lemma ReadKeysIs(b: Bytes, n: nat)
    ensures var l, r := ReadKeyList(b, n), ReadKeys(b, n);
            && (l.Some? <==> r.Some?)
            && (r.Some? ==> SortedKeys(r.value) && forall y :: y in r.value <==> y in l.value)
  {
    if ReadKeyList(b, n).Some? {
      InsertAllKeysIs([], ReadKeyList(b, n).value);
    }
  }

  lemma {:induction false} SortedInsertAllKeys(acc: seq<Limbs>, l: seq<Limbs>)
    requires SortedKeys(acc + l)
    ensures InsertAllKeys(acc, l) == acc + l
    decreases |l|
  {
    if l != [] {
      forall i | 0 <= i < |acc| ensures KeyLess(acc[i], l[0]) {
        assert (acc + l)[i] == acc[i] && (acc + l)[|acc|] == l[0];
      }
      InsertedKeyLast(acc, l[0]);
      assert acc + [l[0]] + l[1..] == acc + l;
      SortedInsertAllKeys(acc + [l[0]], l[1..]);
    }
  }

  lemma {:induction false} ReadDumpKeyList(l: seq<Limbs>, rest: Bytes)
    ensures ReadKeyList(DumpKeys(l) + rest, |l|) == Some(l)
  {
    if l != [] {
      var tail := DumpKeys(l[1..]) + rest;
      assert DumpKeys(l) + rest == DumpWords(l[0]) + tail;
      ReadDumpWords(l[0], tail);
      ReadDumpKeyList(l[1..], rest);
      assert l == [l[0]] + l[1..];
    }
  }

  lemma ReadDumpKeys(l: seq<Limbs>, rest: Bytes)
    requires SortedKeys(l)
    ensures ReadKeys(DumpKeys(l) + rest, |l|) == Some(l)
  {
    ReadDumpKeyList(l, rest);
    assert [] + l == l;
    SortedInsertAllKeys([], l);
  }

  // ------------------------------------------- the writing and reading loops

  lemma Apart(a: Bytes, b: Bytes, c: Bytes)
    ensures a + (b + c) == a + b + c
  {
  }

  lemma {:induction false} DumpStrsSnoc(l: seq<Bytes>, x: Bytes)
    requires (forall s :: s in l ==> |s| < WORD) && |x| < WORD
    ensures DumpStrs(l + [x]) == DumpStrs(l) + DumpStr(x)
  {
    if l == [] {
      assert [x][1..] == [];
    } else {
      assert (l + [x])[0] == l[0] && (l + [x])[1..] == l[1..] + [x];
      DumpStrsSnoc(l[1..], x);
      Apart(DumpStr(l[0]), DumpStrs(l[1..]), DumpStr(x));
    }
  }

  /** DataString::dump after its tag and count. */
  method WriteStrs(names: seq<Bytes>) returns (buff: Bytes)
    requires forall s :: s in names ==> |s| < WORD
    ensures buff == DumpStrs(names)
  {
    buff := [];
    for i := 0 to |names|
      invariant buff == DumpStrs(names[..i])
    {
      DumpStrsSnoc(names[..i], names[i]);
      assert names[..i + 1] == names[..i] + [names[i]];
      buff := buff + DumpStr(names[i]);
    }
    assert names[..|names|] == names;
  }

  /** The constructor of DataString from a buffer, after tag and count. */
  method ParseStrs(data: Bytes, count: nat) returns (r: Option<seq<Bytes>>)
    ensures r == ReadStrs(data, count)
  {
    var names: seq<Bytes>, buff := [], data;
    for i := 0 to count
      invariant ReadStrs(data, count) == var l := ReadStrList(buff, count - i);
                  if l.None? then None else Some(InsertAllStrs(names, l.value))
    {
      var str := ReadStr(buff);
      if str.None? || StrSize(str.value) > |buff| {
        return None;
      }
      names := InsertedStr(names, str.value);
      buff := buff[StrSize(str.value)..];
    }
    return Some(names);
  }

  lemma {:induction false} DumpKeysSnoc(l: seq<Limbs>, x: Limbs)
    ensures DumpKeys(l + [x]) == DumpKeys(l) + DumpWords(x)
  {
    if l == [] {
      assert [x][1..] == [];
    } else {
      assert (l + [x])[0] == l[0] && (l + [x])[1..] == l[1..] + [x];
      DumpKeysSnoc(l[1..], x);
      Apart(DumpWords(l[0]), DumpKeys(l[1..]), DumpWords(x));
    }
  }

  /** DataKey::dump after its tag and count. */
  method WriteKeys(keys: seq<Limbs>) returns (buff: Bytes)
    ensures buff == DumpKeys(keys)
  {
    buff := [];
    for i := 0 to |keys|
      invariant buff == DumpKeys(keys[..i])
    {
      DumpKeysSnoc(keys[..i], keys[i]);
      assert keys[..i + 1] == keys[..i] + [keys[i]];
      buff := buff + DumpWords(keys[i]);
    }
    assert keys[..|keys|] == keys;
  }

  /** The constructor of DataKey from a buffer, after tag and count. */
  method ParseKeys(data: Bytes, count: nat) returns (r: Option<seq<Limbs>>)
    ensures r == ReadKeys(data, count)
  {
    var keys: seq<Limbs>, buff := [], data;
    for i := 0 to count
      invariant ReadKeys(data, count) == var l := ReadKeyList(buff, count - i);
                  if l.None? then None else Some(InsertAllKeys(keys, l.value))
    {
      var k := ReadKey(buff);
      if k.None? || |buff| < KEY_SIZE {
        return None;
      }
      keys := InsertedKey(keys, k.value);
      buff := buff[KEY_SIZE..];
    }
    return Some(keys);
  }

  lemma {:induction false} DumpAddrsSnoc(l: seq<Addr>, x: Addr)
    requires (forall a :: a in l ==> a.Valid()) && x.Valid()
    ensures DumpAddrs(l + [x]) == DumpAddrs(l) + DumpAddr(x)
  {
    if l == [] {
      assert [x][1..] == [];
    } else {
      assert (l + [x])[0] == l[0] && (l + [x])[1..] == l[1..] + [x];
      DumpAddrsSnoc(l[1..], x);
      Apart(DumpAddr(l[0]), DumpAddrs(l[1..]), DumpAddr(x));
    }
  }

  /** addr_list::dump after its count. */
  method WriteAddrs(addrs: seq<Addr>) returns (buff: Bytes)
    requires forall a :: a in addrs ==> a.Valid()
    ensures buff == DumpAddrs(addrs)
  {
    buff := [];
    for i := 0 to |addrs|
      invariant buff == DumpAddrs(addrs[..i])
    {
      DumpAddrsSnoc(addrs[..i], addrs[i]);
      assert addrs[..i + 1] == addrs[..i] + [addrs[i]];
      buff := buff + DumpAddr(addrs[i]);
    }
    assert addrs[..|addrs|] == addrs;
  }

  /** The constructor of addr_list from a buffer, after its count. */
  method ParseAddrs(data: Bytes, count: nat) returns (r: Option<seq<Addr>>)
    ensures r == ReadAddrs(data, count)
  {
    var addrs: seq<Addr>, buff := [], data;
    AfterNone(ReadAddrs(data, count));
    for i := 0 to count
      invariant ReadAddrs(data, count) == After(addrs, ReadAddrs(buff, count - i))
    {
      var a := ReadAddr(buff);
      if a.None? {
        return None;
      }
      AddrStep(addrs, buff, count - i, a.value);
      addrs := addrs + [a.value];
      buff := buff[ADDR_SIZE..];
    }
    assert addrs + [] == addrs;
    return Some(addrs);
  }

  lemma AfterNone(rest: Option<seq<Addr>>)
    ensures After([], rest) == rest
  {
    assert rest.Some? ==> [] + rest.value == rest.value;
  }

  lemma AddrStep(done: seq<Addr>, b: Bytes, n: nat, a: Addr)
    requires n > 0 && ReadAddr(b) == Some(a)
    ensures |b| >= ADDR_SIZE && After(done, ReadAddrs(b, n)) == After(done + [a], ReadAddrs(b[ADDR_SIZE..], n - 1))
  {
    var rest := ReadAddrs(b[ADDR_SIZE..], n - 1);
    assert rest.Some? ==> done + ([a] + rest.value) == done + [a] + rest.value;
  }

  function After(done: seq<Addr>, rest: Option<seq<Addr>>): Option<seq<Addr>> {
    if rest.None? then None else Some(done + rest.value)
  }
}
