/**
 * Where each value lies in a datagram, byte by byte, and what a datagram that
 * is accepted must hold.
 */
module PacketLayouts {
  import opened KeyLimbs
  import opened ByteOrder
  import opened Options
  import opened Wire
  import opened Packets

  /** The buffer holds these bytes from offset at. */
  predicate Holds(b: Bytes, at: nat, piece: Bytes) {
    at + |piece| <= |b| && b[at..at + |piece|] == piece
  }

  lemma HoldsMiddle(before: Bytes, piece: Bytes, after: Bytes)
    ensures Holds(before + piece + after, |before|, piece)
  {
  }

  lemma HoldsWithin(b: Bytes, at: nat, piece: Bytes, inner: nat, part: Bytes)
    requires Holds(b, at, piece) && Holds(piece, inner, part)
    ensures Holds(b, at + inner, part)
  {
    forall k | 0 <= k < |part| ensures b[at + inner + k] == part[k] {
      assert part[k] == piece[inner + k] == b[at + (inner + k)];
    }
  }

  /** First part, second part. */
  lemma TwoParts(b: Bytes, at: nat, first: Bytes, second: Bytes)
    requires Holds(b, at, first + second)
    ensures Holds(b, at, first) && Holds(b, at + |first|, second)
  {
    HoldsMiddle([], first, second);
    HoldsMiddle(first, second, []);
    assert [] + first + second == first + second && first + second + [] == first + second;
    HoldsWithin(b, at, first + second, 0, first);
    HoldsWithin(b, at, first + second, |first|, second);
  }

  lemma InFront(first: Bytes, rest: Bytes, whole: Bytes, offset: nat)
    requires whole == first + rest && offset == 0
    ensures Holds(whole, offset, first)
  {
  }

  lemma Within(first: Bytes, rest: Bytes, whole: Bytes, inner: nat, part: Bytes, offset: nat)
    requires Holds(rest, inner, part) && whole == first + rest && offset == |first| + inner
    ensures Holds(whole, offset, part)
  {
    TwoParts(whole, 0, first, rest);
    HoldsWithin(whole, |first|, rest, inner, part);
  }

  // ---------------------------------------------------------------- integers

  lemma DivDiv(n: nat, p: nat)
    requires p > 0
    ensures n / 0x100 / p == n / (0x100 * p)
  {
    var q, r := n / 0x100, n % 0x100;
    var a, s := q / p, q % p;
    assert n == (0x100 * p) * a + (0x100 * s + r) by { MulAssoc(p, a); }
    QuotientIs(n, 0x100 * p, a, 0x100 * s + r);
  }

  lemma QuotientIs(n: nat, d: nat, q: nat, r: nat)
    requires d > 0 && n == d * q + r && r < d
    ensures n / d == q
  {
    var x, y := n / d, n % d;
    assert d * (q - x) == y - r by { Distribute(d, q, x); }
    AtLeast(d, q - x);
    AtLeast(d, x - q);
    assert d * (x - q) == -(d * (q - x)) by { Negate(d, q - x); }
  }

  lemma Distribute(d: int, q: int, x: int)
    ensures d * (q - x) == d * q - d * x
  {
  }

  lemma Negate(d: int, k: int)
    ensures d * -k == -(d * k)
  {
  }

  lemma AtLeast(d: nat, k: int)
    ensures k >= 1 ==> d * k >= d
  {
  }

  /** Network order: byte i of w is the digit of 256^(w - 1 - i). */
  lemma {:induction false} DumpAt(n: nat, w: nat, i: nat)
    requires i < w
    ensures Dump(n, w)[i] == n / Pow256(w - 1 - i) % 0x100
  {
    if i < w - 1 {
      DumpAt(n / 0x100, w - 1, i);
      DivDiv(n, Pow256(w - 2 - i));
    }
  }

  lemma {:induction false} WordsLayout(t: seq<Limb>, i: nat)
    requires i < |t|
    ensures Holds(DumpWords(t), 4 * i, Dump(t[i], 4))
  {
    if i == 0 {
      HoldsMiddle([], Dump32(t[0]), DumpWords(t[1..]));
    } else {
      WordsLayout(t[1..], i - 1);
      HoldsMiddle(Dump32(t[0]), DumpWords(t[1..]), []);
      HoldsWithin(DumpWords(t), 4, DumpWords(t[1..]), 4 * (i - 1), Dump(t[i], 4));
    }
  }

  // --------------------------------------------------------- headers, addresses

  /** Words of w one after another from offset at. */
  ghost predicate HoldsWords(b: Bytes, at: nat, w: seq<Limb>) {
    forall i :: 0 <= i < |w| ==> Holds(b, at + 4 * i, Dump(w[i], 4))
  }

  lemma WordsWithin(b: Bytes, at: nat, w: seq<Limb>)
    requires Holds(b, at, DumpWords(w))
    ensures HoldsWords(b, at, w)
  {
    forall i | 0 <= i < |w| ensures Holds(b, at + 4 * i, Dump(w[i], 4)) {
      WordsLayout(w, i);
      HoldsWithin(b, at, DumpWords(w), 4 * i, Dump(w[i], 4));
    }
  }

  /** The two keys, then type, size, sequence number and flags. */
  lemma HeaderLayout(h: Header)
    requires h.Valid()
    ensures var b := DumpedHeader(h);
            && |b| == 56 && HoldsWords(b, 0, h.src) && HoldsWords(b, 20, h.dst)
            && Holds(b, 40, Dump(h.typeNo, 4)) && Holds(b, 44, Dump(h.size, 4))
            && Holds(b, 48, Dump(h.seqnum, 4)) && Holds(b, 52, Dump(h.flags, 4))
  {
    var b, w: seq<Limb> := DumpedHeader(h), [h.typeNo, h.size, h.seqnum, h.flags];
    ThreeParts(b, DumpWords(h.src), DumpWords(h.dst), DumpWords(w), 20, 40);
    WordsWithin(b, 0, h.src);
    WordsWithin(b, 20, h.dst);
    WordsWithin(b, 40, w);
    FourWords(b, 40, w);
  }

  lemma ThreeParts(b: Bytes, x: Bytes, y: Bytes, z: Bytes, second: nat, third: nat)
    requires b == x + y + z && second == |x| && third == |x| + |y|
    ensures Holds(b, 0, x) && Holds(b, second, y) && Holds(b, third, z)
  {
  }

  lemma FourWords(b: Bytes, at: nat, w: seq<Limb>)
    requires |w| == 4 && HoldsWords(b, at, w)
    ensures Holds(b, at, Dump(w[0], 4)) && Holds(b, at + 4, Dump(w[1], 4))
    ensures Holds(b, at + 8, Dump(w[2], 4)) && Holds(b, at + 12, Dump(w[3], 4))
  {
    assert Holds(b, at + 4 * 0, Dump(w[0], 4)) && Holds(b, at + 4 * 1, Dump(w[1], 4));
    assert Holds(b, at + 4 * 2, Dump(w[2], 4)) && Holds(b, at + 4 * 3, Dump(w[3], 4));
  }

  /** The four words of the address, the port, the key. */
  ghost predicate HoldsAddr(b: Bytes, at: nat, a: Addr) {
    HoldsWords(b, at, a.ip) && Holds(b, at + 16, Dump(a.port, 2)) && HoldsWords(b, at + 18, a.key)
  }

  lemma AddrLayout(b: Bytes, at: nat, a: Addr)
    requires a.Valid() && Holds(b, at, DumpAddr(a))
    ensures HoldsAddr(b, at, a)
  {
    var d := DumpAddr(a);
    ThreeParts(d, DumpWords(a.ip), Dump(a.port, 2), DumpWords(a.key), 16, 18);
    HoldsWithin(b, at, d, 0, DumpWords(a.ip));
    HoldsWithin(b, at, d, 16, Dump(a.port, 2));
    HoldsWithin(b, at, d, 18, DumpWords(a.key));
    WordsWithin(b, at, a.ip);
    WordsWithin(b, at + 18, a.key);
  }

  // ------------------------------------------------------------------ arguments

  /** Element i of a list follows what the elements before it take. */
  lemma {:induction false} AddrsLayout(l: seq<Addr>, i: nat)
    requires i < |l| && forall a :: a in l ==> a.Valid()
    ensures l[i].Valid() && Holds(DumpAddrs(l), 38 * i, DumpAddr(l[i]))
  {
    assert l[i] in l && l[0] in l;
    if i == 0 {
      HoldsMiddle([], DumpAddr(l[0]), DumpAddrs(l[1..]));
    } else {
      AddrsLayout(l[1..], i - 1);
      HoldsMiddle(DumpAddr(l[0]), DumpAddrs(l[1..]), []);
      HoldsWithin(DumpAddrs(l), 38, DumpAddrs(l[1..]), 38 * (i - 1), DumpAddr(l[i]));
    }
  }

  lemma {:induction false} KeysLayout(l: seq<Limbs>, i: nat)
    requires i < |l|
    ensures Holds(DumpKeys(l), 20 * i, DumpWords(l[i]))
  {
    if i == 0 {
      HoldsMiddle([], DumpWords(l[0]), DumpKeys(l[1..]));
    } else {
      KeysLayout(l[1..], i - 1);
      HoldsMiddle(DumpWords(l[0]), DumpKeys(l[1..]), []);
      HoldsWithin(DumpKeys(l), 20, DumpKeys(l[1..]), 20 * (i - 1), DumpWords(l[i]));
    }
  }

  lemma {:induction false} StrsLayout(l: seq<Bytes>, i: nat)
    requires i < |l| && forall s :: s in l ==> |s| < WORD
    ensures Holds(DumpStrs(l), StrsSize(l[..i]), Dump(|l[i]|, 4) + l[i])
  {
    assert l[i] in l && l[0] in l;
    if i == 0 {
      InFront(DumpStr(l[0]), DumpStrs(l[1..]), DumpStrs(l), StrsSize(l[..i]));
    } else {
      StrsLayout(l[1..], i - 1);
      StrsSizeOfMore(l, i);
      Within(DumpStr(l[0]), DumpStrs(l[1..]), DumpStrs(l), StrsSize(l[1..][..i - 1]), Dump(|l[i]|, 4) + l[i],
             StrsSize(l[..i]));
    }
  }

  lemma StrsSizeOfMore(l: seq<Bytes>, i: nat)
    requires 0 < i < |l|
    ensures StrsSize(l[..i]) == StrSize(l[0]) + StrsSize(l[1..][..i - 1])
  {
    assert l[..i][1..] == l[1..][..i - 1];
  }

  /** A string: its length, then its bytes. */
  ghost predicate HoldsStr(b: Bytes, at: nat, s: Bytes) {
    Holds(b, at, Dump(|s|, 4)) && Holds(b, at + 4, s)
  }

  ghost predicate HoldsStrs(b: Bytes, at: nat, l: seq<Bytes>) {
    forall i :: 0 <= i < |l| ==> HoldsStr(b, at + StrsSize(l[..i]), l[i])
  }

  lemma TwoWithin(b: Bytes, at: nat, whole: Bytes, inner: nat, first: Bytes, second: Bytes)
    requires Holds(b, at, whole) && Holds(whole, inner, first + second)
    ensures Holds(b, at + inner, first) && Holds(b, at + inner + |first|, second)
  {
    HoldsWithin(b, at, whole, inner, first + second);
    TwoParts(b, at + inner, first, second);
  }

  lemma StrsWithin(b: Bytes, at: nat, l: seq<Bytes>)
    requires (forall s :: s in l ==> |s| < WORD) && Holds(b, at, DumpStrs(l))
    ensures HoldsStrs(b, at, l)
  {
    forall i | 0 <= i < |l| ensures HoldsStr(b, at + StrsSize(l[..i]), l[i]) {
      StrsLayout(l, i);
      TwoWithin(b, at, DumpStrs(l), StrsSize(l[..i]), Dump(|l[i]|, 4), l[i]);
    }
  }

  /** The bytes of each kind of argument from offset at. */
  ghost predicate HoldsArg(b: Bytes, at: nat, a: Arg)
    requires Fits(a)
  {
    match a
    case Uint32(n) => Holds(b, at, Dump(n, 4))
    case Uint64(m) => Holds(b, at, Dump(m, 8))
    case KeyArg(k) => HoldsWords(b, at, k)
    case Str(s) => HoldsStr(b, at, s)
    case AddrArg(addr) => HoldsAddr(b, at, addr)
    case AddrList(l) =>
      Holds(b, at, Dump(|l|, 4)) && forall i :: 0 <= i < |l| ==> HoldsAddr(b, at + 4 + 38 * i, l[i])
    case StringData(l) => Holds(b, at, Dump(1, 4)) && Holds(b, at + 4, Dump(|l|, 4)) && HoldsStrs(b, at + 8, l)
    case KeyData(l) =>
      && Holds(b, at, Dump(2, 4)) && Holds(b, at + 4, Dump(|l|, 4))
      && forall i :: 0 <= i < |l| ==> HoldsWords(b, at + 8 + 20 * i, l[i])
  }

  lemma AddrListLayout(b: Bytes, at: nat, l: seq<Addr>)
    requires Fits(AddrList(l)) && Holds(b, at, Dumped(AddrList(l)))
    ensures HoldsArg(b, at, AddrList(l))
  {
    TwoParts(b, at, Dump32(|l|), DumpAddrs(l));
    forall i | 0 <= i < |l| ensures HoldsAddr(b, at + 4 + 38 * i, l[i]) {
      AddrsLayout(l, i);
      HoldsWithin(b, at + 4, DumpAddrs(l), 38 * i, DumpAddr(l[i]));
      AddrLayout(b, at + 4 + 38 * i, l[i]);
    }
  }

  lemma StringDataLayout(b: Bytes, at: nat, l: seq<Bytes>)
    requires Fits(StringData(l)) && Holds(b, at, Dumped(StringData(l)))
    ensures HoldsArg(b, at, StringData(l))
  {
    TwoParts(b, at, Dump32(1), Dump32(|l|) + DumpStrs(l));
    TwoParts(b, at + 4, Dump32(|l|), DumpStrs(l));
    StrsWithin(b, at + 8, l);
  }

  lemma KeyDataLayout(b: Bytes, at: nat, l: seq<Limbs>)
    requires Fits(KeyData(l)) && Holds(b, at, Dumped(KeyData(l)))
    ensures HoldsArg(b, at, KeyData(l))
  {
    TwoParts(b, at, Dump32(2), Dump32(|l|) + DumpKeys(l));
    TwoParts(b, at + 4, Dump32(|l|), DumpKeys(l));
    forall i | 0 <= i < |l| ensures HoldsWords(b, at + 8 + 20 * i, l[i]) {
      KeysLayout(l, i);
      HoldsWithin(b, at + 8, DumpKeys(l), 20 * i, DumpWords(l[i]));
      WordsWithin(b, at + 8 + 20 * i, l[i]);
    }
  }

  lemma ArgLayout(b: Bytes, at: nat, a: Arg)
    requires Fits(a) && Holds(b, at, Dumped(a))
    ensures HoldsArg(b, at, a)
  {
    match a
    case Uint32(_) =>
    case Uint64(_) =>
    case KeyArg(k) => WordsWithin(b, at, k);
    case Str(s) => TwoParts(b, at, Dump32(|s|), s);
    case AddrArg(addr) => AddrLayout(b, at, addr);
    case AddrList(l) => AddrListLayout(b, at, l);
    case StringData(l) => StringDataLayout(b, at, l);
    case KeyData(l) => KeyDataLayout(b, at, l);
  }

  /** The bytes the first arguments take. */
  function SizeOf(args: seq<Arg>): nat {
    if args == [] then 0 else SerialisedSize(args[0]) + SizeOf(args[1..])
  }

  lemma ArgsApart(args: seq<Arg>)
    requires args != [] && forall j :: 0 <= j < |args| ==> Fits(args[j])
    ensures DumpedArgs(args) == Dumped(args[0]) + DumpedArgs(args[1..])
  {
    assert Parts(args)[1..] == Parts(args[1..]);
  }

  lemma SizeOfMore(args: seq<Arg>, i: nat)
    requires 0 < i < |args|
    ensures SizeOf(args[..i]) == SerialisedSize(args[0]) + SizeOf(args[1..][..i - 1])
  {
    assert args[..i][1..] == args[1..][..i - 1];
  }

  lemma {:induction false} ArgsLayout(args: seq<Arg>, i: nat)
    requires i < |args| && forall j :: 0 <= j < |args| ==> Fits(args[j])
    ensures Holds(DumpedArgs(args), SizeOf(args[..i]), Dumped(args[i]))
  {
    ArgsApart(args);
    var first, rest, all := Dumped(args[0]), DumpedArgs(args[1..]), DumpedArgs(args);
    if i == 0 {
      InFront(first, rest, all, SizeOf(args[..i]));
    } else {
      ArgsLayout(args[1..], i - 1);
      SizeOfMore(args, i);
      Within(first, rest, all, SizeOf(args[1..][..i - 1]), Dumped(args[i]), SizeOf(args[..i]));
    }
  }

  /** A packet as it is sent: the header's fields, then each argument behind those before it. */
  lemma PacketLayout(h: Header, args: seq<Arg>, i: nat)
    requires h.Valid() && i < |args| && forall j :: 0 <= j < |args| ==> Fits(args[j])
    ensures Holds(Sent(h, args), 0, DumpedHeader(h))
    ensures HoldsArg(Sent(h, args), 56 + SizeOf(args[..i]), args[i])
  {
    var b := Sent(h, args);
    InFront(DumpedHeader(h), DumpedArgs(args), b, 0);
    ArgsLayout(args, i);
    Within(DumpedHeader(h), DumpedArgs(args), b, SizeOf(args[..i]), Dumped(args[i]), 56 + SizeOf(args[..i]));
    ArgLayout(b, 56 + SizeOf(args[..i]), args[i]);
  }

  // -------------------------------------------------- what an accepted buffer holds

  lemma {:induction false} ReadWordsIs(b: Bytes, n: nat)
    ensures ReadWords(b, n).Some? <==> |b| >= 4 * n
    ensures ReadWords(b, n).Some? ==> DumpWords(ReadWords(b, n).value) == b[..4 * n]
  {
    if n > 0 && |b| >= 4 {
      ReadWordsIs(b[4..], n - 1);
      DumpRead(b[..4]);
      assert |b| >= 4 * n ==> b[..4 * n] == b[..4] + b[4..][..4 * (n - 1)];
    }
  }

  /** A header is read exactly from the bytes it is written as. */
  lemma ReadHeaderIff(b: Bytes, h: Header)
    requires h.Valid()
    ensures ReadHeader(b) == Some(h) <==> Holds(b, 0, DumpedHeader(h))
  {
    if |b| >= HEADER_SIZE {
      if Holds(b, 0, DumpedHeader(h)) {
        assert b == DumpedHeader(h) + b[HEADER_SIZE..];
        HeaderRoundTrip(h, b[HEADER_SIZE..]);
      }
      ReadWordsIs(b, 5);
      ReadWordsIs(b[20..], 5);
      ReadWordsIs(b[40..], 4);
      var w := ReadWords(b[40..], 4).value;
      assert w == [w[0], w[1], w[2], w[3]];
      assert b[..HEADER_SIZE] == b[..20] + b[20..][..20] + b[40..][..16];
    }
  }

  /** Set data starts with its tag; a buffer with any other is refused. */
  lemma ReadDataTag(b: Bytes)
    ensures var a := ReadData(b);
            a.Some? ==> |b| >= 8 && if a.value.StringData? then Holds(b, 0, Dump(1, 4))
                                    else a.value.KeyData? && Holds(b, 0, Dump(2, 4))
  {
    if |b| >= 4 {
      DumpRead(b[..4]);
    }
  }

  lemma ReadArgHasType(t: ArgType, b: Bytes)
    ensures ReadArg(t, b).Some? ==> HasType(ReadArg(t, b).value, t)
  {
    if t == TData {
      ReadDataTag(b);
    }
  }

  /** The arguments read are those of the schema, and no bytes are read beyond the buffer. */
  lemma {:induction false} ReadArgsAreTyped(schema: seq<ArgType>, b: Bytes)
    ensures var r := ReadArgs(schema, b);
            r.Some? ==>
              && |r.value| == |schema| && SizeOf(r.value) <= |b|
              && forall i :: 0 <= i < |schema| ==> HasType(r.value[i], schema[i])
    decreases |schema|
  {
    if schema != [] && ReadArgs(schema, b).Some? {
      var a := ReadArg(schema[0], b).value;
      var tail := b[SerialisedSize(a)..];
      ReadArgHasType(schema[0], b);
      ReadArgsAreTyped(schema[1..], tail);
      var rest := ReadArgs(schema[1..], tail).value;
      assert ([a] + rest)[1..] == rest;
    }
  }

  /** A datagram that is accepted holds its header, a known type, its own size and arguments of that type. */
  lemma AcceptedHolds(types: map<nat, seq<ArgType>>, b: Bytes)
    ensures match Receive(types, b)
            case Malformated => true
            case Received(h, args) =>
              && h.Valid() && Holds(b, 0, DumpedHeader(h)) && |b| == 56 + h.size && h.typeNo in types
              && |args| == |types[h.typeNo]| && SizeOf(args) <= h.size
              && forall i :: 0 <= i < |args| ==> HasType(args[i], types[h.typeNo][i])
  {
    var r := Receive(types, b);
    if r.Received? {
      ReadHeaderIff(b, r.header);
      ReadArgsAreTyped(types[r.header.typeNo], b[HEADER_SIZE..]);
    }
  }
}
