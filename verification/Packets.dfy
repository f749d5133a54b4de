/**
 * Packets: a header and the arguments its type prescribes, written into a
 * growing buffer and read back with a moving pointer.
 */
module Packets {
  import opened KeyLimbs
  import opened ByteOrder
  import opened Options
  import opened Wire

  datatype ArgType = TUint32 | TUint64 | TKey | TStr | TAddr | TAddrList | TData

  /** Argument values; the sets of Data in iteration order. */
  datatype Arg =
    | Uint32(n: nat)
    | Uint64(m: nat)
    | KeyArg(key: Limbs)
    | Str(s: Bytes)
    | AddrArg(addr: Addr)
    | AddrList(addrs: seq<Addr>)
    | StringData(names: seq<Bytes>)
    | KeyData(keys: seq<Limbs>)

  const STRING_LIST: nat := 1
  const KEY_LIST: nat := 2

  predicate HasType(a: Arg, t: ArgType) {
    match t
    case TUint32 => a.Uint32?
    case TUint64 => a.Uint64?
    case TKey => a.KeyArg?
    case TStr => a.Str?
    case TAddr => a.AddrArg?
    case TAddrList => a.AddrList?
    case TData => a.StringData? || a.KeyData?
  }

  /** Sizes within 32 bits, ports within 16. */
  predicate Fits(a: Arg) {
    match a
    case Uint32(n) => n < WORD
    case Uint64(m) => m < WORD * WORD
    case KeyArg(_) => true
    case Str(s) => |s| < WORD
    case AddrArg(addr) => addr.Valid()
    case AddrList(l) => |l| < WORD && forall x :: x in l ==> x.Valid()
    case StringData(l) => |l| < WORD && forall s :: s in l ==> |s| < WORD
    case KeyData(l) => |l| < WORD
  }

  /** Sets in their order, as the program holds them. */
  predicate InOrder(a: Arg) {
    match a
    case StringData(l) => SortedStrs(l)
    case KeyData(l) => SortedKeys(l)
    case _ => true
  }

  /** Strings without NUL. */
  ghost predicate NoNul(a: Arg) {
    match a
    case Str(s) => NulFree(s)
    case StringData(l) => AllNulFree(l)
    case _ => true
  }

  ghost predicate Clean(a: Arg) {
    InOrder(a) && NoNul(a)
  }

  function Dumped(a: Arg): (b: Bytes)
    requires Fits(a)
    ensures |b| == SerialisedSize(a)
  {
    match a
    case Uint32(n) => Dump32(n)
    case Uint64(m) => Dump64(m)
    case KeyArg(k) => DumpWords(k)
    case Str(s) => DumpStr(s)
    case AddrArg(addr) => DumpAddr(addr)
    case AddrList(l) => Dump32(|l|) + DumpAddrs(l)
    case StringData(l) => Dump32(STRING_LIST) + (Dump32(|l|) + DumpStrs(l))
    case KeyData(l) => Dump32(KEY_LIST) + (Dump32(|l|) + DumpKeys(l))
  }

  /** The getSerialisedSize functions. */
  function SerialisedSize(a: Arg): nat {
    match a
    case Uint32(_) => 4
    case Uint64(_) => 8
    case KeyArg(_) => KEY_SIZE
    case Str(s) => StrSize(s)
    case AddrArg(_) => ADDR_SIZE
    case AddrList(l) => 4 + ADDR_SIZE * |l|
    case StringData(l) => 8 + StrsSize(l)
    case KeyData(l) => 8 + KEY_SIZE * |l|
  }

  /** Data::createData: a tag, then the set it announces. */
  function ReadData(b: Bytes): Option<Arg> {
    var tag := Read32(b);
    if tag.None? then None
    else
      var n := Read32(b[4..]);
      if n.None? then None
      else if tag.value == STRING_LIST then
        var l := ReadStrs(b[8..], n.value);
        if l.None? then None else Some(StringData(l.value))
      else if tag.value == KEY_LIST then
        var l := ReadKeys(b[8..], n.value);
        if l.None? then None else Some(KeyData(l.value))
      else None
  }

  function ReadArg(t: ArgType, b: Bytes): Option<Arg> {
    match t
    case TUint32 => var n := Read32(b); if n.None? then None else Some(Uint32(n.value))
    case TUint64 => var m := ReadInt(b, 8); if m.None? then None else Some(Uint64(m.value))
    case TKey => var k := ReadKey(b); if k.None? then None else Some(KeyArg(k.value))
    case TStr => var s := ReadStr(b); if s.None? then None else Some(Str(s.value))
    case TAddr => var a := ReadAddr(b); if a.None? then None else Some(AddrArg(a.value))
    case TAddrList =>
      var n := Read32(b);
      if n.None? then None
      else var l := ReadAddrs(b[4..], n.value); if l.None? then None else Some(AddrList(l.value))
    case TData => ReadData(b)
  }

  lemma TagAndCount(b: Bytes, tag: nat, n: nat, tail: Bytes)
    requires tag < WORD && n < WORD && b == Dump32(tag) + (Dump32(n) + tail)
    ensures Read32(b) == Some(tag) && Read32(b[4..]) == Some(n) && b[8..] == tail
  {
    ReadDump32(tag, Dump32(n) + tail);
    ReadDump32(n, tail);
    assert b[8..] == b[4..][4..];
  }

  lemma TaggedThen(tag: Bytes, count: Bytes, elements: Bytes, rest: Bytes)
    ensures tag + (count + elements) + rest == tag + (count + (elements + rest))
  {
  }

  lemma ReadDumpedStrings(l: seq<Bytes>, rest: Bytes)
    requires Fits(StringData(l)) && Clean(StringData(l))
    ensures ReadData(Dumped(StringData(l)) + rest) == Some(StringData(l))
  {
    var b, tail := Dumped(StringData(l)) + rest, DumpStrs(l) + rest;
    TaggedThen(Dump32(STRING_LIST), Dump32(|l|), DumpStrs(l), rest);
    TagAndCount(b, STRING_LIST, |l|, tail);
    ReadDumpStrs(l, rest);
    StringsOf(b, l, tail);
  }

  lemma StringsOf(b: Bytes, l: seq<Bytes>, tail: Bytes)
    requires Read32(b) == Some(STRING_LIST) && Read32(b[4..]) == Some(|l|) && b[8..] == tail
    requires ReadStrs(tail, |l|) == Some(l)
    ensures ReadData(b) == Some(StringData(l))
  {
  }

  lemma ReadDumpedKeys(l: seq<Limbs>, rest: Bytes)
    requires Fits(KeyData(l)) && Clean(KeyData(l))
    ensures ReadData(Dumped(KeyData(l)) + rest) == Some(KeyData(l))
  {
    var b, tail := Dumped(KeyData(l)) + rest, DumpKeys(l) + rest;
    TaggedThen(Dump32(KEY_LIST), Dump32(|l|), DumpKeys(l), rest);
    TagAndCount(b, KEY_LIST, |l|, tail);
    ReadDumpKeys(l, rest);
    KeysOf(b, l, tail);
  }

  lemma KeysOf(b: Bytes, l: seq<Limbs>, tail: Bytes)
    requires Read32(b) == Some(KEY_LIST) && Read32(b[4..]) == Some(|l|) && b[8..] == tail
    requires ReadKeys(tail, |l|) == Some(l)
    ensures ReadData(b) == Some(KeyData(l))
  {
  }

  lemma ReadDumpedAddrs(l: seq<Addr>, rest: Bytes)
    requires Fits(AddrList(l))
    ensures ReadArg(TAddrList, Dumped(AddrList(l)) + rest) == Some(AddrList(l))
  {
    var b, tail := Dumped(AddrList(l)) + rest, DumpAddrs(l) + rest;
    assert b == Dump32(|l|) + tail;
    ReadDump32(|l|, tail);
    ReadDumpAddrs(l, rest);
    AddrsOf(b, l, tail);
  }

  lemma AddrsOf(b: Bytes, l: seq<Addr>, tail: Bytes)
    requires Read32(b) == Some(|l|) && b[4..] == tail && ReadAddrs(tail, |l|) == Some(l)
    ensures ReadArg(TAddrList, b) == Some(AddrList(l))
  {
  }

  /** One argument comes back, whatever follows it in the buffer. */
  lemma ArgRoundTrip(t: ArgType, a: Arg, rest: Bytes)
    requires HasType(a, t) && Fits(a) && Clean(a)
    ensures ReadArg(t, Dumped(a) + rest) == Some(a)
    ensures (Dumped(a) + rest)[SerialisedSize(a)..] == rest
  {
    match a
    case Uint32(n) => ReadDump32(n, rest);
    case Uint64(m) => ReadDump64(m, rest);
    case KeyArg(k) => ReadDumpWords(k, rest);
    case Str(s) => ReadDumpStr(s, rest);
    case AddrArg(addr) => ReadDumpAddr(addr, rest);
    case AddrList(l) => ReadDumpedAddrs(l, rest);
    case StringData(l) => ReadDumpedStrings(l, rest);
    case KeyData(l) => ReadDumpedKeys(l, rest);
  }

  /** A string argument comes back whole exactly when it holds no NUL. */
  lemma StrRoundTripIff(s: Bytes, rest: Bytes)
    requires |s| < WORD
    ensures ReadArg(TStr, Dumped(Str(s)) + rest) == Some(Str(s)) <==> NulFree(s)
  {
    ReadDumpStr(s, rest);
  }

  // ------------------------------------------------------------ argument lists

  ghost predicate Matches(schema: seq<ArgType>, args: seq<Arg>) {
    |args| == |schema| && forall i :: 0 <= i < |args| ==> HasType(args[i], schema[i]) && Fits(args[i])
  }

  ghost predicate AllClean(args: seq<Arg>) {
    forall i :: 0 <= i < |args| ==> Clean(args[i])
  }

  function Flat(parts: seq<Bytes>): Bytes {
    if parts == [] then [] else parts[0] + Flat(parts[1..])
  }

  function Parts(args: seq<Arg>): (r: seq<Bytes>)
    requires forall i :: 0 <= i < |args| ==> Fits(args[i])
    ensures |r| == |args| && forall i :: 0 <= i < |args| ==> r[i] == Dumped(args[i])
  {
    seq(|args|, i requires 0 <= i < |args| => Dumped(args[i]))
  }

  function DumpedArgs(args: seq<Arg>): (b: Bytes)
    requires forall i :: 0 <= i < |args| ==> Fits(args[i])
  {
    Flat(Parts(args))
  }

  /** Each value is followed by the next after as many bytes as it would serialise to. */
  function ReadArgs(schema: seq<ArgType>, b: Bytes): Option<seq<Arg>> {
    if schema == [] then Some([])
    else
      var a := ReadArg(schema[0], b);
      if a.None? || SerialisedSize(a.value) > |b| then None
      else
        var rest := ReadArgs(schema[1..], b[SerialisedSize(a.value)..]);
        if rest.None? then None else Some([a.value] + rest.value)
  }

  /** No argument that is read holds a string with a NUL. */
  lemma ReadArgNoNul(t: ArgType, b: Bytes)
    ensures var a := ReadArg(t, b); a.Some? ==> NoNul(a.value)
  {
    if t == TStr {
      ReadNulFree(b, 0);
    } else if t == TData && ReadArg(t, b).Some? {
      ReadNulFree(b[8..], Read32(b[4..]).value);
    }
  }

  ghost predicate NoneHasNul(args: seq<Arg>) {
    forall i :: 0 <= i < |args| ==> NoNul(args[i])
  }

  lemma NoNulCons(a: Arg, rest: seq<Arg>)
    requires NoNul(a) && NoneHasNul(rest)
    ensures NoneHasNul([a] + rest)
  {
    forall i | 0 <= i < |rest| + 1 ensures NoNul(([a] + rest)[i]) {
      assert ([a] + rest)[i] == if i == 0 then a else rest[i - 1];
    }
  }

  lemma {:induction false} ReadArgsNoNul(schema: seq<ArgType>, b: Bytes)
    ensures var r := ReadArgs(schema, b); r.Some? ==> NoneHasNul(r.value)
    decreases |schema|
  {
    if schema != [] {
      ReadArgNoNul(schema[0], b);
      var a := ReadArg(schema[0], b);
      if a.Some? && SerialisedSize(a.value) <= |b| {
        var rest := ReadArgs(schema[1..], b[SerialisedSize(a.value)..]);
        ReadArgsNoNul(schema[1..], b[SerialisedSize(a.value)..]);
        if rest.Some? {
          NoNulCons(a.value, rest.value);
        }
      }
    }
  }

  lemma {:induction false} ArgsRoundTrip(schema: seq<ArgType>, args: seq<Arg>, rest: Bytes)
    requires Matches(schema, args) && AllClean(args)
    ensures ReadArgs(schema, DumpedArgs(args) + rest) == Some(args)
  {
    if args != [] {
      var tail := DumpedArgs(args[1..]) + rest;
      assert Parts(args)[1..] == Parts(args[1..]);
      assert DumpedArgs(args) + rest == Dumped(args[0]) + tail;
      ArgRoundTrip(schema[0], args[0], tail);
      ArgsRoundTrip(schema[1..], args[1..], rest);
      assert args == [args[0]] + args[1..];
    }
  }

  // ------------------------------------------------------------------- header

  const HEADER_SIZE: nat := 56

  datatype Header = Header(src: Limbs, dst: Limbs, typeNo: nat, size: nat, seqnum: nat, flags: nat) {
    predicate Valid() {
      typeNo < WORD && size < WORD && seqnum < WORD && flags < WORD
    }
  }

  function DumpedHeader(h: Header): (b: Bytes)
    requires h.Valid()
    ensures |b| == HEADER_SIZE
  {
    DumpWords(h.src) + DumpWords(h.dst) + DumpWords([h.typeNo, h.size, h.seqnum, h.flags])
  }

  function ReadHeader(b: Bytes): (r: Option<Header>)
    ensures r.Some? ==> r.value.Valid()
  {
    var src := ReadKey(b);
    if |b| < HEADER_SIZE || src.None? then None
    else
      var dst, w := ReadKey(b[20..]), ReadWords(b[40..], 4);
      if dst.None? || w.None? then None
      else Some(Header(src.value, dst.value, w.value[0], w.value[1], w.value[2], w.value[3]))
  }

  lemma HeaderRoundTrip(h: Header, rest: Bytes)
    requires h.Valid()
    ensures ReadHeader(DumpedHeader(h) + rest) == Some(h)
    ensures (DumpedHeader(h) + rest)[HEADER_SIZE..] == rest
  {
    var b := DumpedHeader(h) + rest;
    var w: seq<Limb> := [h.typeNo, h.size, h.seqnum, h.flags];
    var tail := DumpWords(w) + rest;
    assert b == DumpWords(h.src) + (DumpWords(h.dst) + tail);
    ReadDumpWords(h.src, DumpWords(h.dst) + tail);
    ReadDumpWords(h.dst, tail);
    ReadDumpWords(w, rest);
    assert b[40..] == b[20..][20..];
    assert b[HEADER_SIZE..] == b[40..][16..];
  }

  /** What the receiving constructor makes of a datagram. */
  datatype Received = Malformated | Received(header: Header, args: seq<Arg>)

  function Receive(types: map<nat, seq<ArgType>>, b: Bytes): Received {
    var h := ReadHeader(b);
    if h.None? || h.value.typeNo !in types || h.value.size != |b| - HEADER_SIZE then Malformated
    else
      var args := ReadArgs(types[h.value.typeNo], b[HEADER_SIZE..]);
      if args.None? then Malformated else Received(h.value, args.value)
  }

  function Sent(h: Header, args: seq<Arg>): Bytes
    requires h.Valid() && forall i :: 0 <= i < |args| ==> Fits(args[i])
  {
    DumpedHeader(h) + DumpedArgs(args)
  }

  /** Header and arguments come back, for every schema and argument list, exactly when no string holds a NUL. */
  lemma PacketRoundTrip(types: map<nat, seq<ArgType>>, h: Header, args: seq<Arg>)
    requires h.Valid() && h.typeNo in types
    requires Matches(types[h.typeNo], args) && forall i :: 0 <= i < |args| ==> InOrder(args[i])
    requires h.size == |DumpedArgs(args)|
    ensures Receive(types, Sent(h, args)) == Received(h, args) <==> NoneHasNul(args)
  {
    HeaderRoundTrip(h, DumpedArgs(args));
    ReadArgsNoNul(types[h.typeNo], DumpedArgs(args));
    if NoneHasNul(args) {
      assert DumpedArgs(args) + [] == DumpedArgs(args);
      ArgsRoundTrip(types[h.typeNo], args, []);
    }
  }

  // ------------------------------------------------------------------ the class

  class Packet {
    var typeNo: nat
    var schema: seq<ArgType>
    var size: nat
    var src: Limbs
    var dst: Limbs
    var flags: nat
    var seqnum: nat
    var data: Option<Bytes>
    var argList: seq<Option<Arg>>

    constructor (typeNo: nat, schema: seq<ArgType>, defFlags: nat, src: Limbs, dst: Limbs)
      ensures this.typeNo == typeNo && this.schema == schema && flags == defFlags
      ensures this.src == src && this.dst == dst && size == seqnum == 0 && data == None && argList == []
    {
      this.typeNo, this.schema, this.flags, this.src, this.dst := typeNo, schema, defFlags, src, dst;
      size, seqnum, data, argList := 0, 0, None, [];
    }

    ghost function HeaderNow(): Header
      reads this
    {
      Header(src, dst, typeNo, size, seqnum, flags)
    }

    /** All arguments of the schema are set, as the assertions of GetArg demand. */
    ghost predicate Complete()
      reads this`argList, this`schema
    {
      && |argList| >= |schema|
      && forall i :: 0 <= i < |schema| ==>
           argList[i].Some? && HasType(argList[i].value, schema[i]) && Fits(argList[i].value)
    }

    ghost function Args(): (r: seq<Arg>)
      reads this`argList, this`schema
      requires Complete()
      ensures Matches(schema, r) && forall i :: 0 <= i < |r| ==> argList[i] == Some(r[i])
    {
      var l, n := argList, |schema|;
      seq(n, i requires 0 <= i < n && i < |l| && l[i].Some? => l[i].value)
    }

    method SetArg(i: nat, a: Arg)
      modifies this`argList
      ensures |argList| == if |old(argList)| <= i then i + 1 else |old(argList)|
      ensures argList[i] == Some(a)
      ensures forall j :: 0 <= j < |argList| && j != i ==>
                argList[j] == if j < |old(argList)| then old(argList)[j] else None
    {
      while |argList| <= i
        invariant |old(argList)| <= |argList| && (|argList| <= i + 1 || argList == old(argList))
        invariant forall j :: 0 <= j < |argList| ==> argList[j] == if j < |old(argList)| then old(argList)[j] else None
        decreases i + 1 - |argList|
      {
        argList := argList + [None];
      }
      argList := argList[i := Some(a)];
    }

    /** Append every argument; a packet that has its data keeps it. */
    method BuildDataFromArgs()
      requires data.None? ==> Complete()
      modifies this`data, this`size
      ensures old(data).Some? ==> unchanged(this)
      ensures old(data).None? ==>
                size == |DumpedArgs(Args())| && data == if schema == [] then None else Some(DumpedArgs(Args()))
    {
      if data.Some? {
        return;
      }
      size := 0;
      AppendArgs(Args());
    }

    /** The loop over the schema. */
    method AppendArgs(ghost args: seq<Arg>)
      requires |args| == |schema| <= |argList| && data == None && size == 0
      requires forall i :: 0 <= i < |args| ==> argList[i] == Some(args[i]) && Fits(args[i])
      modifies this`data, this`size
      ensures size == |DumpedArgs(args)| && data == if schema == [] then None else Some(DumpedArgs(args))
    {
      ghost var done := [];
      for i := 0 to |schema|
        invariant done == DumpedArgs(args[..i]) && size == |done|
        invariant data == if i == 0 then None else Some(done)
      {
        DumpedArgsSnoc(args, i);
        AppendArg(argList[i].value);
        done := done + Dumped(args[i]);
      }
      assert args[..|schema|] == args;
    }

    /** Grow the data by one argument. */
    method AppendArg(arg: Arg)
      requires Fits(arg)
      modifies this`data, this`size
      ensures data == Some((if old(data).None? then [] else old(data).value) + Dumped(arg))
      ensures size == old(size) + |Dumped(arg)|
    {
      data := Some((if data.None? then [] else data.value) + Dumped(arg));
      size := size + SerialisedSize(arg);
    }

    method DumpBuffer() returns (dump: Bytes)
      requires typeNo < WORD && seqnum < WORD && flags < WORD
      requires if data.Some? then size == |data.value| < WORD else Complete() && |DumpedArgs(Args())| < WORD
      modifies this`data, this`size
      ensures HeaderNow().Valid()
      ensures old(data).Some? ==> unchanged(this) && dump == DumpedHeader(HeaderNow()) + data.value
      ensures old(data).None? ==> size == |DumpedArgs(Args())| && dump == Sent(HeaderNow(), Args())
    {
      BuildDataFromArgs();
      dump := DumpWords(src) + DumpWords(dst) + DumpWords([typeNo, size, seqnum, flags]);
      if data.Some? {
        dump := dump + data.value;
      }
    }

    /** The receiving constructor; null stands for the exception it throws. */
    static method FromBuffer(types: map<nat, seq<ArgType>>, b: Bytes) returns (p: Packet?)
      ensures match Receive(types, b)
              case Malformated => p == null
              case Received(h, args) =>
                && p != null && fresh(p) && p.data == None && p.schema == types[h.typeNo]
                && p.HeaderNow() == h && p.argList == Somes(args)
    {
      var h := ReadHeader(b);
      if h.None? || h.value.typeNo !in types || h.value.size != |b| - HEADER_SIZE {
        return null;
      }
      var hv := h.value;
      var q := new Packet(hv.typeNo, types[hv.typeNo], hv.flags, hv.src, hv.dst);
      q.size, q.seqnum := hv.size, hv.seqnum;
      var ok := q.BuildArgsFromData(b[HEADER_SIZE..]);
      p := if ok then q else null;
    }

    method BuildArgsFromData(data0: Bytes) returns (ok: bool)
      requires argList == []
      modifies this`argList, this`data
      ensures match ReadArgs(schema, data0)
              case None => !ok
              case Some(args) => ok && argList == Somes(args) && data == None
    {
      var p := data0;
      ghost var done: seq<Arg> := [];
      assert schema[0..] == schema && forall l: seq<Arg> :: [] + l == l;
      for i := 0 to |schema|
        invariant argList == Somes(done) && |done| == i
        invariant ReadArgs(schema, data0) == Prepended(done, ReadArgs(schema[i..], p))
      {
        assert schema[i..][0] == schema[i] && schema[i..][1..] == schema[i + 1..];
        var a := ReadArg(schema[i], p);
        if a.None? || SerialisedSize(a.value) > |p| {
          return false;
        }
        PrependStep(schema[i..], p, a.value, done);
        SetArg(i, a.value);
        done := done + [a.value];
        p := p[SerialisedSize(a.value)..];
      }
      assert schema[|schema|..] == [];
      assert done + [] == done;
      data := None;
      ok := true;
    }
  }

  function Somes(args: seq<Arg>): (r: seq<Option<Arg>>)
    ensures |r| == |args| && forall i :: 0 <= i < |args| ==> r[i] == Some(args[i])
  {
    seq(|args|, i requires 0 <= i < |args| => Some(args[i]))
  }

  function Prepended(done: seq<Arg>, rest: Option<seq<Arg>>): Option<seq<Arg>> {
    if rest.None? then None else Some(done + rest.value)
  }

  lemma PrependStep(schema: seq<ArgType>, b: Bytes, a: Arg, done: seq<Arg>)
    requires schema != [] && ReadArg(schema[0], b) == Some(a) && SerialisedSize(a) <= |b|
    ensures Prepended(done, ReadArgs(schema, b)) ==
            Prepended(done + [a], ReadArgs(schema[1..], b[SerialisedSize(a)..]))
  {
    var rest := ReadArgs(schema[1..], b[SerialisedSize(a)..]);
    if rest.Some? {
      assert done + ([a] + rest.value) == done + [a] + rest.value;
    }
  }

  lemma DumpedArgsSnoc(args: seq<Arg>, i: nat)
    requires i < |args| && forall j :: 0 <= j < |args| ==> Fits(args[j])
    ensures DumpedArgs(args[..i + 1]) == DumpedArgs(args[..i]) + Dumped(args[i])
  {
    assert Parts(args[..i + 1]) == Parts(args[..i]) + [Dumped(args[i])];
    FlatSnoc(Parts(args[..i]), Dumped(args[i]));
  }

  lemma {:induction false} FlatSnoc(parts: seq<Bytes>, x: Bytes)
    ensures Flat(parts + [x]) == Flat(parts) + x
  {
    if parts == [] {
      assert Flat([x]) == x + Flat([]);
    } else {
      FlatSnoc(parts[1..], x);
      assert (parts + [x])[1..] == parts[1..] + [x];
    }
  }
}
