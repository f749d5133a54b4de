/**
 * Integers as bytes: network order, the memory of a little-endian host, and
 * the swaps between them.
 */
module ByteOrder {
  import opened FileChunks

  type Bytes = seq<byte>

  const WORD: int := 0x1_0000_0000

  function Pow256(w: nat): (p: nat)
    ensures p > 0
  {
    if w == 0 then 1 else 0x100 * Pow256(w - 1)
  }

  lemma Pow256Values()
    ensures Pow256(2) == 0x1_0000 && Pow256(4) == WORD && Pow256(8) == WORD * WORD
  {
    assert Pow256(4) == 0x1_0000 * Pow256(2);
  }

  /** The w low bytes of n, most significant first. */
  function Dump(n: nat, w: nat): (b: Bytes)
    ensures |b| == w
  {
    if w == 0 then [] else Dump(n / 0x100, w - 1) + [n % 0x100]
  }

  function Read(b: Bytes): (n: nat)
    ensures n < Pow256(|b|)
  {
    if b == [] then 0 else 0x100 * Read(b[..|b| - 1]) + b[|b| - 1]
  }

  lemma {:induction false} ReadDump(n: nat, w: nat)
    requires n < Pow256(w)
    ensures Read(Dump(n, w)) == n
  {
    if w > 0 {
      ReadDump(n / 0x100, w - 1);
      assert Dump(n, w)[..w - 1] == Dump(n / 0x100, w - 1);
    }
  }

  lemma {:induction false} DumpRead(b: Bytes)
    ensures Dump(Read(b), |b|) == b
  {
    if b != [] {
      var q, r := Read(b[..|b| - 1]), b[|b| - 1];
      DivMod(q, r);
      DumpRead(b[..|b| - 1]);
    }
  }

  lemma DivMod(q: int, r: byte)
    ensures (0x100 * q + r) / 0x100 == q && (0x100 * q + r) % 0x100 == r
  {
  }

  lemma {:induction false} DumpConcat(hi: nat, w: nat, lo: nat, v: nat)
    requires lo < Pow256(v)
    ensures Dump(lo + Pow256(v) * hi, w + v) == Dump(hi, w) + Dump(lo, v)
  {
    if v > 0 {
      var m := Pow256(v - 1) * hi;
      assert Pow256(v) * hi == 0x100 * m by { MulAssoc(Pow256(v - 1), hi); }
      DivMod(lo / 0x100 + m, lo % 0x100);
      DumpConcat(hi, w, lo / 0x100, v - 1);
      assert Dump(lo + 0x100 * m, w + v) == Dump(lo / 0x100 + m, w + v - 1) + [lo % 0x100];
    }
  }

  lemma MulAssoc(p: int, h: int)
    ensures (0x100 * p) * h == 0x100 * (p * h)
  {
  }

  // --------------------------------------------- a little-endian host's memory

  /** The w low bytes of n as they lie in memory, least significant first. */
  function Memory(n: nat, w: nat): (b: Bytes)
    ensures |b| == w
  {
    if w == 0 then [] else [n % 0x100] + Memory(n / 0x100, w - 1)
  }

  function Reverse(b: Bytes): (r: Bytes)
    ensures |r| == |b| && forall i :: 0 <= i < |b| ==> r[i] == b[|b| - 1 - i]
  {
    seq(|b|, i requires 0 <= i < |b| => b[|b| - 1 - i])
  }

  lemma {:induction false} MemoryIsReversed(n: nat, w: nat)
    ensures Memory(n, w) == Reverse(Dump(n, w))
  {
    if w > 0 {
      MemoryIsReversed(n / 0x100, w - 1);
    }
  }

  /** htonl: the integer whose memory reads in the opposite direction. */
  function Htonl(n: nat): (r: nat)
    requires n < WORD
    ensures r < WORD
  {
    Pow256Values();
    Read(Memory(n, 4))
  }

  /** htonll as written: swapped halves, each swapped; or is plus on disjoint bits. */
  function Htonll(n: nat): (r: nat)
    requires n < WORD * WORD
    ensures r < WORD * WORD
  {
    Htonl(n / WORD) + Htonl(n % WORD) * WORD
  }

  /** Storing the swapped integer stores the bytes in network order. */
  lemma HtonlIsNetworkOrder(n: nat)
    requires n < WORD
    ensures Memory(Htonl(n), 4) == Dump(n, 4)
    ensures Htonl(Htonl(n)) == n
  {
    Pow256Values();
    MemoryIsReversed(n, 4);
    MemoryIsReversed(Htonl(n), 4);
    DumpRead(Memory(n, 4));
    ReadDump(n, 4);
  }

  lemma {:induction false} MemoryConcat(lo: nat, v: nat, hi: nat, w: nat)
    requires lo < Pow256(v)
    ensures Memory(lo + Pow256(v) * hi, v + w) == Memory(lo, v) + Memory(hi, w)
  {
    if v > 0 {
      var m := Pow256(v - 1) * hi;
      assert Pow256(v) * hi == 0x100 * m by { MulAssoc(Pow256(v - 1), hi); }
      DivMod(lo / 0x100 + m, lo % 0x100);
      MemoryConcat(lo / 0x100, v - 1, hi, w);
      assert Memory(lo + 0x100 * m, v + w) == [lo % 0x100] + Memory(lo / 0x100 + m, v + w - 1);
    }
  }

  /** Both halves, by name, to keep the powers out of the arithmetic. */
  lemma TwoWords(x: nat, y: nat, m: nat, v: nat, hi: nat, lo: nat, n: nat)
    requires x < Pow256(v) && lo < Pow256(v) && m == x + Pow256(v) * y && n == lo + Pow256(v) * hi
    requires Memory(x, v) == Dump(hi, v) && Memory(y, v) == Dump(lo, v)
    ensures Memory(m, v + v) == Dump(n, v + v)
  {
    MemoryConcat(x, v, y, v);
    DumpConcat(hi, v, lo, v);
  }

  lemma HtonllIsNetworkOrder(n: nat)
    requires n < WORD * WORD
    ensures Memory(Htonll(n), 8) == Dump(n, 8)
  {
    HtonlIsNetworkOrder(n / WORD);
    HtonlIsNetworkOrder(n % WORD);
    Pow256Values();
    TwoWords(Htonl(n / WORD), Htonl(n % WORD), Htonll(n), 4, n / WORD, n % WORD, n);
  }

  lemma HtonllHalves(n: nat)
    requires n < WORD * WORD
    ensures Htonll(n) / WORD == Htonl(n % WORD) && Htonll(n) % WORD == Htonl(n / WORD)
  {
    SplitWord(Htonl(n / WORD), Htonl(n % WORD));
  }

  /** ntohll is the same function, and undoes it. */
  lemma HtonllTwice(n: nat)
    requires n < WORD * WORD
    ensures Htonll(Htonll(n)) == n
  {
    HtonllHalves(n);
    HtonlIsNetworkOrder(n / WORD);
    HtonlIsNetworkOrder(n % WORD);
  }

  lemma SplitWord(lo: nat, hi: nat)
    requires lo < WORD
    ensures (lo + hi * WORD) / WORD == hi && (lo + hi * WORD) % WORD == lo
  {
  }
}
