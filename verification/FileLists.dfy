/**
 * The chunk list of a file as a partial map from offsets to bytes, and what
 * one SetChunk or Truncate makes of it.
 */
module FileLists {
  import opened FileChunks

  /** What is known at an offset. */
  datatype Known = Missing | Byte(value: byte)

  /** Sorted, disjoint, no empty chunk. */
  ghost predicate WellFormed(l: seq<Chunk>) {
    && (forall i :: 0 <= i < |l| ==> l[i].Size() > 0)
    && forall i, j :: 0 <= i < j < |l| ==> l[i].End() <= l[j].offset
  }

  function View(l: seq<Chunk>, o: int): Known {
    if l == [] then Missing
    else if l[0].Has(o) then Byte(l[0].At(o))
    else View(l[1..], o)
  }

  ghost predicate Held(l: seq<Chunk>, o: int) {
    View(l, o) != Missing
  }

  lemma {:induction false} ViewConcat(a: seq<Chunk>, b: seq<Chunk>, o: int)
    ensures View(a + b, o) == if View(a, o) != Missing then View(a, o) else View(b, o)
  {
    if a == [] {
      assert a + b == b;
    } else {
      assert (a + b)[1..] == a[1..] + b;
      ViewConcat(a[1..], b, o);
    }
  }

  lemma {:induction false} ViewAt(l: seq<Chunk>, i: nat, o: int)
    requires i < |l| && l[i].Has(o) && forall j :: 0 <= j < i ==> !l[j].Has(o)
    ensures View(l, o) == Byte(l[i].At(o))
  {
    if i > 0 {
      ViewAt(l[1..], i - 1, o);
    }
  }

  lemma {:induction false} ViewMissing(l: seq<Chunk>, o: int)
    ensures View(l, o) == Missing <==> forall i :: 0 <= i < |l| ==> !l[i].Has(o)
  {
    if l != [] {
      ViewMissing(l[1..], o);
      if !l[0].Has(o) && View(l[1..], o) == Missing {
        forall i | 0 <= i < |l| ensures !l[i].Has(o) {
          assert i > 0 ==> l[i] == l[1..][i - 1];
        }
      }
      if forall i :: 0 <= i < |l| ==> !l[i].Has(o) {
        forall i | 0 <= i < |l[1..]| ensures !l[1..][i].Has(o) {
          assert l[1..][i] == l[i + 1];
        }
      }
    }
  }

  lemma HeldAt(l: seq<Chunk>, o: int) returns (i: nat)
    requires WellFormed(l) && Held(l, o)
    ensures i < |l| && l[i].Has(o) && View(l, o) == Byte(l[i].At(o))
  {
    ViewMissing(l, o);
    i :| 0 <= i < |l| && l[i].Has(o);
    ViewIn(l, i, o);
  }

  /** In a well-formed list the chunk that has an offset decides its byte. */
  lemma ViewIn(l: seq<Chunk>, i: nat, o: int)
    requires WellFormed(l) && i < |l| && l[i].Has(o)
    ensures View(l, o) == Byte(l[i].At(o))
  {
    ViewAt(l, i, o);
  }

  // ---------------------------------------------------------------- SetChunk

  /** Index, from p on, of the first chunk that ends after o. */
  function EndingFrom(l: seq<Chunk>, o: int, p: nat): (r: nat)
    requires p <= |l|
    ensures p <= r <= |l|
    ensures forall i :: p <= i < r ==> l[i].End() <= o
    ensures r < |l| ==> l[r].End() > o
    decreases |l| - p
  {
    if p == |l| || l[p].End() > o then p else EndingFrom(l, o, p + 1)
  }

  function EndingAfter(l: seq<Chunk>, o: int): (p: nat)
    ensures p <= |l|
    ensures forall i :: 0 <= i < p ==> l[i].End() <= o
    ensures p < |l| ==> l[p].End() > o
  {
    EndingFrom(l, o, 0)
  }

  /** Index, from p on, of the first chunk that starts at o or later. */
  function StartingFrom(l: seq<Chunk>, o: int, p: nat): (q: nat)
    requires p <= |l|
    ensures p <= q <= |l|
    ensures forall i :: p <= i < q ==> l[i].offset < o
    ensures q < |l| ==> l[q].offset >= o
    decreases |l| - p
  {
    if p == |l| || l[p].offset >= o then p else StartingFrom(l, o, p + 1)
  }

  function MergedRange(l: seq<Chunk>, p: nat, q: nat, c: Chunk, now: int): (r: seq<Chunk>)
    requires p <= q <= |l| && c.Size() > 0 && forall i :: p <= i < q ==> l[i].Size() > 0
    ensures |r| == |l|
    ensures forall i :: 0 <= i < |l| ==> r[i] == if p <= i < q then Merged(l[i], c, now) else l[i]
  {
    seq(|l|, i requires 0 <= i < |l| => if p <= i < q then Merged(l[i], c, now) else l[i])
  }

  /** What is inserted before chunk q: the part of c after the chunk before it. */
  function Remainder(l: seq<Chunk>, q: nat, c: Chunk, now: int): (r: Chunk)
    requires q <= |l| && c.Size() > 0
  {
    var offset := if q > 0 then l[q - 1].End() else c.offset;
    Part(c, Desc(offset, c.End() - offset), now)
  }

  function WithChunk(l: seq<Chunk>, c: Chunk, now: int): (r: seq<Chunk>)
    requires c.Size() > 0 && forall i :: 0 <= i < |l| ==> l[i].Size() > 0
  {
    var p := EndingAfter(l, c.offset);
    if p == |l| then l + [c]
    else
      var q := StartingFrom(l, c.End(), p);
      WithRemainder(MergedRange(l, p, q, c, now), q, c, now)
  }

  function WithRemainder(m: seq<Chunk>, q: nat, c: Chunk, now: int): (r: seq<Chunk>)
    requires q <= |m| && c.Size() > 0
  {
    if q == |m| then m else m[..q] + [Remainder(m, q, c, now)] + m[q..]
  }

  /** How far the bytes of c that lie beyond every touched chunk are taken over. */
  ghost predicate TakesNew(l: seq<Chunk>, c: Chunk, o: int)
    requires c.Size() > 0
  {
    var p := EndingAfter(l, c.offset);
    var q := StartingFrom(l, c.End(), p);
    p == |l| || (q < |l| && (q == 0 || l[q - 1].End() <= o))
  }

  /** m is l with chunks p to q-1 overwritten by c where they share offsets. */
  ghost predicate IsMerged(l: seq<Chunk>, m: seq<Chunk>, p: nat, q: nat, c: Chunk) {
    && |m| == |l|
    && (forall i :: 0 <= i < |l| ==> m[i].offset == l[i].offset && m[i].Size() == l[i].Size())
    && forall i, o :: 0 <= i < |l| && l[i].Has(o) ==>
         m[i].At(o) == if p <= i < q && c.Has(o) then c.At(o) else l[i].At(o)
  }

  lemma MergedRangeIsMerged(l: seq<Chunk>, p: nat, q: nat, c: Chunk, now: int)
    requires p <= q <= |l| && c.Size() > 0 && forall i :: 0 <= i < |l| ==> l[i].Size() > 0
    ensures IsMerged(l, MergedRange(l, p, q, c, now), p, q, c)
  {
  }

  lemma MergedWellFormed(l: seq<Chunk>, m: seq<Chunk>, p: nat, q: nat, c: Chunk)
    requires WellFormed(l) && IsMerged(l, m, p, q, c)
    ensures WellFormed(m)
  {
  }

  /** Chunks outside p to q-1 share no offset with c. */
  lemma TouchedRange(l: seq<Chunk>, c: Chunk, p: nat, q: nat, i: nat, o: int)
    requires WellFormed(l) && p == EndingAfter(l, c.offset) && q == StartingFrom(l, c.End(), p)
    requires i < |l| && l[i].Has(o) && c.Has(o)
    ensures p <= i < q
  {
    forall j | q < j < |l| ensures c.End() <= l[j].offset {
      assert l[q].Size() > 0 && l[q].End() <= l[j].offset;
    }
  }

  lemma MergedView(l: seq<Chunk>, m: seq<Chunk>, p: nat, q: nat, c: Chunk, o: int)
    requires WellFormed(l) && IsMerged(l, m, p, q, c)
    requires p == EndingAfter(l, c.offset) && q == StartingFrom(l, c.End(), p)
    ensures View(m, o) == if Held(l, o) && c.Has(o) then Byte(c.At(o)) else View(l, o)
  {
    MergedWellFormed(l, m, p, q, c);
    if Held(l, o) {
      var i := HeldAt(l, o);
      ViewIn(m, i, o);
      if c.Has(o) {
        TouchedRange(l, c, p, q, i, o);
      }
    } else {
      ViewMissing(l, o);
      ViewMissing(m, o);
    }
  }

  function EndBefore(l: seq<Chunk>, q: nat, c: Chunk): int
    requires q <= |l|
  {
    if q > 0 then l[q - 1].End() else c.offset
  }

  /** x is the part of c from offset e on, or the empty chunk at offset 0. */
  ghost predicate IsRest(c: Chunk, e: int, x: Chunk) {
    if e >= c.End() then x == NoChunk
    else
      && x.Size() > 0 && x.offset == Max(e, c.offset) && x.End() == c.End()
      && forall o :: x.Has(o) ==> x.At(o) == c.At(o)
  }

  lemma RemainderIsRest(l: seq<Chunk>, q: nat, c: Chunk, now: int)
    requires q <= |l| && c.Size() > 0
    ensures IsRest(c, EndBefore(l, q, c), Remainder(l, q, c, now))
  {
  }

  lemma InsertedView(m: seq<Chunk>, q: nat, x: Chunk, o: int)
    requires q <= |m|
    ensures View(m[..q] + [x] + m[q..], o) ==
            if View(m[..q], o) != Missing then View(m[..q], o)
            else if x.Has(o) then Byte(x.At(o))
            else View(m[q..], o)
    ensures View(m, o) == if View(m[..q], o) != Missing then View(m[..q], o) else View(m[q..], o)
  {
    ViewConcat(m[..q] + [x], m[q..], o);
    ViewConcat(m[..q], [x], o);
    ViewConcat(m[..q], m[q..], o);
    assert m == m[..q] + m[q..];
  }

  /** Nothing in the list starts or ends between the chunk before q and q. */
  lemma GapBefore(m: seq<Chunk>, q: nat, c: Chunk, o: int)
    requires WellFormed(m) && q < |m| && EndBefore(m, q, c) <= o < c.End() <= m[q].offset
    ensures View(m[..q], o) == Missing && View(m, o) == Missing
  {
    ViewMissing(m[..q], o);
    ViewMissing(m, o);
    forall i | 0 <= i < |m| ensures !m[i].Has(o) {
      assert i < q - 1 ==> m[i].End() <= m[q - 1].offset <= m[q - 1].End();
      assert q < i ==> m[q].offset <= m[q].End() <= m[i].offset;
    }
  }

  /** The three ways a SetChunk can end, with the merged list and the remainder. */
  lemma SetChunkShape(l: seq<Chunk>, c: Chunk, now: int) returns (p: nat, q: nat, m: seq<Chunk>, x: Chunk)
    requires WellFormed(l) && c.Size() > 0
    ensures p == EndingAfter(l, c.offset) && q == StartingFrom(l, c.End(), p)
    ensures IsMerged(l, m, p, q, c) && WellFormed(m)
    ensures q < |l| ==> IsRest(c, EndBefore(l, q, c), x) && EndBefore(m, q, c) == EndBefore(l, q, c)
    ensures WithChunk(l, c, now) ==
            if p == |l| then l + [c] else if q == |l| then m else m[..q] + [x] + m[q..]
  {
    p := EndingAfter(l, c.offset);
    q := StartingFrom(l, c.End(), p);
    m := MergedShape(l, p, q, c, now);
    x := RestShape(m, q, c, now);
  }

  lemma MergedShape(l: seq<Chunk>, p: nat, q: nat, c: Chunk, now: int) returns (m: seq<Chunk>)
    requires WellFormed(l) && p <= q <= |l| && c.Size() > 0
    ensures m == MergedRange(l, p, q, c, now)
    ensures IsMerged(l, m, p, q, c) && WellFormed(m) && EndBefore(m, q, c) == EndBefore(l, q, c)
  {
    m := MergedRange(l, p, q, c, now);
    MergedRangeIsMerged(l, p, q, c, now);
    MergedWellFormed(l, m, p, q, c);
  }

  lemma RestShape(m: seq<Chunk>, q: nat, c: Chunk, now: int) returns (x: Chunk)
    requires q <= |m| && c.Size() > 0
    ensures x == Remainder(m, q, c, now) && IsRest(c, EndBefore(m, q, c), x)
  {
    x := Remainder(m, q, c, now);
    RemainderIsRest(m, q, c, now);
  }

  /**
   * One SetChunk of any nonempty chunk: no held byte is lost, held bytes in
   * its range become its own, bytes outside stay, and of the bytes not held
   * exactly those of TakesNew are added, with the chunk's values.
   */
  lemma SetChunkView(l: seq<Chunk>, c: Chunk, now: int, o: int)
    requires WellFormed(l) && c.Size() > 0
    ensures View(WithChunk(l, c, now), o) == Written(l, c, o)
  {
    var p, q, m, x := SetChunkShape(l, c, now);
    ShapeView(l, p, q, m, c, x, WithChunk(l, c, now), o);
  }

  /** The byte at o after a SetChunk of c. */
  ghost function Written(l: seq<Chunk>, c: Chunk, o: int): Known
    requires c.Size() > 0
  {
    if Held(l, o) then (if c.Has(o) then Byte(c.At(o)) else View(l, o))
    else if c.Has(o) && TakesNew(l, c, o) then Byte(c.At(o))
    else Missing
  }

  lemma ShapeView(l: seq<Chunk>, p: nat, q: nat, m: seq<Chunk>, c: Chunk, x: Chunk, r: seq<Chunk>, o: int)
    requires WellFormed(l) && WellFormed(m) && c.Size() > 0 && IsMerged(l, m, p, q, c)
    requires p == EndingAfter(l, c.offset) && q == StartingFrom(l, c.End(), p)
    requires q < |l| ==> IsRest(c, EndBefore(m, q, c), x) && EndBefore(m, q, c) == EndBefore(l, q, c)
    requires r == if p == |l| then l + [c] else if q == |l| then m else m[..q] + [x] + m[q..]
    ensures View(r, o) == Written(l, c, o)
  {
    if p == |l| {
      AppendedView(l, c, o);
    } else if q == |l| {
      MergedView(l, m, p, q, c, o);
    } else {
      InsertedCase(l, p, q, m, c, x, o);
    }
  }

  lemma InsertedCase(l: seq<Chunk>, p: nat, q: nat, m: seq<Chunk>, c: Chunk, x: Chunk, o: int)
    requires WellFormed(l) && WellFormed(m) && c.Size() > 0 && IsMerged(l, m, p, q, c)
    requires p == EndingAfter(l, c.offset) && q == StartingFrom(l, c.End(), p) && q < |l|
    requires IsRest(c, EndBefore(m, q, c), x) && EndBefore(m, q, c) == EndBefore(l, q, c)
    ensures View(m[..q] + [x] + m[q..], o) == Written(l, c, o)
  {
    MergedView(l, m, p, q, c, o);
    RestView(l, m, p, q, c, x, o);
    if EndBefore(l, q, c) <= o < c.End() {
      GapBefore(l, q, c, o);
    }
  }

  lemma AppendedView(l: seq<Chunk>, c: Chunk, o: int)
    requires WellFormed(l) && EndingAfter(l, c.offset) == |l|
    ensures View(l + [c], o) == if c.Has(o) then Byte(c.At(o)) else View(l, o)
  {
    ViewConcat(l, [c], o);
    ViewMissing(l, o);
  }

  lemma RestView(l: seq<Chunk>, m: seq<Chunk>, p: nat, q: nat, c: Chunk, x: Chunk, o: int)
    requires WellFormed(l) && WellFormed(m) && IsMerged(l, m, p, q, c) && p <= q < |l|
    requires c.End() <= l[q].offset && IsRest(c, EndBefore(m, q, c), x)
    requires p == q ==> EndBefore(l, q, c) <= c.offset
    ensures View(m[..q] + [x] + m[q..], o) ==
            if c.Has(o) && EndBefore(l, q, c) <= o then Byte(c.At(o)) else View(m, o)
  {
    InsertedView(m, q, x, o);
    if EndBefore(m, q, c) <= o < c.End() {
      GapBefore(m, q, c, o);
    }
  }

  /**
   * The list stays well formed exactly unless a later chunk exists and the last
   * chunk touched reaches to the end of c: then an empty chunk at offset 0
   * is inserted before that later chunk.
   */
  lemma SetChunkWellFormedIff(l: seq<Chunk>, c: Chunk, now: int, p: nat, q: nat, r: seq<Chunk>)
    requires WellFormed(l) && c.Size() > 0 && r == WithChunk(l, c, now)
    requires p == EndingAfter(l, c.offset) && q == StartingFrom(l, c.End(), p)
    ensures WellFormed(r) <==> !(p < q < |l| && l[q - 1].End() >= c.End())
  {
    var _, _, m, x := SetChunkShape(l, c, now);
    ShapeWellFormed(l, p, q, m, c, x, r);
  }

  lemma ShapeWellFormed(l: seq<Chunk>, p: nat, q: nat, m: seq<Chunk>, c: Chunk, x: Chunk, r: seq<Chunk>)
    requires WellFormed(l) && WellFormed(m) && c.Size() > 0 && |m| == |l|
    requires p == EndingAfter(l, c.offset) && q == StartingFrom(l, c.End(), p)
    requires q < |l| ==> IsRest(c, EndBefore(l, q, c), x) && m[q].offset == l[q].offset
    requires 0 < q <= |l| ==> m[q - 1].End() == l[q - 1].End()
    requires r == if p == |l| then l + [c] else if q == |l| then m else m[..q] + [x] + m[q..]
    ensures WellFormed(r) <==> !(p < q < |l| && l[q - 1].End() >= c.End())
  {
    if p == |l| {
      AppendKeepsWellFormed(l, c);
    } else if q < |l| {
      if p < q && l[q - 1].End() >= c.End() {
        assert r[q] == x && x.Size() == 0;
      } else {
        InsertKeepsWellFormed(m, q, x);
      }
    }
  }

  lemma AppendKeepsWellFormed(l: seq<Chunk>, c: Chunk)
    requires WellFormed(l) && c.Size() > 0 && EndingAfter(l, c.offset) == |l|
    ensures WellFormed(l + [c])
  {
  }

  lemma InsertKeepsWellFormed(l: seq<Chunk>, q: nat, x: Chunk)
    requires WellFormed(l) && q <= |l| && x.Size() > 0
    requires q > 0 ==> l[q - 1].End() <= x.offset
    requires q < |l| ==> x.End() <= l[q].offset
    ensures WellFormed(l[..q] + [x] + l[q..])
  {
    var r := l[..q] + [x] + l[q..];
    forall i, j | 0 <= i < j < |r| ensures r[i].End() <= r[j].offset {
      if j < q || q < i {
      } else if j == q {
        assert i < q - 1 ==> l[i].End() <= l[q - 1].offset;
      } else if i == q {
        assert q < j - 1 ==> l[q].End() <= l[j - 1].offset;
      }
    }
  }

  /** A chunk that shares no held byte is a plain union. */
  lemma DisjointSetChunk(l: seq<Chunk>, c: Chunk, now: int)
    requires WellFormed(l) && c.Size() > 0
    requires forall o :: c.Has(o) ==> !Held(l, o)
    ensures WellFormed(WithChunk(l, c, now))
    ensures forall o :: View(WithChunk(l, c, now), o) == if c.Has(o) then Byte(c.At(o)) else View(l, o)
  {
    var p := EndingAfter(l, c.offset);
    var q := StartingFrom(l, c.End(), p);
    if p < q {
      var o := Max(c.offset, l[p].offset);
      ViewIn(l, p, o);
      assert c.Has(o);
    }
    SetChunkWellFormedIff(l, c, now, p, q, WithChunk(l, c, now));
    forall o ensures View(WithChunk(l, c, now), o) == if c.Has(o) then Byte(c.At(o)) else View(l, o) {
      SetChunkView(l, c, now, o);
      assert q > 0 && q == p ==> l[q - 1].End() <= c.offset;
    }
  }

  /**
   * Whether all of c is held afterwards: it touches nothing held, or what it
   * touches leaves no gap from its first offset to the end of the last chunk
   * touched, and that end covers c or another chunk follows.
   */
  lemma SetChunkCompleteIff(l: seq<Chunk>, c: Chunk, now: int)
    requires WellFormed(l) && c.Size() > 0
    ensures HoldsAll(WithChunk(l, c, now), c) <==> CoversWrite(l, c)
  {
    TakenUp(l, c, now, WithChunk(l, c, now));
    CoverageIff(l, c, EndingAfter(l, c.offset), StartingFrom(l, c.End(), EndingAfter(l, c.offset)));
  }

  ghost predicate HoldsAll(l: seq<Chunk>, c: Chunk) {
    forall o :: c.Has(o) ==> Held(l, o)
  }

  ghost predicate CoversWrite(l: seq<Chunk>, c: Chunk)
    requires c.Size() > 0
  {
    var p := EndingAfter(l, c.offset);
    var q := StartingFrom(l, c.End(), p);
    p == q || ((q < |l| || l[q - 1].End() >= c.End()) &&
               forall o :: c.offset <= o < Min(c.End(), l[q - 1].End()) ==> Held(l, o))
  }

  lemma TakenUp(l: seq<Chunk>, c: Chunk, now: int, r: seq<Chunk>)
    requires WellFormed(l) && c.Size() > 0 && r == WithChunk(l, c, now)
    ensures HoldsAll(r, c) <==> forall o :: c.Has(o) ==> Held(l, o) || TakesNew(l, c, o)
  {
    forall o | c.Has(o) ensures Held(r, o) <==> Held(l, o) || TakesNew(l, c, o) {
      SetChunkView(l, c, now, o);
    }
  }

  lemma CoverageIff(l: seq<Chunk>, c: Chunk, p: nat, q: nat)
    requires WellFormed(l) && c.Size() > 0
    requires p == EndingAfter(l, c.offset) && q == StartingFrom(l, c.End(), p)
    ensures (forall o :: c.Has(o) ==> Held(l, o) || TakesNew(l, c, o)) <==> CoversWrite(l, c)
  {
    if p < q {
      var e := l[q - 1].End();
      forall o ensures TakesNew(l, c, o) <==> q < |l| && e <= o {
        NewFrom(l, c, p, q, o);
      }
      if q == |l| && e < c.End() {
        PastTheLast(l, c.End() - 1);
        assert c.Has(c.End() - 1);
      }
      if forall o :: c.Has(o) ==> Held(l, o) || TakesNew(l, c, o) {
        forall o | c.offset <= o < Min(c.End(), e) ensures Held(l, o) {
          assert c.Has(o);
        }
      }
    }
  }

  lemma NewFrom(l: seq<Chunk>, c: Chunk, p: nat, q: nat, o: int)
    requires c.Size() > 0 && p == EndingAfter(l, c.offset) && q == StartingFrom(l, c.End(), p) && p < q
    ensures TakesNew(l, c, o) <==> q < |l| && l[q - 1].End() <= o
  {
  }

  lemma PastTheLast(l: seq<Chunk>, o: int)
    requires WellFormed(l) && l != [] && l[|l| - 1].End() <= o
    ensures !Held(l, o)
  {
    ViewMissing(l, o);
    assert forall i :: 0 <= i < |l| - 1 ==> l[i].End() <= l[|l| - 1].offset;
  }

  // -------------------------------------------------------- two failing writes

  /** Four bytes written at 0 over a list that holds two: the last two are dropped. */
  lemma EndIsDropped(l: seq<Chunk>, c: Chunk, now: int)
    requires |l| == 1 && l[0].offset == 0 && l[0].Size() == 2
    requires c.offset == 0 && c.Size() == 4
    ensures WellFormed(l) && !HoldsAll(WithChunk(l, c, now), c)
    ensures View(WithChunk(l, c, now), 0) == Byte(c.At(0)) && View(WithChunk(l, c, now), 1) == Byte(c.At(1))
    ensures View(WithChunk(l, c, now), 2) == View(WithChunk(l, c, now), 3) == Missing
  {
    forall o | 0 <= o < 4 ensures View(WithChunk(l, c, now), o) == if o < 2 then Byte(c.At(o)) else Missing {
      SetChunkView(l, c, now, o);
      ViewMissing(l, o);
    }
    assert c.Has(2);
  }

  /** Whenever what is touched reaches the end of the write and another chunk follows. */
  lemma EmptyBefore(l: seq<Chunk>, c: Chunk, now: int, p: nat, q: nat)
    requires WellFormed(l) && c.Size() > 0 && p == EndingAfter(l, c.offset) && q == StartingFrom(l, c.End(), p)
    requires p < q < |l| && l[q - 1].End() >= c.End()
    ensures var r := WithChunk(l, c, now);
            |r| == |l| + 1 && r[q] == NoChunk && forall i :: q < i < |r| ==> r[i] == l[i - 1]
  {
    var m := MergedShape(l, p, q, c, now);
    NothingIsLeft(m, q, c, now);
    assert WithChunk(l, c, now) == WithRemainder(m, q, c, now);
  }

  lemma NothingIsLeft(m: seq<Chunk>, q: nat, c: Chunk, now: int)
    requires 0 < q < |m| && c.Size() > 0 && m[q - 1].End() >= c.End()
    ensures var r := WithRemainder(m, q, c, now);
            |r| == |m| + 1 && r[q] == NoChunk && forall i :: q < i < |r| ==> r[i] == m[i - 1]
  {
  }

  /** A write inside a chunk that another follows: an empty chunk at offset 0 comes in between. */
  lemma EmptyIsInserted(l: seq<Chunk>, c: Chunk, now: int)
    requires |l| == 2 && l[0].offset == 0 && l[0].Size() == 4 && l[1].offset == 8 && l[1].Size() > 0
    requires c.offset == 1 && c.Size() == 2
    ensures WellFormed(l) && !WellFormed(WithChunk(l, c, now))
    ensures |WithChunk(l, c, now)| == 3 && WithChunk(l, c, now)[1] == NoChunk && WithChunk(l, c, now)[2] == l[1]
  {
    var p := EndingAfter(l, c.offset);
    var q := StartingFrom(l, c.End(), p);
    assert p == 0 && q == 1;
    SetChunkWellFormedIff(l, c, now, p, q, WithChunk(l, c, now));
    EmptyBefore(l, c, now, p, q);
  }

  // ---------------------------------------------------------------- Truncate

  /** The bytes of c below k. */
  function Shortened(c: Chunk, k: int, now: int): (r: Chunk)
    requires c.offset < k < c.End()
    ensures r.offset == c.offset && r.End() == k && forall o :: r.Has(o) ==> r.At(o) == c.At(o)
  {
    Chunk(c.offset, Bytes(c.data.bytes[..k - c.offset]), now, false)
  }

  function Truncated(l: seq<Chunk>, k: int, now: int): (r: seq<Chunk>) {
    var p := EndingAfter(l, k);
    if p < |l| && l[p].offset < k then l[..p] + [Shortened(l[p], k, now)] else l[..p]
  }

  /** r has the chunks of l that start below k, cut at k. */
  ghost predicate IsCut(l: seq<Chunk>, r: seq<Chunk>, k: int) {
    && |r| <= |l|
    && (forall i :: 0 <= i < |r| ==> r[i].offset == l[i].offset && r[i].End() == Min(l[i].End(), k) > r[i].offset)
    && (forall i, o :: 0 <= i < |r| && r[i].Has(o) ==> r[i].At(o) == l[i].At(o))
    && (forall i :: |r| <= i < |l| ==> k <= l[i].offset)
  }

  lemma TruncateExtents(l: seq<Chunk>, k: int, now: int)
    requires WellFormed(l)
    ensures IsCut(l, Truncated(l, k, now), k)
  {
    var p := EndingAfter(l, k);
    forall i | p < i < |l| ensures k <= l[i].offset {
      assert l[p].End() <= l[i].offset;
    }
    if p < |l| && l[p].offset < k {
      CutAt(l, p, Shortened(l[p], k, now), k);
    }
  }

  lemma CutAt(l: seq<Chunk>, p: nat, x: Chunk, k: int)
    requires WellFormed(l) && p < |l| && forall i :: 0 <= i < p ==> l[i].End() <= k
    requires forall i :: p < i < |l| ==> k <= l[i].offset
    requires x.offset == l[p].offset < k == x.End() < l[p].End()
    requires forall o :: x.Has(o) ==> x.At(o) == l[p].At(o)
    ensures IsCut(l, l[..p] + [x], k)
  {
  }

  lemma CutView(l: seq<Chunk>, r: seq<Chunk>, k: int, o: int)
    requires WellFormed(l) && IsCut(l, r, k)
    ensures WellFormed(r)
    ensures View(r, o) == if o < k then View(l, o) else Missing
  {
    ViewMissing(l, o);
    ViewMissing(r, o);
    if o < k && Held(l, o) {
      var i := HeldAt(l, o);
      ViewIn(r, i, o);
    } else if Held(r, o) {
      var i := HeldAt(r, o);
    }
  }

  /** Truncation is restriction to the offsets below k. */
  lemma TruncateView(l: seq<Chunk>, k: int, now: int, o: int)
    requires WellFormed(l)
    ensures WellFormed(Truncated(l, k, now))
    ensures View(Truncated(l, k, now), o) == if o < k then View(l, o) else Missing
  {
    TruncateExtents(l, k, now);
    CutView(l, Truncated(l, k, now), k, o);
  }

  // -------------------------------------------------------------------- runs

  datatype Op = Set(chunk: Chunk) | Cut(at: int)

  /** The partial map a run of operations stands for. */
  function MapOf(ops: seq<Op>, o: int): Known {
    if ops == [] then Missing
    else
      var before := MapOf(ops[..|ops| - 1], o);
      match ops[|ops| - 1]
      case Set(c) => if c.Has(o) then Byte(c.At(o)) else before
      case Cut(k) => if o < k then before else Missing
  }

  /** Every chunk written is nonempty and shares no offset with what is held. */
  ghost predicate Fresh(ops: seq<Op>) {
    ops != [] ==>
      var before := ops[..|ops| - 1];
      && Fresh(before)
      && match ops[|ops| - 1]
         case Set(c) => c.Size() > 0 && forall o :: c.Has(o) ==> MapOf(before, o) == Missing
         case Cut(_) => true
  }

  /** The list such a run builds; it refines the map at every offset. */
  ghost function Run(ops: seq<Op>, now: int): (l: seq<Chunk>)
    requires Fresh(ops)
    ensures WellFormed(l)
    ensures forall o :: View(l, o) == MapOf(ops, o)
  {
    if ops == [] then []
    else
      var before := ops[..|ops| - 1];
      var l := Run(before, now);
      match ops[|ops| - 1]
      case Set(c) =>
        DisjointSetChunk(l, c, now);
        WithChunk(l, c, now)
      case Cut(k) =>
        TruncateAll(l, k, now);
        Truncated(l, k, now)
  }

  lemma TruncateAll(l: seq<Chunk>, k: int, now: int)
    requires WellFormed(l)
    ensures WellFormed(Truncated(l, k, now))
    ensures forall o :: View(Truncated(l, k, now), o) == if o < k then View(l, o) else Missing
  {
    forall o ensures View(Truncated(l, k, now), o) == if o < k then View(l, o) else Missing {
      TruncateView(l, k, now, o);
    }
    TruncateView(l, k, now, 0);
  }
}
