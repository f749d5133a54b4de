/**
 * The content of one file: the chunk list in memory, the copy on disk, and the
 * operations that change either.  Times, and whether the disk can be opened or
 * written, are parameters.
 */
module FileContents {
  import opened FileChunks
  import opened FileLists

  const WRITE_TO_HDD_TIMEOUT: int := 10

  /** Bytes of the file on disk at o. */
  function DiskView(disk: seq<byte>, o: int): Known {
    if 0 <= o < |disk| then Byte(disk[o]) else Missing
  }

  /** The file as its user sees it: memory over disk. */
  function FileView(l: seq<Chunk>, disk: seq<byte>, o: int): Known {
    if View(l, o) != Missing then View(l, o) else DiskView(disk, o)
  }

  /** pwrite: a gap before the written bytes would read as zeros. */
  function WriteAt(disk: seq<byte>, at: nat, bytes: seq<byte>): (r: seq<byte>)
    ensures |r| == Max(|disk|, at + |bytes|)
    ensures forall o :: 0 <= o < |r| ==>
              r[o] == if at <= o < at + |bytes| then bytes[o - at] else if o < |disk| then disk[o] else 0
  {
    seq(Max(|disk|, at + |bytes|), o requires 0 <= o < Max(|disk|, at + |bytes|) =>
      if at <= o < at + |bytes| then bytes[o - at] else if o < |disk| then disk[o] else 0)
  }

  /** What OnDiskWrite leaves on disk. */
  function Flushed(disk: seq<byte>, c: Chunk, works: bool): seq<byte>
    requires c.offset >= 0
  {
    if works && c.data.Bytes? then WriteAt(disk, c.offset, c.data.bytes) else disk
  }

  /** Chunks marked as synced are on disk as they are in memory. */
  ghost predicate SyncedOnDisk(l: seq<Chunk>, disk: seq<byte>) {
    forall i, o :: 0 <= i < |l| && l[i].hddSynced && l[i].Has(o) ==> DiskView(disk, o) == Byte(l[i].At(o))
  }

  /** A chunk that borders on the first size bytes of the file and was left alone for long enough. */
  predicate Flushable(c: Chunk, size: int, now: int) {
    c.offset <= size && c.accessTime + WRITE_TO_HDD_TIMEOUT < now
  }

  /** Index, from i on, of the first chunk that is not both flushable and on disk already. */
  function Settled(l: seq<Chunk>, size: int, now: int, i: nat): (p: nat)
    requires i <= |l|
    ensures i <= p <= |l|
    ensures forall j :: i <= j < p ==> Flushable(l[j], size, now) && l[j].hddSynced
    ensures p < |l| ==> !Flushable(l[p], size, now) || !l[p].hddSynced
    decreases |l| - i
  {
    if i < |l| && Flushable(l[i], size, now) && l[i].hddSynced then Settled(l, size, now, i + 1) else i
  }

  /** What a sync that is not forced leaves: it writes at most one chunk, and tells whether more is to do. */
  predicate LeftUnforced(l: seq<Chunk>, size: int, now: int, left: seq<Chunk>, done: bool) {
    var p := Settled(l, size, now, 0);
    && left == (if p < |l| && Flushable(l[p], size, now) then l[p + 1..] else l[p..])
    && done == (p == |l| || l[p].offset > size)
  }

  /** A sync that is not forced ends at a chunk it has written, or at one that is too fresh. */
  lemma LeftWhenStopped(l: seq<Chunk>, size: int, now: int, n: nat)
    requires n < |l|
    ensures Settled(l, size, now, 0) == Settled(l, size, now, n) && l[n].offset <= size ==>
              && (Flushable(l[n], size, now) && !l[n].hddSynced ==> LeftUnforced(l, size, now, l[n + 1..], false))
              && (!Flushable(l[n], size, now) ==> LeftUnforced(l, size, now, l[n..], false))
              && (Flushable(l[n], size, now) && l[n].hddSynced ==>
                    Settled(l, size, now, 0) == Settled(l, size, now, n + 1))
  {
  }

  /** Or at the first chunk that does not border on the file, or after the last. */
  lemma LeftAtEnd(l: seq<Chunk>, size: int, now: int, n: nat)
    requires n <= |l|
    ensures Settled(l, size, now, 0) == Settled(l, size, now, n) && (n == |l| || l[n].offset > size) ==>
              LeftUnforced(l, size, now, l[n..], true)
  {
  }

  class FileContent {
    var chunks: seq<Chunk>
    var ondiskOffset: int
    var ondiskSize: int
    var fdOpen: bool
    var ondiskSynced: bool
    var accessTime: int
    var netRequested: seq<Desc>
    var disk: seq<byte>

    ghost predicate Valid()
      reads this`chunks
    {
      && WellFormed(chunks)
      && forall i :: 0 <= i < |chunks| ==> chunks[i].offset >= 0
    }

    /** What is on disk starts at offset 0 and its size is known. */
    ghost predicate DiskLoaded()
      reads this
    {
      ondiskOffset == 0 && ondiskSize == |disk|
    }

    constructor (disk: seq<byte>, ondiskOffset: int, now: int)
      ensures Valid() && chunks == [] && this.disk == disk && !fdOpen && ondiskSynced
      ensures this.ondiskOffset == ondiskOffset && ondiskSize == 0
    {
      chunks, netRequested, this.disk := [], [], disk;
      this.ondiskOffset, ondiskSize, fdOpen, ondiskSynced, accessTime := ondiskOffset, 0, false, true, now;
    }

    method LoadFd(hddWorks: bool) returns (ok: bool)
      modifies this`fdOpen, this`ondiskSize, this`ondiskOffset
      ensures ok == fdOpen == (old(fdOpen) || hddWorks)
      ensures ondiskSize == if old(fdOpen) then old(ondiskSize) else if hddWorks then |disk| else 0
      ensures ondiskOffset == if ok then old(ondiskOffset) else 0
    {
      if !fdOpen {
        fdOpen := true;
        ondiskSize := |disk|;
        if !hddWorks {
          fdOpen := false;
          ondiskSize, ondiskOffset := 0, 0;
          return false;
        }
      }
      return fdOpen;
    }

    method SetChunk(chunk: Chunk, now: int)
      requires WellFormed(chunks) && chunk.Size() > 0
      modifies this`chunks, this`ondiskSynced, this`accessTime, this`netRequested
      ensures chunks == WithChunk(old(chunks), chunk, now)
      ensures !ondiskSynced && netRequested == WithoutFirst(old(netRequested), chunk.Extent())
    {
      ondiskSynced := false;
      accessTime := now;
      netRequested := WithoutFirst(netRequested, chunk.Extent());
      var it := SkipTo(chunk.offset);
      if it == |chunks| {
        chunks := chunks + [chunk];
        return;
      }
      it := MergeFrom(it, chunk, now);
      InsertRemainder(it, chunk, now);
    }

    /** The end of SetChunk: what sticks out beyond the last chunk touched. */
    method InsertRemainder(it: nat, chunk: Chunk, now: int)
      requires it <= |chunks| && chunk.Size() > 0
      modifies this`chunks
      ensures chunks == WithRemainder(old(chunks), it, chunk, now)
    {
      if it == |chunks| {
        return;
      }
      var offset := chunk.offset;
      if it != 0 {
        offset := chunks[it - 1].End();
      }
      var size := chunk.End() - offset;
      var newChunk := Part(chunk, Desc(offset, size), now);
      chunks := chunks[..it] + [newChunk] + chunks[it..];
    }

    /** The first loop of SetChunk and Truncate. */
    method SkipTo(offset: int) returns (it: nat)
      ensures it == EndingAfter(chunks, offset)
    {
      it := 0;
      while it < |chunks| && chunks[it].End() <= offset
        invariant 0 <= it <= |chunks|
        invariant EndingAfter(chunks, offset) == EndingFrom(chunks, offset, it)
      {
        it := it + 1;
      }
    }

    /** The second loop of SetChunk: overwrite every chunk that starts before the end. */
    method MergeFrom(p: nat, chunk: Chunk, now: int) returns (it: nat)
      requires p <= |chunks| && chunk.Size() > 0 && forall i :: 0 <= i < |chunks| ==> chunks[i].Size() > 0
      modifies this`chunks
      ensures it == StartingFrom(old(chunks), chunk.End(), p)
      ensures chunks == MergedRange(old(chunks), p, it, chunk, now)
    {
      ghost var l := chunks;
      it := p;
      while it < |chunks| && chunks[it].offset < chunk.End()
        invariant p <= it <= |chunks| == |l|
        invariant StartingFrom(l, chunk.End(), p) == StartingFrom(l, chunk.End(), it)
        invariant forall i :: 0 <= i < p || it <= i < |l| ==> chunks[i] == l[i]
        invariant forall i :: p <= i < it ==> chunks[i] == Merged(l[i], chunk, now)
      {
        var c := chunks[it];
        chunks := chunks[it := Merged(c, chunk, now)];
        it := it + 1;
      }
    }

    /** Whether the whole interval is in memory. */
    method FileContentHaveChunk(desc: Desc) returns (r: bool)
      requires Valid() && desc.size > 0
      ensures r <==> HoldsAllOf(chunks, desc)
      ensures r ==> GapFree(chunks, desc)
    {
      var it := 0;
      while it < |chunks| && !desc.Overlaps(chunks[it].Extent())
        invariant 0 <= it <= |chunks|
        invariant forall i :: 0 <= i < it ==> !desc.Overlaps(chunks[i].Extent())
      {
        it := it + 1;
      }
      if it == |chunks| || chunks[it].offset > desc.offset {
        FirstOffsetMissing(chunks, desc, it);
        assert desc.Has(desc.offset);
        return false;
      }
      ghost var first := it;
      var nextOff := chunks[it].offset;
      while it < |chunks| && chunks[it].End() < desc.End() && nextOff == chunks[it].offset
        invariant first <= it <= |chunks|
        invariant it == first ==> nextOff == chunks[first].offset
        invariant it > first ==> nextOff == chunks[it - 1].End() && nextOff < desc.End()
        invariant desc.offset < nextOff || it == first
        invariant forall o :: chunks[first].offset <= o < nextOff ==> Held(chunks, o)
      {
        forall o | chunks[it].Has(o) ensures Held(chunks, o) {
          ViewIn(chunks, it, o);
        }
        nextOff := chunks[it].offset + chunks[it].Size();
        it := it + 1;
      }
      r := it < |chunks| && nextOff == chunks[it].offset;
      if r {
        forall o | desc.Has(o) ensures Held(chunks, o) {
          if nextOff <= o {
            ViewIn(chunks, it, o);
          }
        }
        AllHeldIsGapFree(chunks, desc);
      } else {
        GapAt(chunks, it, nextOff);
        assert desc.Has(nextOff);
      }
    }

    method CutChunks(k: nat, now: int)
      requires Valid()
      modifies this`chunks
      ensures Valid() && chunks == Truncated(old(chunks), k, now)
    {
      TruncateAll(chunks, k, now);
      TruncateExtents(chunks, k, now);
      ghost var goal := Truncated(chunks, k, now);
      var it := SkipTo(k);
      if it < |chunks| && chunks[it].offset < k {
        chunks := chunks[..it] + [Shortened(chunks[it], k, now)] + chunks[it..];
        it := it + 1;
      }
      while it < |chunks|
        invariant 0 <= it <= |chunks| && chunks[..it] == goal
      {
        chunks := chunks[..it] + chunks[it + 1..];
      }
      assert chunks == chunks[..it];
    }

    /** Memory and, if it can be opened, disk are cut at k. */
    method Truncate(k: nat, now: int, hddWorks: bool)
      requires Valid() && ondiskOffset == 0 && (fdOpen ==> ondiskSize == |disk|)
      modifies this
      ensures Valid() && chunks == Truncated(old(chunks), k, now)
      ensures fdOpen == (old(fdOpen) || hddWorks)
      ensures fdOpen ==> DiskLoaded() && disk == old(disk)[..Min(k, |old(disk)|)]
      ensures !fdOpen ==> disk == old(disk)
    {
      accessTime := now;
      CutChunks(k, now);
      CutDisk(k, hddWorks);
    }

    method CutDisk(k: nat, hddWorks: bool)
      requires ondiskOffset == 0 && (fdOpen ==> ondiskSize == |disk|)
      modifies this`fdOpen, this`ondiskSize, this`ondiskOffset, this`disk
      ensures fdOpen == (old(fdOpen) || hddWorks)
      ensures fdOpen ==> DiskLoaded() && disk == old(disk)[..Min(k, |old(disk)|)]
      ensures !fdOpen ==> disk == old(disk)
    {
      var _ := LoadFd(hddWorks);
      if k < ondiskOffset + ondiskSize {
        if !fdOpen {
          return;
        }
        disk := disk[..k];
        if k <= ondiskOffset {
          ondiskOffset, ondiskSize := 0, 0;
        } else {
          ondiskSize := k - ondiskOffset;
        }
      }
    }

    /** One chunk goes to disk and is marked so, unless the disk fails. */
    method OnDiskWrite(it: nat, hddWorks: bool, writeWorks: bool)
      requires it < |chunks| && chunks[it].offset >= 0 && chunks[it].Size() > 0
      requires fdOpen ==> ondiskSize == |disk|
      modifies this
      ensures fdOpen == (old(fdOpen) || hddWorks) && ondiskOffset == 0
      ensures disk == Flushed(old(disk), old(chunks)[it], fdOpen && writeWorks)
      ensures ondiskSize == if fdOpen then |disk| else 0
      ensures var c := old(chunks)[it];
              chunks == old(chunks)[it := c.(hddSynced := c.hddSynced || (fdOpen && writeWorks))]
      ensures ondiskSynced == old(ondiskSynced)
    {
      ondiskOffset := 0;
      var ok := LoadFd(hddWorks);
      if !ok {
        return;
      }
      var chunk := chunks[it];
      if !writeWorks {
        return;
      }
      if chunk.data.Bytes? {
        disk := WriteAt(disk, chunk.offset - ondiskOffset, chunk.data.bytes);
      }
      ondiskSize := Max(chunk.End(), ondiskSize);
      chunks := chunks[it := chunk.(hddSynced := true)];
    }

    /** What flushing relies on: the size on record is the disk's once it is open. */
    ghost predicate DiskKnown()
      reads this`ondiskOffset, this`ondiskSize, this`fdOpen, this`disk
    {
      ondiskOffset == 0 && ondiskSize <= |disk| && (fdOpen ==> ondiskSize == |disk|)
    }

    /**
     * Flush what borders on the disk file; unless forced, one chunk a call and
     * only when it was left alone for ten seconds.  Chunks leave the list from
     * the front, whether or not their write worked.
     */
    method SyncToHdd(force: bool, now: int, hddWorks: bool, writeWorks: int -> bool) returns (ghost n: nat)
      requires Valid() && SyncedOnDisk(chunks, disk) && DiskKnown()
      modifies this
      ensures Valid() && SyncedOnDisk(chunks, disk)
      ensures old(ondiskSynced) ==> unchanged(this)
      ensures n <= |old(chunks)| && chunks == old(chunks)[n..]
      ensures WhatRemains(old(chunks), old(disk), n, old(fdOpen) || hddWorks, writeWorks, disk)
      ensures SameBytes(old(chunks), old(disk), chunks, disk) <==>
              AllSurvive(old(chunks)[..n], old(disk), old(fdOpen) || hddWorks, writeWorks)
      ensures (old(fdOpen) || hddWorks) && (forall x :: writeWorks(x)) ==>
                SameFile(old(chunks), old(disk), chunks, disk)
      ensures force && !old(ondiskSynced) ==>
                ondiskSynced && forall i :: 0 <= i < |chunks| ==> chunks[i].offset > ondiskSize
      ensures n == 0 ==> ondiskSize == old(ondiskSize)
      ensures old(fdOpen) || hddWorks ==> old(ondiskSize) <= ondiskSize <= |disk|
      ensures old(ondiskSize == |disk|) && (old(fdOpen) || hddWorks) ==> ondiskSize == |disk|
      ensures !force && !old(ondiskSynced) ==> LeftUnforced(old(chunks), old(ondiskSize), now, chunks, ondiskSynced)
      ensures !old(ondiskSynced) && ondiskSynced ==> !fdOpen
    {
      ghost var l, d, opens := chunks, disk, fdOpen || hddWorks;
      n := 0;
      AllRemains(l, d, opens, writeWorks);
      assert l[0..] == l;
      if !ondiskSynced {
        ondiskSynced := true;
        n := FlushFront(force, now, hddWorks, writeWorks);
        if ondiskSynced && fdOpen {
          fdOpen := false;
        }
      }
      FlushKeepsFileIff(l, d, n, opens, writeWorks, disk);
      FlushKeepsFile(l, d, n, opens, writeWorks, disk);
    }

    /** A forced sync of one byte whose write fails. */
    method SyncInVain(b: byte)
      requires Valid() && DiskKnown() && ondiskSize == 0 && disk == [] && !ondiskSynced
      requires chunks == [Chunk(0, Bytes([b]), 0, false)]
      modifies this
      ensures chunks == [] && FileView([], disk, 0) == Missing
    {
      var works := (_: int) => false;
      ghost var l := chunks;
      assert l[0].offset == 0;
      ghost var n := SyncToHdd(true, 0, true, works);
      assert n == 0 ==> chunks == l;
      assert n == 1 && chunks == [];
      OneByteIsLost(b, l, works, disk);
    }

    /** After n chunks of l were flushed, from a known size and disk d. */
    ghost predicate MidFlush(l: seq<Chunk>, d: seq<byte>, size: int, opens: bool, writeWorks: int -> bool, n: nat)
      reads this`chunks, this`ondiskOffset, this`ondiskSize, this`fdOpen, this`disk
    {
      && WellFormed(l) && n <= |l| && chunks == l[n..]
      && Valid() && SyncedOnDisk(chunks, disk) && DiskKnown() && (fdOpen ==> opens)
      && WhatRemains(l, d, n, opens, writeWorks, disk)
      && (n == 0 ==> ondiskSize == size) && (opens ==> size <= ondiskSize)
      && (opens && size == |d| ==> ondiskSize == |disk|)
    }

    /** Between two turns of the loop: a sync that is not forced stops at the first chunk not settled before. */
    ghost predicate Flushing(force: bool, now: int, l: seq<Chunk>, size: int, n: nat, going: bool)
      reads this
    {
      && n <= |l| && (force || going ==> ondiskSynced) && (force ==> going)
      && (!force && going ==> ondiskSize == size && Settled(l, size, now, 0) == Settled(l, size, now, n))
      && (!going ==> LeftUnforced(l, size, now, chunks, ondiskSynced))
    }

    /** The loop of SyncToHdd. */
    method FlushFront(force: bool, now: int, hddWorks: bool, writeWorks: int -> bool) returns (ghost n: nat)
      requires Valid() && SyncedOnDisk(chunks, disk) && DiskKnown() && ondiskSynced
      modifies this
      ensures MidFlush(old(chunks), old(disk), old(ondiskSize), old(fdOpen) || hddWorks, writeWorks, n)
      ensures force ==> ondiskSynced && forall i :: 0 <= i < |chunks| ==> chunks[i].offset > ondiskSize
      ensures !force ==> LeftUnforced(old(chunks), old(ondiskSize), now, chunks, ondiskSynced)
    {
      n := 0;
      ghost var l, d, size, opens := chunks, disk, ondiskSize, fdOpen || hddWorks;
      AllRemains(l, d, opens, writeWorks);
      var going := true;
      while going && chunks != [] && chunks[0].offset <= ondiskOffset + ondiskSize
        invariant MidFlush(l, d, size, opens, writeWorks, n) && opens == (fdOpen || hddWorks)
        invariant Flushing(force, now, l, size, n, going)
        decreases going, |chunks|
      {
        going, n := FlushTurn(force, now, hddWorks, writeWorks, l, d, size, opens, n);
      }
      LeftAtEnd(l, size, now, n);
      SortedOffsets(chunks);
    }

    /** One turn of the loop: whether it goes on. */
    method FlushTurn(force: bool, now: int, hddWorks: bool, writeWorks: int -> bool,
                     ghost l: seq<Chunk>, ghost d: seq<byte>, ghost size: int, ghost opens: bool, ghost n: nat)
      returns (going: bool, ghost n': nat)
      requires MidFlush(l, d, size, opens, writeWorks, n) && opens == (fdOpen || hddWorks)
      requires Flushing(force, now, l, size, n, true) && chunks != [] && chunks[0].offset <= ondiskSize
      modifies this
      ensures MidFlush(l, d, size, opens, writeWorks, n') && opens == (fdOpen || hddWorks)
      ensures Flushing(force, now, l, size, n', going)
      ensures going ==> |chunks| < |old(chunks)|
    {
      assert chunks[0] == l[n];
      LeftWhenStopped(l, size, now, n);
      going, n' := true, n;
      if chunks[0].accessTime + WRITE_TO_HDD_TIMEOUT < now || force {
        var wasSynced := chunks[0].hddSynced;
        n' := FlushOne(hddWorks, writeWorks, l, d, size, opens, n);
        if !wasSynced && !force {
          ondiskSynced, going := false, false;
        }
      } else {
        ondiskSynced, going := false, false;
      }
    }

    /** Write the first chunk unless it is on disk already, and drop it. */
    method FlushOne(hddWorks: bool, writeWorks: int -> bool,
                    ghost l: seq<Chunk>, ghost d: seq<byte>, ghost size: int, ghost opens: bool, ghost n: nat)
      returns (ghost n': nat)
      requires MidFlush(l, d, size, opens, writeWorks, n) && opens == (fdOpen || hddWorks)
      requires chunks != [] && chunks[0].offset <= ondiskSize
      modifies this
      ensures n' == n + 1 && MidFlush(l, d, size, opens, writeWorks, n')
      ensures opens == (fdOpen || hddWorks) && ondiskSynced == old(ondiskSynced)
      ensures old(chunks)[0].hddSynced ==> ondiskSize == old(ondiskSize)
    {
      ghost var before := disk;
      n' := n + 1;
      if !chunks[0].hddSynced {
        OnDiskWrite(0, hddWorks, writeWorks(chunks[0].offset));
      }
      RemainsStep(l, d, n, opens, writeWorks, before, disk);
      chunks := chunks[1..];
      assert chunks == l[n'..];
    }

    /** The held bytes of the interval, copied into one chunk. */
    method GetChunk(desc: Desc, now: int) returns (r: Chunk)
      requires Valid() && desc.size > 0 && GapFree(chunks, desc)
      modifies this`chunks, this`accessTime
      ensures Valid() && SameView(old(chunks), chunks)
      ensures IsCopyOf(old(chunks), desc, r)
      ensures HoldsAllOf(old(chunks), desc) ==> r.Extent() == desc
    {
      accessTime := now;
      ghost var l := chunks;
      var it := FirstMeeting(desc);
      if it == |chunks| {
        NoneHeld(l, desc, it, it);
        SameExtent(Chunk(0, Null, now, false), desc, l);
        return Chunk(0, Null, now, false);
      }
      ghost var last;
      r, last := Collect(it, desc, now);
      CollectedIsHeld(l, desc, it, last, r);
      SameExtent(r, desc, l);
      SameDataView(l, chunks);
    }

    /** The first loop of GetChunk. */
    method FirstMeeting(desc: Desc) returns (it: nat)
      ensures it <= |chunks| && forall i :: 0 <= i < it ==> !chunks[i].Extent().Overlaps(desc)
      ensures it < |chunks| ==> chunks[it].Extent().Overlaps(desc)
    {
      it := 0;
      while it < |chunks| && !chunks[it].Extent().Overlaps(desc)
        invariant 0 <= it <= |chunks|
        invariant forall i :: 0 <= i < it ==> !chunks[i].Extent().Overlaps(desc)
      {
        it := it + 1;
      }
    }

    /** The second loop of GetChunk, from the first chunk that meets the interval. */
    method Collect(first: nat, desc: Desc, now: int) returns (r: Chunk, ghost it: nat)
      requires WellFormed(chunks) && desc.size > 0 && GapFree(chunks, desc)
      requires first < |chunks| && chunks[first].Extent().Overlaps(desc)
      modifies this`chunks
      ensures SameData(old(chunks), chunks)
      ensures first < it <= |chunks| && Collected(old(chunks), desc, first, it, r)
      ensures it < |chunks| ==> !old(chunks)[it].Extent().Overlaps(desc)
    {
      ghost var l := chunks;
      r := NoChunk;
      var i := first;
      while i < |chunks| && chunks[i].Extent().Overlaps(desc)
        invariant first <= i <= |chunks| == |l|
        invariant SameData(l, chunks)
        invariant if i == first then r == NoChunk else Collected(l, desc, first, i, r)
      {
        var part := GetPart(chunks[i], desc, now);
        r := Concatenate(l, desc, first, i, r, part, now);
        chunks := chunks[i := chunks[i].(accessTime := now)];
        i := i + 1;
      }
      it := i;
    }
  }

  ghost predicate SameView(l: seq<Chunk>, m: seq<Chunk>) {
    forall o :: View(l, o) == View(m, o)
  }

  /** r has exactly the offsets of d that are held, with the bytes held. */
  ghost predicate IsCopyOf(l: seq<Chunk>, d: Desc, r: Chunk) {
    && (forall o :: r.Has(o) <==> d.Has(o) && Held(l, o))
    && forall o :: r.Has(o) ==> View(l, o) == Byte(r.At(o))
  }

  ghost predicate SameData(l: seq<Chunk>, m: seq<Chunk>) {
    |l| == |m| && forall i :: 0 <= i < |l| ==> m[i].offset == l[i].offset && m[i].data == l[i].data
  }

  lemma {:induction false} SameDataViewAt(l: seq<Chunk>, m: seq<Chunk>, o: int)
    requires SameData(l, m)
    ensures View(l, o) == View(m, o)
  {
    if l != [] {
      SameDataViewAt(l[1..], m[1..], o);
    }
  }

  lemma SameDataView(l: seq<Chunk>, m: seq<Chunk>)
    requires SameData(l, m)
    ensures SameView(l, m) && (WellFormed(l) ==> WellFormed(m))
  {
    forall o ensures View(l, o) == View(m, o) {
      SameDataViewAt(l, m, o);
    }
  }

  /** Chunks that meet the interval follow one another without a gap. */
  ghost predicate GapFree(l: seq<Chunk>, d: Desc) {
    forall i :: 0 <= i < |l| - 1 && l[i].Extent().Overlaps(d) && l[i + 1].Extent().Overlaps(d) ==>
      l[i].End() == l[i + 1].offset
  }

  /** Size of the buffer once the parts of chunks first to it-1 are joined. */
  function CopySize(l: seq<Chunk>, d: Desc, first: nat, it: nat): (n: int)
    requires first <= it <= |l|
    decreases it
  {
    if it == first then 0 else CopySize(l, d, first, it - 1) + l[it - 1].Extent().CommonPart(d).size
  }

  /** Joining writes each part at its distance from the first one; the buffer ends where it is big enough for that. */
  ghost predicate CopyFits(l: seq<Chunk>, d: Desc, first: nat, it: nat)
    requires first < it <= |l|
    decreases it
  {
    it == first + 1 ||
    (CopyFits(l, d, first, it - 1) &&
     var start, part := l[first].Extent().CommonPart(d).offset, l[it - 1].Extent().CommonPart(d);
     part.offset - start + part.size <= CopySize(l, d, first, it - 1) + part.size)
  }

  ghost predicate Adjoin(l: seq<Chunk>, first: nat, it: nat)
    requires first < it <= |l|
  {
    forall k :: first < k < it ==> l[k - 1].End() == l[k].offset
  }

  /** Of two neighbours that meet the interval, one is in it from its start and the other up to its end. */
  lemma InnerParts(l: seq<Chunk>, d: Desc, k: nat)
    requires WellFormed(l) && d.size > 0 && 0 < k < |l|
    requires l[k - 1].Extent().Overlaps(d) && l[k].Extent().Overlaps(d)
    ensures l[k - 1].Extent().CommonPart(d).End() == l[k - 1].End() <= l[k].offset == l[k].Extent().CommonPart(d).offset
  {
  }

  /** Every part lands inside the buffer exactly when the chunks adjoin. */
  lemma {:induction false} CopyFitsIff(l: seq<Chunk>, d: Desc, first: nat, it: nat)
    requires WellFormed(l) && d.size > 0 && first < it <= |l|
    requires forall k :: first <= k < it ==> l[k].Extent().Overlaps(d)
    ensures CopyFits(l, d, first, it) <==> Adjoin(l, first, it)
    ensures var span := l[it - 1].Extent().CommonPart(d).End() - l[first].Extent().CommonPart(d).offset;
            CopySize(l, d, first, it) <= span && (Adjoin(l, first, it) ==> CopySize(l, d, first, it) == span)
    decreases it
  {
    var k := it - 1;
    if k == first {
      assert CopySize(l, d, first, first) == 0;
    } else {
      CopyFitsIff(l, d, first, k);
      InnerParts(l, d, k);
      assert Adjoin(l, first, it) <==> (Adjoin(l, first, k) && l[k - 1].End() == l[k].offset);
    }
  }

  /** r is what chunks first to it-1 hold of d. */
  ghost predicate Collected(l: seq<Chunk>, d: Desc, first: nat, it: nat, r: Chunk)
    requires first < it <= |l|
  {
    && r.data.Bytes? && r.offset == Max(d.offset, l[first].offset)
    && r.End() == Min(d.End(), l[it - 1].End())
    && l[it - 1].Extent().Overlaps(d)
    && forall o :: r.Has(o) ==> View(l, o) == Byte(r.At(o))
  }

  method GetPart(c: Chunk, d: Desc, now: int) returns (part: Chunk)
    requires c.Size() > 0 && d.size > 0 && c.Extent().Overlaps(d)
    ensures part.Extent() == c.Extent().CommonPart(d) && part.Size() > 0
    ensures forall o :: part.Has(o) ==> c.Has(o) && part.At(o) == c.At(o)
  {
    part := Part(c, d, now);
  }

  /** One more part of a gap-free run of chunks. */
  method Concatenate(ghost l: seq<Chunk>, ghost d: Desc, ghost first: nat, ghost it: nat, r: Chunk, part: Chunk,
                     now: int)
    returns (j: Chunk)
    requires WellFormed(l) && d.size > 0 && GapFree(l, d) && first <= it < |l|
    requires l[it].Extent().Overlaps(d)
    requires part.Extent() == l[it].Extent().CommonPart(d) && part.Size() > 0
    requires forall o :: part.Has(o) ==> l[it].Has(o) && part.At(o) == l[it].At(o)
    requires if it == first then r == NoChunk else Collected(l, d, first, it, r)
    ensures Collected(l, d, first, it + 1, j)
  {
    CollectStep(l, d, first, it, r, part, now);
    j := Joined(r, part, now);
  }

  lemma CollectStep(l: seq<Chunk>, d: Desc, first: nat, it: nat, r: Chunk, part: Chunk, now: int)
    requires WellFormed(l) && d.size > 0 && GapFree(l, d) && first <= it < |l|
    requires l[it].Extent().Overlaps(d)
    requires part.Extent() == l[it].Extent().CommonPart(d) && part.Size() > 0
    requires forall o :: part.Has(o) ==> l[it].Has(o) && part.At(o) == l[it].At(o)
    requires if it == first then r == NoChunk else Collected(l, d, first, it, r)
    ensures r.data.Bytes? ==> r.End() == part.offset
    ensures Collected(l, d, first, it + 1, Joined(r, part, now))
  {
    forall o | part.Has(o) ensures View(l, o) == Byte(part.At(o)) {
      ViewIn(l, it, o);
    }
    var j := Joined(r, part, now);
    if it > first {
      assert j.data.bytes == r.data.bytes + part.data.bytes;
      forall o | j.Has(o) ensures View(l, o) == Byte(j.At(o)) {
        if o < part.offset {
          assert r.Has(o);
        } else {
          assert part.Has(o);
        }
      }
    }
  }

  lemma CollectedIsHeld(l: seq<Chunk>, d: Desc, first: nat, it: nat, r: Chunk)
    requires WellFormed(l) && d.size > 0 && first < it <= |l| && Collected(l, d, first, it, r)
    requires forall i :: 0 <= i < first ==> !l[i].Extent().Overlaps(d)
    requires it < |l| ==> !l[it].Extent().Overlaps(d)
    requires l[first].Extent().Overlaps(d)
    ensures IsCopyOf(l, d, r)
  {
    NoneHeld(l, d, first, it);
  }

  /** Outside chunks first to it-1 nothing of d is held. */
  lemma NoneHeld(l: seq<Chunk>, d: Desc, first: nat, it: nat)
    requires WellFormed(l) && d.size > 0 && first <= it <= |l|
    requires forall i :: 0 <= i < first ==> !l[i].Extent().Overlaps(d)
    requires it < |l| ==> !l[it].Extent().Overlaps(d)
    requires first < it ==> l[first].Extent().Overlaps(d) && l[it - 1].Extent().Overlaps(d)
    requires first == it ==> it == |l|
    ensures forall o :: d.Has(o) && Held(l, o) ==>
              first < it && Max(d.offset, l[first].offset) <= o < Min(d.End(), l[it - 1].End())
  {
    forall o | d.Has(o) && Held(l, o)
      ensures first < it && Max(d.offset, l[first].offset) <= o < Min(d.End(), l[it - 1].End())
    {
      var i := HeldAt(l, o);
      assert l[i].Extent().Overlaps(d);
      assert first < i ==> l[first].End() <= l[i].offset;
      assert i < it - 1 ==> l[i].End() <= l[it - 1].offset;
      assert forall j :: it < j < |l| ==> l[it].End() <= l[j].offset;
    }
  }

  ghost predicate HoldsAllOf(l: seq<Chunk>, d: Desc) {
    forall o :: d.Has(o) ==> Held(l, o)
  }

  lemma AllHeldIsGapFree(l: seq<Chunk>, d: Desc)
    requires WellFormed(l) && d.size > 0 && HoldsAllOf(l, d)
    ensures GapFree(l, d)
  {
    forall i | 0 <= i < |l| - 1 && l[i].Extent().Overlaps(d) && l[i + 1].Extent().Overlaps(d)
      ensures l[i].End() == l[i + 1].offset
    {
      if l[i].End() < l[i + 1].offset {
        GapAt(l, i + 1, l[i].End());
        assert d.Has(l[i].End());
      }
    }
  }

  lemma SameExtent(r: Chunk, d: Desc, l: seq<Chunk>)
    requires d.size > 0 && IsCopyOf(l, d, r)
    ensures HoldsAllOf(l, d) ==> r.Extent() == d
  {
    if HoldsAllOf(l, d) {
      assert d.Has(d.offset) && d.Has(d.End() - 1);
      assert r.Has(r.offset) && r.Has(r.End() - 1);
    }
  }

  // ------------------------------------------------------------------ flushing

  /** A chunk that did not come from disk leaves every synced mark true. */
  lemma SetChunkKeepsSynced(l: seq<Chunk>, c: Chunk, now: int, disk: seq<byte>)
    requires WellFormed(l) && c.Size() > 0 && !c.hddSynced && SyncedOnDisk(l, disk)
    ensures SyncedOnDisk(WithChunk(l, c, now), disk)
  {
    var p := EndingAfter(l, c.offset);
    if p < |l| {
      var q := StartingFrom(l, c.End(), p);
      var m := MergedRange(l, p, q, c, now);
      forall i | 0 <= i < |l| && m[i].hddSynced ensures m[i] == l[i] {
        assert m[i] == if p <= i < q then Merged(l[i], c, now) else l[i];
      }
      assert SyncedOnDisk(m, disk);
      if q < |l| {
        var x := Remainder(m, q, c, now);
        assert !x.hddSynced;
        InsertKeepsSynced(m, q, x, disk);
      }
    }
  }

  lemma InsertKeepsSynced(m: seq<Chunk>, q: nat, x: Chunk, disk: seq<byte>)
    requires q <= |m| && SyncedOnDisk(m, disk) && !x.hddSynced
    ensures SyncedOnDisk(m[..q] + [x] + m[q..], disk)
  {
    var r := m[..q] + [x] + m[q..];
    forall i, o | 0 <= i < |r| && r[i].hddSynced && r[i].Has(o) ensures DiskView(disk, o) == Byte(r[i].At(o)) {
      assert i != q && r[i] == if i < q then m[i] else m[i - 1];
    }
  }

  lemma TruncateKeepsSynced(l: seq<Chunk>, k: nat, now: int, disk: seq<byte>)
    requires WellFormed(l) && SyncedOnDisk(l, disk)
    ensures SyncedOnDisk(Truncated(l, k, now), disk[..Min(k, |disk|)])
  {
    var r := Truncated(l, k, now);
    forall i, o | 0 <= i < |r| && r[i].hddSynced && r[i].Has(o)
      ensures DiskView(disk[..Min(k, |disk|)], o) == Byte(r[i].At(o))
    {
      assert r[i] == l[i] && l[i].End() <= k && DiskView(disk, o) == Byte(l[i].At(o));
    }
  }

  lemma SortedOffsets(l: seq<Chunk>)
    requires WellFormed(l)
    ensures forall i :: 0 <= i < |l| ==> l[0].offset <= l[i].offset
  {
  }

  /** Whether the flush of a chunk leaves its bytes on disk. */
  predicate OnDiskAfter(c: Chunk, opens: bool, works: int -> bool) {
    c.hddSynced || (opens && works(c.offset))
  }

  /**
   * The file after chunks 0 to n-1 of l were flushed from disk d to disk e: the
   * bytes of a chunk whose write failed are gone, all others are what they were,
   * and outside those chunks the disk is untouched (so no hole appears).
   */
  ghost predicate WhatRemains(l: seq<Chunk>, d: seq<byte>, n: nat, opens: bool, works: int -> bool, e: seq<byte>)
    requires n <= |l|
  {
    |d| <= |e| && forall o :: RemainsAt(l, d, n, opens, works, e, o)
  }

  ghost predicate RemainsAt(l: seq<Chunk>, d: seq<byte>, n: nat, opens: bool, works: int -> bool, e: seq<byte>, o: int)
    requires n <= |l|
  {
    && FileView(l[n..], e, o) == (if LostAt(l, n, opens, works, o) then DiskView(d, o) else FileView(l, d, o))
    && ((forall i :: 0 <= i < n ==> !l[i].Has(o)) ==> DiskView(e, o) == DiskView(d, o))
  }

  /** The flush of a chunk with offset o failed. */
  ghost predicate LostAt(l: seq<Chunk>, n: nat, opens: bool, works: int -> bool, o: int)
    requires n <= |l|
  {
    exists i :: 0 <= i < n && l[i].Has(o) && !OnDiskAfter(l[i], opens, works)
  }

  lemma AllRemains(l: seq<Chunk>, d: seq<byte>, opens: bool, works: int -> bool)
    ensures WhatRemains(l, d, 0, opens, works, d)
  {
    assert l[0..] == l;
  }

  /** When every write works, flushing changes no byte of the file and leaves no hole. */
  lemma FlushKeepsFile(l: seq<Chunk>, d: seq<byte>, n: nat, opens: bool, works: int -> bool, e: seq<byte>)
    requires WellFormed(l) && n <= |l| && WhatRemains(l, d, n, opens, works, e)
    ensures opens && (forall x :: works(x)) ==> SameFile(l, d, l[n..], e)
  {
    if opens && forall x :: works(x) {
      forall o ensures FileView(l[n..], e, o) == FileView(l, d, o) {
        assert RemainsAt(l, d, n, opens, works, e, o);
      }
      forall o | |d| <= o < |e| ensures View(l, o) == Byte(e[o]) {
        assert RemainsAt(l, d, n, opens, works, e, o);
        var i :| 0 <= i < n && l[i].Has(o);
        ViewIn(l, i, o);
        ViewMissing(l[n..], o);
      }
    }
  }

  /** Same bytes to the user. */
  ghost predicate SameBytes(l: seq<Chunk>, d: seq<byte>, m: seq<Chunk>, e: seq<byte>) {
    forall o :: FileView(m, e, o) == FileView(l, d, o)
  }

  /** Same bytes to the user; what the disk gained were bytes in memory. */
  ghost predicate SameFile(l: seq<Chunk>, d: seq<byte>, m: seq<Chunk>, e: seq<byte>) {
    && SameBytes(l, d, m, e)
    && forall o :: |d| <= o < |e| ==> View(l, o) == Byte(e[o])
  }

  /** The bytes of a flushed chunk are still there: its write worked, or the disk had them already. */
  ghost predicate Survives(c: Chunk, d: seq<byte>, opens: bool, works: int -> bool) {
    OnDiskAfter(c, opens, works) || forall o :: c.Has(o) ==> DiskView(d, o) == Byte(c.At(o))
  }

  ghost predicate AllSurvive(l: seq<Chunk>, d: seq<byte>, opens: bool, works: int -> bool) {
    forall i :: 0 <= i < |l| ==> Survives(l[i], d, opens, works)
  }

  /** A flush changes no byte of the file exactly when all the chunks it drops survive. */
  lemma FlushKeepsFileIff(l: seq<Chunk>, d: seq<byte>, n: nat, opens: bool, works: int -> bool, e: seq<byte>)
    requires WellFormed(l) && n <= |l| && WhatRemains(l, d, n, opens, works, e)
    ensures SameBytes(l, d, l[n..], e) <==> AllSurvive(l[..n], d, opens, works)
  {
    assert forall i :: 0 <= i < n ==> l[i] == l[..n][i];
    forall o
      ensures FileView(l[n..], e, o) == (if LostAt(l, n, opens, works, o) then DiskView(d, o) else FileView(l, d, o))
    {
      assert RemainsAt(l, d, n, opens, works, e, o);
    }
    forall i, o | 0 <= i < n && l[i].Has(o) ensures FileView(l, d, o) == Byte(l[i].At(o)) {
      ViewIn(l, i, o);
    }
    if i :| 0 <= i < n && !Survives(l[i], d, opens, works) {
      var o :| l[i].Has(o) && DiskView(d, o) != Byte(l[i].At(o));
      assert LostAt(l, n, opens, works, o);
    }
  }

  /** One byte in memory, nothing on disk, and a forced sync whose write fails: the byte is lost. */
  method FailedWriteLosesByte(b: byte) returns (content: FileContent, before: Known, after: Known)
    ensures before == Byte(b) && after == Missing
    ensures content.chunks == [] && after == FileView(content.chunks, content.disk, 0)
  {
    content := new FileContent([], 0, 0);
    content.SetChunk(Chunk(0, Bytes([b]), 0, false), 0);
    OneChunkWritten(b, content.chunks);
    before := FileView(content.chunks, content.disk, 0);
    content.SyncInVain(b);
    after := FileView(content.chunks, content.disk, 0);
  }

  lemma OneChunkWritten(b: byte, l: seq<Chunk>)
    requires l == WithChunk([], Chunk(0, Bytes([b]), 0, false), 0)
    ensures l == [Chunk(0, Bytes([b]), 0, false)] && WellFormed(l) && View(l, 0) == Byte(b)
  {
  }

  lemma OneByteIsLost(b: byte, l: seq<Chunk>, works: int -> bool, e: seq<byte>)
    requires l == [Chunk(0, Bytes([b]), 0, false)] && !works(0) && WhatRemains(l, [], 1, true, works, e)
    ensures FileView([], e, 0) == Missing
  {
    assert l[0].Has(0) && LostAt(l, 1, true, works, 0);
    assert RemainsAt(l, [], 1, true, works, e, 0);
    assert l[1..] == [];
  }

  /** Flushing one more chunk, at one offset. */
  lemma RemainsStepAt(l: seq<Chunk>, d: seq<byte>, n: nat, opens: bool, works: int -> bool,
                      e: seq<byte>, f: seq<byte>, o: int)
    requires WellFormed(l) && n < |l| && 0 <= l[n].offset <= |e|
    requires RemainsAt(l, d, n, opens, works, e, o)
    requires l[n].hddSynced && l[n].Has(o) ==> DiskView(e, o) == Byte(l[n].At(o))
    requires f == if l[n].hddSynced then e else Flushed(e, l[n], opens && works(l[n].offset))
    ensures RemainsAt(l, d, n + 1, opens, works, f, o)
  {
    var c := l[n];
    assert l[n..][0] == c && l[n..][1..] == l[n + 1..];
    if c.Has(o) {
      ViewMissing(l[n + 1..], o);
      ViewIn(l, n, o);
      assert forall i :: 0 <= i < n ==> !l[i].Has(o);
    } else {
      assert DiskView(f, o) == DiskView(e, o);
      assert LostAt(l, n + 1, opens, works, o) <==> LostAt(l, n, opens, works, o);
    }
  }

  lemma RemainsStep(l: seq<Chunk>, d: seq<byte>, n: nat, opens: bool, works: int -> bool, e: seq<byte>, f: seq<byte>)
    requires WellFormed(l) && n < |l| && 0 <= l[n].offset <= |e|
    requires WhatRemains(l, d, n, opens, works, e) && SyncedOnDisk(l[n..], e)
    requires f == if l[n].hddSynced then e else Flushed(e, l[n], opens && works(l[n].offset))
    ensures WhatRemains(l, d, n + 1, opens, works, f)
    ensures SyncedOnDisk(l[n + 1..], f)
  {
    assert l[n..][0] == l[n];
    var k := n + 1;
    forall o ensures RemainsAt(l, d, k, opens, works, f, o) {
      RemainsStepAt(l, d, n, opens, works, e, f, o);
    }
    SyncedStep(l, n, e, f, opens && works(l[n].offset));
  }

  lemma SyncedStep(l: seq<Chunk>, n: nat, e: seq<byte>, f: seq<byte>, ok: bool)
    requires WellFormed(l) && n < |l| && l[n].offset >= 0 && SyncedOnDisk(l[n..], e)
    requires f == if l[n].hddSynced then e else Flushed(e, l[n], ok)
    ensures SyncedOnDisk(l[n + 1..], f)
  {
    var rest := l[n + 1..];
    forall i, o | 0 <= i < |rest| && rest[i].hddSynced && rest[i].Has(o)
      ensures DiskView(f, o) == Byte(rest[i].At(o))
    {
      assert l[n..][i + 1] == rest[i] && l[n + 1 + i] == rest[i];
      assert l[n].End() <= l[n + 1 + i].offset;
      assert DiskView(e, o) == Byte(l[n..][i + 1].At(o));
    }
  }

  /** std::list::erase of the first equal descriptor, if there is one. */
  function WithoutFirst(l: seq<Desc>, d: Desc): seq<Desc> {
    if l == [] then [] else if l[0] == d then l[1..] else [l[0]] + WithoutFirst(l[1..], d)
  }

  /** One equal descriptor goes, the first. */
  lemma {:induction false} WithoutFirstIs(l: seq<Desc>, d: Desc)
    ensures d !in l ==> WithoutFirst(l, d) == l
    ensures d in l ==>
              exists i :: 0 <= i < |l| && l[i] == d && d !in l[..i] && WithoutFirst(l, d) == l[..i] + l[i + 1..]
  {
    if l != [] {
      var i := PlaceOf(l, d);
      assert i < |l| ==> l[i] == d && d !in l[..i] && WithoutFirst(l, d) == l[..i] + l[i + 1..];
    }
  }

  lemma {:induction false} PlaceOf(l: seq<Desc>, d: Desc) returns (i: nat)
    ensures i <= |l| && d !in l[..i] && (i < |l| ==> l[i] == d)
    ensures WithoutFirst(l, d) == if i < |l| then l[..i] + l[i + 1..] else l
  {
    if l == [] || l[0] == d {
      i := 0;
    } else {
      var j := PlaceOf(l[1..], d);
      i := j + 1;
      assert l[..i] == [l[0]] + l[1..][..j];
      assert i < |l| ==> l[i + 1..] == l[1..][j + 1..];
      assert l == [l[0]] + l[1..];
    }
  }

  lemma FirstOffsetMissing(l: seq<Chunk>, d: Desc, it: nat)
    requires WellFormed(l) && d.size > 0 && it <= |l|
    requires forall i :: 0 <= i < it ==> !d.Overlaps(l[i].Extent())
    requires it < |l| ==> l[it].offset > d.offset
    ensures !Held(l, d.offset)
  {
    ViewMissing(l, d.offset);
    forall i | 0 <= i < |l| ensures !l[i].Has(d.offset) {
      assert forall j :: it < j < |l| ==> l[it].End() <= l[j].offset;
    }
  }

  /** A chunk ends at e and the next does not start there. */
  lemma GapAt(l: seq<Chunk>, it: nat, e: int)
    requires WellFormed(l) && 0 < it <= |l| && l[it - 1].End() == e && (it < |l| ==> l[it].offset != e)
    ensures !Held(l, e)
  {
    ViewMissing(l, e);
    forall i | 0 <= i < |l| ensures !l[i].Has(e) {
      assert i < it - 1 ==> l[i].End() <= l[it - 1].offset;
      assert forall j :: it < j < |l| ==> l[it].End() <= l[j].offset;
    }
  }
}
