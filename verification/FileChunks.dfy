/**
 * Pieces of a file: half-open intervals (FileChunkDesc) and the bytes of one
 * (FileChunk).  Chunks are held and passed by value, as the list holds them;
 * the class below is the buffer they are copied from and to.
 */
module FileChunks {

  type byte = x: int | 0 <= x < 256

  function Max(a: int, b: int): int {
    if a > b then a else b
  }

  function Min(a: int, b: int): int {
    if a < b then a else b
  }

  // --------------------------------------------------------------- intervals

  /** Size is signed: a size that wraps below zero still gives the right end. */
  datatype Desc = Desc(offset: int, size: int) {
    function End(): int {
      offset + size
    }

    predicate Overlaps(other: Desc) {
      || (offset <= other.offset && End() > other.offset)
      || (other.offset <= offset && other.End() > offset)
    }

    function CommonPart(other: Desc): Desc {
      if !Overlaps(other) then Desc(0, 0)
      else
        var beginOff, endOff := Max(offset, other.offset), Min(End(), other.End());
        Desc(beginOff, endOff - beginOff)
    }

    predicate Contains(other: Desc) {
      offset <= other.offset && End() >= other.End()
    }

    /** Whether offset o lies in the interval. */
    predicate Has(o: int) {
      offset <= o < End()
    }
  }

  /** Overlapping is sharing an offset, unless an empty interval is involved. */
  lemma OverlapsIff(a: Desc, b: Desc)
    requires a.size > 0 && b.size > 0
    ensures a.Overlaps(b) <==> exists o :: a.Has(o) && b.Has(o)
    ensures a.Overlaps(b) <==> b.Overlaps(a)
    ensures a.Contains(b) <==> forall o :: b.Has(o) ==> a.Has(o)
  {
    if a.Overlaps(b) {
      assert a.Has(Max(a.offset, b.offset)) && b.Has(Max(a.offset, b.offset));
    }
    if forall o :: b.Has(o) ==> a.Has(o) {
      assert b.Has(b.offset) && b.Has(b.End() - 1);
    }
  }

  /** The common part holds exactly the shared offsets and is never empty. */
  lemma CommonPartIsIntersection(a: Desc, b: Desc, o: int)
    requires a.size > 0 && b.size > 0 && a.Overlaps(b)
    ensures a.CommonPart(b).size > 0
    ensures a.CommonPart(b).Has(o) <==> a.Has(o) && b.Has(o)
  {
  }

  // ------------------------------------------------------------------ chunks

  /** A chunk without a buffer (data == NULL) is told from one with no bytes. */
  datatype Buffer = Null | Bytes(bytes: seq<byte>)

  datatype Chunk = Chunk(offset: int, data: Buffer, accessTime: int, hddSynced: bool) {
    function Size(): nat {
      if data.Null? then 0 else |data.bytes|
    }

    function End(): int {
      offset + Size()
    }

    function Extent(): Desc {
      Desc(offset, Size())
    }

    predicate Has(o: int) {
      offset <= o < End()
    }

    function At(o: int): byte
      requires Has(o)
    {
      data.bytes[o - offset]
    }
  }

  const NoChunk: Chunk := Chunk(0, Null, 0, false)

  /** Overwrite the common part of c with the bytes of d. */
  function Merged(c: Chunk, d: Chunk, now: int): (r: Chunk)
    requires c.Size() > 0 && d.Size() > 0
    ensures r.offset == c.offset && r.Size() == c.Size()
    ensures forall o :: c.Has(o) ==> r.At(o) == if d.Has(o) then d.At(o) else c.At(o)
    ensures if c.Extent().Overlaps(d.Extent()) then r.accessTime == now && !r.hddSynced else r == c
  {
    if !c.Extent().Overlaps(d.Extent()) then c
    else
      var part := c.Extent().CommonPart(d.Extent());
      var from, start := part.offset - c.offset, part.offset - d.offset;
      Chunk(c.offset,
            Bytes(c.data.bytes[..from] + d.data.bytes[start..start + part.size] + c.data.bytes[from + part.size..]),
            now, false)
  }

  /** The bytes of c that fall in d; no chunk at all when none does. */
  function Part(c: Chunk, d: Desc, now: int): (r: Chunk)
    requires c.Size() > 0 && (c.Extent().Overlaps(d) ==> d.size > 0)
    ensures c.Extent().Overlaps(d) ==>
              r.Extent() == c.Extent().CommonPart(d) && r.Size() > 0 &&
              r.accessTime == now && r.hddSynced == c.hddSynced &&
              forall o :: r.Has(o) ==> c.Has(o) && r.At(o) == c.At(o)
    ensures !c.Extent().Overlaps(d) ==> r == NoChunk
  {
    if !c.Extent().Overlaps(d) then NoChunk
    else
      var part := c.Extent().CommonPart(d);
      var start := part.offset - c.offset;
      Chunk(part.offset, Bytes(c.data.bytes[start..start + part.size]), now, c.hddSynced)
  }

  /** c followed by d; the source writes past its buffer unless they are adjacent. */
  function Joined(c: Chunk, d: Chunk, now: int): (r: Chunk)
    requires c.data.Bytes? && d.data.Bytes? ==> c.End() == d.offset
    ensures d.data.Null? ==> r == c
    ensures c.data.Null? && d.data.Bytes? ==> r == d
    ensures c.data.Bytes? && d.data.Bytes? ==>
              r == Chunk(c.offset, Bytes(c.data.bytes + d.data.bytes), now, false) && r.End() == d.End()
  {
    if d.data.Null? then c
    else if c.data.Null? then d
    else Chunk(c.offset, Bytes(c.data.bytes + d.data.bytes), now, false)
  }

  // --------------------------------------------------------------- the buffer

  lemma MergedBytes(c: Chunk, d: Chunk, now: int, bytes: seq<byte>)
    requires c.Size() > 0 && d.Size() > 0 && c.Extent().Overlaps(d.Extent())
    requires var part := c.Extent().CommonPart(d.Extent());
             bytes == c.data.bytes[..part.offset - c.offset]
                      + d.data.bytes[part.offset - d.offset..part.offset - d.offset + part.size]
                      + c.data.bytes[part.offset - c.offset + part.size..]
    ensures Merged(c, d, now) == Chunk(c.offset, Bytes(bytes), now, false)
  {
  }

  class FileChunk {
    var offset: int
    var size: nat
    var accessTime: int
    var data: array?<byte>
    var hddSynced: bool

    ghost predicate Valid()
      reads this, data
    {
      if data == null then size == 0 else data.Length == size
    }

    ghost function Value(): (c: Chunk)
      reads this, data
      requires Valid()
      ensures c.Size() == size && c.offset == offset
    {
      Chunk(offset, if data == null then Null else Bytes(data[..]), accessTime, hddSynced)
    }

    constructor (bytes: Buffer, offset: int, now: int)
      ensures Valid() && Value() == Chunk(offset, bytes, now, false)
      ensures data != null ==> fresh(data)
    {
      this.offset := offset;
      accessTime, hddSynced := now, false;
      if bytes.Null? {
        data, size := null, 0;
      } else {
        data := new byte[|bytes.bytes|](i requires 0 <= i < |bytes.bytes| => bytes.bytes[i]);
        size := |bytes.bytes|;
      }
    }

    function Extent(): Desc
      reads this
    {
      Desc(offset, size)
    }

    /** The argument is the caller's copy, so its buffer is another one. */
    method Merge(chunk: FileChunk, now: int)
      requires Valid() && chunk.Valid() && chunk != this && chunk.data != data
      requires size > 0 && chunk.size > 0
      modifies this`accessTime, this`hddSynced, data, chunk`accessTime
      ensures Valid() && Value() == Merged(old(Value()), old(chunk.Value()), now)
    {
      if !Extent().Overlaps(chunk.Extent()) {
        return;
      }
      accessTime := now;
      hddSynced := false;
      var part := Extent().CommonPart(chunk.Extent());
      var bufStart, chuStart := part.offset - offset, part.offset - chunk.offset;
      chunk.accessTime := now;
      Memcpy(data, bufStart, chunk.data, chuStart, part.size);
      MergedBytes(old(Value()), old(chunk.Value()), now, data[..]);
    }

    method Concatenate(other: FileChunk, now: int)
      requires Valid() && other.Valid() && other != this
      requires data != null && other.data != null ==> offset + size == other.offset
      modifies this, other`accessTime
      ensures Valid() && Value() == Joined(old(Value()), old(other.Value()), now)
      ensures data != null ==> fresh(data) || data == old(data)
    {
      if other.data == null {
        return;
      }
      if data == null {
        offset, size, accessTime, hddSynced := other.offset, other.size, other.accessTime, other.hddSynced;
        data := new byte[size];
        Memcpy(data, 0, other.data, 0, size);
        return;
      }
      accessTime := now;
      hddSynced := false;
      var newData := Buffer(data, other.data);
      other.accessTime := now;
      size := size + other.size;
      data := newData;
    }

    /** A new buffer with the bytes of both. */
    static method Buffer(first: array<byte>, second: array<byte>) returns (r: array<byte>)
      ensures fresh(r) && r[..] == first[..] + second[..]
    {
      r := new byte[first.Length + second.Length](_ => 0);
      Memcpy(r, 0, first, 0, first.Length);
      Memcpy(r, first.Length, second, 0, second.Length);
      assert r[..] == first[..] + second[..];
    }

    method GetPart(desc: Desc, now: int) returns (part: FileChunk)
      requires Valid() && size > 0 && (Extent().Overlaps(desc) ==> desc.size > 0)
      modifies this`accessTime
      ensures part.Valid() && fresh(part)
      ensures if Extent().Overlaps(desc)
              then part.Value() == Part(old(Value()), desc, now)
              else part.Value() == Chunk(0, Null, 0, false)
      ensures accessTime == if Extent().Overlaps(desc) then now else old(accessTime)
    {
      if !Extent().Overlaps(desc) {
        part := new FileChunk(Null, 0, 0);
        return;
      }
      accessTime := now;
      var common := Extent().CommonPart(desc);
      var bufStart := common.offset - offset;
      part := new FileChunk(Bytes(data[bufStart..bufStart + common.size]), common.offset, now);
      if hddSynced {
        part.hddSynced := true;
      }
    }
  }

  method Memcpy(dst: array<byte>, to: nat, src: array<byte>, from: nat, n: nat)
    requires dst != src && to + n <= dst.Length && from + n <= src.Length
    modifies dst
    ensures dst[..] == old(dst[..to]) + src[from..from + n] + old(dst[to + n..])
  {
    for i := 0 to n
      invariant dst[..] == old(dst[..to]) + src[from..from + i] + old(dst[to + i..])
    {
      dst[to + i] := src[from + i];
    }
  }
}
