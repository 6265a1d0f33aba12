/** The growable byte stream of stuncore/datastream.cpp and the buffer it writes to. */
module DataStreams {

  type byte = x: int | 0 <= x < 256

  /** CBuffer: `data` is the allocation, the first `size` bytes of it are in use. */
  class Buffer {
    const data: array<byte>
    var size: nat

    /** CBuffer(size): the whole allocation counts as used. */
    constructor (n: nat)
      ensures size == n && data.Length == n && fresh(data)
    {
      data := new byte[n];
      size := n;
    }
  }

  /** Writing `data` at `pos` replaces what is there and extends the end if it has to. */
  function Overwrite(s: seq<byte>, pos: nat, data: seq<byte>): seq<byte>
    requires pos <= |s|
  {
    s[..pos] + data + (if pos + |data| < |s| then s[pos + |data|..] else [])
  }

  class DataStream {
    var buffer: Buffer?
    var pos: nat
    var fNoGrow: bool

    // Accounting for Grow.
    ghost var initial: nat
    ghost var copied: nat
    ghost var grown: bool
    ghost var largest: nat

    ghost function Repr(): set<object>
      reads this
    {
      {this} + (if buffer == null then {} else {buffer, buffer.data})
    }

    ghost function Contents(): seq<byte>
      reads Repr()
    {
      if buffer != null && buffer.size <= buffer.data.Length then buffer.data[..buffer.size] else []
    }

    function Capacity(): nat
      reads this
    {
      if buffer == null then 0 else buffer.data.Length
    }

    ghost predicate Valid()
      reads Repr()
    {
      && (buffer != null ==> buffer.size <= buffer.data.Length)
      && pos <= |Contents()|
      && initial + copied <= Capacity()
      && (grown ==> Capacity() <= 2 * largest)
    }

    constructor ()
      ensures Valid() && buffer == null && Contents() == [] && pos == 0 && !fNoGrow && !grown && copied == 0
    {
      buffer := null;
      pos := 0;
      fNoGrow := false;
      initial, copied, grown, largest := 0, 0, false, 0;
    }

    method Reset()
      modifies this
      ensures Valid() && buffer == null && Contents() == [] && pos == 0 && !fNoGrow
    {
      buffer := null;
      pos := 0;
      fNoGrow := false;
      initial, copied, grown, largest := 0, 0, false, 0;
    }

    /** The stream continues on a buffer of the caller, emptied first if it is for writing. */
    method Attach(b: Buffer, fForWriting: bool)
      requires b.size <= b.data.Length
      modifies this, b
      ensures Valid() && buffer == b && pos == 0 && !fNoGrow
      ensures Contents() == if fForWriting then [] else old(b.data[..b.size])
      ensures !fForWriting ==> b.size == old(b.size)
    {
      Reset();
      buffer := b;
      initial, copied, grown, largest := b.data.Length, 0, false, 0;
      if fForWriting {
        b.size := 0;
      }
    }

    function GetSize(): (n: nat)
      requires Valid()
      reads Repr()
      ensures n == |Contents()|
    {
      if buffer == null then 0 else buffer.size
    }

    /** Room for `size` bytes. The contents and the cursor are untouched, and a doubling policy keeps the bytes
        copied over a whole life below the capacity gained, and the capacity below twice the largest request. */
    method Grow(size: nat) returns (ok: bool)
      requires Valid()
      modifies this
      ensures Valid() && Contents() == old(Contents()) && pos == old(pos) && fNoGrow == old(fNoGrow)
      ensures ok <==> size <= old(Capacity()) || !fNoGrow
      ensures ok ==> buffer != null || size == 0
      ensures ok ==> size <= Capacity()
      ensures size <= old(Capacity()) ==> buffer == old(buffer)
      ensures buffer == old(buffer) || (buffer != null && fresh(buffer) && fresh(buffer.data))
      ensures initial == old(initial) && largest == (if size > old(largest) then size else old(largest))
      ensures buffer != old(buffer) ==> grown && copied == old(copied) + |Contents()|
      ensures buffer == old(buffer) ==> copied == old(copied) && grown == old(grown)
    {
      var currentAllocated := Capacity();
      var currentSize := GetSize();
      largest := if size > largest then size else largest;
      if size <= currentAllocated {
        return true;
      }
      if fNoGrow {
        return false;
      }
      var newallocationsize := if size > currentAllocated * 2 then size else currentAllocated * 2;
      var newBuffer := new Buffer(newallocationsize);
      newBuffer.size := currentSize;
      if buffer != null && currentSize > 0 {
        Copy(newBuffer.data, 0, buffer.data[..currentSize]);
      }
      ghost var before := Contents();
      buffer := newBuffer;
      copied := copied + currentSize;
      grown := true;
      assert Contents() == before;
      return true;
    }

    /** memcpy. */
    static method Copy(dst: array<byte>, at: nat, src: seq<byte>)
      requires at + |src| <= dst.Length
      modifies dst
      ensures dst[..at] == old(dst[..at])
      ensures dst[at..at + |src|] == src
      ensures dst[at + |src|..] == old(dst[at + |src|..])
    {
      forall i | 0 <= i < |src| {
        dst[at + i] := src[i];
      }
    }

    method Write(data: seq<byte>) returns (ok: bool)
      requires Valid()
      modifies Repr()
      ensures Valid() && fNoGrow == old(fNoGrow)
      ensures ok <==> |data| > 0 && (old(pos) + |data| <= old(Capacity()) || !fNoGrow)
      ensures ok ==> Contents() == Overwrite(old(Contents()), old(pos), data) && pos == old(pos) + |data|
      ensures !ok ==> Contents() == old(Contents()) && pos == old(pos)
      ensures buffer == old(buffer) || (buffer != null && fresh(buffer) && fresh(buffer.data))
      ensures old(pos) + |data| <= old(Capacity()) ==> buffer == old(buffer)
    {
      var newposition := |data| + pos;
      var currentSize := GetSize();
      if |data| == 0 {
        return false;
      }
      ok := Grow(newposition);
      if !ok {
        return;
      }
      ghost var before := Contents();
      Copy(buffer.data, pos, data);
      OverwriteIs(buffer.data[..], before, pos, data, if newposition > currentSize then newposition else currentSize);
      pos := newposition;
      if newposition > currentSize {
        buffer.size := newposition;
      }
    }

    lemma OverwriteIs(after: seq<byte>, before: seq<byte>, at: nat, data: seq<byte>, size: nat)
      requires at <= |before| <= size <= |after| && at + |data| <= size
      requires size == if at + |data| > |before| then at + |data| else |before|
      requires after[..at] == before[..at] && after[at..at + |data|] == data
      requires forall i | at + |data| <= i < |before| :: after[i] == before[i]
      ensures after[..size] == Overwrite(before, at, data)
    {
      assert after[..size] == after[..at] + after[at..at + |data|] + after[at + |data|..size];
    }

    method Read(size: nat) returns (ok: bool, data: seq<byte>)
      requires Valid()
      modifies `pos
      ensures Valid()
      ensures ok <==> old(pos) + size <= |Contents()|
      ensures ok ==> data == Contents()[old(pos)..old(pos) + size] && pos == old(pos) + size
      ensures !ok ==> data == [] && pos == old(pos)
    {
      var newpos := size + pos;
      if newpos > GetSize() {
        return false, [];
      }
      data := if buffer == null then [] else buffer.data[pos..newpos];
      pos := newpos;
      ok := true;
    }

    /** Seeking is allowed anywhere between 0 and the size. */
    method SeekDirect(newpos: int) returns (ok: bool)
      requires Valid()
      modifies `pos
      ensures Valid()
      ensures ok <==> 0 <= newpos <= |Contents()|
      ensures pos == if ok then newpos else old(pos)
    {
      if 0 <= newpos <= GetSize() {
        pos := newpos;
        return true;
      }
      return false;
    }

    method SeekRelative(offset: int) returns (ok: bool)
      requires Valid()
      modifies `pos
      ensures Valid()
      ensures ok <==> 0 <= old(pos) + offset <= |Contents()|
      ensures pos == if ok then old(pos) + offset else old(pos)
    {
      ok := SeekDirect(offset + pos);
    }
  }
}
