/** The Buffer of voyager/core/buffer.h: a byte queue in a vector with a read and a write index. */
module Buffers {
  import opened Wrappers

  const CR: bv8 := '\r' as bv8
  const LF: bv8 := '\n' as bv8
  const BACKUP_SIZE: nat := 65536

  /** Where "\r\n" first stands in s. */
  predicate CrlfAt(s: seq<bv8>, i: nat) { i + 1 < |s| && s[i] == CR && s[i + 1] == LF }

  class Buffer {
    var buf: seq<bv8>
    var readIndex: nat
    var writeIndex: nat

    ghost predicate Valid()
      reads this
    {
      readIndex <= writeIndex <= |buf|
    }

    /** The queue: what was appended and not retrieved. */
    ghost function Contents(): seq<bv8>
      requires Valid()
      reads this
    {
      buf[readIndex..writeIndex]
    }

    constructor (initSize: nat)
      ensures Valid() && Contents() == []
    {
      buf := seq(initSize, _ => 0);
      readIndex, writeIndex := 0, 0;
    }

    function ReadableSize(): (n: nat)
      requires Valid()
      reads this
      ensures n == |Contents()|
    {
      writeIndex - readIndex
    }

    function WritableSize(): nat
      requires Valid()
      reads this
    {
      |buf| - writeIndex
    }

    /** The readable bytes from i up to j, as a pointer and a size would give them. */
    function PeekRange(i: nat, j: nat): (s: seq<bv8>)
      requires Valid() && i <= j <= |Contents()|
      reads this
      ensures s == Contents()[i..j]
    {
      assert forall k :: 0 <= k < j - i ==> Contents()[i..j][k] == Contents()[i + k] == buf[readIndex + i + k];
      buf[readIndex + i..readIndex + j]
    }

    /** Grows the vector, or moves the readable bytes to its front when that makes enough room. */
    method MakeSpace(size: nat)
      requires Valid() && WritableSize() < size
      modifies this
      ensures Valid() && Contents() == old(Contents()) && WritableSize() >= size
    {
      if WritableSize() + readIndex < size {
        buf := buf + seq(writeIndex + size - |buf|, _ => 0);
      } else {
        var readable := ReadableSize();
        buf := buf[readIndex..writeIndex] + buf[readable..];
        readIndex := 0;
        writeIndex := readIndex + readable;
      }
    }

    method Append(data: seq<bv8>)
      requires Valid()
      modifies this
      ensures Valid() && Contents() == old(Contents()) + data
    {
      if WritableSize() < |data| {
        MakeSpace(|data|);
      }
      buf := buf[..writeIndex] + data + buf[writeIndex + |data|..];
      writeIndex := writeIndex + |data|;
    }

    /** The offset of the first "\r\n" among the readable bytes. */
    method FindCRLF() returns (r: Option<nat>)
      requires Valid()
      ensures r.Some? ==> CrlfAt(Contents(), r.value) && forall i :: 0 <= i < r.value ==> !CrlfAt(Contents(), i)
      ensures r.None? ==> forall i :: 0 <= i < |Contents()| ==> !CrlfAt(Contents(), i)
    {
      var i := readIndex;
      while i + 1 < writeIndex
        invariant readIndex <= i
        invariant forall j :: 0 <= j < i - readIndex ==> !CrlfAt(Contents(), j)
      {
        if buf[i] == CR && buf[i + 1] == LF { return Some(i - readIndex); }
        assert !CrlfAt(Contents(), i - readIndex);
        i := i + 1;
      }
      return None;
    }

    method RetrieveAll()
      requires Valid()
      modifies this
      ensures Valid() && Contents() == []
    {
      readIndex, writeIndex := 0, 0;
    }

    method Retrieve(size: nat)
      requires Valid() && size <= |Contents()|
      modifies this
      ensures Valid() && Contents() == old(Contents())[size..]
    {
      if size < ReadableSize() {
        readIndex := readIndex + size;
      } else {
        RetrieveAll();
      }
    }

    /** end is an offset into the readable bytes, as a pointer that FindCRLF returned would be. */
    method RetrieveUntil(end: nat)
      requires Valid() && end <= |Contents()|
      modifies this
      ensures Valid() && Contents() == old(Contents())[end..]
    {
      Retrieve(end);
    }

    method RetrieveAsString(size: nat) returns (s: seq<bv8>)
      requires Valid() && size <= |Contents()|
      modifies this
      ensures Valid() && s == old(Contents())[..size] && Contents() == old(Contents())[size..]
    {
      s := buf[readIndex..readIndex + size];
      Retrieve(size);
    }

    method RetrieveAllAsString() returns (s: seq<bv8>)
      requires Valid()
      modifies this
      ensures Valid() && s == old(Contents()) && Contents() == []
    {
      s := RetrieveAsString(ReadableSize());
    }

    /** How many bytes readv(2) may deliver: the room behind the write index, and the backup
        buffer on the stack while that room is smaller. */
    function Offered(): nat
      requires Valid()
      reads this
    {
      if WritableSize() < BACKUP_SIZE then WritableSize() + BACKUP_SIZE else WritableSize()
    }

    /** A scatter read for which the kernel delivered these bytes, or which failed. */
    method ReadV(delivered: Option<seq<bv8>>) returns (n: int)
      requires Valid() && (delivered.Some? ==> |delivered.value| <= Offered())
      modifies this
      ensures Valid()
      ensures delivered.Some? ==> n == |delivered.value| && Contents() == old(Contents()) + delivered.value
      ensures delivered.None? ==> n == -1 && Contents() == old(Contents())
    {
      var writable := WritableSize();
      if delivered.None? { return -1; }
      var bytes := delivered.value;
      n := |bytes|;
      var first := if n <= writable then n else writable;
      buf := buf[..writeIndex] + bytes[..first] + buf[writeIndex + first..];
      if n <= writable {
        writeIndex := writeIndex + n;
      } else {
        writeIndex := |buf|;
        assert Contents() == old(Contents()) + bytes[..first];
        Append(bytes[first..]);
      }
    }
  }
}
