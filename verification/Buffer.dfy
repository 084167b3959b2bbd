/**
 The sliding-window byte buffer of net/Buffer.h and net/Buffer.cpp. The readable
 bytes lie between two indices of a vector; behind them new bytes are appended,
 in front of them a few may be prepended.
 */
module Buffers {
  import opened Sequences

  type byte = x: int | 0 <= x < 256

  const PREPEND_SIZE: nat := 8
  const INITIAL_SIZE: nat := 1024
  const EXTRA_SIZE: nat := 65536

  const CR: byte := 13
  const LF: byte := 10

  function Max(a: int, b: int): int {
    if a < b then b else a
  }

  /** What is left of `s` after dropping `n` elements, or everything if there are fewer. */
  function Dropped<T>(s: seq<T>, n: nat): seq<T> {
    if n < |s| then s[n..] else []
  }

  /** The size the vector never exceeds if the readable bytes have never been more than `peak`. */
  function CapacityBound(peak: nat): nat {
    Max(PREPEND_SIZE + INITIAL_SIZE, 2 * peak + PREPEND_SIZE - 1)
  }

  /** The size `append` leaves behind a vector of `size` bytes whose window is [r, w). */
  function SizeAfter(size: nat, r: nat, w: nat, len: nat): int {
    if size - w < len && size < PREPEND_SIZE + (w - r) + len then w + len else size
  }

  lemma SizeAfterBounded(size: nat, r: nat, w: nat, len: nat, peak: nat)
    requires r <= w <= size && w - r <= peak && size <= CapacityBound(peak)
    ensures size <= SizeAfter(size, r, w, len) <= CapacityBound(Max(peak, w - r + len))
  {
  }

  /** A line end starts at position `i`. */
  predicate CrlfAt(s: seq<byte>, i: int) {
    0 <= i && i + 1 < |s| && s[i] == CR && s[i + 1] == LF
  }

  /** `r` is the position of the first line end of `s`, None if there is none. */
  ghost predicate IsFirstCrlf(s: seq<byte>, r: Option<nat>) {
    && (r.Some? ==> CrlfAt(s, r.value) && forall j :: 0 <= j < r.value ==> !CrlfAt(s, j))
    && (r.None? ==> forall j :: 0 <= j < |s| ==> !CrlfAt(s, j))
  }

  class Buffer {
    var data: array<byte>
    var readIndex: nat
    var writeIndex: nat
    /** The largest number of readable bytes there has been. */
    ghost var peak: nat

    ghost predicate Valid()
      reads this
    {
      && readIndex <= writeIndex <= data.Length
      && writeIndex - readIndex <= peak
      && PREPEND_SIZE + INITIAL_SIZE <= data.Length <= CapacityBound(peak)
    }

    ghost function Contents(): (s: seq<byte>)
      requires Valid()
      reads this, data
      ensures |s| == writeIndex - readIndex
    {
      data[readIndex..writeIndex]
    }

    function ReadableBytes(): int
      reads this
    {
      writeIndex - readIndex
    }

    function WritableBytes(): int
      reads this
    {
      data.Length - writeIndex
    }

    /** The requested size is ignored, as in the original. */
    constructor (size: nat)
      ensures Valid() && fresh(data)
      ensures Contents() == []
      ensures data.Length == PREPEND_SIZE + INITIAL_SIZE && readIndex == PREPEND_SIZE && peak == 0
    {
      data := new byte[PREPEND_SIZE + INITIAL_SIZE](_ => 0);
      readIndex, writeIndex, peak := PREPEND_SIZE, PREPEND_SIZE, 0;
    }

    // ------------------------------------------------------------------ append

    /** `_data.resize(n)`: a larger block with the old bytes in front. */
    method Resize(n: nat)
      requires data.Length <= n
      modifies this`data
      ensures fresh(data) && data.Length == n
      ensures forall i :: 0 <= i < old(data.Length) ==> data[i] == old(data[i])
    {
      var d := new byte[n](_ => 0);
      forall i | 0 <= i < data.Length {
        d[i] := data[i];
      }
      data := d;
    }

    /** Moves the readable bytes to the front, byte by byte from the left; the two ranges may overlap. */
    method Compact()
      requires PREPEND_SIZE < readIndex <= writeIndex <= data.Length
      modifies this`readIndex, this`writeIndex, data
      ensures readIndex == PREPEND_SIZE <= writeIndex <= data.Length
      ensures data[readIndex..writeIndex] == old(data[readIndex..writeIndex])
    {
      ghost var window := data[readIndex..writeIndex];
      var n := writeIndex - readIndex;
      var k := 0;
      while k < n
        modifies data
        invariant 0 <= k <= n
        invariant forall j :: PREPEND_SIZE <= j < PREPEND_SIZE + k ==> data[j] == window[j - PREPEND_SIZE]
        invariant forall j :: readIndex + k <= j < writeIndex ==> data[j] == window[j - readIndex]
      {
        data[PREPEND_SIZE + k] := data[readIndex + k];
        k := k + 1;
      }
      readIndex := PREPEND_SIZE;
      writeIndex := PREPEND_SIZE + n;
    }

    /** Fills the first writable bytes with `xs` and makes them readable. */
    method Put(xs: seq<byte>)
      requires readIndex <= writeIndex && writeIndex + |xs| <= data.Length
      modifies data, this`writeIndex
      ensures writeIndex == old(writeIndex) + |xs|
      ensures data[readIndex..writeIndex] == old(data[readIndex..writeIndex]) + xs
    {
      forall i | 0 <= i < |xs| {
        data[writeIndex + i] := xs[i];
      }
      writeIndex := writeIndex + |xs|;
    }

    /**
     Makes `len` bytes writable. The vector grows only when they would not fit even
     behind a compacted window, and compaction only ever moves a window to the left.
     */
    method MakeRoom(len: nat)
      requires Valid()
      modifies this, data
      ensures readIndex <= writeIndex && writeIndex + len <= data.Length
      ensures data == old(data) || fresh(data)
      ensures data[readIndex..writeIndex] == old(Contents())
      ensures peak == old(peak)
      ensures data.Length == SizeAfter(old(data.Length), old(readIndex), old(writeIndex), len)
      ensures readIndex == old(readIndex) || readIndex == PREPEND_SIZE < old(readIndex)
      ensures data.Length > old(data.Length) ==> readIndex < PREPEND_SIZE + len
    {
      if WritableBytes() < len {
        if WritableBytes() + readIndex < len + PREPEND_SIZE {
          Resize(writeIndex + len);
          assert data[readIndex..writeIndex] == old(data[readIndex..writeIndex]);
        } else {
          Compact();
        }
      }
    }

    method Append(xs: seq<byte>)
      requires Valid()
      modifies this, data
      ensures Valid() && (data == old(data) || fresh(data))
      ensures Contents() == old(Contents()) + xs
      ensures peak == Max(old(peak), |Contents()|)
      ensures data.Length == SizeAfter(old(data.Length), old(readIndex), old(writeIndex), |xs|)
      ensures readIndex == old(readIndex) || readIndex == PREPEND_SIZE < old(readIndex)
    {
      SizeAfterBounded(data.Length, readIndex, writeIndex, |xs|, peak);
      MakeRoom(|xs|);
      Put(xs);
      peak := Max(peak, ReadableBytes());
    }

    // ----------------------------------------------------------------- prepend

    method Prepend(xs: seq<byte>)
      requires Valid() && |xs| <= readIndex
      modifies this, data
      ensures Valid() && data == old(data)
      ensures Contents() == xs + old(Contents())
      ensures peak == Max(old(peak), |Contents()|)
      ensures readIndex == old(readIndex) - |xs|
    {
      readIndex := readIndex - |xs|;
      forall i | 0 <= i < |xs| {
        data[readIndex + i] := xs[i];
      }
      peak := Max(peak, ReadableBytes());
    }

    // ---------------------------------------------------------------- retrieve

    method RetrieveAll()
      requires Valid()
      modifies this`readIndex, this`writeIndex
      ensures Valid() && Contents() == []
      ensures readIndex == PREPEND_SIZE
    {
      readIndex, writeIndex := PREPEND_SIZE, PREPEND_SIZE;
    }

    method Retrieve(len: nat)
      requires Valid()
      modifies this`readIndex, this`writeIndex
      ensures Valid() && Contents() == Dropped(old(Contents()), len)
      ensures readIndex == if len < |old(Contents())| then old(readIndex) + len else PREPEND_SIZE
    {
      if len < ReadableBytes() {
        readIndex := readIndex + len;
      } else {
        RetrieveAll();
      }
    }

    /** The caller must not ask for more than there is to read. */
    method RetrieveAsString(len: nat) returns (s: seq<byte>)
      requires Valid() && len <= ReadableBytes()
      modifies this`readIndex, this`writeIndex
      ensures Valid()
      ensures s == old(Contents())[..len] && Contents() == Dropped(old(Contents()), len)
      ensures readIndex == if len < |old(Contents())| then old(readIndex) + len else PREPEND_SIZE
    {
      s := data[readIndex..readIndex + len];
      Retrieve(len);
    }

    // -------------------------------------------------------------------- read

    /** How many bytes `readFromFd` can take: the writable ones and, if these are few, a block on the stack. */
    function Offered(): int
      reads this
    {
      if WritableBytes() < EXTRA_SIZE then WritableBytes() + EXTRA_SIZE else WritableBytes()
    }

    /** `input` is what `readv` delivers, None when it fails; the result is what `readv` returned. */
    method ReadFromFd(input: Option<seq<byte>>) returns (n: int)
      requires Valid()
      requires input.Some? ==> |input.value| <= Offered()
      modifies this, data
      ensures Valid() && (data == old(data) || fresh(data))
      ensures input.None? ==> n == -1 && Contents() == old(Contents()) && unchanged(this)
      ensures input.Some? ==> n == |input.value| && Contents() == old(Contents()) + input.value
      ensures peak == Max(old(peak), |Contents()|)
      ensures readIndex == old(readIndex) || readIndex == PREPEND_SIZE < old(readIndex)
    {
      if input.None? {
        return -1;
      }
      n := |input.value|;
      var originWrite := WritableBytes();
      if n <= originWrite {
        Put(input.value);
        peak := Max(peak, ReadableBytes());
      } else {
        Put(input.value[..originWrite]);
        peak := Max(peak, ReadableBytes());
        Append(input.value[originWrite..]);
        assert input.value == input.value[..originWrite] + input.value[originWrite..];
      }
    }

    // ------------------------------------------------------------------ search

    /** The offset of the first line end among the readable bytes. */
    method FindCrlf() returns (r: Option<nat>)
      requires Valid()
      ensures IsFirstCrlf(Contents(), r)
    {
      var i := readIndex;
      while i + 1 < writeIndex
        invariant readIndex <= i
        invariant forall j :: 0 <= j < i - readIndex ==> !CrlfAt(Contents(), j)
      {
        if data[i] == CR && data[i + 1] == LF {
          return Some(i - readIndex);
        }
        i := i + 1;
      }
      return None;
    }

    /** The offset of the first line feed among the readable bytes. */
    method FindEol() returns (r: Option<nat>)
      requires Valid()
      ensures r.Some? ==> r.value < |Contents()| && Contents()[r.value] == LF && LF !in Contents()[..r.value]
      ensures r.None? ==> LF !in Contents()
    {
      var i := readIndex;
      while i < writeIndex
        invariant readIndex <= i <= writeIndex
        invariant LF !in Contents()[..i - readIndex]
      {
        if data[i] == LF {
          return Some(i - readIndex);
        }
        i := i + 1;
      }
      return None;
    }
  }
}
