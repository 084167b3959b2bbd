/** The fixed-size text buffer of base/LogStream.h. */
module FixedBuffers {

  /** The text after appending `msg` to `text` in a buffer of `size`: with a space behind it, or not at all. */
  function Appended(text: string, msg: string, size: nat): string {
    if size - |text| > |msg| then text + msg + " " else text
  }

  class FixedBuffer {
    const buf: array<char>
    var cur: nat

    ghost predicate Valid()
      reads this
    {
      cur <= buf.Length
    }

    ghost function Text(): (s: string)
      requires Valid()
      reads this, buf
      ensures |s| == cur
    {
      buf[..cur]
    }

    function Length(): int
      reads this
    {
      cur
    }

    function Rest(): int
      reads this
    {
      buf.Length - cur
    }

    constructor (size: nat)
      ensures Valid() && Text() == "" && buf.Length == size && fresh(buf)
    {
      buf := new char[size];
      cur := 0;
    }

    method Clear()
      modifies this
      ensures Valid() && Text() == ""
    {
      cur := 0;
    }

    /** Takes `len` characters already in place behind the text, and a space that overwrites what follows them. */
    method AddLength(len: nat)
      requires Valid() && len < Rest()
      modifies this, buf
      ensures Valid() && Length() + Rest() == buf.Length
      ensures Text() == old(buf[..cur + len]) + " "
    {
      cur := cur + len + 1;
      buf[cur - 1] := ' ';
    }

    method Append(msg: string)
      requires Valid()
      modifies this, buf
      ensures Valid() && Length() + Rest() == buf.Length
      ensures Text() == Appended(old(Text()), msg, buf.Length)
    {
      if Rest() > |msg| {
        forall i | 0 <= i < |msg| {
          buf[cur + i] := msg[i];
        }
        assert buf[..cur + |msg|] == old(buf[..cur]) + msg;
        AddLength(|msg|);
      }
    }
  }
}
