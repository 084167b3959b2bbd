/**
 Splitting a byte stream into lines with `findCRLF`, `retrieveAsString` and
 `retrieve(2)`, the way net/Buffer.h is used by test/Buffer_test.cpp, while the
 stream arrives in chunks.
 */
module LineFraming {
  import opened Buffers
  import opened Sequences

  datatype Split = Split(lines: seq<seq<byte>>, rest: seq<byte>)

  const CRLF: seq<byte> := [CR, LF]

  /** The position of the first line end at or after `from`. */
  function FirstCrlf(s: seq<byte>, from: nat): (r: Option<nat>)
    ensures r.Some? ==> from <= r.value && CrlfAt(s, r.value) && forall j :: from <= j < r.value ==> !CrlfAt(s, j)
    ensures r.None? ==> forall j :: from <= j ==> !CrlfAt(s, j)
    decreases |s| - from
  {
    if from >= |s| then None else if CrlfAt(s, from) then Some(from) else FirstCrlf(s, from + 1)
  }

  /** All complete lines of `s`, and what follows the last line end. */
  function Lines(s: seq<byte>): Split
    decreases |s|
  {
    match FirstCrlf(s, 0)
    case None => Split([], s)
    case Some(i) => var tail := Lines(s[i + 2..]); Split([s[..i]] + tail.lines, tail.rest)
  }

  lemma LinesFrom(s: seq<byte>, i: nat)
    requires IsFirstCrlf(s, Some(i))
    ensures Lines(s).lines == [s[..i]] + Lines(s[i + 2..]).lines
    ensures Lines(s).rest == Lines(s[i + 2..]).rest
  {
    assert FirstCrlf(s, 0) == Some(i);
  }

  lemma NoLines(s: seq<byte>)
    requires CrlfFree(s)
    ensures Lines(s) == Split([], s)
  {
    assert FirstCrlf(s, 0).None?;
  }

  /** Bytes that arrive later do not change the lines already complete; they only extend the rest. */
  lemma {:induction false} LinesExtend(s: seq<byte>, t: seq<byte>)
    ensures Lines(s + t).lines == Lines(s).lines + Lines(Lines(s).rest + t).lines
    ensures Lines(s + t).rest == Lines(Lines(s).rest + t).rest
    decreases |s|
  {
    var r := FirstCrlf(s, 0);
    if r.Some? {
      var i := r.value;
      forall j | 0 <= j < i
        ensures !CrlfAt(s + t, j)
      {
        assert !CrlfAt(s, j);
      }
      LinesFrom(s + t, i);
      assert (s + t)[..i] == s[..i];
      assert (s + t)[i + 2..] == s[i + 2..] + t;
      LinesFrom(s, i);
      LinesExtend(s[i + 2..], t);
      Regroup([s[..i]], Lines(s[i + 2..]).lines, Lines(Lines(s).rest + t).lines);
    }
  }

  predicate CrlfFree(s: seq<byte>) {
    forall j :: 0 <= j < |s| ==> !CrlfAt(s, j)
  }

  function Print(lines: seq<seq<byte>>): seq<byte> {
    if lines == [] then [] else lines[0] + CRLF + Print(lines[1..])
  }

  lemma PrintCons(l: seq<byte>, lines: seq<seq<byte>>)
    ensures Print([l] + lines) == l + CRLF + Print(lines)
  {
    assert ([l] + lines)[1..] == lines;
  }

  /** Lines come back as they were printed, whatever unfinished line follows them. */
  lemma {:induction false} PrintThenSplit(lines: seq<seq<byte>>, rest: seq<byte>)
    requires CrlfFree(rest) && forall i :: 0 <= i < |lines| ==> CrlfFree(lines[i])
    ensures Lines(Print(lines) + rest) == Split(lines, rest)
  {
    var s := Print(lines) + rest;
    if lines == [] {
      assert s == rest;
      NoLines(rest);
    } else {
      var l := lines[0];
      assert s == l + CRLF + (Print(lines[1..]) + rest);
      assert CrlfAt(s, |l|);
      forall j | 0 <= j < |l|
        ensures !CrlfAt(s, j)
      {
        assert !CrlfAt(l, j);
      }
      LinesFrom(s, |l|);
      assert s[..|l|] == l && s[|l| + 2..] == Print(lines[1..]) + rest;
      PrintThenSplit(lines[1..], rest);
    }
  }

  /** Splitting loses nothing: printing the pieces gives the stream back. */
  lemma {:induction false} SplitThenPrint(s: seq<byte>)
    ensures Print(Lines(s).lines) + Lines(s).rest == s
    decreases |s|
  {
    var r := FirstCrlf(s, 0);
    if r.Some? {
      var i := r.value;
      var tail := s[i + 2..];
      LinesFrom(s, i);
      SplitThenPrint(tail);
      PrintCons(s[..i], Lines(tail).lines);
      assert s == s[..i] + CRLF + tail;
      Regroup(s[..i] + CRLF, Print(Lines(tail).lines), Lines(tail).rest);
    }
  }

  /** No line end is overlooked. */
  lemma {:induction false} PiecesAreCrlfFree(s: seq<byte>)
    ensures CrlfFree(Lines(s).rest)
    ensures forall l :: l in Lines(s).lines ==> CrlfFree(l)
    decreases |s|
  {
    var r := FirstCrlf(s, 0);
    if r.Some? {
      var i := r.value;
      forall j | 0 <= j < i
        ensures !CrlfAt(s[..i], j)
      {
        assert !CrlfAt(s, j);
      }
      LinesFrom(s, i);
      PiecesAreCrlfFree(s[i + 2..]);
    }
  }

  lemma {:induction false} PrintSnoc(lines: seq<seq<byte>>, l: seq<byte>)
    ensures Print(lines + [l]) == Print(lines) + (l + CRLF)
  {
    if lines == [] {
      assert Print([l]) == l + CRLF + Print([]);
    } else {
      assert (lines + [l])[1..] == lines[1..] + [l];
      PrintSnoc(lines[1..], l);
    }
  }

  /** `lines` are complete lines already taken from `stream`, and `left` is what follows them. */
  ghost predicate Taken(stream: seq<byte>, lines: seq<seq<byte>>, left: seq<byte>) {
    stream == Print(lines) + left && forall i :: 0 <= i < |lines| ==> CrlfFree(lines[i])
  }

  lemma TakenSnoc(stream: seq<byte>, lines: seq<seq<byte>>, left: seq<byte>, l: seq<byte>, left': seq<byte>)
    requires Taken(stream, lines, left) && left == l + CRLF + left' && CrlfFree(l)
    ensures Taken(stream, lines + [l], left')
  {
    PrintSnoc(lines, l);
  }

  /** `findCRLF`, then `retrieveAsString` up to the line end and `retrieve(2)` over it. */
  method NextLine(b: Buffer) returns (line: Option<seq<byte>>)
    requires b.Valid()
    modifies b`readIndex, b`writeIndex
    ensures b.Valid()
    ensures line.None? ==> b.Contents() == old(b.Contents()) && CrlfFree(b.Contents())
    ensures line.Some? ==> CrlfFree(line.value) && old(b.Contents()) == line.value + CRLF + b.Contents()
  {
    ghost var s := b.Contents();
    var crlf := b.FindCrlf();
    if crlf.None? {
      return None;
    }
    var l := b.RetrieveAsString(crlf.value);
    b.Retrieve(2);
    forall j | 0 <= j < |l|
      ensures !CrlfAt(l, j)
    {
      assert !CrlfAt(s, j);
    }
    return Some(l);
  }

  /** Takes every complete line out of the buffer. */
  method ExtractLines(b: Buffer) returns (lines: seq<seq<byte>>)
    requires b.Valid()
    modifies b`readIndex, b`writeIndex
    ensures b.Valid()
    ensures lines == Lines(old(b.Contents())).lines
    ensures b.Contents() == Lines(old(b.Contents())).rest
  {
    lines := [];
    ghost var stream, left := b.Contents(), b.Contents();
    var line := NextLine(b);
    while line.Some?
      invariant b.Valid() && Taken(stream, lines, left)
      invariant line.None? ==> b.Contents() == left && CrlfFree(left)
      invariant line.Some? ==> left == line.value + CRLF + b.Contents() && CrlfFree(line.value)
      decreases |left|
    {
      ghost var before := left;
      left := b.Contents();
      TakenSnoc(stream, lines, before, line.value, left);
      lines := lines + [line.value];
      line := NextLine(b);
    }
    PrintThenSplit(lines, left);
  }

  lemma ReceiveChunk(chunks: seq<seq<byte>>, i: nat)
    requires i < |chunks|
    ensures var before, after := Lines(Flatten(chunks[..i])), Lines(Flatten(chunks[..i + 1]));
      var late := Lines(before.rest + chunks[i]);
      after.lines == before.lines + late.lines && after.rest == late.rest
  {
    LinesExtend(Flatten(chunks[..i]), chunks[i]);
    assert chunks[..i + 1] == chunks[..i] + [chunks[i]];
    FlattenSnoc(chunks[..i], chunks[i]);
  }

  /**
   Framing does not depend on how the stream was cut into chunks: extracting after
   every chunk yields the lines and the leftover of the whole stream.
   */
  method Receive(chunks: seq<seq<byte>>) returns (lines: seq<seq<byte>>, rest: seq<byte>)
    ensures Split(lines, rest) == Lines(Flatten(chunks))
  {
    var b := new Buffer(0);
    lines := [];
    ghost var so := Lines(Flatten(chunks[..0]));
    for i := 0 to |chunks|
      invariant fresh(b) && fresh(b.data) && b.Valid()
      invariant so == Lines(Flatten(chunks[..i]))
      invariant lines == so.lines && b.Contents() == so.rest
    {
      ReceiveChunk(chunks, i);
      so := Lines(Flatten(chunks[..i + 1]));
      b.Append(chunks[i]);
      var more := ExtractLines(b);
      lines := lines + more;
    }
    assert chunks[..|chunks|] == chunks;
    rest := b.RetrieveAsString(b.ReadableBytes());
  }
}
