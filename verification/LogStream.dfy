/** The log line builder of base/LogStream.h and base/LogStream.cpp: texts and integers, each followed by a space. */
module LogStreams {
  import opened FixedBuffers
  import opened IntegerFormat
  import opened Numerals
  import opened Sequences

  /** The size of a LogStream's buffer, and the room an integer must find. */
  const SMALL_SIZE: nat := 4000
  const INTEGER_ROOM: nat := 32
  const ADDRESS_PREFIX := "0x"

  /**
   What is streamed in: an integer of any type up to 64 bits, a bool, a character, a
   string, a C string or none, an address, or a floating-point number, of which
   `image` is what `snprintf` prints.
   */
  datatype Token =
    | Integer(v: int)
    | Bool(b: bool)
    | Char(c: char)
    | Text(s: string)
    | CString(p: Option<string>)
    | Pointer(address: nat)
    | Floating(image: string)

  predicate WellFormed(t: Token) {
    match t
    case Integer(v) => -0x8000_0000_0000_0000 <= v <= 0xFFFF_FFFF_FFFF_FFFF
    case CString(p) => p.Some? ==> '\0' !in p.value
    case Pointer(p) => p <= 0xFFFF_FFFF_FFFF_FFFF
    case Floating(image) => |image| < INTEGER_ROOM
    case _ => true
  }

  /** The characters a token stands for. */
  function Image(t: Token): string {
    match t
    case Integer(v) => Decimal(v)
    case Bool(b) => if b then "1" else "0"
    case Char(c) => [c]
    case Text(s) => s
    case CString(p) => if p.None? then "(null)" else p.value
    case Pointer(p) => ShownAddress(p)
    case Floating(image) => image
  }

  /** All but the last two characters of the notation: the prefix is not counted in the length. */
  function ShownAddress(p: nat): string {
    (ADDRESS_PREFIX + Numeral(p, 16))[..|Numeral(p, 16)|]
  }

  predicate Fits(t: Token, room: int) {
    if t.Integer? || t.Bool? || t.Pointer? || t.Floating? then room >= INTEGER_ROOM else room > |Image(t)|
  }

  /** The tokens that find room, one after the other. */
  function Kept(tokens: seq<Token>, room: int): seq<Token> {
    if tokens == [] then
      []
    else if Fits(tokens[0], room) then
      [tokens[0]] + Kept(tokens[1..], room - |Image(tokens[0])| - 1)
    else
      Kept(tokens[1..], room)
  }

  /** Each token with the space behind it. */
  function Line(tokens: seq<Token>): string {
    if tokens == [] then "" else Image(tokens[0]) + " " + Line(tokens[1..])
  }

  /** The 32 characters that an integer asks for are enough for it, its sign and the terminator. */
  lemma IntegerRoomSuffices(v: int)
    requires WellFormed(Integer(v))
    ensures |Decimal(v)| + 1 <= 21 < INTEGER_ROOM
  {
    DecimalLength(v);
  }

  /** What is left of an address. */
  lemma AddressIsCut(p: nat)
    ensures ShownAddress(p) == if p < 16 then "0" else if p < 256 then "0x" else "0x" + Numeral(p / 256, 16)
  {
    if p >= 256 {
      assert Front(Front(p, 16), 16) == p / 256;
      var front := Numeral(p / 256, 16);
      assert Numeral(p, 16) == front + [DigitChar(Last(Front(p, 16), 16))] + [DigitChar(Last(p, 16))];
      assert (ADDRESS_PREFIX + Numeral(p, 16))[..|front| + 2] == "0x" + front;
    } else if p >= 16 {
      NumeralOfDigit(p / 16, 16);
      assert |Numeral(p, 16)| == 2;
      assert ShownAddress(p) == "0x";
    } else {
      NumeralOfDigit(p, 16);
      assert ShownAddress(p) == "0";
    }
  }

  /**
   Two addresses look the same in a line exactly if they differ at most in their last
   byte, and neither or both have a single digit. So an address is never shown in full.
   */
  lemma AddressesShownAlike(p: nat, q: nat)
    ensures ShownAddress(p) == ShownAddress(q) <==> p / 256 == q / 256 && (p < 16 <==> q < 16)
    ensures ShownAddress(p) != "0x" + Numeral(p, 16)
  {
    AddressIsCut(p);
    AddressIsCut(q);
    if p >= 256 && q >= 256 && ShownAddress(p) == ShownAddress(q) {
      assert Numeral(p / 256, 16) == ShownAddress(p)[2..] == ShownAddress(q)[2..] == Numeral(q / 256, 16);
      ValueOfNumeral(p / 256, 16);
      ValueOfNumeral(q / 256, 16);
    }
    assert |ShownAddress(p)| < |"0x" + Numeral(p, 16)|;
  }

  lemma {:induction false} LineSnoc(tokens: seq<Token>, t: Token)
    ensures Line(tokens + [t]) == Line(tokens) + Image(t) + " "
  {
    hide Image;
    if tokens == [] {
      assert Line([t]) == Image(t) + " " + Line([]);
    } else {
      assert (tokens + [t])[1..] == tokens[1..] + [t];
      LineSnoc(tokens[1..], t);
    }
  }

  lemma KeptStep(done: seq<Token>, tokens: seq<Token>, i: nat, room: int)
    requires i < |tokens|
    ensures done + Kept(tokens[i..], room) ==
      if Fits(tokens[i], room)
      then done + [tokens[i]] + Kept(tokens[i + 1..], room - |Image(tokens[i])| - 1)
      else done + Kept(tokens[i + 1..], room)
  {
    assert tokens[i..][1..] == tokens[i + 1..];
    if Fits(tokens[i], room) {
      Regroup(done, [tokens[i]], Kept(tokens[i + 1..], room - |Image(tokens[i])| - 1));
    }
  }

  class LogStream {
    const buf: FixedBuffer

    ghost predicate Valid()
      reads this, buf
    {
      buf.Valid() && buf.buf.Length == SMALL_SIZE
    }

    constructor ()
      ensures Valid() && buf.Text() == "" && fresh(buf) && fresh(buf.buf)
    {
      buf := new FixedBuffer(SMALL_SIZE);
    }

    /** `convert(_buf.current(), v)`. */
    method ConvertAt(v: int) returns (len: nat)
      requires Valid() && |Decimal(v)| < buf.Rest()
      modifies buf.buf
      ensures len == |Decimal(v)| && buf.buf[..buf.cur + len] == old(buf.Text()) + Decimal(v)
    {
      hide Decimal;
      ghost var before := buf.Text();
      len := Convert(buf.buf, buf.cur, v);
      assert buf.buf[..buf.cur] == before;
      assert buf.buf[..buf.cur + len] == buf.buf[..buf.cur] + buf.buf[buf.cur..buf.cur + len];
    }

    /** `formatInteger`: converts in place, and the space takes the place of the terminator. */
    method FormatInteger(v: int)
      requires Valid() && WellFormed(Integer(v))
      modifies buf, buf.buf
      ensures Valid()
      ensures buf.Text() == old(buf.Text()) + if old(buf.Rest()) >= INTEGER_ROOM then Decimal(v) + " " else ""
    {
      if buf.Rest() >= INTEGER_ROOM {
        IntegerRoomSuffices(v);
        var len := ConvertAt(v);
        buf.AddLength(len);
      }
    }

    /** `0x` and `convertHex(buf+2, p)`. */
    method ConvertAddressAt(p: nat) returns (len: nat)
      requires Valid() && |Numeral(p, 16)| + 2 < buf.Rest()
      modifies buf.buf
      ensures len == |Numeral(p, 16)|
      ensures buf.buf[..buf.cur + 2 + len] == old(buf.Text()) + ADDRESS_PREFIX + Numeral(p, 16)
    {
      PutPrefix();
      ghost var before := buf.buf[..buf.cur + 2];
      len := ConvertHex(buf.buf, buf.cur + 2, p);
      assert buf.buf[..buf.cur + 2] == before;
      assert buf.buf[..buf.cur + 2 + len] == before + buf.buf[buf.cur + 2..buf.cur + 2 + len];
    }

    method PutPrefix()
      requires Valid() && 2 <= buf.Rest()
      modifies buf.buf
      ensures buf.buf[..buf.cur + 2] == old(buf.Text()) + ADDRESS_PREFIX
    {
      buf.buf[buf.cur] := '0';
      buf.buf[buf.cur + 1] := 'x';
    }

    /** `operator<<` for an address, which advances by the digits only. */
    method FormatAddress(p: nat)
      requires Valid() && WellFormed(Pointer(p))
      modifies buf, buf.buf
      ensures Valid()
      ensures buf.Text() ==
        old(buf.Text()) + if old(buf.Rest()) >= INTEGER_ROOM then ShownAddress(p) + " " else ""
    {
      if buf.Rest() >= INTEGER_ROOM {
        HexLength(p);
        ghost var before := buf.Text();
        var len := ConvertAddressAt(p);
        assert buf.buf[..buf.cur + len] == buf.buf[..buf.cur + 2 + len][..buf.cur + len];
        assert before + ADDRESS_PREFIX + Numeral(p, 16) == before + (ADDRESS_PREFIX + Numeral(p, 16));
        assert buf.buf[..buf.cur + len] == before + ShownAddress(p);
        buf.AddLength(len);
      }
    }

    /** `snprintf` into the line, and a space over its terminator. */
    method FormatFloating(image: string)
      requires Valid() && WellFormed(Floating(image))
      modifies buf, buf.buf
      ensures Valid()
      ensures buf.Text() == old(buf.Text()) + if old(buf.Rest()) >= INTEGER_ROOM then image + " " else ""
    {
      if buf.Rest() >= INTEGER_ROOM {
        ghost var before := buf.Text();
        forall i | 0 <= i < |image| {
          buf.buf[buf.cur + i] := image[i];
        }
        buf.buf[buf.cur + |image|] := '\0';
        assert buf.buf[..buf.cur + |image|] == before + image;
        buf.AddLength(|image|);
      }
    }

    /** `operator<<` for one token. */
    method Insert(t: Token)
      requires Valid() && WellFormed(t)
      modifies buf, buf.buf
      ensures Valid()
      ensures buf.Text() == old(buf.Text()) + if Fits(t, old(buf.Rest())) then Image(t) + " " else ""
    {
      match t
      case Integer(v) => FormatInteger(v);
      case Bool(b) => FormatInteger(if b then 1 else 0);
      case Char(c) => buf.Append([c]);
      case Text(s) => buf.Append(s);
      case CString(p) =>
        if p.None? {
          buf.Append("(null)");
        } else {
          buf.Append(p.value);
        }
      case Pointer(p) => FormatAddress(p);
      case Floating(image) => FormatFloating(image);
    }
  }

  /** When a token finds room: numbers and addresses ask for 32 characters, texts for their own length and a space. */
  lemma KeptExactly(t: Token, room: int)
    ensures Kept([t], room) == [t] <==>
      match t
      case Text(s) => |s| + 1 <= room
      case Char(c) => 2 <= room
      case CString(p) => (if p.None? then 6 else |p.value|) + 1 <= room
      case _ => 32 <= room
  {
    assert [t][1..] == [];
  }

  /** Nothing is skipped while there is room: a line that leaves 31 characters free has all its tokens. */
  lemma {:induction false} KeepsAllThatFit(tokens: seq<Token>, room: int)
    requires |Line(tokens)| + INTEGER_ROOM - 1 <= room
    ensures Kept(tokens, room) == tokens
  {
    if tokens != [] {
      KeepsAllThatFit(tokens[1..], room - |Image(tokens[0])| - 1);
    }
  }

  lemma NoTokens(done: seq<Token>, tokens: seq<Token>, room: int)
    ensures Line([]) == "" && [] + Kept(tokens[0..], room) == Kept(tokens, room)
    ensures done + Kept(tokens[|tokens|..], room) == done
  {
    assert tokens[0..] == tokens;
  }

  /** A chain of insertions, one token after the other, into an empty line. */
  method InsertAll(s: LogStream, tokens: seq<Token>)
    requires s.Valid() && s.buf.Text() == ""
    requires forall i :: 0 <= i < |tokens| ==> WellFormed(tokens[i])
    modifies s.buf, s.buf.buf
    ensures s.Valid() && s.buf.Text() == Line(Kept(tokens, SMALL_SIZE))
  {
    hide Kept, Line, Fits, Image, WellFormed;
    ghost var kept: seq<Token> := [];
    NoTokens(kept, tokens, SMALL_SIZE);
    for i := 0 to |tokens|
      invariant s.Valid() && s.buf.Text() == Line(kept)
      invariant kept + Kept(tokens[i..], s.buf.Rest()) == Kept(tokens, SMALL_SIZE)
    {
      KeptStep(kept, tokens, i, s.buf.Rest());
      if Fits(tokens[i], s.buf.Rest()) {
        LineSnoc(kept, tokens[i]);
        kept := kept + [tokens[i]];
      }
      s.Insert(tokens[i]);
    }
    NoTokens(kept, tokens, s.buf.Rest());
  }

  /**
   A line built by any chain of insertions holds exactly the tokens that found
   room, in order and each with its space; it fills at most its buffer.
   */
  method Stream(tokens: seq<Token>) returns (line: string, rest: int)
    requires forall i :: 0 <= i < |tokens| ==> WellFormed(tokens[i])
    ensures line == Line(Kept(tokens, SMALL_SIZE))
    ensures |line| + rest == SMALL_SIZE && 0 <= rest
    ensures |Line(tokens)| + INTEGER_ROOM <= SMALL_SIZE ==> line == Line(tokens)
  {
    hide Kept, Line, WellFormed;
    var s := new LogStream();
    InsertAll(s, tokens);
    if |Line(tokens)| + INTEGER_ROOM <= SMALL_SIZE {
      KeepsAllThatFit(tokens, SMALL_SIZE);
    }
    line := s.buf.buf[..s.buf.cur];
    rest := s.buf.Rest();
  }

  /** The first word of a line, up to its space. */
  function Word(line: string): string {
    if line == "" || line[0] == ' ' then "" else [line[0]] + Word(line[1..])
  }

  function Words(line: string): seq<string>
    decreases |line|
  {
    if line == "" then
      []
    else
      var w := Word(line);
      if |w| + 1 < |line| then [w] + Words(line[|w| + 1..]) else [w]
  }

  lemma {:induction false} WordBeforeSpace(w: string, rest: string)
    requires ' ' !in w
    ensures Word(w + " " + rest) == w
  {
    if w != "" {
      assert (w + " " + rest)[1..] == w[1..] + " " + rest;
      WordBeforeSpace(w[1..], rest);
    }
  }

  /** Tokens without spaces can be told apart again: splitting the line at its spaces gives their images. */
  lemma {:induction false} TokensReadBack(tokens: seq<Token>)
    requires forall i :: 0 <= i < |tokens| ==> ' ' !in Image(tokens[i])
    ensures |Words(Line(tokens))| == |tokens|
    ensures forall i :: 0 <= i < |tokens| ==> Words(Line(tokens))[i] == Image(tokens[i])
  {
    if tokens != [] {
      var w, rest := Image(tokens[0]), Line(tokens[1..]);
      var line := w + " " + rest;
      WordBeforeSpace(w, rest);
      assert line[|w| + 1..] == rest;
      TokensReadBack(tokens[1..]);
    }
  }

  /** `word` is what a reader of the line finds for `t`. */
  predicate ReadsAs(word: string, t: Token) {
    match t
    case Integer(v) => Parse(word) == Some(v)
    case Bool(b) => Parse(word) == Some(if b then 1 else 0)
    case Char(c) => word == [c]
    case Text(s) => word == s
    case CString(p) => word == if p.None? then "(null)" else p.value
    case Pointer(a) => word == if a < 16 then "0" else if a < 256 then "0x" else "0x" + Numeral(a / 256, 16)
    case Floating(image) => word == image
  }

  /** No space in what the caller passes in. */
  predicate Spaceless(t: Token) {
    match t
    case Char(c) => c != ' '
    case Text(s) => ' ' !in s
    case CString(p) => p.Some? ==> ' ' !in p.value
    case Floating(image) => ' ' !in image
    case _ => true
  }

  lemma ImageReadsAs(t: Token)
    requires Spaceless(t)
    ensures ' ' !in Image(t) && ReadsAs(Image(t), t)
  {
    match t
    case Integer(v) => DecimalRoundTrip(v);
    case Bool(b) =>
      BoolIsDigit(b);
      DecimalRoundTrip(if b then 1 else 0);
    case Pointer(a) =>
      AddressIsCut(a);
      NumeralHasNoLeadingZero(a / 256, 16);
    case _ =>
  }

  lemma BoolIsDigit(b: bool)
    ensures Decimal(if b then 1 else 0) == if b then "1" else "0"
  {
    NumeralOfDigit(if b then 1 else 0, 10);
  }

  /**
   A line reads back: split at its spaces, it has one word for each token, the numbers
   parse to the numbers, true and false to 1 and 0, texts are themselves, a null
   pointer to characters is "(null)" and an address lacks its last two digits.
   */
  lemma LineReadsBack(tokens: seq<Token>)
    requires forall i :: 0 <= i < |tokens| ==> Spaceless(tokens[i])
    ensures |Words(Line(tokens))| == |tokens|
    ensures forall i :: 0 <= i < |tokens| ==> ReadsAs(Words(Line(tokens))[i], tokens[i])
  {
    forall i | 0 <= i < |tokens|
      ensures ' ' !in Image(tokens[i]) && ReadsAs(Image(tokens[i]), tokens[i])
    {
      ImageReadsAs(tokens[i]);
    }
    TokensReadBack(tokens);
  }

  /** A line of integers, split and parsed, gives the integers back. */
  lemma IntegersReadBack(tokens: seq<Token>)
    requires forall i :: 0 <= i < |tokens| ==> tokens[i].Integer?
    ensures |Words(Line(tokens))| == |tokens|
    ensures forall i :: 0 <= i < |tokens| ==> Parse(Words(Line(tokens))[i]) == Some(tokens[i].v)
  {
    forall i | 0 <= i < |tokens|
      ensures ' ' !in Image(tokens[i]) && Parse(Image(tokens[i])) == Some(tokens[i].v)
    {
      DecimalRoundTrip(tokens[i].v);
    }
    TokensReadBack(tokens);
  }
}
