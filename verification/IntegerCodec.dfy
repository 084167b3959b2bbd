/**
 Signed integers in network byte order (net/Buffer.h): the `appendInt`,
 `peekInt`, `readInt` and `prependInt` families, one member for all four widths.
 */
module IntegerCodec {
  import opened Buffers
  import opened Sequences

  datatype Width = W8 | W16 | W32 | W64

  function Bytes(w: Width): (n: nat)
    ensures n > 0
  {
    match w case W8 => 1 case W16 => 2 case W32 => 4 case W64 => 8
  }

  function Pow256(n: nat): nat {
    if n == 0 then 1 else 256 * Pow256(n - 1)
  }

  /** The `n` low bytes of `u`, most significant first. */
  function BigEndian(u: nat, n: nat): (bs: seq<byte>)
    ensures |bs| == n
  {
    if n == 0 then [] else BigEndian(u / 256, n - 1) + [u % 256]
  }

  function FromBigEndian(bs: seq<byte>): nat {
    if bs == [] then 0 else 256 * FromBigEndian(bs[..|bs| - 1]) + bs[|bs| - 1]
  }

  lemma {:induction false} FromToBigEndian(u: nat, n: nat)
    requires u < Pow256(n)
    ensures FromBigEndian(BigEndian(u, n)) == u
  {
    if n > 0 {
      FromToBigEndian(u / 256, n - 1);
      assert BigEndian(u, n)[..n - 1] == BigEndian(u / 256, n - 1);
    }
  }

  lemma {:induction false} ToFromBigEndian(bs: seq<byte>)
    ensures FromBigEndian(bs) < Pow256(|bs|)
    ensures BigEndian(FromBigEndian(bs), |bs|) == bs
  {
    if bs != [] {
      ToFromBigEndian(bs[..|bs| - 1]);
    }
  }

  /** Half of Pow256(n). */
  function Half(n: nat): nat
    requires n > 0
  {
    128 * Pow256(n - 1)
  }

  /** The values of a signed type of `n` bytes. */
  predicate Fits(v: int, n: nat)
    requires n > 0
  {
    0 <= v + Half(n) < Pow256(n)
  }

  /** Two's complement, then network order. */
  function ToBytes(v: int, n: nat): (bs: seq<byte>)
    requires n > 0 && Fits(v, n)
    ensures |bs| == n
  {
    BigEndian(if v < 0 then v + Pow256(n) else v, n)
  }

  function FromBytes(bs: seq<byte>): int
    requires bs != []
  {
    var u := FromBigEndian(bs);
    if u < Half(|bs|) then u else u - Pow256(|bs|)
  }

  lemma TwoHalves(n: nat)
    requires n > 0
    ensures Pow256(n) == 2 * Half(n)
  {
  }

  lemma FromToBytes(v: int, n: nat)
    requires n > 0 && Fits(v, n)
    ensures FromBytes(ToBytes(v, n)) == v
  {
    TwoHalves(n);
    FromToBigEndian(if v < 0 then v + Pow256(n) else v, n);
  }

  lemma ToFromBytes(bs: seq<byte>)
    requires bs != []
    ensures Fits(FromBytes(bs), |bs|) && ToBytes(FromBytes(bs), |bs|) == bs
  {
    TwoHalves(|bs|);
    ToFromBigEndian(bs);
  }

  predicate InRange(v: int, w: Width) {
    Fits(v, Bytes(w))
  }

  function Encode(v: int, w: Width): (bs: seq<byte>)
    requires InRange(v, w)
    ensures |bs| == Bytes(w)
  {
    ToBytes(v, Bytes(w))
  }

  /** The values that have an encoding are those of the signed types. */
  lemma Ranges(v: int)
    ensures InRange(v, W8) <==> -0x80 <= v <= 0x7F
    ensures InRange(v, W16) <==> -0x8000 <= v <= 0x7FFF
    ensures InRange(v, W32) <==> -0x8000_0000 <= v <= 0x7FFF_FFFF
    ensures InRange(v, W64) <==> -0x8000_0000_0000_0000 <= v <= 0x7FFF_FFFF_FFFF_FFFF
  {
    Powers();
  }

  lemma Powers()
    ensures Pow256(0) == 1 && Pow256(1) == 0x100 && Pow256(2) == 0x1_0000 && Pow256(3) == 0x100_0000
    ensures Pow256(4) == 0x1_0000_0000 && Pow256(7) == 0x100_0000_0000_0000
    ensures Pow256(8) == 0x1_0000_0000_0000_0000
  {
    assert Pow256(2) == 256 * Pow256(1);
    assert Pow256(4) == 256 * Pow256(3) && Pow256(3) == 256 * Pow256(2);
    assert Pow256(6) == 256 * Pow256(5) && Pow256(5) == 256 * Pow256(4);
    assert Pow256(8) == 256 * Pow256(7) && Pow256(7) == 256 * Pow256(6);
  }

  lemma {:induction false} OctetOf(u: nat, n: nat, i: nat)
    requires i < n
    ensures BigEndian(u, n)[i] == Shifted(u, n - 1 - i) % 256
  {
    if i < n - 1 {
      OctetOf(u / 256, n - 1, i);
    }
  }

  /** `u >> 8 * k`. */
  function Shifted(u: nat, k: nat): nat {
    if k == 0 then u else Shifted(u / 256, k - 1)
  }

  /** In every width the octet `i` places from the end is the one of weight 256 to the power `i`. */
  lemma OctetOrder(v: int, w: Width, i: nat)
    requires InRange(v, w) && i < Bytes(w)
    ensures |Encode(v, w)| == match w case W8 => 1 case W16 => 2 case W32 => 4 case W64 => 8
    ensures var u := if v >= 0 then v else v + Pow256(Bytes(w));
      Encode(v, w)[Bytes(w) - 1 - i] == Shifted(u, i) % 256
  {
    OctetOf(if v >= 0 then v else v + Pow256(Bytes(w)), Bytes(w), Bytes(w) - 1 - i);
  }

  /** The order of the octets, spelled out for 32 bits: the most significant one comes first. */
  lemma NetworkOrder(v: int)
    requires InRange(v, W32)
    ensures var u := if v < 0 then v + 0x1_0000_0000 else v;
      Encode(v, W32) == [u / 0x100_0000, u / 0x1_0000 % 256, u / 0x100 % 256, u % 256]
  {
    var u := if v < 0 then v + 0x1_0000_0000 else v;
    assert Pow256(1) == 0x100 && Pow256(2) == 0x1_0000 && Pow256(3) == 0x100_0000 && Pow256(4) == 0x1_0000_0000;
    assert BigEndian(u / 0x100_0000, 1) == [u / 0x100_0000 % 256];
    assert BigEndian(u / 0x1_0000, 2) == BigEndian(u / 0x1_0000 / 256, 1) + [u / 0x1_0000 % 256];
    assert BigEndian(u / 0x100, 3) == BigEndian(u / 0x100 / 256, 2) + [u / 0x100 % 256];
    assert BigEndian(u, 4) == BigEndian(u / 0x100, 3) + [u % 256];
  }

  // -------------------------------------------------- the members of the buffer

  method AppendInt(b: Buffer, v: int, w: Width)
    requires b.Valid() && InRange(v, w)
    modifies b, b.data
    ensures b.Valid() && (b.data == old(b.data) || fresh(b.data))
    ensures b.Contents() == old(b.Contents()) + Encode(v, w)
  {
    b.Append(Encode(v, w));
  }

  method PrependInt(b: Buffer, v: int, w: Width)
    requires b.Valid() && InRange(v, w) && Bytes(w) <= b.readIndex
    modifies b, b.data
    ensures b.Valid() && b.data == old(b.data)
    ensures b.Contents() == Encode(v, w) + old(b.Contents())
  {
    b.Prepend(Encode(v, w));
  }

  method PeekInt(b: Buffer, w: Width) returns (v: int)
    requires b.Valid() && Bytes(w) <= b.ReadableBytes()
    ensures v == FromBytes(b.Contents()[..Bytes(w)])
  {
    v := FromBytes(b.data[b.readIndex..b.readIndex + Bytes(w)]);
    assert b.data[b.readIndex..b.readIndex + Bytes(w)] == b.Contents()[..Bytes(w)];
  }

  method ReadInt(b: Buffer, w: Width) returns (v: int)
    requires b.Valid() && Bytes(w) <= b.ReadableBytes()
    modifies b`readIndex, b`writeIndex
    ensures b.Valid()
    ensures v == FromBytes(old(b.Contents())[..Bytes(w)])
    ensures b.Contents() == old(b.Contents())[Bytes(w)..]
  {
    v := PeekInt(b, w);
    b.Retrieve(Bytes(w));
  }

  // -------------------------------------------------------------- main results

  datatype Item = Item(value: int, width: Width)

  predicate AllInRange(items: seq<Item>) {
    forall i :: 0 <= i < |items| ==> InRange(items[i].value, items[i].width)
  }

  /** The bytes on the wire for a list of integers of mixed widths. */
  function EncodeAll(items: seq<Item>): seq<byte>
    requires AllInRange(items)
  {
    if items == [] then [] else Encode(items[0].value, items[0].width) + EncodeAll(items[1..])
  }

  lemma EncodeAllFrom(items: seq<Item>, i: nat)
    requires AllInRange(items) && i < |items|
    ensures EncodeAll(items[i..]) == Encode(items[i].value, items[i].width) + EncodeAll(items[i + 1..])
  {
    assert items[i..][1..] == items[i + 1..];
  }

  lemma {:induction false} EncodeAllSnoc(items: seq<Item>, last: Item)
    requires AllInRange(items) && InRange(last.value, last.width)
    ensures EncodeAll(items + [last]) == EncodeAll(items) + Encode(last.value, last.width)
  {
    if items != [] {
      assert (items + [last])[1..] == items[1..] + [last];
      EncodeAllSnoc(items[1..], last);
    }
  }

  method AppendItems(b: Buffer, items: seq<Item>)
    requires b.Valid() && AllInRange(items)
    modifies b, b.data
    ensures b.Valid() && (b.data == old(b.data) || fresh(b.data))
    ensures b.Contents() == old(b.Contents()) + EncodeAll(items)
  {
    ghost var start := b.Contents();
    ghost var code := [];
    for i := 0 to |items|
      invariant b.Valid() && (b.data == old(b.data) || fresh(b.data))
      invariant code == EncodeAll(items[..i])
      invariant b.Contents() == start + code
    {
      assert items[..i + 1] == items[..i] + [items[i]];
      EncodeAllSnoc(items[..i], items[i]);
      AppendInt(b, items[i].value, items[i].width);
      code := code + Encode(items[i].value, items[i].width);
    }
    assert items[..|items|] == items;
  }

  /** The first of the integers that were written comes back, and what is behind it stays. */
  method ReadItem(b: Buffer, ghost item: Item, w: Width, ghost behind: seq<byte>) returns (v: int)
    requires b.Valid() && w == item.width && InRange(item.value, w)
    requires b.Contents() == Encode(item.value, w) + behind
    modifies b`readIndex, b`writeIndex
    ensures b.Valid() && b.Contents() == behind
    ensures v == item.value
  {
    FromToBytes(item.value, Bytes(w));
    v := ReadInt(b, w);
  }

  /** Reading with the widths that were written gives the values back and stops where they end. */
  method ReadItems(b: Buffer, ghost items: seq<Item>, widths: seq<Width>, ghost rest: seq<byte>)
    returns (values: seq<int>)
    requires b.Valid() && AllInRange(items)
    requires |widths| == |items| && forall i :: 0 <= i < |items| ==> widths[i] == items[i].width
    requires b.Contents() == EncodeAll(items) + rest
    modifies b`readIndex, b`writeIndex
    ensures b.Valid() && b.Contents() == rest
    ensures |values| == |items| && forall i :: 0 <= i < |items| ==> values[i] == items[i].value
  {
    hide Encode, InRange, Bytes;
    values := [];
    ghost var left := EncodeAll(items);
    assert items[0..] == items;
    for i := 0 to |widths|
      invariant left == EncodeAll(items[i..])
      invariant b.Valid() && b.Contents() == left + rest
      invariant |values| == i && forall j :: 0 <= j < i ==> values[j] == items[j].value
    {
      ghost var code := Encode(items[i].value, items[i].width);
      EncodeAllFrom(items, i);
      left := EncodeAll(items[i + 1..]);
      Regroup(code, left, rest);
      var v := ReadItem(b, items[i], widths[i], left + rest);
      values := values + [v];
    }
  }

  /**
   Integers of any widths appended to whatever a buffer holds, with other bytes behind
   them, come back unchanged, and so do the bytes before and after them: wherever the
   window lies, and whether the buffer grows, compacts or does neither on the way.
   */
  method RoundTrip(b: Buffer, items: seq<Item>, after: seq<byte>)
    returns (first: seq<byte>, values: seq<int>, last: seq<byte>)
    requires b.Valid() && AllInRange(items)
    modifies b, b.data
    ensures b.Valid() && b.Contents() == []
    ensures first == old(b.Contents()) && last == after
    ensures |values| == |items| && forall i :: 0 <= i < |items| ==> values[i] == items[i].value
  {
    var before := b.ReadableBytes();
    ghost var start := b.Contents();
    var widths := seq(|items|, i requires 0 <= i < |items| => items[i].width);
    AppendItems(b, items);
    b.Append(after);
    Regroup(start, EncodeAll(items), after);
    first := b.RetrieveAsString(before);
    assert b.Contents() == EncodeAll(items) + after;
    values := ReadItems(b, items, widths, after);
    last := b.RetrieveAsString(b.ReadableBytes());
  }

  /** A header that is prepended and read again leaves the buffer as it was. */
  method HeaderRoundTrip(b: Buffer, header: int, w: Width) returns (v: int)
    requires b.Valid() && InRange(header, w) && Bytes(w) <= b.readIndex
    modifies b, b.data
    ensures b.Valid() && v == header && b.Contents() == old(b.Contents())
  {
    PrependInt(b, header, w);
    FromToBytes(header, Bytes(w));
    v := ReadInt(b, w);
  }
}
