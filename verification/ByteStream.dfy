/** Big-endian integers and fixed-size ids in network byte streams. A pair of iterators is modelled
    by the bytes between them. */
module ByteStream {

  type Byte = b: nat | b < 256
  type Bytes = seq<Byte>

  /** The result of `fromNetworkByteStream`: a value and the bytes after it, or a range_error. */
  datatype Parsed<+T> = Parsed(value: T, rest: Bytes) | Failed

  function Pow256(n: nat): (p: nat)
    ensures p > 0
  {
    if n == 0 then 1 else 256 * Pow256(n - 1)
  }

  function WriteUint(n: nat, width: nat): (bs: Bytes)
    ensures |bs| == width
  {
    if width == 0 then [] else WriteUint(n / 256, width - 1) + [n % 256]
  }

  function UintOf(bs: Bytes): nat {
    if bs == [] then 0 else UintOf(bs[..|bs| - 1]) * 256 + bs[|bs| - 1]
  }

  function ReadUint(bs: Bytes, width: nat): Parsed<nat> {
    if |bs| < width then Failed else Parsed(UintOf(bs[..width]), bs[width..])
  }

  const INT64_SPAN := 0x1_0000_0000_0000_0000

  predicate FitsInt64(i: int) {
    -0x8000_0000_0000_0000 <= i < 0x8000_0000_0000_0000
  }

  /** Signed integers travel as the unsigned value with the same bits. */
  function WriteInt64(i: int): (bs: Bytes)
    requires FitsInt64(i)
    ensures |bs| == 8
  {
    WriteUint(if i < 0 then i + INT64_SPAN else i, 8)
  }

  function ReadInt64(bs: Bytes): Parsed<int> {
    match ReadUint(bs, 8)
    case Failed => Failed
    case Parsed(n, rest) => Parsed(if n >= 0x8000_0000_0000_0000 then n - INT64_SPAN else n, rest)
  }

  lemma {:induction false} UintOfWritten(n: nat, width: nat)
    requires n < Pow256(width)
    ensures UintOf(WriteUint(n, width)) == n
    decreases width
  {
    if width > 0 {
      UintOfWritten(n / 256, width - 1);
      assert WriteUint(n, width)[..width - 1] == WriteUint(n / 256, width - 1);
    }
  }

  lemma {:induction false} WrittenUintOf(bs: Bytes)
    ensures UintOf(bs) < Pow256(|bs|)
    ensures WriteUint(UintOf(bs), |bs|) == bs
  {
    if bs != [] {
      var front, last := bs[..|bs| - 1], bs[|bs| - 1];
      WrittenUintOf(front);
      assert UintOf(bs) / 256 == UintOf(front) && UintOf(bs) % 256 == last;
      assert bs == front + [last];
    }
  }

  lemma Spans()
    ensures Pow256(2) == 0x1_0000 && Pow256(4) == 0x1_0000_0000 && Pow256(8) == INT64_SPAN
  {
    assert Pow256(2) == 256 * Pow256(1);
    assert Pow256(4) == 256 * Pow256(3) && Pow256(3) == 256 * Pow256(2);
    assert Pow256(6) == 256 * Pow256(5) && Pow256(5) == 256 * Pow256(4);
    assert Pow256(8) == 256 * Pow256(7) && Pow256(7) == 256 * Pow256(6);
  }

  /** Reading undoes writing whatever follows, and a value read can only have been written as the
      bytes it was read from. */
  lemma UintRoundTrip(n: nat, width: nat, bs: Bytes, rest: Bytes)
    requires n < Pow256(width)
    ensures ReadUint(bs, width) == Parsed(n, rest) <==> bs == WriteUint(n, width) + rest
  {
    UintOfWritten(n, width);
    if |bs| >= width {
      WrittenUintOf(bs[..width]);
      assert bs == bs[..width] + bs[width..];
    }
    if bs == WriteUint(n, width) + rest {
      assert bs[..width] == WriteUint(n, width) && bs[width..] == rest;
    }
  }

  lemma Int64RoundTrip(i: int, bs: Bytes, rest: Bytes)
    requires FitsInt64(i)
    ensures ReadInt64(bs) == Parsed(i, rest) <==> bs == WriteInt64(i) + rest
  {
    Spans();
    UintRoundTrip(if i < 0 then i + INT64_SPAN else i, 8, bs, rest);
    if |bs| >= 8 { WrittenUintOf(bs[..8]); }
  }

  /** Two's complement: the bits of a signed value are those of the value modulo 2 to the 64. */
  lemma Int64Bits(i: int)
    requires FitsInt64(i)
    ensures UintOf(WriteInt64(i)) == i % 0x1_0000_0000_0000_0000
  {
    Spans();
    UintOfWritten(if i < 0 then i + INT64_SPAN else i, 8);
  }

  lemma FourBytes(a: Byte, b: Byte, c: Byte, d: Byte)
    ensures UintOf([a, b, c, d]) == ((a * 256 + b) * 256 + c) * 256 + d
    ensures WriteUint(((a * 256 + b) * 256 + c) * 256 + d, 4) == [a, b, c, d]
  {
    assert [a, b, c, d][..3] == [a, b, c] && [a, b, c][..2] == [a, b] && [a, b][..1] == [a] && [a][..0] == [];
    assert UintOf([a]) == a;
    assert UintOf([a, b]) == a * 256 + b;
    assert UintOf([a, b, c]) == (a * 256 + b) * 256 + c;
    WrittenUintOf([a, b, c, d]);
  }

  // ---- Ids ----

  type WireId = bs: Bytes | |bs| == 8 witness [0, 0, 0, 0, 0, 0, 0, 0]

  function Zeros(n: nat): (bs: Bytes)
    ensures |bs| == n
  {
    seq(n, _ => 0)
  }

  /** An array of eight bytes read from a stream. A short stream is not an error: the bytes that are
      missing stay zero. */
  function ReadId(bs: Bytes): Parsed<WireId> {
    var n := if |bs| < 8 then |bs| else 8;
    Parsed(bs[..n] + Zeros(8 - n), bs[n..])
  }

  /** `deserializeContainer` filling a zeroed array of eight bytes. */
  method DeserializeId(bytes: Bytes) returns (id: WireId, rest: Bytes)
    ensures Parsed(id, rest) == ReadId(bytes)
  {
    id, rest := Zeros(8), bytes;
    var numElements := 0;
    while rest != [] && numElements < 8
      invariant numElements <= 8 && numElements <= |bytes|
      invariant rest == bytes[numElements..]
      invariant id == bytes[..numElements] + Zeros(8 - numElements)
      decreases 8 - numElements
    {
      ghost var before := id;
      id := id[numElements := rest[0]];
      rest := rest[1..];
      assert bytes[..numElements + 1] == bytes[..numElements] + [bytes[numElements]];
      assert Zeros(8 - numElements)[1..] == Zeros(7 - numElements);
      numElements := numElements + 1;
    }
  }

  /** An id that was written whole is read back. */
  lemma IdRoundTrip(id: WireId, rest: Bytes)
    ensures ReadId(id + rest) == Parsed(id, rest)
  {
    assert (id + rest)[..8] == id && (id + rest)[8..] == rest;
    assert id + Zeros(0) == id;
  }

  /** `std::array`'s lexicographic order. */
  predicate LexLess(a: Bytes, b: Bytes)
    requires |a| == |b|
  {
    a != [] && (a[0] < b[0] || (a[0] == b[0] && LexLess(a[1..], b[1..])))
  }

  lemma {:induction false} UintOfCons(b: Byte, bs: Bytes)
    ensures UintOf([b] + bs) == b * Pow256(|bs|) + UintOf(bs)
  {
    var all := [b] + bs;
    if bs == [] {
      assert all[..0] == [];
    } else {
      var front := bs[..|bs| - 1];
      UintOfCons(b, front);
      assert all[..|all| - 1] == [b] + front;
      assert b * (256 * Pow256(|front|)) == 256 * (b * Pow256(|front|));
    }
  }

  /** Comparing ids byte by byte is comparing the numbers they spell, so ids can be ordered as
      numbers. */
  lemma {:induction false} LexOrderIsNumeric(a: Bytes, b: Bytes)
    requires |a| == |b|
    ensures LexLess(a, b) <==> UintOf(a) < UintOf(b)
  {
    if a != [] {
      var x, y, as', bs' := a[0], b[0], a[1..], b[1..];
      assert a == [x] + as' && b == [y] + bs';
      UintOfCons(x, as');
      UintOfCons(y, bs');
      WrittenUintOf(as');
      WrittenUintOf(bs');
      LexOrderIsNumeric(as', bs');
      var p := Pow256(|as'|);
      if x < y { LeadingDigitDecides(x, y, p, UintOf(as'), UintOf(bs')); }
      if y < x { LeadingDigitDecides(y, x, p, UintOf(bs'), UintOf(as')); }
    }
  }

  lemma LeadingDigitDecides(x: nat, y: nat, p: nat, u: nat, v: nat)
    requires x < y && u < p
    ensures x * p + u < y * p + v
  {
    assert (x + 1) * p <= y * p;
  }
}
