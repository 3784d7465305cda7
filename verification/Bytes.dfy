/** Byte strings, fixed-width big-endian integers and uvarints (encoding/binary). */
module Bytes {
  type byte = b: int | 0 <= b < 256
  type bytes = seq<byte>

  function Pow256(n: nat): (p: nat)
    ensures p >= 1
  {
    if n == 0 then 1 else 256 * Pow256(n - 1)
  }

  /** The n-byte big-endian form of v modulo 256^n. */
  function BigEndian(v: nat, n: nat): (b: bytes)
    ensures |b| == n
  {
    if n == 0 then [] else BigEndian(v / 256, n - 1) + [v % 256]
  }

  function FromBigEndian(b: bytes): nat {
    if b == [] then 0 else 256 * FromBigEndian(b[..|b| - 1]) + b[|b| - 1]
  }

  lemma {:induction false} BigEndianRoundTrip(v: nat, n: nat)
    requires v < Pow256(n)
    ensures FromBigEndian(BigEndian(v, n)) == v
  {
    if n > 0 {
      BigEndianRoundTrip(v / 256, n - 1);
      assert BigEndian(v, n)[..n - 1] == BigEndian(v / 256, n - 1);
    }
  }

  lemma {:induction false} FromBigEndianBound(b: bytes)
    ensures FromBigEndian(b) < Pow256(|b|)
    ensures BigEndian(FromBigEndian(b), |b|) == b
  {
    if b != [] {
      FromBigEndianBound(b[..|b| - 1]);
      assert b[..|b| - 1] + [b[|b| - 1]] == b;
    }
  }

  lemma Pow256Eight()
    ensures Pow256(8) == 0x1_0000_0000_0000_0000 && Pow256(4) == 0x1_0000_0000
  {
    assert Pow256(1) == 256 && Pow256(2) == 0x1_0000;
    assert Pow256(3) == 0x100_0000 && Pow256(4) == 0x1_0000_0000;
    assert Pow256(5) == 0x100_0000_0000 && Pow256(6) == 0x1_0000_0000_0000;
    assert Pow256(7) == 0x100_0000_0000_0000;
  }

  /** bytes.Compare(a, b) < 0, the cursor order of a bucket. */
  predicate Before(a: bytes, b: bytes) {
    if b == [] then false
    else if a == [] then true
    else a[0] < b[0] || (a[0] == b[0] && Before(a[1..], b[1..]))
  }

  /** Equal-width prefixes decide the order unless they are equal. */
  lemma {:induction false} BeforePrefix(a: bytes, b: bytes, x: bytes, y: bytes)
    requires |a| == |b|
    ensures Before(a + x, b + y) <==> if a == b then Before(x, y) else Before(a, b)
  {
    if a == [] {
      assert a + x == x && b + y == y;
    } else {
      assert (a + x)[1..] == a[1..] + x && (b + y)[1..] == b[1..] + y;
      BeforePrefix(a[1..], b[1..], x, y);
      assert a == [a[0]] + a[1..] && b == [b[0]] + b[1..];
    }
  }

  /** Byte order of big-endian forms is numeric order. */
  lemma {:induction false} BigEndianOrder(u: nat, v: nat, n: nat)
    requires u < Pow256(n) && v < Pow256(n)
    ensures Before(BigEndian(u, n), BigEndian(v, n)) <==> u < v
    ensures BigEndian(u, n) == BigEndian(v, n) <==> u == v
  {
    BigEndianRoundTrip(u, n);
    BigEndianRoundTrip(v, n);
    if n > 0 {
      BigEndianOrder(u / 256, v / 256, n - 1);
      BeforePrefix(BigEndian(u / 256, n - 1), BigEndian(v / 256, n - 1), [u % 256], [v % 256]);
      OneByteOrder(u % 256, v % 256);
    }
  }

  lemma OneByteOrder(x: byte, y: byte)
    ensures Before([x], [y]) <==> x < y
  {
    assert [x][1..] == [] && [y][1..] == [];
  }

  // ---------- Uvarints ----------

  /** binary.AppendUvarint. */
  function Uvarint(v: nat): (b: bytes)
    ensures |b| >= 1
  {
    if v < 128 then [v] else [v % 128 + 128] + Uvarint(v / 128)
  }

  /** The value read and the bytes it took; `size` is 0 when the input is truncated or overflows. */
  datatype Read = Read(value: nat, size: nat)

  /** binary.Uvarint from its i-th byte on: at most ten bytes, the tenth at most 1. */
  function ReadFrom(b: bytes, i: nat): (r: Read)
    ensures r.size <= |b|
    decreases |b|
  {
    if b == [] || i >= 10 then Read(0, 0)
    else if b[0] < 128 then
      if i == 9 && b[0] > 1 then Read(0, 0) else Read(b[0], 1)
    else
      var r := ReadFrom(b[1..], i + 1);
      if r.size == 0 then r else Read(b[0] - 128 + 128 * r.value, r.size + 1)
  }

  function ReadUvarint(b: bytes): (r: Read)
    ensures r.size <= |b|
  {
    ReadFrom(b, 0)
  }

  /** The greatest value the bytes from position i may still carry. */
  function Room(i: nat): nat
    requires i <= 9
    decreases 9 - i
  {
    if i == 9 then 2 else 128 * Room(i + 1)
  }

  lemma {:induction false} ReadBack(v: nat, i: nat, rest: bytes)
    requires i <= 9 && v < Room(i)
    ensures ReadFrom(Uvarint(v) + rest, i) == Read(v, |Uvarint(v)|)
    decreases v
  {
    if v >= 128 {
      ReadBack(v / 128, i + 1, rest);
      assert (Uvarint(v) + rest)[1..] == Uvarint(v / 128) + rest;
    }
  }

  lemma RoomIs64Bits()
    ensures Room(0) == 0x1_0000_0000_0000_0000
  {
    assert Room(8) == 256 && Room(7) == 0x8000 && Room(6) == 0x40_0000 && Room(5) == 0x2000_0000;
    assert Room(4) == 0x10_0000_0000 && Room(3) == 0x800_0000_0000 && Room(2) == 0x4_0000_0000_0000;
    assert Room(1) == 0x200_0000_0000_0000;
  }

  /** A 64-bit value is read back exactly, whatever follows it. */
  lemma UvarintRoundTrip(v: nat, rest: bytes)
    requires v < 0x1_0000_0000_0000_0000
    ensures ReadUvarint(Uvarint(v) + rest) == Read(v, |Uvarint(v)|)
  {
    RoomIs64Bits();
    ReadBack(v, 0, rest);
  }

  /** More input does not change a successful read. */
  lemma {:induction false} ReadStable(b: bytes, i: nat, more: bytes)
    requires ReadFrom(b, i).size > 0
    ensures ReadFrom(b + more, i) == ReadFrom(b, i)
    decreases |b|
  {
    if b[0] >= 128 {
      assert (b + more)[1..] == b[1..] + more;
      ReadStable(b[1..], i + 1, more);
    }
  }

  lemma {:induction false} ReadBound(b: bytes, i: nat)
    requires i <= 9
    ensures ReadFrom(b, i).value < Room(i)
    ensures ReadFrom(b, i).size <= 10 - i
    decreases |b|
  {
    if b != [] && b[0] >= 128 && i < 9 {
      ReadBound(b[1..], i + 1);
    } else if i < 9 {
      RoomAtLeast(i);
    }
  }

  lemma {:induction false} RoomAtLeast(i: nat)
    requires i < 9
    ensures Room(i) >= 128
    decreases 9 - i
  {
    if i < 8 {
      RoomAtLeast(i + 1);
    }
  }
}
