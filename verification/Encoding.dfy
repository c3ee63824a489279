/** Numbers as bytes: variable-length and fixed-width, what they read back to and how they compare. */
module Encoding {
  import opened Basics

  // ---------------------------------------------------------------- varints

  /** binary.AppendUvarint. */
  function Uvarint(n: nat): (b: bytes)
    ensures b != []
  {
    if n < 128 then [n] else [n % 128 + 128] + Uvarint(n / 128)
  }

  /** binary.Uvarint from its i-th byte on: the value and the bytes consumed, or None when it overflows or runs out. */
  function ReadUvarint(b: bytes, i: nat): (r: Option<(nat, nat)>)
    ensures r.Some? ==> 0 < r.value.1 <= |b|
    decreases |b|
  {
    if i == 10 || b == [] then None
    else if b[0] < 128 then (if i == 9 && b[0] > 1 then None else Some((b[0], 1)))
    else
      var rest := ReadUvarint(b[1..], i + 1);
      if rest.None? then None else Some((b[0] - 128 + 128 * rest.value.0, rest.value.1 + 1))
  }

  function Pow(base: nat, e: nat): (p: nat)
    requires base > 0
    ensures p > 0
  {
    if e == 0 then 1 else base * Pow(base, e - 1)
  }

  const U64 := 0x1_0000_0000_0000_0000

  /** What fits a 64-bit varint whose first i bytes are already spent. */
  function Room(i: nat): nat
    requires i <= 9
    decreases 9 - i
  {
    if i == 9 then 2 else 128 * Room(i + 1)
  }

  lemma {:induction false} UvarintReadsBack(n: nat, i: nat, rest: bytes)
    requires i <= 9 && n < Room(i)
    ensures ReadUvarint(Uvarint(n) + rest, i) == Some((n, |Uvarint(n)|))
    decreases n
  {
    if n >= 128 {
      assert i < 9;
      UvarintReadsBack(n / 128, i + 1, rest);
      assert (Uvarint(n) + rest)[1..] == Uvarint(n / 128) + rest;
    }
  }

  lemma {:induction false} UvarintGrows(a: nat, b: nat)
    requires a <= b
    ensures |Uvarint(a)| <= |Uvarint(b)|
    decreases b
  {
    if b >= 128 && a >= 128 { UvarintGrows(a / 128, b / 128); }
  }

  /** No encoding of a number is shorter than the one that is written. */
  lemma {:induction false} UvarintIsShortest(b: bytes, i: nat)
    requires ReadUvarint(b, i).Some?
    ensures |Uvarint(ReadUvarint(b, i).value.0)| <= ReadUvarint(b, i).value.1
    decreases |b|
  {
    if b[0] >= 128 {
      UvarintIsShortest(b[1..], i + 1);
      var v := ReadUvarint(b[1..], i + 1).value.0;
      UvarintDigits(b[0] - 128 + 128 * v, v);
    }
  }

  lemma UvarintDigits(n: nat, v: nat)
    requires n / 128 == v
    ensures |Uvarint(n)| <= 1 + |Uvarint(v)|
  {
  }

  lemma RoomIs64Bits()
    ensures Room(0) == U64
  {
    assert Room(5) == 128 * 128 * 128 * 128 * 2;
  }

  // ---------------------------------------------------------------- fixed-width big-endian numbers

  function BigEndian(n: nat, width: nat): (b: bytes)
    ensures |b| == width
  {
    if width == 0 then [] else BigEndian(n / 256, width - 1) + [n % 256]
  }

  function FromBigEndian(b: bytes): nat {
    if b == [] then 0 else 256 * FromBigEndian(b[..|b| - 1]) + b[|b| - 1]
  }

  lemma {:induction false} BigEndianReadsBack(n: nat, width: nat)
    requires n < Pow(256, width)
    ensures FromBigEndian(BigEndian(n, width)) == n
  {
    if width > 0 {
      assert n / 256 < Pow(256, width - 1);
      BigEndianReadsBack(n / 256, width - 1);
      assert BigEndian(n, width)[..width - 1] == BigEndian(n / 256, width - 1);
    }
  }

  /** Fixed-width big-endian bytes are ordered as the numbers, ties decided by what follows. */
  lemma {:induction false} BigEndianOrder(a: nat, b: nat, width: nat, x: bytes, y: bytes)
    requires a < Pow(256, width) && b < Pow(256, width)
    ensures Less(BigEndian(a, width) + x, BigEndian(b, width) + y) <==> a < b || (a == b && Less(x, y))
  {
    if width == 0 {
      assert BigEndian(a, 0) + x == x && BigEndian(b, 0) + y == y;
    } else {
      var x', y' := [a % 256] + x, [b % 256] + y;
      BigEndianOrder(a / 256, b / 256, width - 1, x', y');
      HeadDecides(a % 256, x, b % 256, y);
      hide Less;
      assert BigEndian(a, width) + x == BigEndian(a / 256, width - 1) + x';
      assert BigEndian(b, width) + y == BigEndian(b / 256, width - 1) + y';
      Digits(a, b);
    }
  }

  lemma Digits(a: nat, b: nat)
    ensures a < b <==> a / 256 < b / 256 || (a / 256 == b / 256 && a % 256 < b % 256)
  {
  }

  lemma HeadDecides(a: byte, x: bytes, b: byte, y: bytes)
    ensures Less([a] + x, [b] + y) <==> a < b || (a == b && Less(x, y))
  {
    assert ([a] + x)[1..] == x && ([b] + y)[1..] == y;
  }

  lemma Pow8()
    ensures Pow(256, 8) == U64
  {
    assert Pow(256, 4) == 0x1_0000_0000;
    assert Pow(256, 8) == 256 * 256 * 256 * 256 * Pow(256, 4);
  }
}
