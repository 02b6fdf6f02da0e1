/** Bytes, big-endian numbers, and Go's fixed widths. */
module Bytes {
  type Byte = b: int | 0 <= b < 0x100

  const TWO32 := 0x1_0000_0000
  const TWO63 := 0x8000_0000_0000_0000
  const TWO64 := 0x1_0000_0000_0000_0000

  /** int64 arithmetic. */
  function Int64(x: int): (r: int)
    ensures -TWO63 <= r < TWO63
    ensures -TWO63 <= x < TWO63 ==> r == x
    ensures TWO63 <= x < TWO64 ==> r == x - TWO64
  {
    (x + TWO63) % TWO64 - TWO63
  }

  /** int32 of a uint32. */
  function Signed32(v: nat): int
    requires v < TWO32
  {
    if v < 0x8000_0000 then v else v - TWO32
  }

  function U32(b: seq<Byte>, i: nat): (v: nat)
    requires i + 4 <= |b|
    ensures v < TWO32
  {
    b[i] as int * 0x100_0000 + b[i + 1] as int * 0x1_0000 + b[i + 2] as int * 0x100 + b[i + 3] as int
  }

  function U64(b: seq<Byte>, i: nat): (v: nat)
    requires i + 8 <= |b|
    ensures v < TWO64
  {
    U32(b, i) * TWO32 + U32(b, i + 4)
  }

  /** A big-endian number read after what has been read so far. */
  function Follow(value: nat, rest: seq<Byte>): nat
    decreases |rest|
  {
    if rest == [] then value else Follow(value * 0x100 + rest[0] as int, rest[1..])
  }

  function AllOnes(rest: seq<Byte>): bool {
    forall i :: 0 <= i < |rest| ==> rest[i] == 0xFF
  }

  // ----- Numbers written

  function Put32(v: nat): (b: seq<Byte>)
    requires v < TWO32
    ensures |b| == 4
  {
    [v / 0x100_0000, v / 0x1_0000 % 0x100, v / 0x100 % 0x100, v % 0x100]
  }

  function Put64(v: nat): (b: seq<Byte>)
    requires v < TWO64
    ensures |b| == 8
  {
    Put32(v / TWO32) + Put32(v % TWO32)
  }

  /** Two's complement, in 32 bits and in 64. */
  function Unsigned32(v: int): nat
    requires -0x8000_0000 <= v < 0x8000_0000
  {
    if v < 0 then v + TWO32 else v
  }

  function Unsigned64(v: int): nat
    requires -TWO63 <= v < TWO63
  {
    if v < 0 then v + TWO64 else v
  }

  /** What is written is read back, wherever it stands. */
  lemma Reads32(b: seq<Byte>, i: nat, v: nat)
    requires i + 4 <= |b| && v < TWO32 && b[i..i + 4] == Put32(v)
    ensures U32(b, i) == v
  {
    var four := b[i..i + 4];
    assert b[i] == four[0] && b[i + 1] == four[1] && b[i + 2] == four[2] && b[i + 3] == four[3];
    BigEndian(v);
  }

  lemma BigEndian(v: nat)
    requires v < TWO32
    ensures v / 0x100_0000 * 0x100_0000 + v / 0x1_0000 % 0x100 * 0x1_0000 + v / 0x100 % 0x100 * 0x100 + v % 0x100 == v
  {
    var a := v / 0x100;
    var b := a / 0x100;
    assert v / 0x1_0000 == b && v / 0x100_0000 == b / 0x100;
  }

  lemma Reads64(b: seq<Byte>, i: nat, v: nat)
    requires i + 8 <= |b| && v < TWO64 && b[i..i + 8] == Put64(v)
    ensures U64(b, i) == v
  {
    hide U32, Put32;
    assert b[i..i + 8][..4] == b[i..i + 4] && b[i..i + 8][4..] == b[i + 4..i + 8];
    Reads32(b, i, v / TWO32);
    Reads32(b, i + 4, v % TWO32);
  }

  lemma ReadsSigned(v: int)
    ensures -0x8000_0000 <= v < 0x8000_0000 ==> Signed32(Unsigned32(v)) == v
    ensures -TWO63 <= v < TWO63 ==> Int64(Unsigned64(v)) == v
  {
  }

  /** Big-endian, by one number that has its bytes all different. */
  lemma ByteOrder()
    ensures U32([1, 2, 3, 4], 0) == 0x0102_0304 && U64([1, 2, 3, 4, 5, 6, 7, 8], 0) == 0x0102_0304_0506_0708
    ensures Signed32(0xFFFF_FFFF) == -1 && Int64(TWO64 - 1) == -1
  {
  }

  /** Part of what stands somewhere. */
  lemma Part(buf: seq<Byte>, i: nat, e: seq<Byte>, j: nat, k: nat)
    requires i + |e| <= |buf| && buf[i..i + |e|] == e && j <= k <= |e|
    ensures buf[i + j..i + k] == e[j..k]
  {
    forall x | 0 <= x < k - j ensures buf[i + j..i + k][x] == e[j..k][x] { assert buf[i..i + |e|][j + x] == e[j + x]; }
  }

  // ----- Records of one width, one after another

  function Joined(parts: seq<seq<Byte>>): seq<Byte> {
    if parts == [] then [] else Joined(parts[..|parts| - 1]) + parts[|parts| - 1]
  }

  lemma {:induction false} JoinedWide(parts: seq<seq<Byte>>, width: nat)
    requires forall k :: 0 <= k < |parts| ==> |parts[k]| == width
    ensures |Joined(parts)| == |parts| * width
  {
    if parts == [] {
    } else {
      JoinedWide(parts[..|parts| - 1], width);
      assert |parts| * width == (|parts| - 1) * width + width;
    }
  }

  lemma {:induction false} PartAt(parts: seq<seq<Byte>>, width: nat, i: nat)
    requires i < |parts| && forall k :: 0 <= k < |parts| ==> |parts[k]| == width
    ensures 0 <= i * width && i * width + width <= |Joined(parts)| == |parts| * width
    ensures Joined(parts)[i * width..i * width + width] == parts[i]
    decreases |parts|
  {
    var front := parts[..|parts| - 1];
    JoinedWide(parts, width);
    JoinedWide(front, width);
    var before := Joined(front);
    if i == |parts| - 1 {
      assert Joined(parts)[|before|..|before| + width] == parts[i];
    } else {
      PartAt(front, width, i);
      assert Joined(parts)[i * width..i * width + width] == before[i * width..i * width + width];
    }
  }
}
