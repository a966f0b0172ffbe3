/** Byte buffers and their big-endian integer fields, as a `DataView` reads and writes them. */
module DataViews {

  type byte = x: int | 0 <= x < 256

  type Bytes = seq<byte>

  const TWO_32 := 0x1_0000_0000

  /** Integers up to here are exact as JavaScript numbers. */
  const MAX_SAFE_INTEGER := 0x1F_FFFF_FFFF_FFFF

  function Uint32BE(v: int): Bytes {
    [v / 0x100_0000 % 256, v / 0x1_0000 % 256, v / 0x100 % 256, v % 256]
  }

  function Uint64BE(v: nat): Bytes {
    Uint32BE(v / TWO_32) + Uint32BE(v % TWO_32)
  }

  function ReadUint32(b: Bytes): nat
    requires |b| == 4
  {
    var b0: int, b1: int, b2: int := b[0], b[1], b[2];
    b0 * 0x100_0000 + b1 * 0x1_0000 + b2 * 0x100 + b[3]
  }

  function ReadUint64(b: Bytes): nat
    requires |b| == 8
  {
    ReadUint32(b[..4]) * TWO_32 + ReadUint32(b[4..])
  }

  /** The number that bytes stand for, the first being the most significant. */
  function NumberOf(b: Bytes): nat {
    if b == [] then 0 else 0x100 * NumberOf(b[..|b| - 1]) + b[|b| - 1]
  }

  lemma {:induction false} NumberOfFour(b: Bytes)
    requires |b| == 4
    ensures ReadUint32(b) == NumberOf(b)
  {
    assert b[..3][..2] == b[..2] && b[..3][..2][..1] == b[..1] && b[..1][..0] == [];
    assert NumberOf(b[..1]) == b[0] as int;
    assert NumberOf(b[..2]) == 0x100 * NumberOf(b[..1]) + b[1] as int;
    assert NumberOf(b[..3]) == 0x100 * NumberOf(b[..2]) + b[2] as int;
  }

  function Pow256(n: nat): (p: nat)
    ensures p > 0
  {
    if n == 0 then 1 else 0x100 * Pow256(n - 1)
  }

  lemma {:induction false} NumberOfAppend(a: Bytes, b: Bytes)
    ensures NumberOf(a + b) == Pow256(|b|) * NumberOf(a) + NumberOf(b)
  {
    if b == [] {
      assert a + b == a;
    } else {
      var init, last := b[..|b| - 1], b[|b| - 1] as int;
      NumberOfAppend(a, init);
      assert (a + b)[..|a + b| - 1] == a + init;
      Distribute(Pow256(|init|), NumberOf(a), NumberOf(init), last);
    }
  }

  lemma {:induction false} Distribute(p: nat, x: nat, y: nat, z: int)
    ensures 0x100 * (p * x + y) + z == (0x100 * p) * x + (0x100 * y + z)
  {
  }

  /** The first byte is the most significant, in fields of four and of eight. */
  lemma {:induction false} BigEndian(b: Bytes)
    ensures |b| == 4 ==> ReadUint32(b) == NumberOf(b)
    ensures |b| == 8 ==> ReadUint64(b) == NumberOf(b)
  {
    if |b| == 4 {
      NumberOfFour(b);
    } else if |b| == 8 {
      assert b == b[..4] + b[4..];
      NumberOfAppend(b[..4], b[4..]);
      NumberOfFour(b[..4]);
      NumberOfFour(b[4..]);
      assert Pow256(2) == 0x1_0000 && Pow256(4) == 0x1_0000 * Pow256(2);
    }
  }

  lemma {:induction false} Uint32RoundTrip(v: nat)
    requires v < TWO_32
    ensures ReadUint32(Uint32BE(v)) == v
  {
    var q1, q2, q3 := v / 0x100, v / 0x1_0000, v / 0x100_0000;
    assert v == 0x100 * q1 + v % 256;
    assert q1 == 0x100 * q2 + q1 % 256;
    assert q2 == 0x100 * q3 + q2 % 256;
    assert q3 % 256 == q3;
  }

  lemma {:induction false} Uint64RoundTrip(v: nat)
    requires v < TWO_32 * TWO_32
    ensures ReadUint64(Uint64BE(v)) == v
  {
    assert Uint64BE(v)[..4] == Uint32BE(v / TWO_32) && Uint64BE(v)[4..] == Uint32BE(v % TWO_32);
    Uint32RoundTrip(v / TWO_32);
    Uint32RoundTrip(v % TWO_32);
  }

  lemma {:induction false} Uint32Bytes(b: Bytes)
    requires |b| == 4
    ensures ReadUint32(b) < TWO_32 && Uint32BE(ReadUint32(b)) == b
  {
    var b0: int, b1: int, b2: int, v := b[0], b[1], b[2], ReadUint32(b);
    assert v / 0x100 == b0 * 0x1_0000 + b1 * 0x100 + b2;
    assert v / 0x1_0000 == b0 * 0x100 + b1;
    assert v / 0x100_0000 == b0;
  }

  lemma {:induction false} Uint64Bytes(b: Bytes)
    requires |b| == 8
    ensures Uint64BE(ReadUint64(b)) == b
  {
    Uint32Bytes(b[..4]);
    Uint32Bytes(b[4..]);
    assert ReadUint64(b) / TWO_32 == ReadUint32(b[..4]) && ReadUint64(b) % TWO_32 == ReadUint32(b[4..]);
    assert b == b[..4] + b[4..];
  }

  function Zeros(n: nat): Bytes {
    seq(n, _ => 0)
  }
}
