/**
 SHA-256.  The specification is sections 4.1.2, 5.1.1 and 6.2 of FIPS 180-4
 over 32-bit words; the implementation computes with JavaScript numbers, where
 bitwise operators yield signed 32-bit values, sums are exact and `>>> 0`
 reduces modulo 2^32.
 */
module Sha256 {
  import opened DataViews
  import opened Arithmetic

  type word = x: int | 0 <= x < 0x1_0000_0000

  // ---------- bits ----------

  function Pow2(n: nat): (p: nat)
    ensures p > 0
  {
    if n == 0 then 1 else 2 * Pow2(n - 1)
  }

  predicate BitAt(x: nat, i: nat) {
    if i == 0 then x % 2 == 1 else BitAt(x / 2, i - 1)
  }

  /** The number whose lowest `n` bits are `f` of the bits of `x` and `y`. */
  function Bitwise(f: (bool, bool) -> bool, x: nat, y: nat, n: nat): nat
    decreases n, x, y
  {
    if n == 0 then 0 else 2 * Bitwise(f, x / 2, y / 2, n - 1) + if f(x % 2 == 1, y % 2 == 1) then 1 else 0
  }

  lemma {:induction false} BitwiseBits(f: (bool, bool) -> bool, x: nat, y: nat, n: nat, i: nat)
    requires i < n
    ensures BitAt(Bitwise(f, x, y, n), i) <==> f(BitAt(x, i), BitAt(y, i))
  {
    if i == 0 {
    } else {
      BitwiseBits(f, x / 2, y / 2, n - 1, i - 1);
    }
  }

  lemma {:induction false} Pow2Of32()
    ensures Pow2(32) == TWO_32
  {
    assert Pow2(4) == 16;
    assert Pow2(8) == 16 * Pow2(4);
    assert Pow2(12) == 16 * Pow2(8);
    assert Pow2(16) == 16 * Pow2(12);
    assert Pow2(20) == 16 * Pow2(16);
    assert Pow2(24) == 16 * Pow2(20);
    assert Pow2(28) == 16 * Pow2(24);
    assert Pow2(32) == 16 * Pow2(28);
  }

  lemma {:induction false} BitwiseBound(f: (bool, bool) -> bool, x: nat, y: nat, n: nat)
    ensures Bitwise(f, x, y, n) < Pow2(n)
    decreases n
  {
    if n == 0 {
    } else {
      BitwiseBound(f, x / 2, y / 2, n - 1);
    }
  }

  lemma {:induction false} BitwiseIsWord(f: (bool, bool) -> bool, x: nat, y: nat)
    ensures Bitwise(f, x, y, 32) < TWO_32
  {
    BitwiseBound(f, x, y, 32);
    Pow2Of32();
  }

  function And(x: word, y: word): word {
    var f := (p, q) => p && q;
    BitwiseIsWord(f, x, y);
    Bitwise(f, x, y, 32)
  }

  function Or(x: word, y: word): word {
    var f := (p, q) => p || q;
    BitwiseIsWord(f, x, y);
    Bitwise(f, x, y, 32)
  }

  function Xor(x: word, y: word): word {
    var f := (p, q) => p != q;
    BitwiseIsWord(f, x, y);
    Bitwise(f, x, y, 32)
  }

  function Not(x: word): word {
    TWO_32 - 1 - x
  }

  function Shr(x: word, n: nat): word
    decreases n, x
  {
    if n == 0 then x else Shr(x / 2, n - 1)
  }

  function Shl(x: word, n: nat): word
    decreases n, x
  {
    if n == 0 then x else Shl(x * 2 % TWO_32, n - 1)
  }

  function Rotr(x: word, n: nat): word
    requires n <= 32
  {
    Or(Shr(x, n), Shl(x, 32 - n))
  }

  lemma {:induction false} ShrBits(x: word, n: nat, i: nat)
    ensures BitAt(Shr(x, n), i) <==> BitAt(x, i + n)
    decreases n
  {
    if n == 0 {
    } else {
      ShrBits(x / 2, n - 1, i);
    }
  }

  lemma {:induction false} HighBits(x: nat, n: nat, i: nat)
    requires x < Pow2(n) && i >= n
    ensures !BitAt(x, i)
  {
    if i == 0 {
    } else {
      if n > 0 {
        HighBits(x / 2, n - 1, i - 1);
      } else {
        HighBits(x / 2, 0, i - 1);
      }
    }
  }

  lemma {:induction false} LowBits(x: nat, n: nat, i: nat)
    requires i < n
    ensures BitAt(x % Pow2(n), i) <==> BitAt(x, i)
  {
    ModPow2(x, n);
    if i == 0 {
    } else {
      LowBits(x / 2, n - 1, i - 1);
    }
  }

  lemma {:induction false} ModPow2(x: nat, n: nat)
    requires n > 0
    ensures x % Pow2(n) % 2 == x % 2
    ensures x % Pow2(n) / 2 == x / 2 % Pow2(n - 1)
  {
    HalvedMod(x, Pow2(n - 1));
  }

  lemma {:induction false} HalvedMod(x: nat, p: nat)
    requires p > 0
    ensures x % (2 * p) % 2 == x % 2
    ensures x % (2 * p) / 2 == x / 2 % p
  {
    var q, r := x / 2 / p, x / 2 % p;
    Regrouped(x, p, q, r);
    DivModUnique(x, 2 * p, q, 2 * r + x % 2);
  }

  lemma {:induction false} ByHalves(x: nat, p: nat)
    requires p > 0
    ensures x % (2 * p) == 2 * (x / 2 % p) + x % 2
  {
    HalvedMod(x, p);
    var r := x % (2 * p);
    assert r == 2 * (r / 2) + r % 2;
  }

  lemma {:induction false} Regrouped(x: nat, p: nat, q: nat, r: nat)
    requires x / 2 == q * p + r
    ensures x == q * (2 * p) + (2 * r + x % 2)
  {
    assert x == 2 * (x / 2) + x % 2;
    assert 2 * (q * p) == q * (2 * p);
  }

  lemma {:induction false} ShlBits(x: word, n: nat, i: nat)
    requires i < 32
    ensures BitAt(Shl(x, n), i) <==> i >= n && BitAt(x, i - n)
    decreases n
  {
    if n == 0 {
    } else {
      ShlBits(x * 2 % TWO_32, n - 1, i);
      if i >= n - 1 {
        Pow2Of32();
        LowBits(x * 2, 32, i - (n - 1));
      }
    }
  }

  /** Numbers of `n` bits are determined by them. */
  lemma {:induction false} SameBits(x: nat, y: nat, n: nat)
    requires x < Pow2(n) && y < Pow2(n) && forall i :: 0 <= i < n ==> (BitAt(x, i) <==> BitAt(y, i))
    ensures x == y
  {
    if n == 0 {
    } else {
      assert BitAt(x, 0) <==> BitAt(y, 0);
      forall i | 0 <= i < n - 1 ensures BitAt(x / 2, i) <==> BitAt(y / 2, i) {
        assert BitAt(x, i + 1) <==> BitAt(y, i + 1);
      }
      SameBits(x / 2, y / 2, n - 1);
    }
  }

  /** A rotation moves bit `(i + n) mod 32` to bit `i`. */
  lemma {:induction false} RotrBits(x: word, n: nat, i: nat)
    requires n <= 32 && i < 32
    ensures BitAt(Rotr(x, n), i) <==> BitAt(x, if i + n < 32 then i + n else i + n - 32)
  {
    Pow2Of32();
    BitwiseBits((p, q) => p || q, Shr(x, n), Shl(x, 32 - n), 32, i);
    ShrBits(x, n, i);
    ShlBits(x, 32 - n, i);
    if i + n >= 32 {
      HighBits(x, 32, i + n);
    }
  }

  lemma {:induction false} ComplementBits(x: nat, n: nat, i: nat)
    requires x < Pow2(n) && i < n
    ensures BitAt(Pow2(n) - 1 - x, i) <==> !BitAt(x, i)
  {
    var p := Pow2(n - 1);
    assert (2 * p - 1 - x) / 2 == p - 1 - x / 2;
    if i == 0 {
    } else {
      ComplementBits(x / 2, n - 1, i - 1);
    }
  }

  lemma {:induction false} NotBits(x: word, i: nat)
    requires i < 32
    ensures BitAt(Not(x), i) <==> !BitAt(x, i)
  {
    Pow2Of32();
    ComplementBits(x, 32, i);
  }

  lemma {:induction false} OrWithZero(x: nat, n: nat)
    requires x < Pow2(n)
    ensures Bitwise((p, q) => p || q, x, 0, n) == x
    decreases n
  {
    if n == 0 {
    } else {
      OrWithZero(x / 2, n - 1);
    }
  }

  /** The union of disjoint bits is their sum. */
  lemma {:induction false} OrOfParts(x: nat, y: nat, k: nat, n: nat)
    requires k <= n && x < Pow2(n) && x % Pow2(k) == 0 && y < Pow2(k)
    ensures Bitwise((p, q) => p || q, x, y, n) == x + y
    decreases n
  {
    if k == 0 {
      OrWithZero(x, n);
    } else {
      HalvedMod(x, Pow2(k - 1));
      OrOfParts(x / 2, y / 2, k - 1, n - 1);
    }
  }

  lemma {:induction false} AndWithZero(x: nat, n: nat)
    ensures Bitwise((p, q) => p && q, x, 0, n) == 0
    decreases n
  {
    if n == 0 {
    } else {
      AndWithZero(x / 2, n - 1);
    }
  }

  lemma {:induction false} AndWithOdd(x: nat, m: nat, n: nat)
    requires n > 0
    ensures Bitwise((p, q) => p && q, x, 2 * m + 1, n) == 2 * Bitwise((p, q) => p && q, x / 2, m, n - 1) + x % 2
  {
    assert (2 * m + 1) / 2 == m && (2 * m + 1) % 2 == 1;
  }

  /** The number made of the `k` lowest bits. */
  function Low(x: nat, k: nat): nat {
    if k == 0 then 0 else 2 * Low(x / 2, k - 1) + x % 2
  }

  lemma {:induction false} MaskIsLow(x: nat, k: nat, n: nat)
    requires k <= n
    ensures Bitwise((p, q) => p && q, x, Pow2(k) - 1, n) == Low(x, k)
    decreases n
  {
    if k == 0 {
      AndWithZero(x, n);
    } else {
      MaskIsLow(x / 2, k - 1, n - 1);
      AndWithOdd(x, Pow2(k - 1) - 1, n);
    }
  }

  lemma {:induction false} LowIsMod(x: nat, k: nat)
    ensures Low(x, k) == x % Pow2(k)
  {
    if k == 0 {
    } else {
      LowIsMod(x / 2, k - 1);
      ByHalves(x, Pow2(k - 1));
    }
  }

  /** Masking the low bits is a remainder. */
  lemma {:induction false} MaskIsMod(x: nat, k: nat, n: nat)
    requires k <= n
    ensures Bitwise((p, q) => p && q, x, Pow2(k) - 1, n) == x % Pow2(k)
  {
    MaskIsLow(x, k, n);
    LowIsMod(x, k);
  }

  // ---------- the specification ----------

  function Add(x: word, y: word): word {
    (x + y) % TWO_32
  }

  function Ch(x: word, y: word, z: word): word {
    Xor(And(x, y), And(Not(x), z))
  }

  function Maj(x: word, y: word, z: word): word {
    Xor(Xor(And(x, y), And(x, z)), And(y, z))
  }

  /** Every bit of `Ch` is chosen by `x` from `y` and `z`. */
  lemma {:induction false} ChBits(x: word, y: word, z: word, i: nat)
    requires i < 32
    ensures BitAt(Ch(x, y, z), i) <==> if BitAt(x, i) then BitAt(y, i) else BitAt(z, i)
  {
    BitwiseBits((p, q) => p && q, x, y, 32, i);
    NotBits(x, i);
    BitwiseBits((p, q) => p && q, Not(x), z, 32, i);
    BitwiseBits((p, q) => p != q, And(x, y), And(Not(x), z), 32, i);
  }

  /** Every bit of `Maj` is the one that at least two of the three have. */
  lemma {:induction false} MajBits(x: word, y: word, z: word, i: nat)
    requires i < 32
    ensures BitAt(Maj(x, y, z), i) <==> multiset{BitAt(x, i), BitAt(y, i), BitAt(z, i)}[true] >= 2
  {
    BitwiseBits((p, q) => p && q, x, y, 32, i);
    BitwiseBits((p, q) => p && q, x, z, 32, i);
    BitwiseBits((p, q) => p && q, y, z, 32, i);
    BitwiseBits((p, q) => p != q, And(x, y), And(x, z), 32, i);
    BitwiseBits((p, q) => p != q, Xor(And(x, y), And(x, z)), And(y, z), 32, i);
  }

  function BigSigma0(x: word): word {
    Xor(Xor(Rotr(x, 2), Rotr(x, 13)), Rotr(x, 22))
  }

  function BigSigma1(x: word): word {
    Xor(Xor(Rotr(x, 6), Rotr(x, 11)), Rotr(x, 25))
  }

  function SmallSigma0(x: word): word {
    Xor(Xor(Rotr(x, 7), Rotr(x, 18)), Shr(x, 3))
  }

  function SmallSigma1(x: word): word {
    Xor(Xor(Rotr(x, 17), Rotr(x, 19)), Shr(x, 10))
  }

  /** The bit that a rotation to the right by `n` brings to place `i`. */
  predicate Rotated(x: word, n: nat, i: nat) {
    BitAt(x, (i + n) % 32)
  }

  lemma {:induction false} RotatedBits(x: word, n: nat, i: nat)
    requires n < 32 && i < 32
    ensures BitAt(Rotr(x, n), i) <==> Rotated(x, n, i)
  {
    RotrBits(x, n, i);
  }

  lemma {:induction false} Xor3Bits(x: word, y: word, z: word, i: nat)
    requires i < 32
    ensures BitAt(Xor(Xor(x, y), z), i) <==> ((BitAt(x, i) != BitAt(y, i)) != BitAt(z, i))
  {
    BitwiseBits((p, q) => p != q, x, y, 32, i);
    BitwiseBits((p, q) => p != q, Xor(x, y), z, 32, i);
  }

  /** The two functions of a round, bit by bit. */
  lemma {:induction false} BigSigmaBits(x: word, i: nat)
    requires i < 32
    ensures BitAt(BigSigma0(x), i) <==> ((Rotated(x, 2, i) != Rotated(x, 13, i)) != Rotated(x, 22, i))
    ensures BitAt(BigSigma1(x), i) <==> ((Rotated(x, 6, i) != Rotated(x, 11, i)) != Rotated(x, 25, i))
  {
    RotatedBits(x, 2, i);
    RotatedBits(x, 13, i);
    RotatedBits(x, 22, i);
    Xor3Bits(Rotr(x, 2), Rotr(x, 13), Rotr(x, 22), i);
    RotatedBits(x, 6, i);
    RotatedBits(x, 11, i);
    RotatedBits(x, 25, i);
    Xor3Bits(Rotr(x, 6), Rotr(x, 11), Rotr(x, 25), i);
  }

  /** The two functions of the schedule, bit by bit; their third part is a shift. */
  lemma {:induction false} SmallSigmaBits(x: word, i: nat)
    requires i < 32
    ensures BitAt(SmallSigma0(x), i) <==>
      ((Rotated(x, 7, i) != Rotated(x, 18, i)) != (i + 3 < 32 && BitAt(x, i + 3)))
    ensures BitAt(SmallSigma1(x), i) <==>
      ((Rotated(x, 17, i) != Rotated(x, 19, i)) != (i + 10 < 32 && BitAt(x, i + 10)))
  {
    RotatedBits(x, 7, i);
    RotatedBits(x, 18, i);
    ShiftedBits(x, 3, i);
    Xor3Bits(Rotr(x, 7), Rotr(x, 18), Shr(x, 3), i);
    RotatedBits(x, 17, i);
    RotatedBits(x, 19, i);
    ShiftedBits(x, 10, i);
    Xor3Bits(Rotr(x, 17), Rotr(x, 19), Shr(x, 10), i);
  }

  lemma {:induction false} ShiftedBits(x: word, n: nat, i: nat)
    ensures BitAt(Shr(x, n), i) <==> i + n < 32 && BitAt(x, i + n)
  {
    ShrBits(x, n, i);
    if i + n >= 32 {
      Pow2Of32();
      HighBits(x, 32, i + n);
    }
  }

  /** The first `n` words that a block and two functions determine by the recurrence of the schedule. */
  function Extend(m: seq<word>, n: nat, s0: word -> word, s1: word -> word): (w: seq<word>)
    requires |m| == 16
    ensures |w| == n
  {
    if n <= 16 then m[..n]
    else
      var w := Extend(m, n - 1, s0, s1);
      var t := n - 1;
      w + [Add(Add(Add(s1(w[t - 2]), w[t - 7]), s0(w[t - 15])), w[t - 16])]
  }

  /** The first `n` words of the message schedule of a block. */
  function Schedule(m: seq<word>, n: nat): (w: seq<word>)
    requires |m| == 16
    ensures |w| == n
  {
    Extend(m, n, SmallSigma0, SmallSigma1)
  }

  datatype Vars = Vars(a: word, b: word, c: word, d: word, e: word, f: word, g: word, h: word)

  function Round(v: Vars, k: word, w: word): Vars {
    Mix(v, BigSigma1(v.e), Ch(v.e, v.f, v.g), BigSigma0(v.a), Maj(v.a, v.b, v.c), k, w)
  }

  /** A round, given the values of its four logical functions. */
  function Mix(v: Vars, sigma1: word, ch: word, sigma0: word, maj: word, k: word, w: word): Vars {
    var t1 := Add(Add(Add(Add(v.h, sigma1), ch), k), w);
    var t2 := Add(sigma0, maj);
    Vars(Add(t1, t2), v.a, v.b, v.c, Add(v.d, t1), v.e, v.f, v.g)
  }

  function Rounds(v: Vars, k: seq<word>, w: seq<word>, n: nat): Vars
    requires n <= |k| && n <= |w|
  {
    if n == 0 then v else Round(Rounds(v, k, w, n - 1), k[n - 1], w[n - 1])
  }

  function Plus(v: Vars, u: Vars): Vars {
    Vars(Add(v.a, u.a), Add(v.b, u.b), Add(v.c, u.c), Add(v.d, u.d),
         Add(v.e, u.e), Add(v.f, u.f), Add(v.g, u.g), Add(v.h, u.h))
  }

  function BlockWords(padded: Bytes, i: nat): (m: seq<word>)
    requires i + 64 <= |padded|
    ensures |m| == 16
  {
    seq(16, t requires 0 <= t < 16 => Uint32At(padded, i + 4 * t))
  }

  function Uint32At(b: Bytes, i: nat): word
    requires i + 4 <= |b|
  {
    Uint32Bytes(b[i..i + 4]);
    ReadUint32(b[i..i + 4])
  }

  /** The hash value after the first `n` blocks, from `start` with constants `k`. */
  function HashBlocks(start: Vars, k: seq<word>, padded: Bytes, n: nat): Vars
    requires |k| == 64 && 64 * n <= |padded|
  {
    if n == 0 then start
    else
      var v := HashBlocks(start, k, padded, n - 1);
      Plus(v, Rounds(v, k, Schedule(BlockWords(padded, 64 * (n - 1)), 64), 64))
  }

  // ---------- the equations of section 6.2 ----------

  lemma {:induction false} AddPlain(s: nat, x: word)
    ensures Add(s % TWO_32, x) == (s + x) % TWO_32
  {
  }

  /** One round: two words are new, the other six move down one place. */
  lemma {:induction false} RoundEquations(v: Vars, k: word, w: word)
    ensures
      var t1 := v.h + BigSigma1(v.e) + Ch(v.e, v.f, v.g) + k + w;
      var t2 := BigSigma0(v.a) + Maj(v.a, v.b, v.c);
      Round(v, k, w) == Vars((t1 + t2) % TWO_32, v.a, v.b, v.c, (v.d + t1) % TWO_32, v.e, v.f, v.g)
  {
    MixEquations(v, BigSigma1(v.e), Ch(v.e, v.f, v.g), BigSigma0(v.a), Maj(v.a, v.b, v.c), k, w);
  }

  lemma {:induction false} MixEquations(v: Vars, s1: word, ch: word, s0: word, maj: word, k: word, w: word)
    ensures
      var t1, t2 := v.h + s1 + ch + k + w, s0 + maj;
      Mix(v, s1, ch, s0, maj, k, w) == Vars((t1 + t2) % TWO_32, v.a, v.b, v.c, (v.d + t1) % TWO_32, v.e, v.f, v.g)
  {
    FiveSummands(v.h, s1, ch, k, w);
    TwoSums(v.h + s1 + ch + k + w, s0 + maj, v.d);
  }

  lemma {:induction false} TwoSums(x: nat, y: nat, d: word)
    ensures Add(x % TWO_32, y % TWO_32) == (x + y) % TWO_32 && Add(d, x % TWO_32) == (d + x) % TWO_32
  {
    ReducedSum(x, y);
    AddPlain(x, d);
  }

  lemma {:induction false} FiveSummands(a: word, b: word, c: word, d: word, e: word)
    ensures Add(Add(Add(Add(a, b), c), d), e) == (a + b + c + d + e) % TWO_32
  {
    AddPlain(a + b, c);
    AddPlain(a + b + c, d);
    AddPlain(a + b + c + d, e);
  }

  lemma {:induction false} ReducedSum(x: nat, y: nat)
    ensures (x % TWO_32 + y % TWO_32) % TWO_32 == (x + y) % TWO_32
  {
  }

  lemma {:induction false} ExtendPrefix(m: seq<word>, n: nat, k: nat, s0: word -> word, s1: word -> word)
    requires |m| == 16 && k <= n
    ensures Extend(m, n, s0, s1)[..k] == Extend(m, k, s0, s1)
    decreases n
  {
    if n == k {
    } else if n <= 16 {
    } else {
      ExtendPrefix(m, n - 1, k, s0, s1);
      assert Extend(m, n, s0, s1)[..k] == Extend(m, n - 1, s0, s1)[..k];
    }
  }

  lemma {:induction false} ExtendEquations(m: seq<word>, n: nat, t: nat, s0: word -> word, s1: word -> word)
    requires |m| == 16 && t < n
    ensures
      var w := Extend(m, n, s0, s1);
      w[t] == if t < 16 then m[t] else (s1(w[t - 2]) + w[t - 7] + s0(w[t - 15]) + w[t - 16]) % TWO_32
  {
    var w, u := Extend(m, n, s0, s1), Extend(m, t, s0, s1);
    ExtendPrefix(m, n, t + 1, s0, s1);
    ExtendPrefix(m, n, t, s0, s1);
    assert w[t] == Extend(m, t + 1, s0, s1)[t];
    if t >= 16 {
      assert u[t - 2] == w[t - 2] && u[t - 7] == w[t - 7] && u[t - 15] == w[t - 15] && u[t - 16] == w[t - 16];
      FourSummands(s1(w[t - 2]), w[t - 7], s0(w[t - 15]), w[t - 16]);
    }
  }

  /** The schedule starts with the block and goes on by its recurrence. */
  lemma {:induction false} ScheduleEquations(m: seq<word>, n: nat, t: nat)
    requires |m| == 16 && t < n
    ensures
      var w := Schedule(m, n);
      w[t] == if t < 16 then m[t]
              else (SmallSigma1(w[t - 2]) + w[t - 7] + SmallSigma0(w[t - 15]) + w[t - 16]) % TWO_32
  {
    ExtendEquations(m, n, t, SmallSigma0, SmallSigma1);
  }

  lemma {:induction false} FourSummands(a: word, b: word, c: word, d: word)
    ensures Add(Add(Add(a, b), c), d) == (a + b + c + d) % TWO_32
  {
    AddPlain(a + b, c);
    AddPlain(a + b + c, d);
  }

  /** A block is sixteen big-endian words. */
  lemma {:induction false} BlockEquations(padded: Bytes, i: nat, t: nat)
    requires i + 64 <= |padded| && t < 16
    ensures BlockWords(padded, i)[t] == NumberOf(padded[i + 4 * t..i + 4 * t + 4])
  {
    BigEndian(padded[i + 4 * t..i + 4 * t + 4]);
  }

  /** The rounds take the constants and the schedule in order. */
  lemma {:induction false} RoundsInOrder(v: Vars, k: seq<word>, w: seq<word>, t: nat)
    requires t < |k| && t < |w|
    ensures Rounds(v, k, w, 0) == v && Rounds(v, k, w, t + 1) == Round(Rounds(v, k, w, t), k[t], w[t])
  {
  }

  /** The hash value grows word by word, modulo 2^32. */
  lemma {:induction false} PlusEquations(v: Vars, r: Vars)
    ensures Plus(v, r) ==
      Vars((v.a + r.a) % TWO_32, (v.b + r.b) % TWO_32, (v.c + r.c) % TWO_32, (v.d + r.d) % TWO_32,
           (v.e + r.e) % TWO_32, (v.f + r.f) % TWO_32, (v.g + r.g) % TWO_32, (v.h + r.h) % TWO_32)
  {
  }
}
