/**
 The JavaScript implementation of SHA-256, proved to compute the specification:
 padding into a buffer, a 64-word schedule array reused for every block, eight
 working variables, and eight hash words updated in place.
 */
module Sha256Js {
  import opened DataViews
  import opened Sha256
  import opened Sha256Constants

  // ---------- JavaScript numbers ----------

  /** `x >>> 0`. */
  function U(x: int): word {
    x % TWO_32
  }

  /** The signed value that a bitwise operator returns for 32 bits. */
  function Signed(u: word): int {
    if u < 0x8000_0000 then u else u - TWO_32
  }

  function JsAnd(x: int, y: int): int { Signed(And(U(x), U(y))) }

  function JsOr(x: int, y: int): int { Signed(Or(U(x), U(y))) }

  function JsXor(x: int, y: int): int { Signed(Xor(U(x), U(y))) }

  function JsNot(x: int): int { Signed(Not(U(x))) }

  /** Shift counts are taken modulo 32. */
  function JsShl(x: int, n: nat): int { Signed(Shl(U(x), n % 32)) }

  function JsUshr(x: int, n: nat): int { Shr(U(x), n % 32) }

  /** `>>` keeps the sign. */
  function JsShr(x: int, n: nat): int { Signed(U(x)) / Pow2(n % 32) }

  function JsRotr(x: int, n: nat): int
    requires n <= 32
  {
    JsOr(JsUshr(x, n), JsShl(x, 32 - n))
  }

  lemma {:induction false} SignedKeepsBits(u: word)
    ensures U(Signed(u)) == u && -0x8000_0000 <= Signed(u) < 0x8000_0000
  {
  }

  lemma {:induction false} XorBits(x: int, y: int)
    ensures U(JsXor(x, y)) == Xor(U(x), U(y)) && -0x8000_0000 <= JsXor(x, y) < 0x8000_0000
  {
    SignedKeepsBits(Xor(U(x), U(y)));
  }

  lemma {:induction false} AndBits(x: int, y: int)
    ensures U(JsAnd(x, y)) == And(U(x), U(y))
  {
    SignedKeepsBits(And(U(x), U(y)));
  }

  lemma {:induction false} WordIsItself(x: word)
    ensures U(x) == x
  {
  }

  lemma {:induction false} OrBits(x: int, y: int)
    ensures U(JsOr(x, y)) == Or(U(x), U(y))
  {
    SignedKeepsBits(Or(U(x), U(y)));
  }

  /** Also where a shift by 32 does not shift at all. */
  lemma {:induction false} RotrIsRotr(x: word, n: nat)
    requires n <= 32
    ensures U(JsRotr(x, n)) == Rotr(x, n)
  {
    OrBits(JsUshr(x, n), JsShl(x, 32 - n));
    if 0 < n < 32 {
      UshrIsShr(x, n);
      ShlIsShl(x, 32 - n);
    } else {
      UnshiftedBy32(x);
      RotrOfNone(x, n);
    }
  }

  lemma {:induction false} UnshiftedBy32(x: word)
    ensures U(JsUshr(x, 0)) == x && U(JsUshr(x, 32)) == x && U(JsShl(x, 0)) == x && U(JsShl(x, 32)) == x
  {
    WordIsItself(x);
    SignedKeepsBits(x);
    assert Shr(x, 0) == x && Shl(x, 0) == x;
  }

  lemma {:induction false} RotrOfNone(x: word, n: nat)
    requires n == 0 || n == 32
    ensures Rotr(x, n) == Or(x, x)
  {
    Pow2Of32();
    forall i | 0 <= i < 32 ensures BitAt(Rotr(x, n), i) <==> BitAt(Or(x, x), i) {
      RotrBits(x, n, i);
      BitwiseBits((p, q) => p || q, x, x, 32, i);
    }
    SameBits(Rotr(x, n), Or(x, x), 32);
  }

  lemma {:induction false} UshrIsShr(x: word, n: nat)
    requires n < 32
    ensures U(JsUshr(x, n)) == Shr(x, n)
  {
    WordIsItself(x);
    WordIsItself(Shr(x, n));
  }

  lemma {:induction false} ShlIsShl(x: word, n: nat)
    requires n < 32
    ensures U(JsShl(x, n)) == Shl(x, n)
  {
    WordIsItself(x);
    SignedKeepsBits(Shl(x, n));
  }

  /** Three signed values combined by exclusive or. */
  function Xor3(x: int, y: int, z: int): int {
    JsXor(JsXor(x, y), z)
  }

  lemma {:induction false} Xor3Bits(x: int, y: int, z: int)
    ensures U(Xor3(x, y, z)) == Xor(Xor(U(x), U(y)), U(z)) && -0x8000_0000 <= Xor3(x, y, z) < 0x8000_0000
  {
    XorBits(x, y);
    XorBits(JsXor(x, y), z);
  }

  predicate Represents(x: int, u: word) {
    U(x) == u && -0x8000_0000 <= x < 0x8000_0000
  }

  /** The round's `s0`. */
  method Sum0(a: word) returns (s0: int)
    ensures Represents(s0, BigSigma0(a))
  {
    RotrIsRotr(a, 2);
    RotrIsRotr(a, 13);
    RotrIsRotr(a, 22);
    Xor3Bits(JsRotr(a, 2), JsRotr(a, 13), JsRotr(a, 22));
    s0 := Xor3(JsRotr(a, 2), JsRotr(a, 13), JsRotr(a, 22));
  }

  /** The round's `s1`. */
  method Sum1(e: word) returns (s1: int)
    ensures Represents(s1, BigSigma1(e))
  {
    RotrIsRotr(e, 6);
    RotrIsRotr(e, 11);
    RotrIsRotr(e, 25);
    Xor3Bits(JsRotr(e, 6), JsRotr(e, 11), JsRotr(e, 25));
    s1 := Xor3(JsRotr(e, 6), JsRotr(e, 11), JsRotr(e, 25));
  }

  /** The schedule's `s0`. */
  method ScheduleS0(x: word) returns (s0: int)
    ensures Represents(s0, SmallSigma0(x))
  {
    RotrIsRotr(x, 7);
    RotrIsRotr(x, 18);
    UshrIsShr(x, 3);
    Xor3Bits(JsRotr(x, 7), JsRotr(x, 18), JsUshr(x, 3));
    s0 := Xor3(JsRotr(x, 7), JsRotr(x, 18), JsUshr(x, 3));
  }

  /** The schedule's `s1`. */
  method ScheduleS1(x: word) returns (s1: int)
    ensures Represents(s1, SmallSigma1(x))
  {
    RotrIsRotr(x, 17);
    RotrIsRotr(x, 19);
    UshrIsShr(x, 10);
    Xor3Bits(JsRotr(x, 17), JsRotr(x, 19), JsUshr(x, 10));
    s1 := Xor3(JsRotr(x, 17), JsRotr(x, 19), JsUshr(x, 10));
  }

  method Choose(e: word, f: word, g: word) returns (ch: int)
    ensures Represents(ch, Sha256.Ch(e, f, g))
  {
    WordIsItself(e);
    WordIsItself(f);
    WordIsItself(g);
    SignedKeepsBits(Not(e));
    AndBits(e, f);
    AndBits(JsNot(e), g);
    XorBits(JsAnd(e, f), JsAnd(JsNot(e), g));
    ch := JsXor(JsAnd(e, f), JsAnd(JsNot(e), g));
  }

  method Majority(a: word, b: word, c: word) returns (maj: int)
    ensures Represents(maj, Sha256.Maj(a, b, c))
  {
    WordIsItself(a);
    WordIsItself(b);
    WordIsItself(c);
    AndBits(a, b);
    AndBits(a, c);
    AndBits(b, c);
    Xor3Bits(JsAnd(a, b), JsAnd(a, c), JsAnd(b, c));
    maj := Xor3(JsAnd(a, b), JsAnd(a, c), JsAnd(b, c));
  }

  lemma {:induction false} AddStep(x: int, y: int, ux: word, uy: word)
    requires U(x) == ux && U(y) == uy
    ensures U(x + y) == Add(ux, uy)
  {
  }

  /** Sums of words and signed values, reduced once at the end, are sums modulo 2^32, and exact in between. */
  lemma {:induction false} SumOfFour(w16: word, s0: int, w7: word, s1: int, u0: word, u1: word)
    requires Represents(s0, u0) && Represents(s1, u1)
    ensures U(w16 + s0 + w7 + s1) == Add(Add(Add(u1, w7), u0), w16)
    ensures -MAX_SAFE_INTEGER <= w16 + s0 + w7 + s1 <= MAX_SAFE_INTEGER
  {
    AddStep(s1, w7, u1, w7);
    AddStep(s1 + w7, s0, Add(u1, w7), u0);
    AddStep(s1 + w7 + s0, w16, Add(Add(u1, w7), u0), w16);
    assert w16 + s0 + w7 + s1 == s1 + w7 + s0 + w16;
  }

  lemma {:induction false} SumOfFive(h: word, s1: int, ch: int, k: word, w: word, us: word, uc: word)
    requires Represents(s1, us) && Represents(ch, uc)
    ensures U(h + s1 + ch + k + w) == Add(Add(Add(Add(h, us), uc), k), w)
    ensures -MAX_SAFE_INTEGER <= h + s1 + ch + k + w <= MAX_SAFE_INTEGER
  {
    var t1, t2 := h + s1, h + s1 + ch;
    assert U(t1) == Add(h, us) by { AddStep(h, s1, h, us); }
    assert U(t2) == Add(Add(h, us), uc) by { AddStep(t1, ch, Add(h, us), uc); }
    AddTwoMore(t2, k, w, Add(Add(h, us), uc));
  }

  lemma {:induction false} AddTwoMore(x: int, k: word, w: word, u: word)
    requires U(x) == u
    ensures U(x + k + w) == Add(Add(u, k), w)
  {
    AddStep(x, k, u, k);
    AddStep(x + k, w, Add(u, k), w);
  }

  // ---------- padding ----------

  /** Section 5.1.1 in bytes: the least number of zero bytes that leaves 8 for the length. */
  function ZeroCount(n: nat): (z: nat)
    ensures z < 64 && (n + 1 + z) % 64 == 56
  {
    (55 - n) % 64
  }

  function Padded(m: Bytes): Bytes {
    m + [0x80] + Zeros(ZeroCount(|m|)) + Uint64BE(8 * |m|)
  }

  lemma {:induction false} PaddedSize(n: nat)
    ensures (n + 9 + ZeroCount(n)) % 64 == 0
    ensures n + 9 + ZeroCount(n) == (n + 9 + 63) / 64 * 64
  {
    var total := n + 9 + ZeroCount(n);
    var q := (total - 8) / 64;
    assert total == 64 * (q + 1);
    UpTo64(n + 72, q + 1);
  }

  lemma {:induction false} UpTo64(n: nat, q: nat)
    requires 64 * q <= n < 64 * q + 64
    ensures n / 64 == q && (64 * q) % 64 == 0
  {
  }

  lemma {:induction false} LengthOfPadded(m: Bytes)
    ensures |Padded(m)| == |m| + 9 + ZeroCount(|m|)
  {
    assert |Uint64BE(8 * |m|)| == 8;
  }

  /** The padded length is the least multiple of 64 with room for 9 more bytes. */
  lemma {:induction false} PaddedLength(m: Bytes)
    ensures |Padded(m)| % 64 == 0 && |m| + 9 <= |Padded(m)| < |m| + 9 + 64
    ensures |Padded(m)| == (|m| + 9 + 63) / 64 * 64
  {
    LengthOfPadded(m);
    PaddedSize(|m|);
  }

  /** The message, a byte with only its first bit set, zeros, and the length in bits as a 64-bit number. */
  lemma {:induction false} PaddedContents(m: Bytes, i: nat)
    requires 8 * |m| < TWO_32 * TWO_32 && i < |Padded(m)|
    ensures |Padded(m)| >= |m| + 9
    ensures
      var p := Padded(m);
      && (i < |m| ==> p[i] == m[i]) && (i == |m| ==> p[i] == 128) && (|m| < i < |p| - 8 ==> p[i] == 0)
      && NumberOf(p[|p| - 8..]) == 8 * |m|
  {
    LengthOfPadded(m);
    var p := Padded(m);
    assert p[|p| - 8..] == Uint64BE(8 * |m|);
    Uint64RoundTrip(8 * |m|);
    BigEndian(p[|p| - 8..]);
  }

  /** Different messages are padded differently. */
  lemma {:induction false} PaddingInjective(m: Bytes, n: Bytes)
    requires 8 * |m| < TWO_32 * TWO_32 && 8 * |n| < TWO_32 * TWO_32
    requires Padded(m) == Padded(n)
    ensures m == n
  {
    var p := Padded(m);
    assert p[|p| - 8..] == Uint64BE(8 * |m|) && p[|p| - 8..] == Uint64BE(8 * |n|);
    Uint64RoundTrip(8 * |m|);
    Uint64RoundTrip(8 * |n|);
    assert p[..|m|] == m && p[..|n|] == n;
  }

  method Pad(bytes: Bytes) returns (padded: array<byte>)
    ensures fresh(padded) && padded[..] == Padded(bytes)
  {
    var n := |bytes|;
    var bitLen := n * 8;
    var paddedLen := (n + 9 + 63) / 64 * 64;
    ghost var z := ZeroCount(n);
    assert paddedLen == n + 9 + z by {
      PaddedSize(n);
    }
    padded := Marked(bytes, paddedLen);
    BlankStart(bytes, z);
    StoreLength(padded, bytes + [0x80] + Zeros(z), Uint32BE(bitLen / TWO_32), Uint32BE(bitLen % TWO_32));
  }

  /** The two `setUint32` calls at the end of the buffer. */
  method StoreLength(padded: array<byte>, ghost start: Bytes, hi: Bytes, lo: Bytes)
    requires |hi| == 4 && |lo| == 4 && padded.Length == |start| + 8 && start <= padded[..]
    modifies padded
    ensures padded[..] == start + (hi + lo)
  {
    ghost var blank := padded[..];
    Store(padded, padded.Length - 8, hi);
    ghost var half := padded[..];
    Store(padded, padded.Length - 4, lo);
    LengthStored(start, hi, lo, blank, half, padded[..]);
  }

  lemma {:induction false} BlankStart(bytes: Bytes, z: nat)
    ensures bytes + [0x80] + Zeros(z + 8) == (bytes + [0x80] + Zeros(z)) + Zeros(8)
  {
  }

  /** A zeroed buffer with the message and its end marker copied in. */
  method Marked(bytes: Bytes, size: nat) returns (padded: array<byte>)
    requires |bytes| < size
    ensures fresh(padded) && padded[..] == bytes + [0x80] + Zeros(size - |bytes| - 1)
  {
    padded := new byte[size](i requires 0 <= i < size => if i < |bytes| then bytes[i] else 0);
    padded[|bytes|] := 0x80;
  }

  lemma {:induction false} LengthStored(start: Bytes, hi: Bytes, lo: Bytes, blank: Bytes, half: Bytes, full: Bytes)
    requires |hi| == 4 && |lo| == 4 && |blank| == |start| + 8 && start <= blank
    requires half == blank[..|start|] + hi + blank[|start| + 4..]
    requires full == half[..|start| + 4] + lo + half[|start| + 8..]
    ensures full == start + (hi + lo)
  {
    assert half[..|start| + 4] == start + hi;
  }

  /** `setUint32`. */
  method Store(buf: array<byte>, offset: nat, b: Bytes)
    requires |b| == 4 && offset + 4 <= buf.Length
    modifies buf
    ensures buf[..] == old(buf[..offset]) + b + old(buf[offset + 4..])
  {
    buf[offset], buf[offset + 1], buf[offset + 2], buf[offset + 3] := b[0], b[1], b[2], b[3];
  }

  // ---------- one block ----------

  /** Fill the schedule array for the block at `i`. */
  method Expand(w: array<word>, padded: Bytes, i: nat)
    requires w.Length == 64 && i + 64 <= |padded|
    modifies w
    ensures w[..] == Schedule(BlockWords(padded, i), 64)
  {
    ghost var m := BlockWords(padded, i);
    for t := 0 to 16
      invariant w[..t] == m[..t]
    {
      w[t] := Uint32At(padded, i + t * 4);
      assert m[t] == w[t];
    }
    for t := 16 to 64
      invariant w[..t] == Schedule(m, t)
    {
      ghost var before := w[..t];
      var s0 := ScheduleS0(w[t - 15]);
      var s1 := ScheduleS1(w[t - 2]);
      SumOfFour(w[t - 16], s0, w[t - 7], s1, SmallSigma0(w[t - 15]), SmallSigma1(w[t - 2]));
      w[t] := U(w[t - 16] + s0 + w[t - 7] + s1);
      assert w[..t + 1] == before + [w[t]];
    }
    assert w[..] == w[..64];
  }

  /** The eight working variables through 64 rounds. */
  method RunRounds(v: Vars, k: seq<word>, w: seq<word>) returns (r: Vars)
    requires |k| == 64 && |w| == 64
    ensures r == Rounds(v, k, w, 64)
  {
    var a: word, b: word, c: word, d: word := v.a, v.b, v.c, v.d;
    var e: word, f: word, g: word, hh: word := v.e, v.f, v.g, v.h;
    for t := 0 to 64
      invariant Vars(a, b, c, d, e, f, g, hh) == Rounds(v, k, w, t)
    {
      a, b, c, d, e, f, g, hh := TakeRound(a, b, c, d, e, f, g, hh, k[t], w[t]);
    }
    r := Vars(a, b, c, d, e, f, g, hh);
  }

  /** One turn of the round loop. */
  method TakeRound(a0: word, b0: word, c0: word, d0: word, e0: word, f0: word, g0: word, h0: word, k: word, w: word)
    returns (a: word, b: word, c: word, d: word, e: word, f: word, g: word, hh: word)
    ensures Vars(a, b, c, d, e, f, g, hh) == Round(Vars(a0, b0, c0, d0, e0, f0, g0, h0), k, w)
  {
    a, b, c, d, e, f, g, hh := a0, b0, c0, d0, e0, f0, g0, h0;
    var s1 := Sum1(e);
    var ch := Choose(e, f, g);
    var temp1: int := U(hh + s1 + ch + k + w);
    var s0 := Sum0(a);
    var maj := Majority(a, b, c);
    var temp2: int := U(s0 + maj);
    MixInNumbers(Vars(a, b, c, d, e, f, g, hh), s1, ch, s0, maj,
                 BigSigma1(e), Sha256.Ch(e, f, g), BigSigma0(a), Sha256.Maj(a, b, c), k, w);
    hh := g;
    g := f;
    f := e;
    e := U(d + temp1);
    d := c;
    c := b;
    b := a;
    a := U(temp1 + temp2);
  }

  lemma {:induction false} MixInNumbers(v: Vars, s1: int, ch: int, s0: int, maj: int, u1: word, uc: word, u0: word,
                                        um: word, k: word, w: word)
    requires Represents(s1, u1) && Represents(ch, uc) && Represents(s0, u0) && Represents(maj, um)
    ensures
      var temp1: int, temp2: int := U(v.h + s1 + ch + k + w), U(s0 + maj);
      Mix(v, u1, uc, u0, um, k, w) == Vars(U(temp1 + temp2), v.a, v.b, v.c, U(v.d + temp1), v.e, v.f, v.g)
  {
    SumOfFive(v.h, s1, ch, k, w, u1, uc);
    AddStep(s0, maj, u0, um);
  }

  function VarsOf(h: seq<word>): Vars
    requires |h| == 8
  {
    Vars(h[0], h[1], h[2], h[3], h[4], h[5], h[6], h[7])
  }

  function WordsOf(v: Vars): seq<word> {
    [v.a, v.b, v.c, v.d, v.e, v.f, v.g, v.h]
  }

  /** One turn of the block loop. */
  method Compress(h: array<word>, w: array<word>, k: seq<word>, padded: Bytes, i: nat)
    requires h.Length == 8 && w.Length == 64 && h != w && |k| == 64 && i + 64 <= |padded|
    modifies h, w
    ensures VarsOf(h[..]) ==
      Plus(old(VarsOf(h[..])), Rounds(old(VarsOf(h[..])), k, Schedule(BlockWords(padded, i), 64), 64))
  {
    Expand(w, padded, i);
    var r := RunRounds(Vars(h[0], h[1], h[2], h[3], h[4], h[5], h[6], h[7]), k, w[..]);
    AddInto(h, r);
  }

  method AddInto(h: array<word>, r: Vars)
    requires h.Length == 8
    modifies h
    ensures VarsOf(h[..]) == Plus(old(VarsOf(h[..])), r)
  {
    h[0] := U(h[0] + r.a);
    h[1] := U(h[1] + r.b);
    h[2] := U(h[2] + r.c);
    h[3] := U(h[3] + r.d);
    h[4] := U(h[4] + r.e);
    h[5] := U(h[5] + r.f);
    h[6] := U(h[6] + r.g);
    h[7] := U(h[7] + r.h);
  }

  /** The block loop computes the hash of the padded message, block by block. */
  method HashPadded(start: Vars, k: seq<word>, padded: Bytes, ghost blocks: nat) returns (v: Vars)
    requires |k| == 64 && |padded| == 64 * blocks
    ensures v == HashBlocks(start, k, padded, blocks)
  {
    var w := new word[64](_ => 0);
    var h := new word[] [start.a, start.b, start.c, start.d, start.e, start.f, start.g, start.h];
    var i := 0;
    ghost var n := 0;
    while i < |padded|
      invariant i == 64 * n && n <= blocks && fresh(h) && fresh(w) && h.Length == 8 && w.Length == 64 && h != w
      invariant VarsOf(h[..]) == HashBlocks(start, k, padded, n)
      decreases |padded| - i
    {
      assert n < blocks;
      ghost var before := VarsOf(h[..]);
      Compress(h, w, k, padded, i);
      BlockStep(start, k, padded, n, before);
      i, n := i + 64, n + 1;
    }
    assert n == blocks;
    v := VarsOf(h[..]);
  }

  lemma {:induction false} BlockStep(start: Vars, k: seq<word>, padded: Bytes, n: nat, v: Vars)
    requires |k| == 64 && 64 * n + 64 <= |padded| && v == HashBlocks(start, k, padded, n)
    ensures HashBlocks(start, k, padded, n + 1) == Plus(v, Rounds(v, k, Schedule(BlockWords(padded, 64 * n), 64), 64))
  {
  }

  /** The SHA-256 hash value of a message. */
  function Digest(m: Bytes): Vars {
    PaddedLength(m);
    HashBlocks(H0, K, Padded(m), |Padded(m)| / 64)
  }

  // ---------- text in, hexadecimal out ----------

  type codepoint = x: int | 0 <= x < 0x11_0000

  /** The bytes of one code point, section 3 of RFC 3629; a surrogate is encoded like any other. */
  function Utf8Of(c: codepoint): Bytes {
    if c < 0x80 then [c]
    else if c < 0x800 then [0xC0 + c / 0x40, 0x80 + c % 0x40]
    else if c < 0x1_0000 then [0xE0 + c / 0x1000, 0x80 + c / 0x40 % 0x40, 0x80 + c % 0x40]
    else [0xF0 + c / 0x4_0000, 0x80 + c / 0x1000 % 0x40, 0x80 + c / 0x40 % 0x40, 0x80 + c % 0x40]
  }

  function Utf8(s: seq<codepoint>): Bytes {
    if s == [] then [] else Utf8Of(s[0]) + Utf8(s[1..])
  }

  lemma {:induction false} LowPowers()
    ensures Pow2(3) == 8 && Pow2(4) == 16 && Pow2(5) == 32 && Pow2(6) == 0x40
    ensures Pow2(12) == 0x1000 && Pow2(18) == 0x4_0000
  {
    assert Pow2(6) == 8 * Pow2(3);
    assert Pow2(9) == 8 * Pow2(6);
    assert Pow2(12) == 8 * Pow2(9);
    assert Pow2(15) == 8 * Pow2(12);
    assert Pow2(18) == 8 * Pow2(15);
  }

  lemma {:induction false} JsOrIsSum(x: nat, y: nat, k: nat)
    requires k <= 8 && x < 0x100 && x % Pow2(k) == 0 && y < Pow2(k) <= 0x100
    ensures JsOr(x, y) == x + y
  {
    Pow2Of32();
    WordIsItself(x);
    WordIsItself(y);
    OrOfParts(x, y, k, 32);
  }

  /** `x & 0x3f`. */
  lemma {:induction false} JsAndIsMod(x: nat)
    requires x < TWO_32
    ensures JsAnd(x, 0x3F) == x % 0x40
  {
    LowPowers();
    WordIsItself(x);
    MaskIsMod(x, 6, 32);
  }

  lemma {:induction false} JsShrIsDiv(x: nat, n: nat)
    requires x < 0x8000_0000 && n < 32
    ensures JsShr(x, n) == x / Pow2(n) && JsShr(x, n) >= 0
  {
    assert Signed(U(x)) == x by {
      WordIsItself(x);
    }
    assert n % 32 == n;
    QuotientIsNat(x, Pow2(n));
  }

  lemma {:induction false} QuotientIsNat(x: nat, p: nat)
    requires p > 0
    ensures x / p >= 0
  {
  }

  /** Storing a number in a `Uint8Array`. */
  function ToByte(x: int): byte {
    x % 0x100
  }

  /** `0x80 | (x & 0x3f)`, stored in a byte. */
  method Continuation(x: nat) returns (b: byte)
    requires x < 0x8000_0000
    ensures b == 0x80 + x % 0x40
  {
    LowPowers();
    JsAndIsMod(x);
    JsOrIsSum(0x80, x % 0x40, 6);
    b := ToByte(JsOr(0x80, JsAnd(x, 0x3F)));
  }

  /** `x >> n`. */
  method ShiftRight(x: nat, n: nat) returns (y: nat)
    requires x < 0x8000_0000 && n < 32
    ensures y == x / Pow2(n)
  {
    JsShrIsDiv(x, n);
    var shifted: int := JsShr(x, n);
    y := shifted;
  }

  /** `lead | y`, stored in a byte. */
  method Leading(lead: nat, y: nat, ghost k: nat) returns (b: byte)
    requires k <= 8 && lead % Pow2(k) == 0 && y < Pow2(k) && lead + Pow2(k) <= 0x100
    ensures b == lead + y
  {
    JsOrIsSum(lead, y, k);
    var packed: int := JsOr(lead, y);
    b := ToByte(packed);
  }

  /** The branches of the fallback for one character. */
  method EncodeOne(code: codepoint) returns (out: Bytes)
    ensures out == Utf8Of(code)
  {
    LowPowers();
    if code < 0x80 {
      return [code];
    }
    var last := Continuation(code);
    var over6 := ShiftRight(code, 6);
    var over12 := ShiftRight(code, 12);
    if code < 0x800 {
      var first := Leading(0xC0, over6, 5);
      out := [first, last];
    } else if code < 0x1_0000 {
      var first := Leading(0xE0, over12, 4);
      var second := Continuation(over6);
      out := [first, second, last];
    } else {
      var over18 := ShiftRight(code, 18);
      var first := Leading(0xF0, over18, 3);
      var second := Continuation(over12);
      var third := Continuation(over6);
      out := [first, second, third, last];
    }
  }

  method Utf8Encode(s: seq<codepoint>) returns (out: Bytes)
    ensures out == Utf8(s)
  {
    out := [];
    for i := 0 to |s|
      invariant out + Utf8(s[i..]) == Utf8(s)
    {
      var bytes := EncodeOne(s[i]);
      out := out + bytes;
    }
  }

  /** How many bytes the code point starting with `b` has. */
  function Width(b: byte): nat {
    if b < 0x80 then 1 else if b < 0xE0 then 2 else if b < 0xF0 then 3 else 4
  }

  lemma {:induction false} Utf8OfInjective(c: codepoint, d: codepoint, rest: Bytes, others: Bytes)
    requires Utf8Of(c) + rest == Utf8Of(d) + others
    ensures c == d && rest == others
  {
    var left, right := Utf8Of(c) + rest, Utf8Of(d) + others;
    FirstByte(c);
    FirstByte(d);
    assert left[0] == Utf8Of(c)[0] && right[0] == Utf8Of(d)[0];
    var n := |Utf8Of(c)|;
    assert left[..n] == Utf8Of(c) && right[..n] == Utf8Of(d);
    assert left[n..] == rest && right[n..] == others;
    CodeOfUtf8(c);
    CodeOfUtf8(d);
  }

  lemma {:induction false} FirstByte(c: codepoint)
    ensures Utf8Of(c) != [] && |Utf8Of(c)| == Width(Utf8Of(c)[0])
  {
  }

  /** The code point that one to four bytes stand for. */
  function CodeOf(b: Bytes): int {
    match |b|
    case 1 => b[0] as int
    case 2 => (b[0] as int - 0xC0) * 0x40 + (b[1] as int - 0x80)
    case 3 => (b[0] as int - 0xE0) * 0x1000 + (b[1] as int - 0x80) * 0x40 + (b[2] as int - 0x80)
    case 4 => (b[0] as int - 0xF0) * 0x4_0000 + (b[1] as int - 0x80) * 0x1000
              + (b[2] as int - 0x80) * 0x40 + (b[3] as int - 0x80)
    case _ => 0
  }

  lemma {:induction false} CodeOfUtf8(c: codepoint)
    ensures CodeOf(Utf8Of(c)) == c
  {
    var q1, q2, q3 := c / 0x40, c / 0x1000, c / 0x4_0000;
    assert c == 0x40 * q1 + c % 0x40;
    assert q1 == 0x40 * q2 + q1 % 0x40;
    assert q2 == 0x40 * q3 + q2 % 0x40;
  }

  /** Different texts have different bytes. */
  lemma {:induction false} Utf8Injective(s: seq<codepoint>, t: seq<codepoint>)
    requires Utf8(s) == Utf8(t)
    ensures s == t
  {
    if s != [] && t != [] {
      Utf8OfInjective(s[0], t[0], Utf8(s[1..]), Utf8(t[1..]));
      Utf8Injective(s[1..], t[1..]);
      assert s == [s[0]] + s[1..] && t == [t[0]] + t[1..];
    } else if s != [] {
      FirstByte(s[0]);
    } else if t != [] {
      FirstByte(t[0]);
    }
  }

  predicate IsSurrogate(c: codepoint) {
    0xD800 <= c < 0xE000
  }

  /** `TextEncoder` replaces a lone surrogate by U+FFFD. */
  function Scalars(s: seq<codepoint>): seq<codepoint> {
    seq(|s|, i requires 0 <= i < |s| => if IsSurrogate(s[i]) then 0xFFFD else s[i])
  }

  /** The fallback encoder agrees with `TextEncoder` exactly on texts without lone surrogates. */
  lemma {:induction false} FallbackAgreesIff(s: seq<codepoint>)
    ensures Utf8(s) == Utf8(Scalars(s)) <==> forall i :: 0 <= i < |s| ==> !IsSurrogate(s[i])
  {
    if Utf8(s) == Utf8(Scalars(s)) {
      Utf8Injective(s, Scalars(s));
      forall i | 0 <= i < |s| ensures !IsSurrogate(s[i]) {
        assert s[i] == Scalars(s)[i];
      }
    }
    if forall i :: 0 <= i < |s| ==> !IsSurrogate(s[i]) {
      assert Scalars(s) == s;
    }
  }

  const DIGITS := "0123456789abcdef"

  /** `toString(16)`. */
  function Hex(n: nat): (s: string)
    ensures s != ""
  {
    if n < 16 then [DIGITS[n]] else Hex(n / 16) + [DIGITS[n % 16]]
  }

  /** Exactly `width` hexadecimal digits. */
  function HexFixed(n: nat, width: nat): (s: string)
    ensures |s| == width
  {
    if width == 0 then "" else HexFixed(n / 16, width - 1) + [DIGITS[n % 16]]
  }

  function PadStart(s: string, width: nat): string {
    if |s| >= width then s else seq(width - |s|, _ => '0') + s
  }

  function Pow16(n: nat): (p: nat)
    ensures p > 0
  {
    if n == 0 then 1 else 16 * Pow16(n - 1)
  }

  lemma {:induction false} HexZeros(width: nat)
    ensures HexFixed(0, width) == seq(width, _ => '0')
  {
    if width == 0 {
    } else {
      HexZeros(width - 1);
    }
  }

  /** A number below `16^width` printed and padded has exactly `width` digits, the right ones. */
  lemma {:induction false} PaddedHex(n: nat, width: nat)
    requires width > 0 && n < Pow16(width)
    ensures PadStart(Hex(n), width) == HexFixed(n, width)
    decreases width
  {
    if n < 16 {
      HexZeros(width - 1);
      assert n / 16 == 0;
    } else {
      assert width > 1;
      PaddedHex(n / 16, width - 1);
      PadSnoc(Hex(n / 16), DIGITS[n % 16], width);
    }
  }

  lemma {:induction false} PadSnoc(h: string, c: char, width: nat)
    requires width > 0
    ensures PadStart(h + [c], width) == PadStart(h, width - 1) + [c]
  {
  }

  function HexOf(ws: seq<word>): string {
    if ws == [] then "" else HexFixed(ws[0], 8) + HexOf(ws[1..])
  }

  function Sha256Text(s: seq<codepoint>): string {
    HexOf(WordsOf(Digest(Utf8(s))))
  }

  /** The whole of `sha256Hex`. */
  method Sha256Hex(message: seq<codepoint>) returns (out: string)
    ensures out == Sha256Text(message)
  {
    var bytes := Utf8Encode(message);
    var buffer := Pad(bytes);
    PaddedLength(bytes);
    var v := HashPadded(H0, K, buffer[..], buffer.Length / 64);
    out := HexText(WordsOf(v));
  }

  method HexText(h: seq<word>) returns (out: string)
    ensures out == HexOf(h)
  {
    out := "";
    for i := 0 to |h|
      invariant out + HexOf(h[i..]) == HexOf(h)
    {
      WordHex(h[i]);
      assert out + (HexFixed(h[i], 8) + HexOf(h[i + 1..])) == (out + HexFixed(h[i], 8)) + HexOf(h[i + 1..]);
      out := out + PadStart(Hex(h[i]), 8);
    }
  }

  lemma {:induction false} WordHex(w: word)
    ensures PadStart(Hex(w), 8) == HexFixed(w, 8)
  {
    assert Pow16(4) == 0x1_0000;
    assert Pow16(8) == 0x1_0000 * Pow16(4);
    PaddedHex(w, 8);
  }

  lemma {:induction false} HexFixedInjective(n: nat, m: nat, width: nat)
    requires n < Pow16(width) && m < Pow16(width) && HexFixed(n, width) == HexFixed(m, width)
    ensures n == m
    decreases width
  {
    if width == 0 {
    } else {
      var x, y := HexFixed(n / 16, width - 1), HexFixed(m / 16, width - 1);
      SnocInjective(x, y, DIGITS[n % 16], DIGITS[m % 16]);
      HexFixedInjective(n / 16, m / 16, width - 1);
      DigitsDiffer(n % 16, m % 16);
    }
  }

  lemma {:induction false} SnocInjective(s: string, t: string, c: char, d: char)
    requires s + [c] == t + [d]
    ensures s == t && c == d
  {
    assert (s + [c])[..|s|] == s && (t + [d])[..|t|] == t;
    assert (s + [c])[|s|] == c && (t + [d])[|t|] == d;
  }

  /** Ten digits, then the letters from `a` on. */
  lemma {:induction false} DigitMeaning(i: nat)
    requires i < 16
    ensures |DIGITS| == 16 && DIGITS[i] as int == if i < 10 then '0' as int + i else 'a' as int + i - 10
  {
  }

  lemma {:induction false} DigitsDiffer(i: nat, j: nat)
    requires i < 16 && j < 16 && DIGITS[i] == DIGITS[j]
    ensures i == j
  {
    DigitMeaning(i);
    DigitMeaning(j);
  }

  /** The text of a digest has 64 characters and determines the eight words. */
  lemma {:induction false} HexOfExact(u: seq<word>, v: seq<word>)
    requires |u| == |v|
    ensures |HexOf(u)| == 8 * |u|
    ensures HexOf(u) == HexOf(v) ==> u == v
  {
    if u == [] {
    } else {
      HexOfExact(u[1..], v[1..]);
      if HexOf(u) == HexOf(v) {
        assert HexOf(u)[..8] == HexFixed(u[0], 8) && HexOf(v)[..8] == HexFixed(v[0], 8);
        assert HexOf(u)[8..] == HexOf(u[1..]) && HexOf(v)[8..] == HexOf(v[1..]);
        assert Pow16(4) == 0x1_0000;
        assert Pow16(8) == 0x1_0000 * Pow16(4);
        HexFixedInjective(u[0], v[0], 8);
        assert u == [u[0]] + u[1..] && v == [v[0]] + v[1..];
      }
    }
  }
}
