/**
 base64url without padding, section 5 of RFC 4648.  Bytes and six-bit groups
 are integers, so a shift or a mask reads as a division or a remainder and the
 union of disjoint bits as a sum.
 */
module Base64Url {
  import opened DataViews
  import opened Sequences

  type sextet = x: int | 0 <= x < 64

  // ---------- the alphabet ----------

  const UPPER := "ABCDEFGHIJKLMNOPQRSTUVWXYZ"
  const LOWER := "abcdefghijklmnopqrstuvwxyz"
  const OTHER := "0123456789-_"
  const CHARS := UPPER + LOWER + OTHER

  /** The alphabet by ranges: the character at index `i` of `CHARS`. */
  function CharOf(i: sextet): char {
    if i < 26 then 'A' + i as char
    else if i < 52 then 'a' + (i - 26) as char
    else if i < 62 then '0' + (i - 52) as char
    else if i == 62 then '-'
    else '_'
  }

  predicate InAlphabet(c: char) {
    'A' <= c <= 'Z' || 'a' <= c <= 'z' || '0' <= c <= '9' || c == '-' || c == '_'
  }

  /** The lookup table, which has no entry for any other character. */
  function IndexOf(c: char): sextet {
    if 'A' <= c <= 'Z' then c as int - 'A' as int
    else if 'a' <= c <= 'z' then c as int - 'a' as int + 26
    else if '0' <= c <= '9' then c as int - '0' as int + 52
    else if c == '-' then 62
    else if c == '_' then 63
    else 0
  }

  lemma {:induction false} AlphabetSpelledOut(i: sextet)
    ensures |CHARS| == 64 && CHARS[i] == CharOf(i)
  {
    assert i < 26 ==> CHARS[i] == UPPER[i] == CharOf(i);
    assert 26 <= i < 52 ==> CHARS[i] == LOWER[i - 26] == CharOf(i);
    assert 52 <= i ==> CHARS[i] == OTHER[i - 52] == CharOf(i);
  }

  lemma {:induction false} CharInverse(i: sextet)
    ensures |CHARS| == 64 && CHARS[i] == CharOf(i)
    ensures InAlphabet(CharOf(i)) && IndexOf(CharOf(i)) == i
  {
    AlphabetSpelledOut(i);
  }

  lemma {:induction false} IndexInverse(c: char)
    requires InAlphabet(c)
    ensures |CHARS| == 64 && CHARS[IndexOf(c)] == c && CharOf(IndexOf(c)) == c
  {
    AlphabetSpelledOut(IndexOf(c));
  }

  function Spell(xs: seq<sextet>): string {
    seq(|xs|, i requires 0 <= i < |xs| => CharOf(xs[i]))
  }

  function Indices(s: string): seq<sextet> {
    seq(|s|, i requires 0 <= i < |s| => IndexOf(s[i]))
  }

  predicate Spelled(s: string) {
    forall i :: 0 <= i < |s| ==> InAlphabet(s[i])
  }

  lemma {:induction false} SpellInverse(xs: seq<sextet>)
    ensures Spelled(Spell(xs)) && Indices(Spell(xs)) == xs
  {
    forall i | 0 <= i < |xs| ensures InAlphabet(Spell(xs)[i]) && Indices(Spell(xs))[i] == xs[i] {
      CharInverse(xs[i]);
    }
  }

  lemma {:induction false} IndicesInverse(s: string)
    requires Spelled(s)
    ensures Spell(Indices(s)) == s
  {
    forall i | 0 <= i < |s| ensures Spell(Indices(s))[i] == s[i] {
      IndexInverse(s[i]);
    }
  }

  // ---------- three bytes and four sextets ----------

  function Group(b0: byte, b1: byte, b2: byte): seq<sextet> {
    [b0 / 4, b0 % 4 * 16 + b1 / 16, b1 % 16 * 4 + b2 / 64, b2 % 64]
  }

  function First(c0: sextet, c1: sextet): byte {
    c0 * 4 + c1 / 16
  }

  function Second(c1: sextet, c2: sextet): byte {
    c1 % 16 * 16 + c2 / 4
  }

  function Third(c2: sextet, c3: sextet): byte {
    c2 % 4 * 64 + c3
  }

  function Sextets(b: Bytes): seq<sextet> {
    if |b| == 0 then []
    else if |b| == 1 then Group(b[0], 0, 0)[..2]
    else if |b| == 2 then Group(b[0], b[1], 0)[..3]
    else Group(b[0], b[1], b[2]) + Sextets(b[3..])
  }

  /** A single left-over sextet is read as if zeros followed, and yields two bytes. */
  function Octets(x: seq<sextet>): Bytes {
    if |x| == 0 then []
    else if |x| == 1 then [First(x[0], 0), 0]
    else if |x| == 2 then [First(x[0], x[1])]
    else if |x| == 3 then [First(x[0], x[1]), Second(x[1], x[2])]
    else [First(x[0], x[1]), Second(x[1], x[2]), Third(x[2], x[3])] + Octets(x[4..])
  }

  /** The number that sextets stand for, the first being the most significant. */
  function SextetNumber(x: seq<sextet>): nat {
    if x == [] then 0 else 64 * SextetNumber(x[..|x| - 1]) + x[|x| - 1]
  }

  function Pow64(n: nat): nat {
    if n == 0 then 1 else 64 * Pow64(n - 1)
  }

  lemma {:induction false} SextetAppend(x: seq<sextet>, y: seq<sextet>)
    ensures SextetNumber(x + y) == Pow64(|y|) * SextetNumber(x) + SextetNumber(y)
  {
    if y == [] {
      assert x + y == x;
    } else {
      var init, last := y[..|y| - 1], y[|y| - 1] as int;
      SextetAppend(x, init);
      assert (x + y)[..|x + y| - 1] == x + init;
      SextetDistribute(Pow64(|init|), SextetNumber(x), SextetNumber(init), last);
    }
  }

  lemma {:induction false} SextetDistribute(p: nat, x: nat, y: nat, z: int)
    ensures 64 * (p * x + y) + z == (64 * p) * x + (64 * y + z)
  {
  }

  /** The bits that fill up the last sextet. */
  function Filler(n: nat): nat {
    if n % 3 == 0 then 1 else if n % 3 == 1 then 16 else 4
  }

  lemma {:induction false} FewSextets(x: seq<sextet>)
    requires 0 < |x| <= 4
    ensures SextetNumber(x) ==
      var c0: int := x[0];
      if |x| == 1 then c0
      else if |x| == 2 then 64 * c0 + x[1]
      else if |x| == 3 then 64 * (64 * c0 + x[1]) + x[2]
      else 64 * (64 * (64 * c0 + x[1]) + x[2]) + x[3]
  {
    var y := x[..|x| - 1];
    if |x| == 1 {
      assert y == [];
    } else {
      FewSextets(y);
    }
  }

  lemma {:induction false} FewBytes(b: Bytes)
    requires 0 < |b| <= 3
    ensures NumberOf(b) ==
      var b0: int := b[0];
      if |b| == 1 then b0
      else if |b| == 2 then 0x100 * b0 + b[1]
      else 0x100 * (0x100 * b0 + b[1]) + b[2]
  {
    var a := b[..|b| - 1];
    if |b| == 1 {
      assert a == [];
    } else {
      FewBytes(a);
    }
  }

  lemma {:induction false} LastSextets(b: Bytes)
    requires 0 < |b| <= 3
    ensures SextetNumber(Sextets(b)) == Filler(|b|) * NumberOf(b)
  {
    assert |b| == 3 ==> b[3..] == [];
    assert |Sextets(b)| == |b| + 1;
    FewBytes(b);
    FewSextets(Sextets(b));
  }

  lemma {:induction false} FillerStep(n: nat)
    ensures Filler(n + 3) == Filler(n) && Filler(3) == 1
  {
  }

  lemma {:induction false} SmallPowers()
    ensures Pow64(0) == 1 && Pow64(2) == 0x1000 && Pow64(3) == 0x4_0000
    ensures Pow256(0) == 1 && Pow256(1) == 0x100 && Pow256(2) == 0x1_0000
  {
    assert Pow64(1) == 64 && Pow64(2) == 64 * Pow64(1) && Pow64(3) == 64 * Pow64(2);
    assert Pow256(1) == 0x100 && Pow256(2) == 0x100 * Pow256(1);
  }

  lemma {:induction false} NextPowers(n: nat, m: nat)
    ensures Pow64(n + 4) == 0x100_0000 * Pow64(n) && Pow256(m + 3) == 0x100_0000 * Pow256(m)
  {
    assert Pow64(n + 4) == 64 * Pow64(n + 3) && Pow64(n + 2) == 64 * Pow64(n + 1);
    assert Pow256(m + 3) == 0x100 * Pow256(m + 2) && Pow256(m + 1) == 0x100 * Pow256(m);
  }

  lemma {:induction false} SextetPower(b: Bytes)
    ensures Pow64(|Sextets(b)|) == Filler(|b|) * Pow256(|b|)
  {
    if |b| < 3 {
      SmallPowers();
    } else {
      SextetPower(b[3..]);
      FillerStep(|b| - 3);
      NextPowers(|Sextets(b[3..])|, |b| - 3);
    }
  }

  /** The sextets spell the number that the bytes spell, shifted by the bits that fill up the last one. */
  lemma {:induction false} SextetsSpellBytes(b: Bytes)
    ensures SextetNumber(Sextets(b)) == Filler(|b|) * NumberOf(b)
  {
    if |b| == 0 {
    } else if |b| <= 3 {
      LastSextets(b);
    } else {
      SextetsSpellBytes(b[3..]);
      LastSextets(b[..3]);
      SextetPower(b[3..]);
      FirstSextets(b);
      FillerStep(|b| - 3);
      Shifted(Filler(|b|), Pow256(|b| - 3), NumberOf(b[..3]), NumberOf(b[3..]));
    }
  }

  lemma {:induction false} FirstSextets(b: Bytes)
    requires |b| > 3
    ensures
      var head, rest := b[..3], b[3..];
      && NumberOf(b) == Pow256(|rest|) * NumberOf(head) + NumberOf(rest)
      && SextetNumber(Sextets(b)) == Pow64(|Sextets(rest)|) * SextetNumber(Sextets(head)) + SextetNumber(Sextets(rest))
  {
    assert b == b[..3] + b[3..];
    NumberOfAppend(b[..3], b[3..]);
    SextetsSplit(b);
    SextetAppend(Sextets(b[..3]), Sextets(b[3..]));
  }

  lemma {:induction false} SextetsSplit(b: Bytes)
    requires |b| >= 3
    ensures Sextets(b) == Sextets(b[..3]) + Sextets(b[3..])
  {
    var head := b[..3];
    assert head[3..] == [];
    assert Sextets(head) == Group(b[0], b[1], b[2]);
  }

  lemma {:induction false} Shifted(f: nat, p: nat, x: nat, y: nat)
    ensures f * p * x + f * y == f * (p * x + y)
  {
  }

  lemma {:induction false} GroupInverse(b0: byte, b1: byte, b2: byte)
    ensures var g := Group(b0, b1, b2);
      First(g[0], g[1]) == b0 && Second(g[1], g[2]) == b1 && Third(g[2], g[3]) == b2
  {
  }

  lemma {:induction false} OctetInverse(c0: sextet, c1: sextet, c2: sextet, c3: sextet)
    ensures Group(First(c0, c1), Second(c1, c2), Third(c2, c3)) == [c0, c1, c2, c3]
  {
    var b0, b1, b2 := First(c0, c1), Second(c1, c2), Third(c2, c3);
    assert b0 / 4 == c0 && b0 % 4 == c1 / 16;
    assert b1 / 16 == c1 % 16 && b1 % 16 == c2 / 4;
    assert b2 / 64 == c2 % 4 && b2 % 64 == c3;
  }

  lemma {:induction false} OctetsOfSextets(b: Bytes)
    ensures Octets(Sextets(b)) == b
  {
    if |b| >= 3 {
      OctetsOfSextets(b[3..]);
      GroupInverse(b[0], b[1], b[2]);
      assert Sextets(b)[4..] == Sextets(b[3..]);
      assert b == [b[0], b[1], b[2]] + b[3..];
    } else if |b| == 2 {
      GroupInverse(b[0], b[1], 0);
    } else if |b| == 1 {
      GroupInverse(b[0], 0, 0);
    }
  }

  /** No dangling sextet, and no unused bit set in the last one. */
  predicate Tight(x: seq<sextet>) {
    && |x| % 4 != 1
    && (|x| % 4 == 2 ==> x[|x| - 1] % 16 == 0)
    && (|x| % 4 == 3 ==> x[|x| - 1] % 4 == 0)
  }

  lemma {:induction false} SextetsTight(b: Bytes)
    ensures Tight(Sextets(b))
  {
    if |b| < 3 {
    } else {
      SextetsTight(b[3..]);
    }
  }

  lemma {:induction false} SextetsOfOctets(x: seq<sextet>)
    requires Tight(x)
    ensures Sextets(Octets(x)) == x
  {
    if |x| >= 4 {
      assert Tight(x[4..]);
      SextetsOfOctets(x[4..]);
      OctetInverse(x[0], x[1], x[2], x[3]);
      assert Octets(x)[3..] == Octets(x[4..]);
      assert x == [x[0], x[1], x[2], x[3]] + x[4..];
    } else if |x| == 3 {
      OctetInverse(x[0], x[1], x[2], 0);
    } else if |x| == 2 {
      OctetInverse(x[0], x[1], 0, 0);
    }
  }

  // ---------- encoding ----------

  function Encode(b: Bytes): string {
    Spell(Sextets(b))
  }

  function StripPadding(s: string): string {
    if s != "" && s[|s| - 1] == '=' then StripPadding(s[..|s| - 1]) else s
  }

  function Equals(n: nat): string {
    seq(n, _ => '=')
  }

  lemma {:induction false} StripEquals(s: string, n: nat)
    requires Spelled(s)
    ensures StripPadding(s + Equals(n)) == s
  {
    if n > 0 {
      assert (s + Equals(n))[..|s| + n - 1] == s + Equals(n - 1);
      StripEquals(s, n - 1);
    } else {
      assert s + Equals(0) == s;
    }
  }

  /** The four characters written for the bytes at `i`, `=` standing for those past the end. */
  function Quad(bytes: Bytes, i: nat): string
    requires i < |bytes|
  {
    var b0 := bytes[i];
    var b1 := if i + 1 < |bytes| then bytes[i + 1] else 0;
    var b2 := if i + 2 < |bytes| then bytes[i + 2] else 0;
    var g := Group(b0, b1, b2);
    [CharOf(g[0]), CharOf(g[1]),
     if i + 1 < |bytes| then CharOf(g[2]) else '=',
     if i + 2 < |bytes| then CharOf(g[3]) else '=']
  }

  lemma {:induction false} QuadFull(bytes: Bytes, i: nat)
    requires i + 3 <= |bytes|
    ensures Encode(bytes[i..]) == Quad(bytes, i) + Encode(bytes[i + 3..])
  {
    assert bytes[i..][3..] == bytes[i + 3..];
    var g := Group(bytes[i], bytes[i + 1], bytes[i + 2]);
    assert Sextets(bytes[i..]) == g + Sextets(bytes[i + 3..]);
    SpellAppend(g, Sextets(bytes[i + 3..]));
    assert Spell(g) == Quad(bytes, i);
  }

  lemma {:induction false} SpellAppend(x: seq<sextet>, y: seq<sextet>)
    ensures Spell(x + y) == Spell(x) + Spell(y)
  {
  }

  lemma {:induction false} QuadLast(bytes: Bytes, i: nat)
    requires i < |bytes| < i + 3
    ensures Quad(bytes, i) == Encode(bytes[i..]) + Equals(i + 3 - |bytes|)
  {
    var rest := bytes[i..];
    assert |Sextets(rest)| == |rest| + 1;
  }

  method ToBase64Url(bytes: Bytes) returns (r: string)
    ensures r == Encode(bytes)
  {
    r := "";
    var i := 0;
    while i < |bytes|
      invariant 0 <= i
      invariant if i <= |bytes| then r + Encode(bytes[i..]) == Encode(bytes)
                else r == Encode(bytes) + Equals(i - |bytes|)
      decreases |bytes| - i
    {
      QuadStep(bytes, i, r);
      r := r + Quad(bytes, i);
      i := i + 3;
    }
    SpellInverse(Sextets(bytes));
    StripEquals(Encode(bytes), i - |bytes|);
    assert i == |bytes| ==> r == Encode(bytes) + Equals(0);
    r := StripPadding(r);
  }

  lemma {:induction false} QuadStep(bytes: Bytes, i: nat, r: string)
    requires i < |bytes| && r + Encode(bytes[i..]) == Encode(bytes)
    ensures
      var next := r + Quad(bytes, i);
      if i + 3 <= |bytes| then next + Encode(bytes[i + 3..]) == Encode(bytes)
      else next == Encode(bytes) + Equals(i + 3 - |bytes|)
  {
    if i + 3 <= |bytes| {
      QuadFull(bytes, i);
      Associate(r, Quad(bytes, i), Encode(bytes[i + 3..]));
    } else {
      QuadLast(bytes, i);
      Associate(r, Encode(bytes[i..]), Equals(i + 3 - |bytes|));
    }
  }

  // ---------- decoding ----------

  /** What decoding sees in a character: padding, or a value that is 0 outside the alphabet. */
  datatype Symbol = Padding | Value(value: sextet)

  function SymbolOf(c: char): Symbol {
    if c == '=' then Padding else Value(IndexOf(c))
  }

  function Symbols(s: string): seq<Symbol> {
    seq(|s|, i requires 0 <= i < |s| => SymbolOf(s[i]))
  }

  predicate IsPadding(p: seq<Symbol>, i: nat) {
    i < |p| && p[i].Padding?
  }

  /** `LOOKUP[c] ?? 0`, also past the end of the text. */
  function ValueAt(p: seq<Symbol>, i: nat): sextet {
    if i < |p| && p[i].Value? then p[i].value else 0
  }

  /** At most two characters of padding are restored, so a text of length 1 modulo 4 stays one short. */
  function Pad(s: string): string {
    s + if |s| % 4 == 0 then "" else if |s| % 4 == 3 then "=" else "=="
  }

  function DecodeGroup(p: seq<Symbol>, i: nat): Bytes {
    var c0, c1, c2, c3 := ValueAt(p, i), ValueAt(p, i + 1), ValueAt(p, i + 2), ValueAt(p, i + 3);
    [First(c0, c1)]
    + (if IsPadding(p, i + 2) then [] else [Second(c1, c2)])
    + (if IsPadding(p, i + 3) then [] else [Third(c2, c3)])
  }

  function DecodeFrom(p: seq<Symbol>, i: nat): Bytes
    decreases |p| - i
  {
    if i >= |p| then [] else DecodeGroup(p, i) + DecodeFrom(p, i + 4)
  }

  function Decode(s: string): Bytes {
    DecodeFrom(Symbols(Pad(s)), 0)
  }

  method FromBase64Url(s: string) returns (out: Bytes)
    ensures out == Decode(s)
  {
    var padded := Symbols(Pad(s));
    out := [];
    var i := 0;
    while i < |padded|
      invariant 0 <= i
      invariant out + DecodeFrom(padded, i) == DecodeFrom(padded, 0)
      decreases |padded| - i
    {
      var group := FromGroup(padded, i);
      out := out + group;
      i := i + 4;
    }
  }

  /** The pushes of one turn of the loop. */
  method FromGroup(padded: seq<Symbol>, i: nat) returns (out: Bytes)
    ensures out == DecodeGroup(padded, i)
  {
    var c0, c1, c2, c3 := ValueAt(padded, i), ValueAt(padded, i + 1), ValueAt(padded, i + 2), ValueAt(padded, i + 3);
    out := [First(c0, c1)];
    if !IsPadding(padded, i + 2) {
      out := out + [Second(c1, c2)];
    }
    if !IsPadding(padded, i + 3) {
      out := out + [Third(c2, c3)];
    }
  }

  /** On alphabet characters decoding reads sextets, wherever it has got to. */
  lemma {:induction false} DecodeSextets(x: seq<sextet>, p: seq<Symbol>, i: nat)
    requires Pads(x, p) && i <= |x| && i % 4 == 0
    ensures DecodeFrom(p, i) == Octets(x[i..])
    decreases |x| - i
  {
    if i + 4 <= |x| {
      assert i < |p|;
      DecodeSextets(x, p, i + 4);
      FullGroup(x, p, i);
      DecodeStep(p, i);
    } else if i < |x| {
      LastGroup(x, p, i);
      DecodeStep(p, i);
    } else {
      assert |p| == |x| && x[i..] == [];
    }
  }

  lemma {:induction false} DecodeStep(p: seq<Symbol>, i: nat)
    requires i < |p|
    ensures DecodeFrom(p, i) == DecodeGroup(p, i) + DecodeFrom(p, i + 4)
    ensures |p| <= i + 4 ==> DecodeFrom(p, i) == DecodeGroup(p, i)
  {
  }

  lemma {:induction false} FullGroup(x: seq<sextet>, p: seq<Symbol>, i: nat)
    requires Pads(x, p) && i + 4 <= |x|
    ensures Octets(x[i..]) == DecodeGroup(p, i) + Octets(x[i + 4..])
  {
    var y := x[i..];
    assert y[4..] == x[i + 4..];
    assert DecodeGroup(p, i) == [First(y[0], y[1]), Second(y[1], y[2]), Third(y[2], y[3])] by {
      assert !IsPadding(p, i + 2) && !IsPadding(p, i + 3);
    }
  }

  /** `p` is `x` with the padding that decoding restores. */
  predicate Pads(x: seq<sextet>, p: seq<Symbol>) {
    && |x| <= |p| == |x| + (if |x| % 4 == 0 then 0 else if |x| % 4 == 3 then 1 else 2)
    && (forall k :: 0 <= k < |x| ==> p[k] == Value(x[k]))
    && (forall k :: |x| <= k < |p| ==> p[k] == Padding)
  }

  lemma {:induction false} LastGroup(x: seq<sextet>, p: seq<Symbol>, i: nat)
    requires Pads(x, p) && i < |x| < i + 4 && i % 4 == 0
    ensures |p| <= i + 4 && DecodeGroup(p, i) == Octets(x[i..])
  {
    assert |x| % 4 == |x| - i;
    if |x| - i == 1 {
      assert ValueAt(p, i + 1) == 0 && ValueAt(p, i + 2) == 0;
      assert IsPadding(p, i + 2) && !IsPadding(p, i + 3);
    } else if |x| - i == 2 {
      assert IsPadding(p, i + 2) && IsPadding(p, i + 3);
    } else {
      assert !IsPadding(p, i + 2) && IsPadding(p, i + 3);
    }
  }

  lemma {:induction false} DecodeSpelled(s: string)
    requires Spelled(s)
    ensures Decode(s) == Octets(Indices(s))
  {
    var x, p := Indices(s), Symbols(Pad(s));
    forall k | 0 <= k < |x| ensures p[k] == Value(x[k]) {
      assert Pad(s)[k] == s[k] && InAlphabet(s[k]);
    }
    DecodeSextets(x, p, 0);
    assert x[0..] == x;
  }

  // ---------- the two round trips ----------

  /** Decoding inverts encoding on every byte string. */
  lemma {:induction false} DecodeEncode(b: Bytes)
    ensures Decode(Encode(b)) == b
  {
    SpellInverse(Sextets(b));
    DecodeSpelled(Encode(b));
    OctetsOfSextets(b);
  }

  /** Alphabet characters only, no dangling character, and no unused bit set in the last one. */
  predicate Canonical(s: string) {
    Spelled(s) && Tight(Indices(s))
  }

  /** A text is reproduced by decoding and encoding exactly when it is canonical. */
  lemma {:induction false} EncodeDecodeIff(s: string)
    ensures Encode(Decode(s)) == s <==> Canonical(s)
  {
    SpellInverse(Sextets(Decode(s)));
    SextetsTight(Decode(s));
    if Canonical(s) {
      DecodeSpelled(s);
      SextetsOfOctets(Indices(s));
      IndicesInverse(s);
    }
  }
}
