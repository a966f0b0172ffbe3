/**
 The constants of SHA-256, sections 4.2.2 and 5.3.3 of FIPS 180-4: the first 32
 bits of the fractional parts of the cube roots of the first 64 primes, and of
 the square roots of the first eight.
 */
module Sha256Constants {
  import opened Sha256
  import opened Arithmetic

  /** Eight rows of eight, one after the other. */
  function Rows<T>(a: seq<T>, b: seq<T>, c: seq<T>, d: seq<T>, e: seq<T>, f: seq<T>, g: seq<T>, h: seq<T>): seq<T> {
    a + b + c + d + e + f + g + h
  }

  function RowOf<T>(a: seq<T>, b: seq<T>, c: seq<T>, d: seq<T>, e: seq<T>, f: seq<T>, g: seq<T>, h: seq<T>,
                    i: nat): seq<T>
    requires i < 8
  {
    [a, b, c, d, e, f, g, h][i]
  }

  const K0: seq<word> := [0x428a2f98, 0x71374491, 0xb5c0fbcf, 0xe9b5dba5,
                          0x3956c25b, 0x59f111f1, 0x923f82a4, 0xab1c5ed5]
  const K1: seq<word> := [0xd807aa98, 0x12835b01, 0x243185be, 0x550c7dc3,
                          0x72be5d74, 0x80deb1fe, 0x9bdc06a7, 0xc19bf174]
  const K2: seq<word> := [0xe49b69c1, 0xefbe4786, 0x0fc19dc6, 0x240ca1cc,
                          0x2de92c6f, 0x4a7484aa, 0x5cb0a9dc, 0x76f988da]
  const K3: seq<word> := [0x983e5152, 0xa831c66d, 0xb00327c8, 0xbf597fc7,
                          0xc6e00bf3, 0xd5a79147, 0x06ca6351, 0x14292967]
  const K4: seq<word> := [0x27b70a85, 0x2e1b2138, 0x4d2c6dfc, 0x53380d13,
                          0x650a7354, 0x766a0abb, 0x81c2c92e, 0x92722c85]
  const K5: seq<word> := [0xa2bfe8a1, 0xa81a664b, 0xc24b8b70, 0xc76c51a3,
                          0xd192e819, 0xd6990624, 0xf40e3585, 0x106aa070]
  const K6: seq<word> := [0x19a4c116, 0x1e376c08, 0x2748774c, 0x34b0bcb5,
                          0x391c0cb3, 0x4ed8aa4a, 0x5b9cca4f, 0x682e6ff3]
  const K7: seq<word> := [0x748f82ee, 0x78a5636f, 0x84c87814, 0x8cc70208,
                          0x90befffa, 0xa4506ceb, 0xbef9a3f7, 0xc67178f2]
  const K := Rows(K0, K1, K2, K3, K4, K5, K6, K7)

  const H0 := Vars(0x6a09e667, 0xbb67ae85, 0x3c6ef372, 0xa54ff53a, 0x510e527f, 0x9b05688c, 0x1f83d9ab, 0x5be0cd19)

  // ---------- the first primes ----------

  const P0: seq<nat> := [2, 3, 5, 7, 11, 13, 17, 19]
  const P1: seq<nat> := [23, 29, 31, 37, 41, 43, 47, 53]
  const P2: seq<nat> := [59, 61, 67, 71, 73, 79, 83, 89]
  const P3: seq<nat> := [97, 101, 103, 107, 109, 113, 127, 131]
  const P4: seq<nat> := [137, 139, 149, 151, 157, 163, 167, 173]
  const P5: seq<nat> := [179, 181, 191, 193, 197, 199, 211, 223]
  const P6: seq<nat> := [227, 229, 233, 239, 241, 251, 257, 263]
  const P7: seq<nat> := [269, 271, 277, 281, 283, 293, 307, 311]
  const PRIMES := Rows(P0, P1, P2, P3, P4, P5, P6, P7)

  predicate Divides(d: nat, n: nat)
    requires d > 0
  {
    n % d == 0
  }

  predicate IsPrime(n: nat) {
    n >= 2 && forall d :: 2 <= d < n ==> !Divides(d, n)
  }

  const SIEVE: seq<nat> := [2, 3, 5, 7, 11, 13, 17]

  /** No multiple of a small prime but that prime itself. */
  predicate Sieved(n: nat) {
    && (n % 2 != 0 || n == 2) && (n % 3 != 0 || n == 3) && (n % 5 != 0 || n == 5) && (n % 7 != 0 || n == 7)
    && (n % 11 != 0 || n == 11) && (n % 13 != 0 || n == 13) && (n % 17 != 0 || n == 17)
  }

  lemma {:induction false} MultipleNotSieved(n: nat, q: nat, c: nat)
    requires q in SIEVE && n == q * c && c >= 2
    ensures !Sieved(n)
  {
    assert n != q && Divides(q, n) by {
      ProductDivides(q, c);
    }
  }

  lemma {:induction false} ProductDivides(q: nat, c: nat)
    requires q > 0 && c >= 2
    ensures Divides(q, q * c) && q * c != q
  {
    DivModUnique(c * q, q, c, 0);
  }

  /** A product with a small factor is sieved out. */
  lemma {:induction false} SmallFactor(n: nat, a: nat, b: nat)
    requires n == a * b && 2 <= a <= 17 && b >= 2
    ensures !Sieved(n)
  {
    if a in SIEVE {
      MultipleNotSieved(n, a, b);
    } else if a == 9 || a == 15 {
      MultipleNotSieved(n, 3, a / 3 * b);
    } else {
      MultipleNotSieved(n, 2, a / 2 * b);
    }
  }

  lemma {:induction false} CompositeNotSieved(n: nat, d: nat)
    requires n < 324 && 2 <= d < n && Divides(d, n)
    ensures !Sieved(n)
  {
    var e := n / d;
    assert n == d * e;
    CofactorBound(n, d, e);
    if d <= 17 {
      SmallFactor(n, d, e);
    } else {
      SmallFactor(n, e, d);
    }
  }

  lemma {:induction false} CofactorBound(n: nat, d: nat, e: nat)
    requires n < 324 && 2 <= d < n && n == d * e
    ensures e >= 2 && (d <= 17 || e <= 17)
  {
    assert e != 0 && e != 1;
    ProductGrows(d, e);
  }

  lemma {:induction false} ProductGrows(d: nat, e: nat)
    ensures d >= 18 && e >= 18 ==> d * e >= 324
  {
    if d >= 18 && e >= 18 {
      assert d * e >= 18 * e;
    }
  }

  lemma {:induction false} SievedIsPrime(n: nat)
    requires 2 <= n < 324
    ensures Sieved(n) <==> IsPrime(n)
  {
    if Sieved(n) {
      forall d | 2 <= d < n ensures !Divides(d, n) {
        if Divides(d, n) {
          CompositeNotSieved(n, d);
        }
      }
    }
    if IsPrime(n) {
      assert n > 2 ==> !Divides(2, n);
      assert n > 3 ==> !Divides(3, n);
      assert n > 5 ==> !Divides(5, n);
      assert n > 7 ==> !Divides(7, n);
      assert n > 11 ==> !Divides(11, n);
      assert n > 13 ==> !Divides(13, n);
      assert n > 17 ==> !Divides(17, n);
    }
  }

  /** What two, three and five leave over. */
  const SPOKES: seq<nat> := [1, 7, 11, 13, 17, 19, 23, 29]

  lemma {:induction false} Wheel(n: nat) returns (q: nat, r: nat)
    requires Sieved(n) && n > 5
    ensures n == 30 * q + r && r in SPOKES
  {
    q, r := n / 30, n % 30;
    assert n == 30 * q + r;
    Spoke(n, q, r);
  }

  lemma {:induction false} Spoke(n: nat, q: nat, r: nat)
    requires n == 30 * q + r && r < 30 && n % 2 != 0 && n % 3 != 0 && n % 5 != 0
    ensures r in SPOKES
  {
    DropMultiple(n, 2, 15 * q, r);
    DropMultiple(n, 3, 10 * q, r);
    DropMultiple(n, 5, 6 * q, r);
    LeftOver(r);
  }

  lemma {:induction false} DropMultiple(n: nat, m: nat, c: nat, r: nat)
    requires m > 0 && n == c * m + r
    ensures n % m == r % m
  {
    var d := r / m;
    assert c * m + d * m == (c + d) * m;
    DivModUnique(n, m, c + d, r % m);
  }

  lemma {:induction false} LeftOver(r: nat)
    requires r < 30 && r % 2 != 0 && r % 3 != 0 && r % 5 != 0
    ensures r in SPOKES
  {
    if r < 15 {
    } else {
    }
  }

  lemma {:induction false} PrimeRow0(n: nat)
    requires 1 < n <= 19
    ensures Sieved(n) <==> n in P0
  {
    if n <= 5 {
    } else if Sieved(n) {
      var q, r := Wheel(n);
    }
  }

  lemma {:induction false} PrimeRow1(n: nat)
    requires 19 < n <= 53
    ensures Sieved(n) <==> n in P1
  {
    if Sieved(n) {
      var q, r := Wheel(n);
      if q == 0 {
      } else {
      }
    }
  }

  lemma {:induction false} PrimeRow2(n: nat)
    requires 53 < n <= 89
    ensures Sieved(n) <==> n in P2
  {
    if Sieved(n) {
      var q, r := Wheel(n);
      if q == 1 {
      } else {
      }
    }
  }

  lemma {:induction false} PrimeRow3(n: nat)
    requires 89 < n <= 131
    ensures Sieved(n) <==> n in P3
  {
    if Sieved(n) {
      var q, r := Wheel(n);
      if q == 2 {
      } else if q == 3 {
      } else {
      }
    }
  }

  lemma {:induction false} PrimeRow4(n: nat)
    requires 131 < n <= 173
    ensures Sieved(n) <==> n in P4
  {
    if Sieved(n) {
      var q, r := Wheel(n);
      if q == 4 {
      } else {
      }
    }
  }

  lemma {:induction false} PrimeRow5(n: nat)
    requires 173 < n <= 223
    ensures Sieved(n) <==> n in P5
  {
    if Sieved(n) {
      var q, r := Wheel(n);
      if q == 5 {
      } else if q == 6 {
      } else {
      }
    }
  }

  lemma {:induction false} PrimeRow6(n: nat)
    requires 223 < n <= 263
    ensures Sieved(n) <==> n in P6
  {
    if Sieved(n) {
      var q, r := Wheel(n);
      if q == 7 {
      } else {
      }
    }
  }

  lemma {:induction false} PrimeRow7(n: nat)
    requires 263 < n <= 311
    ensures Sieved(n) <==> n in P7
  {
    if Sieved(n) {
      var q, r := Wheel(n);
      if q == 8 {
      } else if q == 9 {
      } else {
      }
    }
  }

  lemma {:induction false} RowsContain<T>(a: seq<T>, b: seq<T>, c: seq<T>, d: seq<T>,
                                          e: seq<T>, f: seq<T>, g: seq<T>, h: seq<T>, x: T)
    ensures x in Rows(a, b, c, d, e, f, g, h) <==>
      x in a || x in b || x in c || x in d || x in e || x in f || x in g || x in h
  {
  }

  lemma {:induction false} RowsAt<T>(a: seq<T>, b: seq<T>, c: seq<T>, d: seq<T>,
                                     e: seq<T>, f: seq<T>, g: seq<T>, h: seq<T>, i: nat, j: nat)
    requires |a| == 8 && |b| == 8 && |c| == 8 && |d| == 8 && |e| == 8 && |f| == 8 && |g| == 8 && |h| == 8
    requires i < 8 && j < 8
    ensures |Rows(a, b, c, d, e, f, g, h)| == 64
    ensures Rows(a, b, c, d, e, f, g, h)[8 * i + j] == RowOf(a, b, c, d, e, f, g, h, i)[j]
  {
  }

  /** All members of a row lie between two bounds. */
  predicate Within(row: seq<nat>, lo: nat, hi: nat) {
    |row| == 8 && forall j :: 0 <= j < 8 ==> lo < row[j] <= hi
  }

  predicate Ascending(s: seq<nat>) {
    forall i, j :: 0 <= i < j < |s| ==> s[i] < s[j]
  }

  predicate UpTo(s: seq<nat>, hi: nat) {
    Ascending(s) && forall i :: 0 <= i < |s| ==> s[i] <= hi
  }

  lemma {:induction false} AddRow(s: seq<nat>, row: seq<nat>, lo: nat, hi: nat)
    requires UpTo(s, lo) && Ascending(row) && Within(row, lo, hi)
    ensures UpTo(s + row, hi)
  {
    assert lo < row[0] <= hi;
    var t := s + row;
    forall i | 0 <= i < |t| ensures t[i] <= hi {
      assert t[i] == if i < |s| then s[i] else row[i - |s|];
    }
  }

  lemma {:induction false} RowsAscend(a: seq<nat>, b: seq<nat>, c: seq<nat>, d: seq<nat>,
                                      e: seq<nat>, f: seq<nat>, g: seq<nat>, h: seq<nat>)
    requires Ascending(a) && Ascending(b) && Ascending(c) && Ascending(d)
    requires Ascending(e) && Ascending(f) && Ascending(g) && Ascending(h)
    requires Within(a, 1, 19)
    requires Within(b, 19, 53)
    requires Within(c, 53, 89)
    requires Within(d, 89, 131)
    requires Within(e, 131, 173)
    requires Within(f, 173, 223)
    requires Within(g, 223, 263)
    requires Within(h, 263, 311)
    ensures Ascending(Rows(a, b, c, d, e, f, g, h))
  {
    AddRow(a, b, 19, 53);
    AddRow(a + b, c, 53, 89);
    AddRow(a + b + c, d, 89, 131);
    AddRow(a + b + c + d, e, 131, 173);
    AddRow(a + b + c + d + e, f, 173, 223);
    AddRow(a + b + c + d + e + f, g, 223, 263);
    AddRow(a + b + c + d + e + f + g, h, 263, 311);
  }

  lemma {:induction false} EachAscends()
    ensures Ascending(P0) && Ascending(P1) && Ascending(P2) && Ascending(P3)
    ensures Ascending(P4) && Ascending(P5) && Ascending(P6) && Ascending(P7)
  {
  }

  /** `PRIMES` are the first 64 primes, in order. */
  lemma {:induction false} FirstPrimes(n: nat)
    requires 2 <= n <= 311
    ensures IsPrime(n) <==> n in PRIMES
    ensures Ascending(PRIMES)
  {
    SievedIsPrime(n);
    EachAscends();
    RowRanges();
    RowsAscend(P0, P1, P2, P3, P4, P5, P6, P7);
    RowsContain(P0, P1, P2, P3, P4, P5, P6, P7, n);
    if n <= 19 {
      PrimeRow0(n);
    } else if n <= 53 {
      PrimeRow1(n);
    } else if n <= 89 {
      PrimeRow2(n);
    } else if n <= 131 {
      PrimeRow3(n);
    } else if n <= 173 {
      PrimeRow4(n);
    } else if n <= 223 {
      PrimeRow5(n);
    } else if n <= 263 {
      PrimeRow6(n);
    } else {
      PrimeRow7(n);
    }
  }

  lemma {:induction false} RowRanges()
    ensures Within(P0, 1, 19)
    ensures Within(P1, 19, 53)
    ensures Within(P2, 53, 89)
    ensures Within(P3, 89, 131)
    ensures Within(P4, 131, 173)
    ensures Within(P5, 173, 223)
    ensures Within(P6, 223, 263)
    ensures Within(P7, 263, 311)
  {
  }

  // ---------- their roots ----------

  /** The integer part of the cube root of a number below 343. */
  function WholeCubeRoot(p: nat): nat {
    if p < 8 then 1 else if p < 27 then 2 else if p < 64 then 3 else if p < 125 then 4 else if p < 216 then 5 else 6
  }

  /** `k` is the first 32 bits of the fractional part of the cube root of `p`. */
  predicate CubeRootFraction(p: nat, k: word) {
    var r := WholeCubeRoot(p) * 0x1_0000_0000 + k;
    r * r * r <= p * 0x1_0000_0000_0000_0000_0000_0000 < (r + 1) * (r + 1) * (r + 1)
  }

  lemma {:induction false} RootRow0(t: nat)
    requires t < 8
    ensures CubeRootFraction(P0[t], K0[t])
  {
  }

  lemma {:induction false} RootRow1(t: nat)
    requires t < 8
    ensures CubeRootFraction(P1[t], K1[t])
  {
  }

  lemma {:induction false} RootRow2(t: nat)
    requires t < 8
    ensures CubeRootFraction(P2[t], K2[t])
  {
  }

  lemma {:induction false} RootRow3(t: nat)
    requires t < 8
    ensures CubeRootFraction(P3[t], K3[t])
  {
  }

  lemma {:induction false} RootRow4(t: nat)
    requires t < 8
    ensures CubeRootFraction(P4[t], K4[t])
  {
  }

  lemma {:induction false} RootRow5(t: nat)
    requires t < 8
    ensures CubeRootFraction(P5[t], K5[t])
  {
  }

  lemma {:induction false} RootRow6(t: nat)
    requires t < 8
    ensures CubeRootFraction(P6[t], K6[t])
  {
  }

  lemma {:induction false} RootRow7(t: nat)
    requires t < 8
    ensures CubeRootFraction(P7[t], K7[t])
  {
  }

  lemma {:induction false} RoundConstants(t: nat)
    requires t < 64
    ensures |K| == 64 && |PRIMES| == 64 && CubeRootFraction(PRIMES[t], K[t])
  {
    var i := t / 8;
    var j := t - 8 * i;
    RowsAt(P0, P1, P2, P3, P4, P5, P6, P7, i, j);
    RowsAt(K0, K1, K2, K3, K4, K5, K6, K7, i, j);
    RootRow(i, j);
  }

  lemma {:induction false} RootRow(i: nat, j: nat)
    requires i < 8 && j < 8
    ensures CubeRootFraction(RowOf(P0, P1, P2, P3, P4, P5, P6, P7, i)[j], RowOf(K0, K1, K2, K3, K4, K5, K6, K7, i)[j])
  {
    if i == 0 {
      RootRow0(j);
    } else if i == 1 {
      RootRow1(j);
    } else if i == 2 {
      RootRow2(j);
    } else if i == 3 {
      RootRow3(j);
    } else if i == 4 {
      RootRow4(j);
    } else if i == 5 {
      RootRow5(j);
    } else if i == 6 {
      RootRow6(j);
    } else {
      RootRow7(j);
    }
  }

  function WholeSquareRoot(p: nat): nat {
    if p < 4 then 1 else if p < 9 then 2 else if p < 16 then 3 else 4
  }

  /** `h` is the first 32 bits of the fractional part of the square root of `p`. */
  predicate SquareRootFraction(p: nat, h: word) {
    var r := WholeSquareRoot(p) * 0x1_0000_0000 + h;
    r * r <= p * 0x1_0000_0000_0000_0000 < (r + 1) * (r + 1)
  }

  lemma {:induction false} InitialHash()
    ensures SquareRootFraction(2, H0.a) && SquareRootFraction(3, H0.b)
    ensures SquareRootFraction(5, H0.c) && SquareRootFraction(7, H0.d)
    ensures SquareRootFraction(11, H0.e) && SquareRootFraction(13, H0.f)
    ensures SquareRootFraction(17, H0.g) && SquareRootFraction(19, H0.h)
  {
  }
}
