/** The round constants of section 4.2.3 of FIPS 180-4, as module 890 of the bundle lists them, and the initial
    hash value of section 5.3.5: both are digits of roots of the first primes. */
module Sha512Constants {
  import opened Arithmetic
  import opened Bits
  import opened Fips180
  import opened HalfWords

  const K0: seq<Half> := [
    1116352408, 3609767458, 1899447441, 602891725,
    3049323471, 3964484399, 3921009573, 2173295548,
    961987163, 4081628472, 1508970993, 3053834265,
    2453635748, 2937671579, 2870763221, 3664609560
  ]
  const K1: seq<Half> := [
    3624381080, 2734883394, 310598401, 1164996542,
    607225278, 1323610764, 1426881987, 3590304994,
    1925078388, 4068182383, 2162078206, 991336113,
    2614888103, 633803317, 3248222580, 3479774868
  ]
  const K2: seq<Half> := [
    3835390401, 2666613458, 4022224774, 944711139,
    264347078, 2341262773, 604807628, 2007800933,
    770255983, 1495990901, 1249150122, 1856431235,
    1555081692, 3175218132, 1996064986, 2198950837
  ]
  const K3: seq<Half> := [
    2554220882, 3999719339, 2821834349, 766784016,
    2952996808, 2566594879, 3210313671, 3203337956,
    3336571891, 1034457026, 3584528711, 2466948901,
    113926993, 3758326383, 338241895, 168717936
  ]
  const K4: seq<Half> := [
    666307205, 1188179964, 773529912, 1546045734,
    1294757372, 1522805485, 1396182291, 2643833823,
    1695183700, 2343527390, 1986661051, 1014477480,
    2177026350, 1206759142, 2456956037, 344077627
  ]
  const K5: seq<Half> := [
    2730485921, 1290863460, 2820302411, 3158454273,
    3259730800, 3505952657, 3345764771, 106217008,
    3516065817, 3606008344, 3600352804, 1432725776,
    4094571909, 1467031594, 275423344, 851169720
  ]
  const K6: seq<Half> := [
    430227734, 3100823752, 506948616, 1363258195,
    659060556, 3750685593, 883997877, 3785050280,
    958139571, 3318307427, 1322822218, 3812723403,
    1537002063, 2003034995, 1747873779, 3602036899
  ]
  const K7: seq<Half> := [
    1955562222, 1575990012, 2024104815, 1125592928,
    2227730452, 2716904306, 2361852424, 442776044,
    2428436474, 593698344, 2756734187, 3733110249,
    3204031479, 2999351573, 3329325298, 3815920427
  ]
  const K8: seq<Half> := [
    3391569614, 3928383900, 3515267271, 566280711,
    3940187606, 3454069534, 4118630271, 4000239992,
    116418474, 1914138554, 174292421, 2731055270,
    289380356, 3203993006, 460393269, 320620315
  ]
  const K9: seq<Half> := [
    685471733, 587496836, 852142971, 1086792851,
    1017036298, 365543100, 1126000580, 2618297676,
    1288033470, 3409855158, 1501505948, 4234509866,
    1607167915, 987167468, 1816402316, 1246189591
  ]
  const P0: seq<nat> := [2, 3, 5, 7, 11, 13, 17, 19]
  const P1: seq<nat> := [23, 29, 31, 37, 41, 43, 47, 53]
  const P2: seq<nat> := [59, 61, 67, 71, 73, 79, 83, 89]
  const P3: seq<nat> := [97, 101, 103, 107, 109, 113, 127, 131]
  const P4: seq<nat> := [137, 139, 149, 151, 157, 163, 167, 173]
  const P5: seq<nat> := [179, 181, 191, 193, 197, 199, 211, 223]
  const P6: seq<nat> := [227, 229, 233, 239, 241, 251, 257, 263]
  const P7: seq<nat> := [269, 271, 277, 281, 283, 293, 307, 311]
  const P8: seq<nat> := [313, 317, 331, 337, 347, 349, 353, 359]
  const P9: seq<nat> := [367, 373, 379, 383, 389, 397, 401, 409]

  function KRow(i: nat): (r: seq<Half>)
    requires i < 10
    ensures |r| == 16
  {
    if i == 0 then K0
    else if i == 1 then K1
    else if i == 2 then K2
    else if i == 3 then K3
    else if i == 4 then K4
    else if i == 5 then K5
    else if i == 6 then K6
    else if i == 7 then K7
    else if i == 8 then K8
    else K9
  }

  function PRow(i: nat): (r: seq<nat>)
    requires i < 10
    ensures |r| == 8
  {
    if i == 0 then P0
    else if i == 1 then P1
    else if i == 2 then P2
    else if i == 3 then P3
    else if i == 4 then P4
    else if i == 5 then P5
    else if i == 6 then P6
    else if i == 7 then P7
    else if i == 8 then P8
    else P9
  }

  /** The table as the bundle has it, the high half of each constant before the low one. */
  function Table(): (r: seq<Half>)
    ensures |r| == 160
  {
    seq(160, i requires 0 <= i < 160 => KRow(i / 16)[i % 16])
  }

  /** The first eighty primes. */
  function Primes(): (r: seq<nat>)
    ensures |r| == 80
  {
    seq(80, i requires 0 <= i < 80 => PRow(i / 8)[i % 8])
  }

  const H0: Vars := Vars(0x6a09e667f3bcc908, 0xbb67ae8584caa73b, 0x3c6ef372fe94f82b, 0xa54ff53a5f1d36f1,
                         0x510e527fade682d1, 0x9b05688c2b3e6c1f, 0x1f83d9abfb41bd6b, 0x5be0cd19137e2179)

  const WRAP := BASE * BASE

  // ---- the first eighty primes ----

  ghost predicate Prime(n: nat) {
    n >= 2 && forall d :: 2 <= d < n ==> n % d != 0
  }

  function NoneDivides(n: nat, d: nat): (r: bool)
    requires 2 <= d
    ensures r <==> forall e :: d <= e < n ==> n % e != 0
    decreases n - d
  {
    d >= n || (n % d != 0 && NoneDivides(n, d + 1))
  }

  /** All there is to try below 23 * 23. */
  predicate Survives(n: nat) {
    if n < 23 then n == 2 || n == 3 || n == 5 || n == 7 || n == 11 || n == 13 || n == 17 || n == 19
    else
      n % 2 != 0 && n % 3 != 0 && n % 5 != 0 && n % 7 != 0 && n % 11 != 0 && n % 13 != 0 && n % 17 != 0 && n % 19 != 0
  }

  lemma SmallPrimes()
    ensures forall n :: n in {2, 3, 5, 7, 11, 13, 17, 19} ==> Prime(n)
  {
    assert NoneDivides(2, 2) && NoneDivides(3, 2) && NoneDivides(5, 2) && NoneDivides(7, 2);
    assert NoneDivides(11, 2) && NoneDivides(13, 2) && NoneDivides(17, 2) && NoneDivides(19, 2);
  }

  lemma Caught(n: nat, q: nat, m: nat)
    requires n == q * m && n >= 23 && q in {2, 3, 5, 7, 11, 13, 17, 19}
    ensures !Survives(n)
  {
    Quotient(n, q, m, 0);
  }

  /** The least prime factor of a number below 23. */
  function Least(f: nat): (q: nat)
    requires 2 <= f < 23
    ensures q in {2, 3, 5, 7, 11, 13, 17, 19} && f % q == 0
  {
    if f % 2 == 0 then 2 else if f % 3 == 0 then 3 else f
  }

  lemma SmallFactor(n: nat, f: nat, e: nat)
    requires 2 <= f < 23 <= n && n == f * e
    ensures !Survives(n)
  {
    var q := Least(f);
    var g := f / q;
    assert f == q * g;
    Regroup(q, g, e);
    Caught(n, q, g * e);
  }

  lemma Regroup(q: nat, g: nat, e: nat)
    ensures q * g * e == q * (g * e)
  {
  }

  lemma SurvivorsArePrime(n: nat)
    requires n < 529
    ensures Survives(n) <==> Prime(n)
  {
    SmallPrimes();
    if n >= 23 && Survives(n) {
      forall d | 2 <= d < n
        ensures n % d != 0
      {
        if n % d == 0 {
          var e := n / d;
          assert n == d * e;
          if d < 23 {
            SmallFactor(n, d, e);
          } else {
            Cofactor(n, d, e);
            SmallFactor(n, e, d);
          }
        }
      }
    }
    if n < 23 && Prime(n) {
      assert n > 2 ==> n % 2 != 0;
      assert n > 3 ==> n % 3 != 0;
    }
  }

  lemma Cofactor(n: nat, d: nat, e: nat)
    requires n == d * e && 23 <= d < n < 529
    ensures 2 <= e < 23
  {
    if 23 <= e {
      Far(d, e);
      assert false;
    }
  }

  lemma Far(d: nat, e: nat)
    requires 23 <= d && 23 <= e
    ensures d * e >= 529
  {
  }

  /** No odd number in between, p being odd. */
  predicate GapFree(p: nat, q: nat)
    decreases q - p
  {
    p + 2 >= q || (!Survives(p + 2) && GapFree(p + 2, q))
  }

  lemma {:induction false} NoneBetween(p: nat, q: nat, n: nat)
    requires p % 2 == 1 && GapFree(p, q) && p < n < q && n % 2 == 1
    ensures !Survives(n)
    decreases q - p
  {
    hide Survives;
    if n > p + 2 {
      NoneBetween(p + 2, q, n);
    }
  }

  /** q is the least prime above p. */
  ghost predicate NextPrime(p: nat, q: nat) {
    p < q && Prime(q) && forall n :: p < n < q ==> !Prime(n)
  }

  lemma Next(p: nat, q: nat)
    requires 1 < p < q < 529 && p % 2 == 1 && Survives(q) && GapFree(p, q)
    ensures NextPrime(p, q)
  {
    hide Survives, GapFree;
    SurvivorsArePrime(q);
    forall n | p < n < q
      ensures !Prime(n)
    {
      if n % 2 == 1 {
        NoneBetween(p, q, n);
        SurvivorsArePrime(n);
      }
    }
  }

  lemma FirstTwo()
    ensures NextPrime(1, 2) && NextPrime(2, 3)
  {
    SmallPrimes();
  }

  ghost predicate PrimeRow(p: nat, row: seq<nat>) {
    |row| == 8 && NextPrime(p, row[0]) && forall t :: 0 < t < 8 ==> NextPrime(row[t - 1], row[t])
  }

  lemma PrimesOfRow0()
    ensures PrimeRow(1, P0)
  {
    hide NextPrime;
    FirstTwo();
    Next(3, 5);
    Next(5, 7);
    Next(7, 11);
    Next(11, 13);
    Next(13, 17);
    Next(17, 19);
  }

  lemma PrimesOfRow1()
    ensures PrimeRow(P0[7], P1)
  {
    hide NextPrime;
    Next(19, 23);
    Next(23, 29);
    Next(29, 31);
    Next(31, 37);
    Next(37, 41);
    Next(41, 43);
    Next(43, 47);
    Next(47, 53);
  }

  lemma PrimesOfRow2()
    ensures PrimeRow(P1[7], P2)
  {
    hide NextPrime;
    Next(53, 59);
    Next(59, 61);
    Next(61, 67);
    Next(67, 71);
    Next(71, 73);
    Next(73, 79);
    Next(79, 83);
    Next(83, 89);
  }

  lemma PrimesOfRow3()
    ensures PrimeRow(P2[7], P3)
  {
    hide NextPrime;
    Next(89, 97);
    Next(97, 101);
    Next(101, 103);
    Next(103, 107);
    Next(107, 109);
    Next(109, 113);
    Next(113, 127);
    Next(127, 131);
  }

  lemma PrimesOfRow4()
    ensures PrimeRow(P3[7], P4)
  {
    hide NextPrime;
    Next(131, 137);
    Next(137, 139);
    Next(139, 149);
    Next(149, 151);
    Next(151, 157);
    Next(157, 163);
    Next(163, 167);
    Next(167, 173);
  }

  lemma PrimesOfRow5()
    ensures PrimeRow(P4[7], P5)
  {
    hide NextPrime;
    Next(173, 179);
    Next(179, 181);
    Next(181, 191);
    Next(191, 193);
    Next(193, 197);
    Next(197, 199);
    Next(199, 211);
    Next(211, 223);
  }

  lemma PrimesOfRow6()
    ensures PrimeRow(P5[7], P6)
  {
    hide NextPrime;
    Next(223, 227);
    Next(227, 229);
    Next(229, 233);
    Next(233, 239);
    Next(239, 241);
    Next(241, 251);
    Next(251, 257);
    Next(257, 263);
  }

  lemma PrimesOfRow7()
    ensures PrimeRow(P6[7], P7)
  {
    hide NextPrime;
    Next(263, 269);
    Next(269, 271);
    Next(271, 277);
    Next(277, 281);
    Next(281, 283);
    Next(283, 293);
    Next(293, 307);
    Next(307, 311);
  }

  lemma PrimesOfRow8()
    ensures PrimeRow(P7[7], P8)
  {
    hide NextPrime;
    Next(311, 313);
    Next(313, 317);
    Next(317, 331);
    Next(331, 337);
    Next(337, 347);
    Next(347, 349);
    Next(349, 353);
    Next(353, 359);
  }

  lemma PrimesOfRow9()
    ensures PrimeRow(P8[7], P9)
  {
    hide NextPrime;
    Next(359, 367);
    Next(367, 373);
    Next(373, 379);
    Next(379, 383);
    Next(383, 389);
    Next(389, 397);
    Next(397, 401);
    Next(401, 409);
  }

  // ---- roots ----

  /** The fraction of the cube root of p, cut off behind 64 bits, is w. */
  ghost predicate IsCubeRoot(p: nat, w: Word) {
    exists r :: CubeRoot(p, r, w)
  }

  predicate CubeRoot(p: nat, r: nat, w: Word) {
    var x := r * WRAP + w;
    x * x * x <= p * WRAP * WRAP * WRAP < (x + 1) * (x + 1) * (x + 1)
  }

  /** The same for the square root. */
  ghost predicate IsSquareRoot(p: nat, w: Word) {
    exists r :: SquareRoot(p, r, w)
  }

  predicate SquareRoot(p: nat, r: nat, w: Word) {
    var x := r * WRAP + w;
    x * x <= p * WRAP * WRAP < (x + 1) * (x + 1)
  }

  ghost predicate RootRow(p: seq<nat>, k: seq<Half>) {
    |p| == 8 && |k| == 16 && forall t :: 0 <= t < 8 ==> IsCubeRoot(p[t], Join(k[2 * t], k[2 * t + 1]))
  }

  lemma RootsOfRow0()
    ensures RootRow(P0, K0)
  {
    assert CubeRoot(P0[0], 1, Join(K0[0], K0[1]));
    assert CubeRoot(P0[1], 1, Join(K0[2], K0[3]));
    assert CubeRoot(P0[2], 1, Join(K0[4], K0[5]));
    assert CubeRoot(P0[3], 1, Join(K0[6], K0[7]));
    assert CubeRoot(P0[4], 2, Join(K0[8], K0[9]));
    assert CubeRoot(P0[5], 2, Join(K0[10], K0[11]));
    assert CubeRoot(P0[6], 2, Join(K0[12], K0[13]));
    assert CubeRoot(P0[7], 2, Join(K0[14], K0[15]));
  }

  lemma RootsOfRow1()
    ensures RootRow(P1, K1)
  {
    assert CubeRoot(P1[0], 2, Join(K1[0], K1[1]));
    assert CubeRoot(P1[1], 3, Join(K1[2], K1[3]));
    assert CubeRoot(P1[2], 3, Join(K1[4], K1[5]));
    assert CubeRoot(P1[3], 3, Join(K1[6], K1[7]));
    assert CubeRoot(P1[4], 3, Join(K1[8], K1[9]));
    assert CubeRoot(P1[5], 3, Join(K1[10], K1[11]));
    assert CubeRoot(P1[6], 3, Join(K1[12], K1[13]));
    assert CubeRoot(P1[7], 3, Join(K1[14], K1[15]));
  }

  lemma RootsOfRow2()
    ensures RootRow(P2, K2)
  {
    assert CubeRoot(P2[0], 3, Join(K2[0], K2[1]));
    assert CubeRoot(P2[1], 3, Join(K2[2], K2[3]));
    assert CubeRoot(P2[2], 4, Join(K2[4], K2[5]));
    assert CubeRoot(P2[3], 4, Join(K2[6], K2[7]));
    assert CubeRoot(P2[4], 4, Join(K2[8], K2[9]));
    assert CubeRoot(P2[5], 4, Join(K2[10], K2[11]));
    assert CubeRoot(P2[6], 4, Join(K2[12], K2[13]));
    assert CubeRoot(P2[7], 4, Join(K2[14], K2[15]));
  }

  lemma RootsOfRow3()
    ensures RootRow(P3, K3)
  {
    assert CubeRoot(P3[0], 4, Join(K3[0], K3[1]));
    assert CubeRoot(P3[1], 4, Join(K3[2], K3[3]));
    assert CubeRoot(P3[2], 4, Join(K3[4], K3[5]));
    assert CubeRoot(P3[3], 4, Join(K3[6], K3[7]));
    assert CubeRoot(P3[4], 4, Join(K3[8], K3[9]));
    assert CubeRoot(P3[5], 4, Join(K3[10], K3[11]));
    assert CubeRoot(P3[6], 5, Join(K3[12], K3[13]));
    assert CubeRoot(P3[7], 5, Join(K3[14], K3[15]));
  }

  lemma RootsOfRow4()
    ensures RootRow(P4, K4)
  {
    assert CubeRoot(P4[0], 5, Join(K4[0], K4[1]));
    assert CubeRoot(P4[1], 5, Join(K4[2], K4[3]));
    assert CubeRoot(P4[2], 5, Join(K4[4], K4[5]));
    assert CubeRoot(P4[3], 5, Join(K4[6], K4[7]));
    assert CubeRoot(P4[4], 5, Join(K4[8], K4[9]));
    assert CubeRoot(P4[5], 5, Join(K4[10], K4[11]));
    assert CubeRoot(P4[6], 5, Join(K4[12], K4[13]));
    assert CubeRoot(P4[7], 5, Join(K4[14], K4[15]));
  }

  lemma RootsOfRow5()
    ensures RootRow(P5, K5)
  {
    assert CubeRoot(P5[0], 5, Join(K5[0], K5[1]));
    assert CubeRoot(P5[1], 5, Join(K5[2], K5[3]));
    assert CubeRoot(P5[2], 5, Join(K5[4], K5[5]));
    assert CubeRoot(P5[3], 5, Join(K5[6], K5[7]));
    assert CubeRoot(P5[4], 5, Join(K5[8], K5[9]));
    assert CubeRoot(P5[5], 5, Join(K5[10], K5[11]));
    assert CubeRoot(P5[6], 5, Join(K5[12], K5[13]));
    assert CubeRoot(P5[7], 6, Join(K5[14], K5[15]));
  }

  lemma RootsOfRow6()
    ensures RootRow(P6, K6)
  {
    assert CubeRoot(P6[0], 6, Join(K6[0], K6[1]));
    assert CubeRoot(P6[1], 6, Join(K6[2], K6[3]));
    assert CubeRoot(P6[2], 6, Join(K6[4], K6[5]));
    assert CubeRoot(P6[3], 6, Join(K6[6], K6[7]));
    assert CubeRoot(P6[4], 6, Join(K6[8], K6[9]));
    assert CubeRoot(P6[5], 6, Join(K6[10], K6[11]));
    assert CubeRoot(P6[6], 6, Join(K6[12], K6[13]));
    assert CubeRoot(P6[7], 6, Join(K6[14], K6[15]));
  }

  lemma RootsOfRow7()
    ensures RootRow(P7, K7)
  {
    assert CubeRoot(P7[0], 6, Join(K7[0], K7[1]));
    assert CubeRoot(P7[1], 6, Join(K7[2], K7[3]));
    assert CubeRoot(P7[2], 6, Join(K7[4], K7[5]));
    assert CubeRoot(P7[3], 6, Join(K7[6], K7[7]));
    assert CubeRoot(P7[4], 6, Join(K7[8], K7[9]));
    assert CubeRoot(P7[5], 6, Join(K7[10], K7[11]));
    assert CubeRoot(P7[6], 6, Join(K7[12], K7[13]));
    assert CubeRoot(P7[7], 6, Join(K7[14], K7[15]));
  }

  lemma RootsOfRow8()
    ensures RootRow(P8, K8)
  {
    assert CubeRoot(P8[0], 6, Join(K8[0], K8[1]));
    assert CubeRoot(P8[1], 6, Join(K8[2], K8[3]));
    assert CubeRoot(P8[2], 6, Join(K8[4], K8[5]));
    assert CubeRoot(P8[3], 6, Join(K8[6], K8[7]));
    assert CubeRoot(P8[4], 7, Join(K8[8], K8[9]));
    assert CubeRoot(P8[5], 7, Join(K8[10], K8[11]));
    assert CubeRoot(P8[6], 7, Join(K8[12], K8[13]));
    assert CubeRoot(P8[7], 7, Join(K8[14], K8[15]));
  }

  lemma RootsOfRow9()
    ensures RootRow(P9, K9)
  {
    assert CubeRoot(P9[0], 7, Join(K9[0], K9[1]));
    assert CubeRoot(P9[1], 7, Join(K9[2], K9[3]));
    assert CubeRoot(P9[2], 7, Join(K9[4], K9[5]));
    assert CubeRoot(P9[3], 7, Join(K9[6], K9[7]));
    assert CubeRoot(P9[4], 7, Join(K9[8], K9[9]));
    assert CubeRoot(P9[5], 7, Join(K9[10], K9[11]));
    assert CubeRoot(P9[6], 7, Join(K9[12], K9[13]));
    assert CubeRoot(P9[7], 7, Join(K9[14], K9[15]));
  }

  /** The initial hash value: the fractions of the square roots of the first eight primes. */
  lemma InitialHashIsRoots()
    ensures IsSquareRoot(Primes()[0], H0.a)
    ensures IsSquareRoot(Primes()[1], H0.b)
    ensures IsSquareRoot(Primes()[2], H0.c)
    ensures IsSquareRoot(Primes()[3], H0.d)
    ensures IsSquareRoot(Primes()[4], H0.e)
    ensures IsSquareRoot(Primes()[5], H0.f)
    ensures IsSquareRoot(Primes()[6], H0.g)
    ensures IsSquareRoot(Primes()[7], H0.h)
  {
    FirstRow();
    hide Primes, PRow;
    assert SquareRoot(2, 1, H0.a);
    assert SquareRoot(3, 1, H0.b);
    assert SquareRoot(5, 2, H0.c);
    assert SquareRoot(7, 2, H0.d);
    assert SquareRoot(11, 3, H0.e);
    assert SquareRoot(13, 3, H0.f);
    assert SquareRoot(17, 4, H0.g);
    assert SquareRoot(19, 4, H0.h);
  }

  lemma FirstRow()
    ensures Primes()[0] == 2 && Primes()[1] == 3 && Primes()[2] == 5 && Primes()[3] == 7
    ensures Primes()[4] == 11 && Primes()[5] == 13 && Primes()[6] == 17 && Primes()[7] == 19
  {
    assert PRow(0) == P0;
  }

  lemma RowsAreRoots(i: nat)
    requires i < 10
    ensures RootRow(PRow(i), KRow(i)) && PrimeRow(if i == 0 then 1 else PRow(i - 1)[7], PRow(i))
  {
    hide RootRow, PrimeRow;
    RootsOfRow0();
    PrimesOfRow0();
    RootsOfRow1();
    PrimesOfRow1();
    RootsOfRow2();
    PrimesOfRow2();
    RootsOfRow3();
    PrimesOfRow3();
    RootsOfRow4();
    PrimesOfRow4();
    RootsOfRow5();
    PrimesOfRow5();
    RootsOfRow6();
    PrimesOfRow6();
    RootsOfRow7();
    PrimesOfRow7();
    RootsOfRow8();
    PrimesOfRow8();
    RootsOfRow9();
    PrimesOfRow9();
  }

  /** The primes are the first eighty. */
  lemma FirstPrimes(t: nat)
    requires t < 80
    ensures NextPrime(if t == 0 then 1 else Primes()[t - 1], Primes()[t])
  {
    hide NextPrime, PRow;
    RowsAreRoots(t / 8);
    if t % 8 > 0 {
      assert (t - 1) / 8 == t / 8 && (t - 1) % 8 == t % 8 - 1;
    } else if t > 0 {
      assert (t - 1) / 8 == t / 8 - 1 && (t - 1) % 8 == 7;
    }
  }

  /** The constants: the fractions of the cube roots of the first eighty primes. */
  lemma ConstantsAreRoots(t: nat)
    requires t < 80
    ensures IsCubeRoot(Primes()[t], Join(Table()[2 * t], Table()[2 * t + 1]))
  {
    hide IsCubeRoot, Join, KRow, PRow;
    RowsAreRoots(t / 8);
    assert 2 * t / 16 == (2 * t + 1) / 16 == t / 8 && 2 * t % 16 == 2 * (t % 8) && (2 * t + 1) % 16 == 2 * (t % 8) + 1;
  }
}
