/** The constants of sections 4.2.2 and 5.3.3 of FIPS 180-4: the first 32 bits of the fractions of the cube roots of the
    first 64 primes, and of the square roots of the first eight. That the listed numbers are those primes is proved
    too, with a sieve. */
module Sha256Constants {
  import opened Sha256

  const PRIMES: seq<nat> :=
    [2, 3, 5, 7, 11, 13, 17, 19] +
    [23, 29, 31, 37, 41, 43, 47, 53] +
    [59, 61, 67, 71, 73, 79, 83, 89] +
    [97, 101, 103, 107, 109, 113, 127, 131] +
    [137, 139, 149, 151, 157, 163, 167, 173] +
    [179, 181, 191, 193, 197, 199, 211, 223] +
    [227, 229, 233, 239, 241, 251, 257, 263] +
    [269, 271, 277, 281, 283, 293, 307, 311]

  const TWO32: nat := 0x1_0000_0000

  // ---- Roots ----

  /** The word is the integer part of 2^32 times the fraction of the root. */
  ghost predicate CubeRootFraction(p: nat, w: Word) {
    exists whole: nat :: IsCubeRoot(p, whole * TWO32 + w.bits as int)
  }

  predicate IsCubeRoot(p: nat, a: nat) {
    a * a * a <= p * TWO32 * TWO32 * TWO32 < (a + 1) * (a + 1) * (a + 1)
  }

  ghost predicate SquareRootFraction(p: nat, w: Word) {
    exists whole: nat :: IsSquareRoot(p, whole * TWO32 + w.bits as int)
  }

  predicate IsSquareRoot(p: nat, a: nat) {
    a * a <= p * TWO32 * TWO32 < (a + 1) * (a + 1)
  }

  lemma CubeRootIs(p: nat, whole: nat, w: Word)
    requires IsCubeRoot(p, whole * TWO32 + w.bits as int)
    ensures CubeRootFraction(p, w)
  {
  }

  lemma SquareRootIs(p: nat, whole: nat, w: Word)
    requires IsSquareRoot(p, whole * TWO32 + w.bits as int)
    ensures SquareRootFraction(p, w)
  {
  }

  ghost predicate RootsBetween(i: nat, j: nat)
    requires j <= 64
  {
    forall t :: i <= t < j ==> CubeRootFraction(PRIMES[t], K[t])
  }

  lemma RootsFrom0()
    ensures RootsBetween(0, 4)
  {
    hide CubeRootFraction;
    CubeRootIs(PRIMES[0], 1, K[0]);
    CubeRootIs(PRIMES[1], 1, K[1]);
    CubeRootIs(PRIMES[2], 1, K[2]);
    CubeRootIs(PRIMES[3], 1, K[3]);
  }

  lemma RootsFrom4()
    ensures RootsBetween(4, 8)
  {
    hide CubeRootFraction;
    CubeRootIs(PRIMES[4], 2, K[4]);
    CubeRootIs(PRIMES[5], 2, K[5]);
    CubeRootIs(PRIMES[6], 2, K[6]);
    CubeRootIs(PRIMES[7], 2, K[7]);
  }

  lemma RootsFrom8()
    ensures RootsBetween(8, 12)
  {
    hide CubeRootFraction;
    CubeRootIs(PRIMES[8], 2, K[8]);
    CubeRootIs(PRIMES[9], 3, K[9]);
    CubeRootIs(PRIMES[10], 3, K[10]);
    CubeRootIs(PRIMES[11], 3, K[11]);
  }

  lemma RootsFrom12()
    ensures RootsBetween(12, 16)
  {
    hide CubeRootFraction;
    CubeRootIs(PRIMES[12], 3, K[12]);
    CubeRootIs(PRIMES[13], 3, K[13]);
    CubeRootIs(PRIMES[14], 3, K[14]);
    CubeRootIs(PRIMES[15], 3, K[15]);
  }

  lemma RootsFrom16()
    ensures RootsBetween(16, 20)
  {
    hide CubeRootFraction;
    CubeRootIs(PRIMES[16], 3, K[16]);
    CubeRootIs(PRIMES[17], 3, K[17]);
    CubeRootIs(PRIMES[18], 4, K[18]);
    CubeRootIs(PRIMES[19], 4, K[19]);
  }

  lemma RootsFrom20()
    ensures RootsBetween(20, 24)
  {
    hide CubeRootFraction;
    CubeRootIs(PRIMES[20], 4, K[20]);
    CubeRootIs(PRIMES[21], 4, K[21]);
    CubeRootIs(PRIMES[22], 4, K[22]);
    CubeRootIs(PRIMES[23], 4, K[23]);
  }

  lemma RootsFrom24()
    ensures RootsBetween(24, 28)
  {
    hide CubeRootFraction;
    CubeRootIs(PRIMES[24], 4, K[24]);
    CubeRootIs(PRIMES[25], 4, K[25]);
    CubeRootIs(PRIMES[26], 4, K[26]);
    CubeRootIs(PRIMES[27], 4, K[27]);
  }

  lemma RootsFrom28()
    ensures RootsBetween(28, 32)
  {
    hide CubeRootFraction;
    CubeRootIs(PRIMES[28], 4, K[28]);
    CubeRootIs(PRIMES[29], 4, K[29]);
    CubeRootIs(PRIMES[30], 5, K[30]);
    CubeRootIs(PRIMES[31], 5, K[31]);
  }

  lemma RootsFrom32()
    ensures RootsBetween(32, 36)
  {
    hide CubeRootFraction;
    CubeRootIs(PRIMES[32], 5, K[32]);
    CubeRootIs(PRIMES[33], 5, K[33]);
    CubeRootIs(PRIMES[34], 5, K[34]);
    CubeRootIs(PRIMES[35], 5, K[35]);
  }

  lemma RootsFrom36()
    ensures RootsBetween(36, 40)
  {
    hide CubeRootFraction;
    CubeRootIs(PRIMES[36], 5, K[36]);
    CubeRootIs(PRIMES[37], 5, K[37]);
    CubeRootIs(PRIMES[38], 5, K[38]);
    CubeRootIs(PRIMES[39], 5, K[39]);
  }

  lemma RootsFrom40()
    ensures RootsBetween(40, 44)
  {
    hide CubeRootFraction;
    CubeRootIs(PRIMES[40], 5, K[40]);
    CubeRootIs(PRIMES[41], 5, K[41]);
    CubeRootIs(PRIMES[42], 5, K[42]);
    CubeRootIs(PRIMES[43], 5, K[43]);
  }

  lemma RootsFrom44()
    ensures RootsBetween(44, 48)
  {
    hide CubeRootFraction;
    CubeRootIs(PRIMES[44], 5, K[44]);
    CubeRootIs(PRIMES[45], 5, K[45]);
    CubeRootIs(PRIMES[46], 5, K[46]);
    CubeRootIs(PRIMES[47], 6, K[47]);
  }

  lemma RootsFrom48()
    ensures RootsBetween(48, 52)
  {
    hide CubeRootFraction;
    CubeRootIs(PRIMES[48], 6, K[48]);
    CubeRootIs(PRIMES[49], 6, K[49]);
    CubeRootIs(PRIMES[50], 6, K[50]);
    CubeRootIs(PRIMES[51], 6, K[51]);
  }

  lemma RootsFrom52()
    ensures RootsBetween(52, 56)
  {
    hide CubeRootFraction;
    CubeRootIs(PRIMES[52], 6, K[52]);
    CubeRootIs(PRIMES[53], 6, K[53]);
    CubeRootIs(PRIMES[54], 6, K[54]);
    CubeRootIs(PRIMES[55], 6, K[55]);
  }

  lemma RootsFrom56()
    ensures RootsBetween(56, 60)
  {
    hide CubeRootFraction;
    CubeRootIs(PRIMES[56], 6, K[56]);
    CubeRootIs(PRIMES[57], 6, K[57]);
    CubeRootIs(PRIMES[58], 6, K[58]);
    CubeRootIs(PRIMES[59], 6, K[59]);
  }

  lemma RootsFrom60()
    ensures RootsBetween(60, 64)
  {
    hide CubeRootFraction;
    CubeRootIs(PRIMES[60], 6, K[60]);
    CubeRootIs(PRIMES[61], 6, K[61]);
    CubeRootIs(PRIMES[62], 6, K[62]);
    CubeRootIs(PRIMES[63], 6, K[63]);
  }

  /** Every round constant comes from the cube root of its prime. */
  lemma RoundConstantsAreRoots()
    ensures forall t :: 0 <= t < 64 ==> CubeRootFraction(PRIMES[t], K[t])
  {
    hide CubeRootFraction;
    RootsFrom0();
    RootsFrom4();
    RootsFrom8();
    RootsFrom12();
    RootsFrom16();
    RootsFrom20();
    RootsFrom24();
    RootsFrom28();
    RootsFrom32();
    RootsFrom36();
    RootsFrom40();
    RootsFrom44();
    RootsFrom48();
    RootsFrom52();
    RootsFrom56();
    RootsFrom60();
  }

  /** The initial hash value comes from the square roots of the first eight primes. */
  lemma InitialValuesAreRoots()
    ensures SquareRootFraction(PRIMES[0], INITIAL.a) && SquareRootFraction(PRIMES[1], INITIAL.b)
    ensures SquareRootFraction(PRIMES[2], INITIAL.c) && SquareRootFraction(PRIMES[3], INITIAL.d)
    ensures SquareRootFraction(PRIMES[4], INITIAL.e) && SquareRootFraction(PRIMES[5], INITIAL.f)
    ensures SquareRootFraction(PRIMES[6], INITIAL.g) && SquareRootFraction(PRIMES[7], INITIAL.h)
  {
    hide SquareRootFraction;
    SquareRootIs(PRIMES[0], 1, INITIAL.a);
    SquareRootIs(PRIMES[1], 1, INITIAL.b);
    SquareRootIs(PRIMES[2], 2, INITIAL.c);
    SquareRootIs(PRIMES[3], 2, INITIAL.d);
    SquareRootIs(PRIMES[4], 3, INITIAL.e);
    SquareRootIs(PRIMES[5], 3, INITIAL.f);
    SquareRootIs(PRIMES[6], 4, INITIAL.g);
    SquareRootIs(PRIMES[7], 4, INITIAL.h);
  }

  // ---- The primes ----

  ghost predicate IsPrime(n: nat) {
    n >= 2 && forall d :: 2 <= d < n ==> n % d != 0
  }

  /** A proper multiple of one of the primes up to 17. */
  predicate Sieved(n: nat) {
    (n % 2 == 0 && n != 2) || OddSieved(n)
  }

  predicate OddSieved(n: nat) {
    || (n % 3 == 0 && n != 3) || (n % 5 == 0 && n != 5) || (n % 7 == 0 && n != 7)
    || (n % 11 == 0 && n != 11) || (n % 13 == 0 && n != 13) || (n % 17 == 0 && n != 17)
  }

  lemma SievedIsComposite(n: nat)
    requires n >= 2 && Sieved(n)
    ensures !IsPrime(n)
  {
    var q := if n % 2 == 0 && n != 2 then 2 else if n % 3 == 0 && n != 3 then 3
             else if n % 5 == 0 && n != 5 then 5 else if n % 7 == 0 && n != 7 then 7
             else if n % 11 == 0 && n != 11 then 11 else if n % 13 == 0 && n != 13 then 13 else 17;
    assert n % q == 0 && n != q;
    if q > n { Remainder(n, q); }
  }

  lemma Remainder(n: nat, q: nat)
    requires 0 < n < q
    ensures n % q != 0
  {
  }

  lemma MultipleOf(n: nat, d: nat, e: nat, q: nat)
    requires n == d * e && q > 0 && d % q == 0
    ensures n % q == 0
  {
    var k := d / q;
    assert d == q * k;
    assert n == q * (k * e);
    QuotientIs(n, q, k * e, 0);
  }

  lemma ProductIsSieved(n: nat, d: nat, e: nat)
    requires n == d * e && 2 <= d <= 18 && e >= 2
    ensures Sieved(n)
  {
    assert n > d;
    if d % 2 == 0 {
      MultipleOf(n, d, e, 2);
    } else if d % 3 == 0 {
      MultipleOf(n, d, e, 3);
    } else if d % 5 == 0 {
      MultipleOf(n, d, e, 5);
    } else {
      assert d == 7 || d == 11 || d == 13 || d == 17;
      MultipleOf(n, d, e, d);
    }
  }

  lemma LargeCofactors(n: nat, d: nat, e: nat)
    requires n == d * e && d >= 19
    ensures e >= 19 ==> n >= 361
  {
    if e >= 19 { assert d * e >= 19 * e; }
  }

  /** A number below the square of 19 is prime exactly if the sieve leaves it. */
  lemma SieveIsExact(n: nat)
    requires 2 <= n < 361
    ensures IsPrime(n) <==> !Sieved(n)
  {
    hide Sieved;
    if Sieved(n) { SievedIsComposite(n); }
    if !IsPrime(n) {
      var d :| 2 <= d < n && n % d == 0;
      var e := n / d;
      assert n == d * e && e >= 2;
      if d <= 18 {
        ProductIsSieved(n, d, e);
      } else {
        LargeCofactors(n, d, e);
        ProductIsSieved(n, e, d);
      }
    }
  }

  /** The first odd number from n on that the sieve leaves. */
  function NextLeft(n: nat): nat
    decreases 331 - n
  {
    if n >= 331 || !OddSieved(n) then n else NextLeft(n + 2)
  }

  lemma {:induction false} NextIsLeft(n: nat)
    requires 3 <= n < 331 && n % 2 == 1
    ensures var p := NextLeft(n); n <= p <= 331 && !Sieved(p) && forall m :: n <= m < p ==> Sieved(m)
    decreases 331 - n
  {
    hide Sieved, OddSieved;
    OddsAreSieved(n);
    EvensAreSieved(n + 1);
    TheEndIsLeft();
    if OddSieved(n) {
      if n < 329 { NextIsLeft(n + 2); }
      forall m | n <= m < NextLeft(n) ensures Sieved(m) {
        assert m == n || m == n + 1 || n + 2 <= m < NextLeft(n + 2);
      }
    }
  }

  lemma OddsAreSieved(n: nat)
    requires n % 2 == 1
    ensures Sieved(n) <==> OddSieved(n)
  {
  }

  lemma EvensAreSieved(n: nat)
    ensures n % 2 == 0 && n > 2 ==> Sieved(n)
  {
  }

  lemma TheEndIsLeft()
    ensures !Sieved(331)
  {
  }

  ghost predicate Follows(p: nat, q: nat) {
    3 <= p < 329 && p % 2 == 1 && q == NextLeft(p + 2)
  }

  ghost predicate FollowBetween(i: nat, j: nat)
    requires 2 <= i && j <= 64
  {
    forall t :: i <= t < j ==> Follows(PRIMES[t - 1], PRIMES[t])
  }

  lemma PrimesFrom0()
    ensures FollowBetween(2, 4)
  {
    assert NextLeft(5) == 5;
    assert NextLeft(7) == 7;
  }

  lemma PrimesFrom4()
    ensures FollowBetween(4, 8)
  {
    assert NextLeft(9) == 11;
    assert NextLeft(13) == 13;
    assert NextLeft(15) == 17;
    assert NextLeft(19) == 19;
  }

  lemma PrimesFrom8()
    ensures FollowBetween(8, 12)
  {
    assert NextLeft(21) == 23;
    assert NextLeft(25) == 29;
    assert NextLeft(31) == 31;
    assert NextLeft(33) == 37;
  }

  lemma PrimesFrom12()
    ensures FollowBetween(12, 16)
  {
    assert NextLeft(39) == 41;
    assert NextLeft(43) == 43;
    assert NextLeft(45) == 47;
    assert NextLeft(49) == 53;
  }

  lemma PrimesFrom16()
    ensures FollowBetween(16, 20)
  {
    assert NextLeft(55) == 59;
    assert NextLeft(61) == 61;
    assert NextLeft(63) == 67;
    assert NextLeft(69) == 71;
  }

  lemma PrimesFrom20()
    ensures FollowBetween(20, 22)
  {
    assert NextLeft(73) == 73;
    assert NextLeft(75) == 79;
  }

  lemma PrimesFrom22()
    ensures FollowBetween(22, 24)
  {
    assert NextLeft(81) == 83;
    assert NextLeft(85) == 89;
  }

  lemma PrimesFrom24()
    ensures FollowBetween(24, 26)
  {
    assert NextLeft(91) == 97;
    assert NextLeft(99) == 101;
  }

  lemma PrimesFrom26()
    ensures FollowBetween(26, 28)
  {
    assert NextLeft(103) == 103;
    assert NextLeft(105) == 107;
  }

  lemma PrimesFrom28()
    ensures FollowBetween(28, 32)
  {
    assert NextLeft(109) == 109;
    assert NextLeft(111) == 113;
    assert NextLeft(115) == 127;
    assert NextLeft(129) == 131;
  }

  lemma PrimesFrom32()
    ensures FollowBetween(32, 34)
  {
    assert NextLeft(133) == 137;
    assert NextLeft(139) == 139;
  }

  lemma PrimesFrom34()
    ensures FollowBetween(34, 36)
  {
    assert NextLeft(141) == 149;
    assert NextLeft(151) == 151;
  }

  lemma PrimesFrom36()
    ensures FollowBetween(36, 40)
  {
    assert NextLeft(153) == 157;
    assert NextLeft(159) == 163;
    assert NextLeft(165) == 167;
    assert NextLeft(169) == 173;
  }

  lemma PrimesFrom40()
    ensures FollowBetween(40, 44)
  {
    assert NextLeft(175) == 179;
    assert NextLeft(181) == 181;
    assert NextLeft(183) == 191;
    assert NextLeft(193) == 193;
  }

  lemma PrimesFrom44()
    ensures FollowBetween(44, 48)
  {
    assert NextLeft(195) == 197;
    assert NextLeft(199) == 199;
    assert NextLeft(201) == 211;
    assert NextLeft(213) == 223;
  }

  lemma PrimesFrom48()
    ensures FollowBetween(48, 52)
  {
    assert NextLeft(225) == 227;
    assert NextLeft(229) == 229;
    assert NextLeft(231) == 233;
    assert NextLeft(235) == 239;
  }

  lemma PrimesFrom52()
    ensures FollowBetween(52, 56)
  {
    assert NextLeft(241) == 241;
    assert NextLeft(243) == 251;
    assert NextLeft(253) == 257;
    assert NextLeft(259) == 263;
  }

  lemma PrimesFrom56()
    ensures FollowBetween(56, 60)
  {
    assert NextLeft(265) == 269;
    assert NextLeft(271) == 271;
    assert NextLeft(273) == 277;
    assert NextLeft(279) == 281;
  }

  lemma PrimesFrom60()
    ensures FollowBetween(60, 64)
  {
    assert NextLeft(283) == 283;
    assert NextLeft(285) == 293;
    assert NextLeft(295) == 307;
    assert NextLeft(309) == 311;
  }

  lemma FollowerIsNext(p: nat, q: nat)
    requires Follows(p, q)
    ensures IsPrime(q) && forall n :: p < n < q ==> !IsPrime(n)
  {
    hide Sieved, NextLeft, IsPrime;
    EvensAreSieved(p + 1);
    NextIsLeft(p + 2);
    SieveIsExact(q);
    forall n | p < n < q ensures !IsPrime(n) {
      SieveIsExact(n);
    }
  }

  lemma AllFollow()
    ensures FollowBetween(2, 64)
  {
    hide Follows;
    PrimesFrom0();
    PrimesFrom4();
    PrimesFrom8();
    PrimesFrom12();
    PrimesFrom16();
    PrimesFrom20();
    PrimesFrom22();
    PrimesFrom24();
    PrimesFrom26();
    PrimesFrom28();
    PrimesFrom32();
    PrimesFrom34();
    PrimesFrom36();
    PrimesFrom40();
    PrimesFrom44();
    PrimesFrom48();
    PrimesFrom52();
    PrimesFrom56();
    PrimesFrom60();
  }

  lemma TwoAndThree()
    ensures PRIMES[0] == 2 && PRIMES[1] == 3 && IsPrime(2) && IsPrime(3)
  {
  }

  /** The list starts with two, and each number is the next prime after the one before it. */
  lemma PrimesAreThePrimes()
    ensures PRIMES[0] == 2 && |PRIMES| == 64
    ensures forall t :: 0 <= t < 64 ==> IsPrime(PRIMES[t])
    ensures forall t, n :: 0 < t < 64 && PRIMES[t - 1] < n < PRIMES[t] ==> !IsPrime(n)
  {
    hide Follows, IsPrime;
    AllFollow();
    TwoAndThree();
    forall t | 2 <= t < 64
      ensures IsPrime(PRIMES[t]) && forall n :: PRIMES[t - 1] < n < PRIMES[t] ==> !IsPrime(n)
    {
      FollowerIsNext(PRIMES[t - 1], PRIMES[t]);
    }
  }
}
