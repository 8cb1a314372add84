/** Where the numbers of the digest come from: the constants of section 4.2.2 of FIPS 180-4 are the first bits
of the cube roots of the first primes, the initial hash value of section 5.3.3 those of square roots. */
module Sha256Constants {
  import opened Sha256

  // ---- The first primes ----

  predicate IsPrime(n: int) {
    n >= 2 && forall d | 2 <= d < n :: n % d != 0
  }

  /** How many primes there are below n. */
  function PrimesBelow(n: nat): nat {
    if n == 0 then 0 else PrimesBelow(n - 1) + (if IsPrime(n - 1) then 1 else 0)
  }

  /** Primes are counted from 0. */
  predicate IsNthPrime(t: nat, p: nat) {
    IsPrime(p) && PrimesBelow(p) == t
  }

  predicate HasSmallFactor(n: int) {
    n % 2 == 0 || n % 3 == 0 || n % 5 == 0 || n % 7 == 0 || n % 11 == 0 || n % 13 == 0 || n % 17 == 0
  }

  predicate IsUnfactored(n: int) {
    !HasSmallFactor(n) || n == 2 || n == 3 || n == 5 || n == 7 || n == 11 || n == 13 || n == 17
  }

  lemma MultipleDivides(d: nat, e: nat)
    requires e > 0
    ensures (d * e) % e == 0
  {
    QuotientIsUnique(d * e, e, d, 0);
  }

  lemma FactorOfFactor(n: nat, d: nat, p: nat)
    requires d > 0 && p > 0 && n % d == 0 && d % p == 0
    ensures n % p == 0
  {
    var k, j := n / d, d / p;
    assert n == d * k && d == p * j;
    assert n == (k * j) * p;
    MultipleDivides(k * j, p);
  }

  lemma SmallDivisor(n: nat, d: nat)
    requires 2 <= d < 18 && n % d == 0
    ensures HasSmallFactor(n)
  {
    if d % 2 == 0 {
      FactorOfFactor(n, d, 2);
    } else if d % 3 == 0 {
      FactorOfFactor(n, d, 3);
    } else if d % 5 == 0 {
      FactorOfFactor(n, d, 5);
    } else {
      assert d == 7 || d == 11 || d == 13 || d == 17;
    }
  }

  /** One of two factors of a number below 18 * 18 is small. */
  lemma ProperDivisor(n: nat, d: nat)
    requires 2 <= d < n < 324 && n % d == 0
    ensures HasSmallFactor(n)
  {
    var e := n / d;
    assert n == d * e;
    if d < 18 {
      SmallDivisor(n, d);
    } else {
      assert 18 * e <= d * e;
      assert 2 <= e < 18;
      MultipleDivides(d, e);
      SmallDivisor(n, e);
    }
  }

  lemma MultipleIsNotPrime(n: nat, p: nat)
    requires 2 <= p < n && n % p == 0
    ensures !IsPrime(n)
  {
  }

  lemma PrimeBySmallFactors(n: nat)
    requires 2 <= n < 324
    ensures IsPrime(n) <==> IsUnfactored(n)
  {
    if n % 2 == 0 && n > 2 {
      MultipleIsNotPrime(n, 2);
    } else if n % 3 == 0 && n > 3 {
      MultipleIsNotPrime(n, 3);
    } else if n % 5 == 0 && n > 5 {
      MultipleIsNotPrime(n, 5);
    } else if n % 7 == 0 && n > 7 {
      MultipleIsNotPrime(n, 7);
    } else if n % 11 == 0 && n > 11 {
      MultipleIsNotPrime(n, 11);
    } else if n % 13 == 0 && n > 13 {
      MultipleIsNotPrime(n, 13);
    } else if n % 17 == 0 && n > 17 {
      MultipleIsNotPrime(n, 17);
    } else {
      hide HasSmallFactor;
      NoProperDivisor(n);
    }
  }

  lemma NoProperDivisor(n: nat)
    requires 2 <= n < 324 && (HasSmallFactor(n) ==> n == 2 || n == 3 || n == 5 || n == 7 || n == 11 || n == 13 || n == 17)
    ensures IsPrime(n)
  {
    if n == 2 || n == 3 || n == 5 || n == 7 || n == 11 || n == 13 || n == 17 {
    } else if d :| 2 <= d < n && n % d == 0 {
      ProperDivisor(n, d);
    }
  }


  /** The second number is the first without a small factor after the other. */
  predicate Follows(last: nat, prime: nat)
    decreases prime - last
  {
    && last < prime < 324
    && if last + 1 == prime then IsUnfactored(prime) else !IsUnfactored(last + 1) && Follows(last + 1, prime)
  }

  lemma {:induction false} FollowsUnfactored(last: nat, prime: nat)
    requires Follows(last, prime)
    ensures IsUnfactored(prime)
    ensures forall n :: last < n < prime ==> !IsUnfactored(n)
    decreases prime - last
  {
    if last + 1 < prime {
      FollowsUnfactored(last + 1, prime);
    }
  }

  lemma {:induction false} NoPrimesBetween(last: nat, n: nat, prime: nat)
    requires 0 < last < n <= prime < 324 && Follows(last, prime)
    ensures PrimesBelow(n) == PrimesBelow(last + 1)
  {
    hide IsPrime, IsUnfactored, Follows;
    if n > last + 1 {
      FollowsUnfactored(last, prime);
      NoPrimesBetween(last, n - 1, prime);
      PrimeBySmallFactors(n - 1);
    }
  }

  lemma FollowsIsAscending(last: nat, prime: nat)
    requires Follows(last, prime)
    ensures last < prime < 324
  {
  }

  lemma NextPrime(t: nat, last: nat, prime: nat)
    requires Follows(last, prime) && (if t == 0 then last == 1 else IsNthPrime(t - 1, last))
    ensures IsNthPrime(t, prime)
  {
    hide IsUnfactored, Follows;
    FollowsIsAscending(last, prime);
    FollowsUnfactored(last, prime);
    PrimeBySmallFactors(prime);
    NoPrimesBetween(last, prime, prime);
    assert !IsPrime(0) && !IsPrime(1);
    assert PrimesBelow(last + 1) == PrimesBelow(last) + (if IsPrime(last) then 1 else 0);
    assert PrimesBelow(1) == PrimesBelow(0) + 0;
  }

  // ---- The roots ----

  function Cube(n: int): int { n * n * n }

  /** The first 32 bits of the fractional part of the cube root of n; `whole` is its integer part. */
  predicate IsCubeRootFraction(n: int, whole: int, fraction: Word) {
    var root := whole * 0x1_0000_0000 + fraction as int;
    Cube(root) <= n * 0x1_0000_0000_0000_0000_0000_0000 < Cube(root + 1)
  }

  predicate IsSquareRootFraction(n: int, whole: int, fraction: Word) {
    var root := whole * 0x1_0000_0000 + fraction as int;
    root * root <= n * 0x1_0000_0000_0000_0000 < (root + 1) * (root + 1)
  }

  /** Constant t comes from the t-th prime. */
  ghost predicate HasCubeRoot(t: nat)
    requires t < 64
  {
    exists prime: nat, whole :: IsNthPrime(t, prime) && IsCubeRootFraction(prime, whole, RoundConstants()[t])
  }

  ghost predicate HasSquareRoot(t: nat)
    requires t < STATE_WORDS
  {
    exists prime: nat, whole :: IsNthPrime(t, prime) && IsSquareRootFraction(prime, whole, InitialHash()[t])
  }

  lemma CubeRoot(t: nat, last: nat, prime: nat, whole: int, fraction: Word)
    requires Follows(last, prime) && (if t == 0 then last == 1 else IsNthPrime(t - 1, last))
    requires t < 64 && RoundConstants()[t] == fraction && IsCubeRootFraction(prime, whole, fraction)
    ensures HasCubeRoot(t) && IsNthPrime(t, prime)
  {
    hide IsCubeRootFraction, IsNthPrime, Follows, RoundConstants;
    NextPrime(t, last, prime);
  }

  lemma SquareRoot(t: nat, last: nat, prime: nat, whole: int, fraction: Word)
    requires Follows(last, prime) && (if t == 0 then last == 1 else IsNthPrime(t - 1, last))
    requires t < STATE_WORDS && InitialHash()[t] == fraction && IsSquareRootFraction(prime, whole, fraction)
    ensures HasSquareRoot(t) && IsNthPrime(t, prime)
  {
    hide IsSquareRootFraction, IsNthPrime, Follows, InitialHash;
    NextPrime(t, last, prime);
  }

  /** Every word of the initial hash value is that of the square root of its prime. */
  lemma InitialHashIsRoots()
    ensures forall t :: 0 <= t < STATE_WORDS ==> HasSquareRoot(t)
  {
    hide HasSquareRoot, IsNthPrime;
    SquareRoot(0, 1, 2, 1, 0x6a09e667); SquareRoot(1, 2, 3, 1, 0xbb67ae85);
    SquareRoot(2, 3, 5, 2, 0x3c6ef372); SquareRoot(3, 5, 7, 2, 0xa54ff53a);
    SquareRoot(4, 7, 11, 3, 0x510e527f); SquareRoot(5, 11, 13, 3, 0x9b05688c);
    SquareRoot(6, 13, 17, 4, 0x1f83d9ab); SquareRoot(7, 17, 19, 4, 0x5be0cd19);
  }

  lemma RootsFrom0()
    ensures IsNthPrime(3, 7)
    ensures forall t :: 0 <= t < 4 ==> HasCubeRoot(t)
  {
    hide HasCubeRoot, IsNthPrime;
    CubeRoot(0, 1, 2, 1, 0x428a2f98); CubeRoot(1, 2, 3, 1, 0x71374491);
    CubeRoot(2, 3, 5, 1, 0xb5c0fbcf); CubeRoot(3, 5, 7, 1, 0xe9b5dba5);
  }

  lemma RootsFrom4()
    requires IsNthPrime(3, 7)
    ensures IsNthPrime(7, 19)
    ensures forall t :: 4 <= t < 8 ==> HasCubeRoot(t)
  {
    hide HasCubeRoot, IsNthPrime;
    CubeRoot(4, 7, 11, 2, 0x3956c25b); CubeRoot(5, 11, 13, 2, 0x59f111f1);
    CubeRoot(6, 13, 17, 2, 0x923f82a4); CubeRoot(7, 17, 19, 2, 0xab1c5ed5);
  }

  lemma RootsFrom8()
    requires IsNthPrime(7, 19)
    ensures IsNthPrime(11, 37)
    ensures forall t :: 8 <= t < 12 ==> HasCubeRoot(t)
  {
    hide HasCubeRoot, IsNthPrime;
    CubeRoot(8, 19, 23, 2, 0xd807aa98); CubeRoot(9, 23, 29, 3, 0x12835b01);
    CubeRoot(10, 29, 31, 3, 0x243185be); CubeRoot(11, 31, 37, 3, 0x550c7dc3);
  }

  lemma RootsFrom12()
    requires IsNthPrime(11, 37)
    ensures IsNthPrime(15, 53)
    ensures forall t :: 12 <= t < 16 ==> HasCubeRoot(t)
  {
    hide HasCubeRoot, IsNthPrime;
    CubeRoot(12, 37, 41, 3, 0x72be5d74); CubeRoot(13, 41, 43, 3, 0x80deb1fe);
    CubeRoot(14, 43, 47, 3, 0x9bdc06a7); CubeRoot(15, 47, 53, 3, 0xc19bf174);
  }

  lemma RootsFrom16()
    requires IsNthPrime(15, 53)
    ensures IsNthPrime(19, 71)
    ensures forall t :: 16 <= t < 20 ==> HasCubeRoot(t)
  {
    hide HasCubeRoot, IsNthPrime;
    CubeRoot(16, 53, 59, 3, 0xe49b69c1); CubeRoot(17, 59, 61, 3, 0xefbe4786);
    CubeRoot(18, 61, 67, 4, 0x0fc19dc6); CubeRoot(19, 67, 71, 4, 0x240ca1cc);
  }

  lemma RootsFrom20()
    requires IsNthPrime(19, 71)
    ensures IsNthPrime(23, 89)
    ensures forall t :: 20 <= t < 24 ==> HasCubeRoot(t)
  {
    hide HasCubeRoot, IsNthPrime;
    CubeRoot(20, 71, 73, 4, 0x2de92c6f); CubeRoot(21, 73, 79, 4, 0x4a7484aa);
    CubeRoot(22, 79, 83, 4, 0x5cb0a9dc); CubeRoot(23, 83, 89, 4, 0x76f988da);
  }

  lemma RootsFrom24()
    requires IsNthPrime(23, 89)
    ensures IsNthPrime(27, 107)
    ensures forall t :: 24 <= t < 28 ==> HasCubeRoot(t)
  {
    hide HasCubeRoot, IsNthPrime;
    CubeRoot(24, 89, 97, 4, 0x983e5152); CubeRoot(25, 97, 101, 4, 0xa831c66d);
    CubeRoot(26, 101, 103, 4, 0xb00327c8); CubeRoot(27, 103, 107, 4, 0xbf597fc7);
  }

  lemma RootsFrom28()
    requires IsNthPrime(27, 107)
    ensures IsNthPrime(31, 131)
    ensures forall t :: 28 <= t < 32 ==> HasCubeRoot(t)
  {
    hide HasCubeRoot, IsNthPrime;
    CubeRoot(28, 107, 109, 4, 0xc6e00bf3); CubeRoot(29, 109, 113, 4, 0xd5a79147);
    CubeRoot(30, 113, 127, 5, 0x06ca6351); CubeRoot(31, 127, 131, 5, 0x14292967);
  }

  lemma RootsFrom32()
    requires IsNthPrime(31, 131)
    ensures IsNthPrime(35, 151)
    ensures forall t :: 32 <= t < 36 ==> HasCubeRoot(t)
  {
    hide HasCubeRoot, IsNthPrime;
    CubeRoot(32, 131, 137, 5, 0x27b70a85); CubeRoot(33, 137, 139, 5, 0x2e1b2138);
    CubeRoot(34, 139, 149, 5, 0x4d2c6dfc); CubeRoot(35, 149, 151, 5, 0x53380d13);
  }

  lemma RootsFrom36()
    requires IsNthPrime(35, 151)
    ensures IsNthPrime(39, 173)
    ensures forall t :: 36 <= t < 40 ==> HasCubeRoot(t)
  {
    hide HasCubeRoot, IsNthPrime;
    CubeRoot(36, 151, 157, 5, 0x650a7354); CubeRoot(37, 157, 163, 5, 0x766a0abb);
    CubeRoot(38, 163, 167, 5, 0x81c2c92e); CubeRoot(39, 167, 173, 5, 0x92722c85);
  }

  lemma RootsFrom40()
    requires IsNthPrime(39, 173)
    ensures IsNthPrime(43, 193)
    ensures forall t :: 40 <= t < 44 ==> HasCubeRoot(t)
  {
    hide HasCubeRoot, IsNthPrime;
    CubeRoot(40, 173, 179, 5, 0xa2bfe8a1); CubeRoot(41, 179, 181, 5, 0xa81a664b);
    CubeRoot(42, 181, 191, 5, 0xc24b8b70); CubeRoot(43, 191, 193, 5, 0xc76c51a3);
  }

  lemma RootsFrom44()
    requires IsNthPrime(43, 193)
    ensures IsNthPrime(47, 223)
    ensures forall t :: 44 <= t < 48 ==> HasCubeRoot(t)
  {
    hide HasCubeRoot, IsNthPrime;
    CubeRoot(44, 193, 197, 5, 0xd192e819); CubeRoot(45, 197, 199, 5, 0xd6990624);
    CubeRoot(46, 199, 211, 5, 0xf40e3585); CubeRoot(47, 211, 223, 6, 0x106aa070);
  }

  lemma RootsFrom48()
    requires IsNthPrime(47, 223)
    ensures IsNthPrime(51, 239)
    ensures forall t :: 48 <= t < 52 ==> HasCubeRoot(t)
  {
    hide HasCubeRoot, IsNthPrime;
    CubeRoot(48, 223, 227, 6, 0x19a4c116); CubeRoot(49, 227, 229, 6, 0x1e376c08);
    CubeRoot(50, 229, 233, 6, 0x2748774c); CubeRoot(51, 233, 239, 6, 0x34b0bcb5);
  }

  lemma RootsFrom52()
    requires IsNthPrime(51, 239)
    ensures IsNthPrime(55, 263)
    ensures forall t :: 52 <= t < 56 ==> HasCubeRoot(t)
  {
    hide HasCubeRoot, IsNthPrime;
    CubeRoot(52, 239, 241, 6, 0x391c0cb3); CubeRoot(53, 241, 251, 6, 0x4ed8aa4a);
    CubeRoot(54, 251, 257, 6, 0x5b9cca4f); CubeRoot(55, 257, 263, 6, 0x682e6ff3);
  }

  lemma RootsFrom56()
    requires IsNthPrime(55, 263)
    ensures IsNthPrime(59, 281)
    ensures forall t :: 56 <= t < 60 ==> HasCubeRoot(t)
  {
    hide HasCubeRoot, IsNthPrime;
    CubeRoot(56, 263, 269, 6, 0x748f82ee); CubeRoot(57, 269, 271, 6, 0x78a5636f);
    CubeRoot(58, 271, 277, 6, 0x84c87814); CubeRoot(59, 277, 281, 6, 0x8cc70208);
  }

  lemma RootsFrom60()
    requires IsNthPrime(59, 281)
    ensures IsNthPrime(63, 311)
    ensures forall t :: 60 <= t < 64 ==> HasCubeRoot(t)
  {
    hide HasCubeRoot, IsNthPrime;
    CubeRoot(60, 281, 283, 6, 0x90befffa); CubeRoot(61, 283, 293, 6, 0xa4506ceb);
    CubeRoot(62, 293, 307, 6, 0xbef9a3f7); CubeRoot(63, 307, 311, 6, 0xc67178f2);
  }

  /** Every round constant is that of the cube root of its prime. */
  lemma RoundConstantsAreRoots()
    ensures forall t :: 0 <= t < 64 ==> HasCubeRoot(t)
  {
    hide HasCubeRoot, IsNthPrime;
    RootsFrom0(); RootsFrom4(); RootsFrom8(); RootsFrom12();
    RootsFrom16(); RootsFrom20(); RootsFrom24(); RootsFrom28();
    RootsFrom32(); RootsFrom36(); RootsFrom40(); RootsFrom44();
    RootsFrom48(); RootsFrom52(); RootsFrom56(); RootsFrom60();
  }
}
