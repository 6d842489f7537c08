/**
The Lehmer generator of lib/random.h.  `Next` replaces a 64-bit remainder by two shifts and one
conditional subtraction.  The file's comment claims that the seed cycles through every number of
[1, M-1]; the module proves it by showing that the multiplier has order M-1 modulo the prime M.
*/
module Random {
  const M: int := 0x7fff_ffff
  const A: int := 16807
  const TWO_31: int := 0x8000_0000
  const TWO_32: int := 0x1_0000_0000
  const TWO_64: int := 0x1_0000_0000_0000_0000
  const A_INVERSE: int := 1407677000

  ghost predicate Good(s: int) { 1 <= s < M }

  /** What one call is meant to do to the seed. */
  function Step(s: int): int { s * A % M }

  /** The seed after n calls. */
  function Iterate(s: int, n: nat): int
  {
    if n == 0 then s else Step(Iterate(s, n - 1))
  }

  /** A to the n, modulo M. */
  function Power(n: nat): int
  {
    if n == 0 then 1 else Power(n - 1) * A % M
  }

  class Generator {
    var seed: int

    ghost predicate Valid()
      reads this
    {
      Good(seed)
    }

    constructor (s: int)
      requires 0 <= s < TWO_32
      ensures Valid()
      ensures s % TWO_31 != 0 && s % TWO_31 != M ==> seed == s % TWO_31
      ensures s % TWO_31 == 0 || s % TWO_31 == M ==> seed == 1
    {
      seed := s % TWO_31;  // s & 0x7fffffff
      new;
      if seed == 0 || seed == M {
        seed := 1;
      }
    }

    method Next() returns (r: int)
      requires Valid()
      modifies this
      ensures Valid() && r == seed == Step(old(seed)) == old(seed) * 16807 % 2147483647
    {
      var product := seed * A;
      assert product < TWO_64;
      // (product >> 31) + (product & M), which still fits in 32 bits
      seed := product / TWO_31 + product % TWO_31;
      assert seed < TWO_32;
      FoldIsCongruent(product);
      StepIsGood(old(seed));
      if seed > M {
        seed := seed - M;
        ModUnique(product, seed);
      } else {
        ModUnique(product, seed);
      }
      return seed;
    }
  }

  // ----- modular arithmetic -----

  lemma ModUnique(x: int, r: int)
    requires 0 <= r <= M && (x - r) % M == 0 && x % M != 0
    ensures r == x % M
  {
    assert x == (x / M) * M + x % M;
  }

  /** The two halves of a product, added, are congruent to it and below 2M. */
  lemma FoldIsCongruent(p: int)
    requires 0 < p < M * A
    ensures var f := p / TWO_31 + p % TWO_31; 0 < f < 2 * M && (p - f) % M == 0 && (p - (f - M)) % M == 0
  {
    var q := p / TWO_31;
    var f := q + p % TWO_31;
    assert p - f == M * q;
    assert p - (f - M) == M * (q + 1);
  }

  lemma ModProduct(x: int, y: int)
    ensures (x % M) * y % M == x * y % M
  {
    var q := x / M;
    assert x * y == (x % M) * y + M * (q * y) by {
      assert x == M * q + x % M;
    }
    ModShift((x % M) * y, q * y);
  }

  lemma ModShift(x: int, k: int)
    ensures (x + M * k) % M == x % M
  {
    var d := x / M;
    assert x + M * k == M * (d + k) + x % M by {
      assert x == M * d + x % M;
    }
  }

  lemma Remainder(q: int, z: int)
    requires 0 <= z < M
    ensures (q * M + z) % M == z
  {
    ModShift(z, q);
    assert q * M + z == z + M * q;
  }

  lemma StepIsGood(s: int)
    requires Good(s)
    ensures Good(Step(s)) && Step(s) * A_INVERSE % M == s
  {
    ModProduct(s * A, A_INVERSE);
    assert s * A * A_INVERSE == s + M * (11017 * s);
    ModShift(s, 11017 * s);
    assert s % M == s;
  }

  /** One call is a permutation of the seeds: the modular inverse of A undoes it on either side. */
  lemma StepIsPermutation(s: int)
    requires Good(s)
    ensures Good(Step(s)) && Good(s * A_INVERSE % M)
    ensures Step(s) * A_INVERSE % M == s
    ensures Step(s * A_INVERSE % M) == s
  {
    StepIsGood(s);
    ModProduct(s * A_INVERSE, A);
    assert s * A_INVERSE * A == s + M * (11017 * s);
    ModShift(s, 11017 * s);
    assert s % M == s;
  }

  lemma Regroup(x: int, y: int)
    ensures (x * y % M) * A % M == x * (y * A % M) % M
  {
    ModProduct(x * y, A);
    ModProduct(y * A, x);
    assert x * y * A == y * A * x;
  }

  lemma {:induction false} IterateIsPower(s: int, n: nat)
    requires Good(s)
    ensures Good(Iterate(s, n)) && Iterate(s, n) == s * Power(n) % M
  {
    if n == 0 {
      assert s % M == s;
    } else {
      IterateIsPower(s, n - 1);
      StepIsGood(Iterate(s, n - 1));
      Regroup(s, Power(n - 1));
    }
  }

  lemma {:induction false} PowerAdd(m: nat, n: nat)
    ensures Power(m + n) == Power(m) * Power(n) % M
  {
    if n == 0 {
      PowerIsGood(m);
    } else {
      PowerAdd(m, n - 1);
      Regroup(Power(m), Power(n - 1));
      assert m + n - 1 == m + (n - 1);
    }
  }

  lemma {:induction false} PowerIsGood(n: nat)
    ensures Good(Power(n))
  {
    if n > 0 {
      PowerIsGood(n - 1);
      StepIsGood(Power(n - 1));
    }
  }

  lemma {:induction false} PowerOfMultiple(e: nat, k: nat)
    requires Power(e) == 1
    ensures Power(e * k) == 1
  {
    if k > 0 {
      PowerOfMultiple(e, k - 1);
      PowerAdd(e * (k - 1), e);
    }
  }

  // ----- the order of A is M-1 -----

  lemma FirstPower()
    ensures Power(1) == A
  {
    assert Power(0) == 1;
  }

  /** Multiplies two known powers; q and z are the claimed quotient and remainder. */
  lemma Mul(a: nat, b: nat, q: int, z: int) returns (c: nat)
    requires 0 <= z < M && Power(a) * Power(b) == q * M + z
    ensures c == a + b && Power(c) == z
  {
    c := a + b;
    PowerAdd(a, b);
    Remainder(q, z);
  }

  // A^((M-1)/k) for the k in each name.  The certificates share work: each lemma raises the
  // previous power to the primes of M-1 that its own name leaves out.

  lemma PowerWithout9x11x151() returns (n: nat)
    ensures 14949 * n + 1 == M && Power(n) == 163091272
  {
    var a0 := 1;
    FirstPower();
    var a1 := Mul(a0, a0, 0, 282475249);
    var a2 := Mul(a1, a1, 37156169, 984943658);
    var a3 := Mul(a2, a2, 451744538, 1457850878);
    var a4 := Mul(a3, a2, 668643497, 1115438165);
    var a5 := Mul(a4, a1, 146722269, 74243042);
    var a6 := Mul(a5, a5, 2566738, 1404280278);
    var a7 := Mul(a6, a6, 918285502, 357571490);
    var a8 := Mul(a7, a7, 59538227, 1606946231);
    var a9 := Mul(a8, a6, 1050812611, 1815859901);
    var a10 := Mul(a9, a9, 1535446933, 605925150);
    var a11 := Mul(a10, a9, 512355558, 637850124);
    var a12 := Mul(a11, a5, 22051824, 2119315080);
    var a13 := Mul(a12, a12, 2091516000, 876554400);
    var a14 := Mul(a13, a13, 357789740, 444978220);
    var a15 := Mul(a14, a14, 92203550, 454021550);
    var a16 := Mul(a15, a15, 95989353, 2010792109);
    var a17 := Mul(a16, a16, 1882801254, 2100574543);
    var a18 := Mul(a17, a17, 2054690109, 1969511326);
    var a19 := Mul(a18, a13, 803910111, 1624679583);
    var a20 := Mul(a19, a19, 1229151966, 754153887);
    var a21 := Mul(a20, a20, 264843965, 1433068414);
    var a22 := Mul(a21, a19, 1084188462, 856910448);
    var a23 := Mul(a22, a12, 845670344, 163091272);
    n := a23;
  }

  lemma PowerWithout9x11() returns (n: nat)
    ensures 99 * n + 1 == M && Power(n) == 611601736
  {
    var a0 := PowerWithout9x11x151();
    var a1 := Mul(a0, a0, 12386014, 486064926);
    var a2 := Mul(a1, a1, 110016722, 895840342);
    var a3 := Mul(a2, a2, 373707115, 124628559);
    var a4 := Mul(a3, a3, 7232780, 946067821);
    var a5 := Mul(a4, a4, 416787491, 735028364);
    var a6 := Mul(a5, a4, 323814657, 2136260765);
    var a7 := Mul(a6, a1, 483524720, 1536174550);
    var a8 := Mul(a7, a7, 1098882522, 2098584766);
    var a9 := Mul(a8, a7, 1501195370, 519790910);
    var a10 := Mul(a9, a0, 39475672, 611601736);
    n := a10;
  }

  lemma PowerWithout9() returns (n: nat)
    ensures 9 * n + 1 == M && Power(n) == 473297587
  {
    var a0 := PowerWithout9x11();
    var a1 := Mul(a0, a0, 174183716, 1794521444);
    var a2 := Mul(a1, a1, 1499572403, 40851395);
    var a3 := Mul(a2, a2, 777112, 1161558561);
    var a4 := Mul(a3, a1, 970643827, 632285015);
    var a5 := Mul(a4, a0, 180074299, 473297587);
    n := a5;
  }

  lemma PowerWithout11() returns (n: nat)
    ensures 11 * n + 1 == M && Power(n) == 298192073
  {
    var a0 := PowerWithout9x11();
    var a1 := Mul(a0, a0, 174183716, 1794521444);
    var a2 := Mul(a1, a1, 1499572403, 40851395);
    var a3 := Mul(a2, a2, 777112, 1161558561);
    var a4 := Mul(a3, a0, 330811009, 298192073);
    n := a4;
  }

  lemma PowerWithout151() returns (n: nat)
    ensures 151 * n + 1 == M && Power(n) == 1013763951
  {
    var a0 := PowerWithout9x11x151();
    var a1 := Mul(a0, a0, 12386014, 486064926);
    var a2 := Mul(a1, a1, 110016722, 895840342);
    var a3 := Mul(a2, a2, 373707115, 124628559);
    var a4 := Mul(a3, a0, 9464952, 575197104);
    var a5 := Mul(a4, a4, 154064832, 1152184512);
    var a6 := Mul(a5, a5, 618178933, 155269493);
    var a7 := Mul(a6, a6, 11226448, 1962581193);
    var a8 := Mul(a7, a5, 1052979219, 683751123);
    var a9 := Mul(a8, a4, 183140703, 1013763951);
    n := a9;
  }

  lemma PowerWithout2x7x31x331() returns (n: nat)
    ensures 143654 * n + 1 == M && Power(n) == 1482870334
  {
    var a0 := 1;
    FirstPower();
    var a1 := Mul(a0, a0, 0, 282475249);
    var a2 := Mul(a1, a1, 37156169, 984943658);
    var a3 := Mul(a2, a2, 451744538, 1457850878);
    var a4 := Mul(a3, a0, 11409, 1458777923);
    var a5 := Mul(a4, a4, 990942600, 16531729);
    var a6 := Mul(a5, a5, 127264, 704877633);
    var a7 := Mul(a6, a6, 231364964, 824938981);
    var a8 := Mul(a7, a5, 6350533, 1908194298);
    var a9 := Mul(a8, a4, 1296229528, 578354438);
    var a10 := Mul(a9, a9, 155760839, 1358796011);
    var a11 := Mul(a10, a10, 859762821, 1113423934);
    var a12 := Mul(a11, a11, 577286285, 129154961);
    var a13 := Mul(a12, a12, 7767697, 1668560562);
    var a14 := Mul(a13, a13, 1296444959, 373670371);
    var a15 := Mul(a14, a13, 290335921, 1754324615);
    var a16 := Mul(a15, a10, 1110029076, 456590593);
    var a17 := Mul(a16, a16, 97078722, 1649432515);
    var a18 := Mul(a17, a16, 350696672, 1960008611);
    var a19 := Mul(a18, a9, 527864172, 1482870334);
    n := a19;
  }

  lemma PowerWithout331() returns (n: nat)
    ensures 331 * n + 1 == M && Power(n) == 759513457
  {
    var a0 := PowerWithout2x7x31x331();
    var a1 := Mul(a0, a0, 1023944666, 1789394654);
    var a2 := Mul(a1, a1, 1491016349, 876634913);
    var a3 := Mul(a2, a2, 357855470, 876018479);
    var a4 := Mul(a3, a2, 357603832, 1800022023);
    var a5 := Mul(a4, a1, 1499871623, 2046615961);
    var a6 := Mul(a5, a5, 1950486048, 38296465);
    var a7 := Mul(a6, a6, 682947, 1717228516);
    var a8 := Mul(a7, a7, 1373176359, 764060983);
    var a9 := Mul(a8, a6, 13625637, 2055866956);
    var a10 := Mul(a9, a9, 1968158847, 2141830927);
    var a11 := Mul(a10, a9, 2050455394, 640206294);
    var a12 := Mul(a11, a5, 610135691, 759513457);
    n := a12;
  }

  lemma PowerWithout2x7x31() returns (n: nat)
    ensures 434 * n + 1 == M && Power(n) == 1095786122
  {
    var a0 := PowerWithout2x7x31x331();
    var a1 := Mul(a0, a0, 1023944666, 1789394654);
    var a2 := Mul(a1, a1, 1491016349, 876634913);
    var a3 := Mul(a2, a2, 357855470, 876018479);
    var a4 := Mul(a3, a3, 357352372, 462812757);
    var a5 := Mul(a4, a4, 99742621, 535522262);
    var a6 := Mul(a5, a5, 133544250, 71716894);
    var a7 := Mul(a6, a1, 59758232, 731452572);
    var a8 := Mul(a7, a7, 249139436, 452612092);
    var a9 := Mul(a8, a8, 95394303, 115153423);
    var a10 := Mul(a9, a7, 39222309, 252873033);
    var a11 := Mul(a10, a0, 174612700, 1095786122);
    n := a11;
  }

  lemma PowerWithout2x7() returns (n: nat)
    ensures 14 * n + 1 == M && Power(n) == 394883873
  {
    var a0 := PowerWithout2x7x31();
    var a1 := Mul(a0, a0, 559141498, 1853715678);
    var a2 := Mul(a1, a1, 1600134100, 2105936984);
    var a3 := Mul(a2, a2, 2065194110, 1473297086);
    var a4 := Mul(a3, a1, 1271755391, 1513323331);
    var a5 := Mul(a4, a4, 1066433035, 865856916);
    var a6 := Mul(a5, a4, 610165983, 1842327195);
    var a7 := Mul(a6, a0, 940075411, 394883873);
    n := a7;
  }

  lemma PowerWithout2() returns (n: nat)
    ensures 2 * n + 1 == M && Power(n) == 2147483646
  {
    var a0 := PowerWithout2x7();
    var a1 := Mul(a0, a0, 72612088, 1600955193);
    var a2 := Mul(a1, a1, 1193516669, 894255406);
    var a3 := Mul(a2, a1, 666669959, 1205362885);
    var a4 := Mul(a3, a0, 221644697, 2147483646);
    n := a4;
  }

  lemma PowerWithout7() returns (n: nat)
    ensures 7 * n + 1 == M && Power(n) == 1600955193
  {
    var a0 := PowerWithout2x7();
    var a1 := Mul(a0, a0, 72612088, 1600955193);
    n := a1;
  }

  lemma PowerWithout31() returns (n: nat)
    ensures 31 * n + 1 == M && Power(n) == 16384
  {
    var a0 := PowerWithout2x7x31();
    var a1 := Mul(a0, a0, 559141498, 1853715678);
    var a2 := Mul(a1, a1, 1600134100, 2105936984);
    var a3 := Mul(a2, a2, 2065194110, 1473297086);
    var a4 := Mul(a3, a2, 1444793689, 1410524841);
    var a5 := Mul(a4, a1, 1217570162, 16384);
    n := a5;
  }

  lemma PowerWithout3() returns (n: nat)
    ensures 3 * n + 1 == M && Power(n) == 634005911
  {
    var a0 := PowerWithout9();
    var a1 := Mul(a0, a0, 104313067, 309107220);
    var a2 := Mul(a1, a0, 68126107, 634005911);
    n := a2;
  }

  lemma PowerOfOrder() returns (n: nat)
    ensures n + 1 == M && Power(n) == 1
  {
    var a0 := PowerWithout2();
    var a1 := Mul(a0, a0, 2147483645, 1);
    n := a1;
  }


  ghost predicate Prime(p: nat)
  {
    p >= 2 && forall x :: 1 < x < p ==> p % x != 0
  }

  /** A number below 361 with no divisor among the primes up to 17 is prime. */
  lemma SmallPrime(p: nat)
    requires 2 <= p < 361
    requires forall d :: 2 <= d <= 18 && d < p ==> p % d != 0
    ensures Prime(p)
  {
    forall x | 1 < x < p ensures p % x != 0 {
      if p % x == 0 && x > 18 {
        var q := p / x;
        assert p == q * x;
        ProductAtLeast(q, x, 19, 19);
        assert q >= 2;
        MultipleMod(q, x);
        assert false;
      }
    }
  }

  /** Euclid: a prime that divides x * d but not x divides d. */
  lemma {:induction false} Euclid(p: nat, x: nat, d: nat)
    requires Prime(p) && 0 < x < p && x * d % p == 0
    ensures d % p == 0
    decreases x
  {
    if x > 1 {
      var r, q := p % x, p / x;
      assert r > 0;
      var t := x * d / p;
      assert r * d == p * (d - q * t) by {
        assert p == q * x + r;
        assert r * d == p * d - q * (x * d);
        assert x * d == p * t;
      }
      assert r * d % p == 0 by { MultipleMod(p, d - q * t); }
      Euclid(p, r, d);
    }
  }

  lemma ProductAtLeast(x: int, y: int, a: nat, b: nat)
    ensures x >= a && y >= b ==> x * y >= a * b
  {
    if x >= a && y >= b {
      assert x * y - a * b == (x - a) * y + a * (y - b);
    }
  }

  lemma MultipleMod(p: nat, k: int)
    requires p > 0
    ensures p * k % p == 0
  {
    var x := p * k;
    var d := k - x / p;
    assert x % p == p * d by { assert x == p * (x / p) + x % p; }
    if d >= 1 { ProductAtLeast(d, p, 1, p); }
    if d <= -1 { ProductAtLeast(-d, p, 1, p); }
  }

  /** If p does not divide k, it can be stripped from the other factor. */
  lemma Strip(p: nat, k: nat, e: nat, m: nat)
    requires Prime(p) && k % p != 0 && k * e == p * m
    ensures e % p == 0 && k * (e / p) == m
  {
    var x := k % p;
    assert x * e == p * (m - (k / p) * e) by { assert k == p * (k / p) + x; }
    MultipleMod(p, m - (k / p) * e);
    Euclid(p, x, e);
    var f := e / p;
    assert e == p * f;
    assert p * (k * f) == p * m;
  }

  lemma FactorsOfOne(k: nat, e: nat)
    requires k * e == 1
    ensures k == 1
  {
    ProductAtLeast(e, k, 1, 2);
  }

  /** A divisor of M-1 other than 1 is divisible by one of the primes of M-1. */
  lemma DivisorHasPrime(k: nat, e: nat)
    requires k * e + 1 == M && k > 1
    ensures exists p :: p in {2, 3, 7, 11, 31, 151, 331} && k % p == 0
  {
    if forall p :: p in {2, 3, 7, 11, 31, 151, 331} ==> k % p != 0 {
      SmallPrime(31); SmallPrime(151); SmallPrime(331);
      Strip(2, k, e, 1073741823);
      var e1 := e / 2;
      Strip(3, k, e1, 357913941);
      var e2 := e1 / 3;
      Strip(3, k, e2, 119304647);
      var e3 := e2 / 3;
      Strip(7, k, e3, 17043521);
      var e4 := e3 / 7;
      Strip(11, k, e4, 1549411);
      var e5 := e4 / 11;
      Strip(31, k, e5, 49981);
      var e6 := e5 / 31;
      Strip(151, k, e6, 331);
      var e7 := e6 / 151;
      Strip(331, k, e7, 1);
      var e8 := e7 / 331;
      FactorsOfOne(k, e8);
    }
  }

  lemma NoPrimeWitness(p: nat) returns (n: nat)
    requires p in {2, 3, 7, 11, 31, 151, 331}
    ensures p * n + 1 == M && Power(n) != 1
  {
    if p == 2 { n := PowerWithout2(); }
    else if p == 3 { n := PowerWithout3(); }
    else if p == 7 { n := PowerWithout7(); }
    else if p == 11 { n := PowerWithout11(); }
    else if p == 31 { n := PowerWithout31(); }
    else if p == 151 { n := PowerWithout151(); }
    else { n := PowerWithout331(); }
  }

  /** The least positive exponent that gives 1, searched upward from n. */
  function Least(n: nat, bound: nat): (e: nat)
    requires 0 < n <= bound && Power(bound) == 1
    requires forall i :: 0 < i < n ==> Power(i) != 1
    ensures 0 < e <= bound && Power(e) == 1 && forall i :: 0 < i < e ==> Power(i) != 1
    decreases bound - n
  {
    if Power(n) == 1 then n else Least(n + 1, bound)
  }

  /** The order of A divides every exponent that gives 1. */
  lemma OrderDivides(e: nat, n: nat)
    requires e > 0 && Power(e) == 1 && Power(n) == 1
    requires forall i :: 0 < i < e ==> Power(i) != 1
    ensures n % e == 0
  {
    PowerOfRemainder(e, n / e, n % e);
  }

  lemma PowerOfRemainder(e: nat, k: nat, r: nat)
    requires Power(e) == 1
    ensures Power(e * k + r) == Power(r)
  {
    PowerOfMultiple(e, k);
    PowerAdd(e * k, r);
    PowerIsGood(r);
  }

  lemma QuotientAboveOne(k: nat, e: nat, n: nat)
    requires k * e == n && 0 < e < n
    ensures k > 1
  {
    ProductAtLeast(1 - k, e, 0, 0);
  }

  lemma Cofactor(p: nat, j: nat, e: nat, m: nat)
    requires p > 0 && p * m == p * j * e
    ensures m == e * j
  {
    assert p * (m - e * j) == 0;
  }

  lemma ProperDivisorIsNotOrder(e: nat, k: nat)
    requires k > 1 && k * e + 1 == M
    ensures Power(e) != 1
  {
    DivisorHasPrime(k, e);
    var p :| p in {2, 3, 7, 11, 31, 151, 331} && k % p == 0;
    var m := NoPrimeWitness(p);
    Cofactor(p, k / p, e, m);
    if Power(e) == 1 {
      PowerOfMultiple(e, k / p);
    }
  }

  /** No power of A below M-1 is 1. */
  lemma OrderIsN(d: nat)
    requires 0 < d < M - 1
    ensures Power(d) != 1
  {
    if Power(d) == 1 {
      var e := Least(1, d);
      var n := PowerOfOrder();
      OrderDivides(e, n);
      var k := n / e;
      assert k * e == n;
      QuotientAboveOne(k, e, n);
      ProperDivisorIsNotOrder(e, k);
    }
  }

  // ----- every seed is reached -----

  lemma PowerWraps(j: nat) returns (n: nat)
    ensures n + 1 == M && Power(n + j) == Power(j)
  {
    n := PowerOfOrder();
    PowerAdd(n, j);
    PowerIsGood(j);
  }

  lemma PowersDistinct(i: nat, j: nat)
    requires i < j < M - 1
    ensures Power(i) != Power(j)
  {
    if Power(i) == Power(j) {
      // Power(M - 1 - i) is the inverse of Power(i)
      var n := PowerWraps(j - i);
      n := PowerOfOrder();
      PowerAdd(i, n - i);
      PowerAdd(j, n - i);
      assert i + (n - i) == n && j + (n - i) == n + (j - i);
      OrderIsN(j - i);
    }
  }

  ghost function Powers(n: nat): set<int>
  {
    if n == 0 then {} else Powers(n - 1) + {Power(n - 1)}
  }

  ghost function Upto(n: nat): set<int>
  {
    if n == 0 then {} else Upto(n - 1) + {n}
  }

  lemma {:induction false} UptoCount(n: nat)
    ensures |Upto(n)| == n && forall x :: x in Upto(n) <==> 1 <= x <= n
  {
    if n > 0 { UptoCount(n - 1); }
  }

  /** Finds the exponent of a member of Powers(n). */
  lemma {:induction false} PowersIndex(n: nat, x: int) returns (i: nat)
    requires x in Powers(n)
    ensures i < n && Power(i) == x && Good(x)
  {
    if x == Power(n - 1) {
      i := n - 1;
      PowerIsGood(i);
    } else {
      i := PowersIndex(n - 1, x);
    }
  }

  lemma {:induction false} PowersCount(n: nat)
    requires n < M
    ensures |Powers(n)| == n
  {
    if n > 0 {
      PowersCount(n - 1);
      if Power(n - 1) in Powers(n - 1) {
        var i := PowersIndex(n - 1, Power(n - 1));
        PowersDistinct(i, n - 1);
      }
    }
  }

  lemma SubsetOfSameSize(a: set<int>, b: set<int>)
    requires a <= b && |a| == |b|
    ensures a == b
  {
    assert |b - a| == |b| - |a|;
  }

  /** The powers of A are all of [1, M-1]. */
  lemma PowerReaches(y: int) returns (i: nat)
    requires Good(y)
    ensures i < M - 1 && Power(i) == y
  {
    var n := PowerOfOrder();
    PowersCount(n);
    UptoCount(n);
    forall x | x in Powers(n) ensures x in Upto(n) {
      var _ := PowersIndex(n, x);
    }
    SubsetOfSameSize(Powers(n), Upto(n));
    i := PowersIndex(n, y);
  }

  /** From any seed the generator reaches every number of [1, M-1], in fewer than M-1 calls. */
  lemma FullCycle(s: int, y: int)
    requires Good(s) && Good(y)
    ensures exists n: nat :: n < M - 1 && Iterate(s, n) == y
  {
    var i := PowerReaches(s);
    var j := PowerReaches(y);
    var n: nat := if i <= j then j - i else M - 1 + j - i;
    IterateIsPower(s, n);
    PowerAdd(i, n);
    var w := PowerWraps(j);
    assert i + n == if i <= j then j else w + j;
    PowerIsGood(j);
    assert Iterate(s, n) == y;
  }

  /** The seed comes back after exactly M-1 calls and not before. */
  lemma ExactPeriod(s: int, n: nat)
    requires Good(s) && 0 < n <= M - 1
    ensures Iterate(s, n) == s <==> n == M - 1
  {
    IterateIsPower(s, n);
    var i := PowerReaches(s);
    PowerAdd(i, n);
    if n == M - 1 {
      var w := PowerWraps(i);
      assert i + n == w + i;
    } else if i + n < M - 1 {
      PowersDistinct(i, i + n);
    } else {
      var j: nat := i + n + 1 - M;
      var w := PowerWraps(j);
      assert i + n == w + j;
      PowersDistinct(j, i);
    }
  }
}
