/** The period of the generator of lib/bayesopt/sobol/sobol.cpp: 16807 has the order 2^31 - 2 modulo 2^31 - 1, so that
    every seed from 1 to 2^31 - 2 leads to every other before it comes back. */
module GeneratorPeriod {
  import opened Residues
  import opened UniformGenerator

  const PERIOD := 2147483646

  lemma {:induction false} PowerAdds(m: nat, n: nat)
    ensures Power(m + n) == Power(m) * Power(n)
  {
    if m > 0 {
      PowerAdds(m - 1, n);
      FactorOut(Power(m - 1), Power(n));
    }
  }

  lemma FactorOut(a: int, b: int)
    ensures MULTIPLIER * (a * b) == (MULTIPLIER * a) * b
  {
  }

  /** Congruent factors have congruent products. */
  lemma ProductsCongruent(a: int, b: int, a': int, b': int)
    requires a % MODULUS == a' % MODULUS && b % MODULUS == b' % MODULUS
    ensures a * b % MODULUS == a' * b' % MODULUS
  {
    ProductModulo(a, b);
    ProductModulo(a, b');
    ProductModulo(b', a);
    ProductModulo(b', a');
    assert a * b' == b' * a && a' * b' == b' * a';
  }

  // ----- the powers that are one

  ghost predicate PowerIs(n: nat, a: int) {
    Power(n) % MODULUS == a
  }

  ghost predicate IsOne(n: nat) {
    PowerIs(n, 1)
  }

  /** The same fact, without its meaning in the proofs about numbers below. */
  ghost predicate Known(n: nat, a: int) {
    PowerIs(n, a)
  }

  /** The product of two powers, with the quotient k that takes it to its remainder c. */
  lemma Multiply(m: nat, n: nat, a: int, b: int, k: int, c: int)
    requires Known(m, a) && Known(n, b) && a * b == 2147483647 * k + c && 0 <= c < 2147483647
    ensures Known(m + n, c)
  {
    PowerAdds(m, n);
    SmallRemainder(a);
    SmallRemainder(b);
    hide Power;
    ProductsCongruent(Power(m), Power(n), a, b);
    UniformGenerator.RemainderIs(a * b, k, c);
  }

  lemma Double(n: nat, a: int, k: int, c: int)
    requires Known(n, a) && a * a == 2147483647 * k + c && 0 <= c < 2147483647
    ensures Known(2 * n, c)
  {
    Multiply(n, n, a, a, k, c);
  }

  lemma FirstPower()
    ensures Known(1, 16807) && Known(0, 1)
  {
    assert Power(0) == 1;
  }

  /** Equal powers differ by a power that is one. */
  lemma PowersCancel(m: nat, n: nat)
    ensures Power(m + n) % MODULUS == Power(n) % MODULUS <==> IsOne(m)
  {
    if IsOne(m) {
      PowerAdds(m, n);
      ProductsCongruent(Power(m), Power(n), 1, Power(n));
    }
    if Power(m + n) % MODULUS == Power(n) % MODULUS {
      PowersCancelAll(m, n);
    }
  }

  lemma {:induction false} PowersCancelAll(m: nat, n: nat)
    requires Power(m + n) % MODULUS == Power(n) % MODULUS
    ensures IsOne(m)
  {
    if n > 0 {
      CancelStep(Power(m + n - 1), Power(n - 1));
      PowersCancelAll(m, n - 1);
    }
  }

  /** The step of the generator can be undone. */
  lemma CancelStep(a: nat, b: nat)
    requires MULTIPLIER * a % MODULUS == MULTIPLIER * b % MODULUS
    ensures a % MODULUS == b % MODULUS
  {
    ProductModulo(MULTIPLIER, a);
    ProductModulo(MULTIPLIER, b);
    StepIsInvertible(a % MODULUS);
    StepIsInvertible(b % MODULUS);
  }

  lemma OnesClosed()
    ensures Closed(IsOne)
  {
    forall a: nat, b: nat | IsOne(a) && IsOne(b) && b <= a ensures IsOne(a - b) {
      PowersCancel(a - b, b);
    }
  }

  // ----- the order

  /** The primes that make up 2^31 - 2. */
  function Primes(): seq<nat> {
    [2, 3, 3, 7, 11, 31, 151, 331]
  }

  lemma ArePrimes()
    ensures forall q | q in Primes() :: IsPrime(q)
  {
    hide IsPrime;
    UndividedIsPrime(2, 1);
    UndividedIsPrime(3, 1);
    UndividedIsPrime(7, 2);
    UndividedIsPrime(11, 3);
    UndividedIsPrime(31, 5);
    assert Undivided(151, 6);
    UndividedIsPrime(151, 12);
    assert Undivided(331, 6);
    assert Undivided(331, 12);
    UndividedIsPrime(331, 18);
  }

  lemma ProductOfPrimes()
    ensures Product(Primes()) == PERIOD
  {
    assert Primes()[1..] == [3, 3, 7, 11, 31, 151, 331];
    assert Primes()[1..][1..] == [3, 7, 11, 31, 151, 331];
    assert [3, 7, 11, 31, 151, 331][1..] == [7, 11, 31, 151, 331];
    assert [7, 11, 31, 151, 331][1..] == [11, 31, 151, 331];
    assert [11, 31, 151, 331][1..] == [31, 151, 331];
    assert [31, 151, 331][1..] == [151, 331];
    assert [151, 331][1..] == [331];
    assert [331][1..] == [];
  }

  // ----- the powers that decide it

  /** The powers of two up to 2^16. */
  lemma FirstSquares()
    ensures Known(2, 282475249) && Known(65536, 1682791109)
    ensures Known(1, 16807)
  {
    hide PowerIs;
    FirstPower();
    Double(1, 16807, 0, 282475249);
    Double(2, 282475249, 37156169, 984943658);
    Double(4, 984943658, 451744538, 1457850878);
    Double(8, 1457850878, 989683523, 1137522503);
    Double(16, 1137522503, 602545889, 1636807826);
    Double(32, 1636807826, 1247571716, 685118024);
    Double(64, 685118024, 218575218, 515204530);
    Double(128, 515204530, 123603133, 897054849);
    Double(256, 897054849, 374721084, 2038299453);
    Double(512, 2038299453, 1934666494, 1836275591);
    Double(1024, 1836275591, 1570167042, 349037107);
    Double(2048, 349037107, 56730072, 149796865);
    Double(4096, 149796865, 10449020, 1186652285);
    Double(8192, 1186652285, 655717982, 2106880871);
    Double(16384, 2106880871, 2067045777, 877809922);
    Double(32768, 877809922, 358815425, 1682791109);
  }

  lemma LaterSquares()
    ensures Known(1073741824, 2147466840) && Known(2147483648, 282475249)
  {
    hide PowerIs;
    FirstSquares();
    Double(65536, 1682791109, 1318653075, 1900685356);
    Double(131072, 1900685356, 1682250212, 2080563572);
    Double(262144, 2080563572, 2015728866, 612544882);
    Double(524288, 612544882, 174721345, 1295048709);
    Double(1048576, 1295048709, 780984367, 1987420232);
    Double(2097152, 1987420232, 1839287197, 868966365);
    Double(4194304, 868966365, 351622022, 1331238991);
    Double(8388608, 1331238991, 825243653, 1550655590);
    Double(16777216, 1550655590, 1119697820, 766698560);
    Double(33554432, 766698560, 273728129, 1154667137);
    Double(67108864, 1154667137, 620845797, 901595110);
    Double(134217728, 901595110, 378523833, 1008653149);
    Double(268435456, 1008653149, 473755027, 1821072732);
    Double(536870912, 1821072732, 1544275272, 2147466840);
    Double(1073741824, 2147466840, 2147450033, 282475249);
  }

  lemma AboveSquare()
    ensures Known(65538, 826450001)
  {
    hide PowerIs;
    FirstSquares();
    Multiply(65536, 2, 1682791109, 282475249, 221350620, 826450001);
  }

  /** The exponents (2^31 - 2) / 151, / 31 and / 7. */
  lemma PowersAbove()
    ensures Known(14221746, 1013763951)
    ensures Known(69273666, 16384)
    ensures Known(306783378, 1600955193)
  {
    hide PowerIs;
    AboveSquare();
    Double(65538, 826450001, 318055788, 589201165);
    Double(131076, 589201165, 161658047, 498899816);
    Double(262152, 498899816, 115903572, 905946772);
    Double(524304, 905946772, 382186637, 637794845);
    Double(1048608, 637794845, 189422752, 2018837481);
    Double(2097216, 2018837481, 1897897932, 2045307357);
    Double(4194432, 2045307357, 1947992568, 340789953);
    Double(8388864, 340789953, 54080873, 1682758378);
    Double(16777728, 1682758378, 1318601779, 1421582871);
    Double(33555456, 1421582871, 941053899, 72512988);
    Double(67110912, 72512988, 2448509, 391655821);
    Double(134221824, 391655821, 71429778, 1959343675);
    Multiply(65538, 524304, 826450001, 905946772, 348649784, 955264524);
    Multiply(589842, 1048608, 955264524, 637794845, 283710094, 1664745962);
    Multiply(1638450, 4194432, 1664745962, 2045307357, 1585538110, 694355264);
    Multiply(5832882, 8388864, 694355264, 340789953, 110189103, 1013763951);
    Multiply(65538, 2097216, 826450001, 2018837481, 776941067, 2126056132);
    Multiply(2162754, 67110912, 2126056132, 72512988, 71789456, 16384);
    Multiply(65538, 524304, 826450001, 905946772, 348649784, 955264524);
    Multiply(589842, 4194432, 955264524, 2045307357, 909813474, 1583043390);
    Multiply(4784274, 33555456, 1583043390, 1421582871, 1047936905, 698480155);
    Multiply(38339730, 268443648, 698480155, 1959343675, 637286656, 1600955193);
  }

  /** The exponent 2^16 - 2 is 14 times 31 times 151. */
  lemma BelowFirst()
    ensures Known(14, 74243042)
  {
    hide PowerIs;
    FirstPower();
    Double(1, 16807, 0, 282475249);
    Double(2, 282475249, 37156169, 984943658);
    Double(4, 984943658, 451744538, 1457850878);
    Multiply(2, 4, 282475249, 984943658, 129557310, 470211272);
    Multiply(6, 8, 470211272, 1457850878, 319209842, 74243042);
  }

  lemma BelowSecond()
    ensures Known(434, 2119315080)
  {
    hide PowerIs;
    BelowFirst();
    Double(14, 74243042, 2566738, 1404280278);
    Double(28, 1404280278, 918285502, 357571490);
    Double(56, 357571490, 59538227, 1606946231);
    Double(112, 1606946231, 1202466055, 140002776);
    Multiply(14, 28, 74243042, 1404280278, 48548932, 2110010672);
    Multiply(42, 56, 2110010672, 357571490, 351331969, 1807130337);
    Multiply(98, 112, 1807130337, 1606946231, 1352262350, 889119397);
    Multiply(210, 224, 889119397, 140002776, 57965136, 2119315080);
  }

  lemma BelowSquare()
    ensures Known(65534, 984924185)
  {
    hide PowerIs;
    BelowSecond();
    Double(434, 2119315080, 2091516000, 876554400);
    Double(868, 876554400, 357789740, 444978220);
    Double(1736, 444978220, 92203550, 454021550);
    Double(3472, 454021550, 95989353, 2010792109);
    Double(6944, 2010792109, 1882801254, 2100574543);
    Double(13888, 2100574543, 2054690109, 1969511326);
    Double(27776, 1969511326, 1806288429, 199457713);
    Multiply(434, 868, 2119315080, 876554400, 865056626, 296356978);
    Multiply(1302, 1736, 296356978, 444978220, 61407871, 1785433623);
    Multiply(3038, 6944, 1785433623, 2010792109, 1671787277, 1651521688);
    Multiply(9982, 55552, 1651521688, 199457713, 153392897, 984924185);
  }

  /** The exponents (2^31 - 2) / 331, / 11 and / 3. */
  lemma PowerBelow331()
    ensures Known(6487866, 759513457)
  {
    hide PowerIs;
    BelowSquare();
    Double(65534, 984924185, 451726676, 574246853);
    Double(131068, 574246853, 153556209, 457589386);
    Double(262136, 457589386, 97503907, 378748167);
    Double(524272, 378748167, 66799192, 1553046665);
    Double(1048544, 1553046665, 1123153578, 1843083259);
    Double(2097088, 1843083259, 1581830857, 1878565602);
    Multiply(65534, 131068, 984924185, 574246853, 263373187, 1539066816);
    Multiply(196602, 2097088, 1539066816, 1843083259, 1320907978, 1105197578);
    Multiply(2293690, 4194176, 1105197578, 1878565602, 966799517, 759513457);
  }

  lemma PowerBelow11()
    ensures Known(195225786, 298192073)
  {
    hide PowerIs;
    BelowSquare();
    Double(65534, 984924185, 451726676, 574246853);
    Double(131068, 574246853, 153556209, 457589386);
    Double(262136, 457589386, 97503907, 378748167);
    Double(524272, 378748167, 66799192, 1553046665);
    Double(1048544, 1553046665, 1123153578, 1843083259);
    Double(2097088, 1843083259, 1581830857, 1878565602);
    Double(4194176, 1878565602, 1643322744, 1534455036);
    Double(8388352, 1534455036, 1096423835, 1662235051);
    Double(16776704, 1662235051, 1286633948, 1767924245);
    Double(33553408, 1767924245, 1455450494, 1175748407);
    Double(67106816, 1175748407, 643722860, 1512967229);
    Multiply(65534, 131068, 984924185, 574246853, 263373187, 1539066816);
    Multiply(196602, 2097088, 1539066816, 1843083259, 1320907978, 1105197578);
    Multiply(2293690, 8388352, 1105197578, 1534455036, 789703796, 1453278796);
    Multiply(10682042, 16776704, 1453278796, 1662235051, 1124893759, 1521419523);
    Multiply(27458746, 33553408, 1521419523, 1767924245, 1252514525, 1460562460);
    Multiply(61012154, 134213632, 1460562460, 1512967229, 1029010461, 298192073);
  }

  lemma PowerBelow3()
    ensures Known(715827882, 634005911)
  {
    hide PowerIs;
    BelowSquare();
    Double(65534, 984924185, 451726676, 574246853);
    Double(131068, 574246853, 153556209, 457589386);
    Double(262136, 457589386, 97503907, 378748167);
    Double(524272, 378748167, 66799192, 1553046665);
    Double(1048544, 1553046665, 1123153578, 1843083259);
    Double(2097088, 1843083259, 1581830857, 1878565602);
    Double(4194176, 1878565602, 1643322744, 1534455036);
    Double(8388352, 1534455036, 1096423835, 1662235051);
    Double(16776704, 1662235051, 1286633948, 1767924245);
    Double(33553408, 1767924245, 1455450494, 1175748407);
    Double(67106816, 1175748407, 643722860, 1512967229);
    Double(134213632, 1512967229, 1065931207, 168466512);
    Double(268427264, 168466512, 13215917, 27836845);
    Multiply(65534, 131068, 984924185, 574246853, 263373187, 1539066816);
    Multiply(196602, 524272, 1539066816, 378748167, 271442688, 1872803136);
    Multiply(720874, 2097088, 1872803136, 1843083259, 1607338017, 655392225);
    Multiply(2817962, 8388352, 655392225, 1534455036, 468301540, 1191578720);
    Multiply(11206314, 33553408, 1191578720, 1767924245, 980971804, 1655977212);
    Multiply(44759722, 134213632, 1655977212, 1512967229, 1166686068, 1514055552);
    Multiply(178973354, 536854528, 1514055552, 27836845, 19626007, 634005911);
  }

  /** The power with exponent 2^31 - 2 is one, and half this exponent does not give one. */
  lemma FullPower()
    ensures IsOne(PERIOD) && !IsOne(1073741823)
  {
    hide Power;
    FirstSquares();
    LaterSquares();
    PowersCancel(PERIOD, 2);
    PowersCancel(1073741823, 1);
  }

  /** Nor does the exponent divided by another of the primes. */
  lemma SmallerPowers(q: nat)
    requires q in Primes()
    ensures PERIOD % q == 0 && !IsOne(PERIOD / q)
  {
    hide Power;
    FullPower();
    PowersAbove();
    PowerBelow331();
    PowerBelow11();
    PowerBelow3();
  }

  lemma {:induction false} OnesMultiply(d: nat, c: nat)
    requires IsOne(d)
    ensures IsOne(d * c)
  {
    if c == 0 {
      FirstPower();
    } else {
      OnesMultiply(d, c - 1);
      hide Power;
      assert d * c == d + d * (c - 1);
      Multiply(d, d * (c - 1), 1, 1, 0, 1);
    }
  }

  /** A divisor of 2^31 - 2 whose power is one is 2^31 - 2 itself. */
  lemma LeastIsPeriod(d: nat, e: nat)
    requires IsOne(d) && PERIOD == d * e
    ensures d == PERIOD
  {
    hide IsOne, IsPrime, Primes, Product;
    ArePrimes();
    ProductOfPrimes();
    SomePrimeDivides(Primes(), d, e);
    if e != 1 {
      var q :| q in Primes() && Divides(q, e);
      var c: nat :| e == q * c;
      OnesMultiply(d, c);
      CommonFactor(d, q, c);
    }
  }

  lemma CommonFactor(d: nat, q: nat, c: nat)
    requires q in Primes() && PERIOD == d * (q * c)
    ensures !IsOne(d * c)
  {
    hide IsOne;
    SmallerPowers(q);
    assert d * (q * c) == q * (d * c);
    Residues.RemainderIs(q, d * c, 0);
  }

  /** The order of 16807 is 2^31 - 2. */
  lemma OrderIsPeriod(n: nat)
    ensures IsOne(n) <==> n % PERIOD == 0
  {
    hide IsOne;
    FullPower();
    OnesClosed();
    var d := LeastExists(IsOne, PERIOD);
    LeastDivides(IsOne, d, PERIOD);
    var e: nat :| PERIOD == d * e;
    LeastIsPeriod(d, e);
    if IsOne(n) {
      LeastDivides(IsOne, d, n);
    }
    DividesIff(PERIOD, n);
    if k: nat :| n == PERIOD * k {
      OnesMultiply(PERIOD, k);
    }
  }

  // ----- the seeds that are reached

  lemma {:induction false} PowerIsNotZero(n: nat)
    ensures 0 < Power(n) % MODULUS <= PERIOD
  {
    if n > 0 {
      PowerIsNotZero(n - 1);
      ZeroIff(Power(n - 1));
    }
  }

  ghost function FirstPowers(m: nat): set<int> {
    if m == 0 then {} else FirstPowers(m - 1) + {Power(m - 1) % MODULUS}
  }

  lemma {:induction false} InFirstPowers(m: nat, r: int)
    ensures r in FirstPowers(m) <==> exists k: nat :: k < m && PowerIs(k, r)
  {
    if m > 0 {
      hide Power;
      InFirstPowers(m - 1, r);
      assert r == Power(m - 1) % MODULUS <==> PowerIs(m - 1, r);
    }
  }

  /** The powers before the period are different. */
  lemma {:induction false} FirstPowersDiffer(m: nat)
    requires m <= PERIOD
    ensures |FirstPowers(m)| == m
  {
    if m > 0 {
      FirstPowersDiffer(m - 1);
      var r := Power(m - 1) % MODULUS;
      InFirstPowers(m - 1, r);
      forall k: nat | k < m - 1 ensures !PowerIs(k, r) {
        PowersCancel(m - 1 - k, k);
        OrderIsPeriod(m - 1 - k);
      }
    }
  }

  predicate InRange(x: int, n: nat) {
    0 < x <= n
  }

  function UpTo(n: nat): set<int> {
    set x: int | 0 < x <= n && InRange(x, n)
  }

  lemma {:induction false} UpToSize(n: nat)
    ensures |UpTo(n)| == n
  {
    if n > 0 {
      UpToSize(n - 1);
      assert UpTo(n) == UpTo(n - 1) + {n};
    }
  }

  lemma SameSize(s: set<int>, t: set<int>)
    requires s <= t && |s| == |t|
    ensures s == t
  {
    assert t == s + (t - s);
    assert |t| == |s| + |t - s|;
  }

  /** Every number from 1 to 2^31 - 2 is a power of 16807. */
  lemma EveryPower(r: int) returns (k: nat)
    requires 0 < r <= PERIOD
    ensures k < PERIOD && PowerIs(k, r)
  {
    hide FirstPowers, PowerIs, UpTo;
    var m: nat := PERIOD;
    FirstPowersDiffer(m);
    UpToSize(m);
    forall x | x in FirstPowers(m) ensures x in UpTo(m) {
      InFirstPowers(m, x);
      var k: nat :| k < m && PowerIs(k, x);
      PowerInRange(k, x);
    }
    SameSize(FirstPowers(m), UpTo(m));
    assert r in UpTo(m) by { RangeOf(r, m); }
    InFirstPowers(m, r);
    k :| k < m && PowerIs(k, r);
  }

  lemma PowerInRange(k: nat, x: int)
    requires PowerIs(k, x)
    ensures x in UpTo(PERIOD)
  {
    PowerIsNotZero(k);
  }

  lemma RangeOf(r: int, m: nat)
    requires 0 < r <= m
    ensures r in UpTo(m)
  {
  }

  lemma SeedsArePowers(seed: int, k: nat, n: nat)
    requires PowerIs(k, seed)
    ensures PowerIs(n + k, SeedAfter(seed, n))
  {
    hide Power;
    SeedIsPower(seed, n);
    PowerAdds(n, k);
    SmallRemainder(seed);
    ProductsCongruent(Power(n), seed, Power(n), Power(k));
    SeedIsSmall(seed, n);
  }

  lemma SeedIsSmall(seed: int, n: nat)
    requires 0 <= seed < MODULUS
    ensures SeedAfter(seed, n) % MODULUS == SeedAfter(seed, n)
  {
  }

  /** A run comes back to its seed exactly after the multiples of 2^31 - 2 draws. */
  lemma FullPeriod(seed: int, n: nat)
    requires 0 < seed < MODULUS
    ensures SeedAfter(seed, n) == seed <==> n % PERIOD == 0
  {
    var k := EveryPower(seed);
    SeedsArePowers(seed, k, n);
    PowersCancel(n, k);
    OrderIsPeriod(n);
  }

  /** From every seed it reaches every other in between. */
  lemma EverySeedReached(seed: int, target: int) returns (n: nat)
    requires 0 < seed < MODULUS && 0 < target < MODULUS
    ensures n < PERIOD && SeedAfter(seed, n) == target
  {
    hide Power;
    var k := EveryPower(seed);
    var l := EveryPower(target);
    n := if l >= k then l - k else l + PERIOD - k;
    SeedsArePowers(seed, k, n);
    if l < k {
      FullPower();
      PowersCancel(PERIOD, l);
    }
  }
}
