/** The retry delay of the worker, in 64-bit nanoseconds as the Go code computes it. */
module Backoff {

  const SECOND := 1_000_000_000
  const BASE_SECONDS := 5
  const MAX_SECONDS := 600

  function Pow2(n: nat): (p: nat)
    ensures p >= 1
  {
    if n == 0 then 1 else 2 * Pow2(n - 1)
  }

  function Min(x: int, y: int): int {
    if x <= y then x else y
  }

  /** Two's-complement wrap-around of a 64-bit signed integer. */
  function Wrap64(x: int): int {
    (x + 0x8000_0000_0000_0000) % 0x1_0000_0000_0000_0000 - 0x8000_0000_0000_0000
  }

  /** 1 << n on a 64-bit signed integer. */
  function ShiftedOne(n: nat): int {
    if n >= 64 then 0 else Wrap64(Pow2(n))
  }

  function AtLeastOne(attempt: int): (a: nat)
    ensures a >= 1
  {
    if attempt < 1 then 1 else attempt
  }

  /** The product the code forms before it caps the delay. */
  function Product(a: nat): int
    requires a >= 1
  {
    Wrap64(BASE_SECONDS * SECOND * ShiftedOne(a - 1))
  }

  /** The capped delay in nanoseconds, before jitter. */
  function DelayNs(attempt: int): int {
    Min(Product(AtLeastOne(attempt)), MAX_SECONDS * SECOND)
  }

  /** Unix second of the next retry; jitter is a random number of nanoseconds below one second. */
  function BackoffTime(attempt: int, nowNs: int, jitter: nat): int
    requires jitter < SECOND
  {
    (nowNs + DelayNs(attempt) + jitter) / SECOND
  }

  /** The documented schedule: 5 seconds, doubling with every attempt, at most 10 minutes. */
  function Schedule(attempt: int): nat {
    Min(BASE_SECONDS * Pow2(AtLeastOne(attempt) - 1), MAX_SECONDS)
  }

  /** In seconds. */
  lemma ScheduleIs(attempt: int)
    ensures attempt <= 1 ==> Schedule(attempt) == 5
    ensures attempt == 2 ==> Schedule(attempt) == 10
    ensures attempt == 3 ==> Schedule(attempt) == 20
    ensures attempt == 4 ==> Schedule(attempt) == 40
    ensures attempt == 5 ==> Schedule(attempt) == 80
    ensures attempt == 6 ==> Schedule(attempt) == 160
    ensures attempt == 7 ==> Schedule(attempt) == 320
    ensures attempt >= 8 ==> Schedule(attempt) == 600
  {
    assert Pow2(1) == 2 && Pow2(2) == 4 && Pow2(3) == 8;
    assert Pow2(4) == 16 && Pow2(5) == 32 && Pow2(6) == 64 && Pow2(7) == 128;
    if attempt >= 8 {
      ScheduleLate(attempt);
    }
  }

  /** Doubling with wrap-around, for numbers already in range. */
  function Twice(d: int): int {
    if 2 * d >= 0x8000_0000_0000_0000 then 2 * d - 0x1_0000_0000_0000_0000
    else if 2 * d < -0x8000_0000_0000_0000 then 2 * d + 0x1_0000_0000_0000_0000
    else 2 * d
  }

  lemma TwiceWraps(x: int)
    ensures Twice(Wrap64(x)) == Wrap64(2 * x)
  {
    var m := 0x1_0000_0000_0000_0000;
    var q, r := (x + 0x8000_0000_0000_0000) / m, (x + 0x8000_0000_0000_0000) % m;
    assert 2 * x + 0x8000_0000_0000_0000 == 2 * (r - 0x8000_0000_0000_0000) + 0x8000_0000_0000_0000 + m * (2 * q);
  }

  lemma WrapShift(x: int, q: int)
    ensures Wrap64(x + q * 0x1_0000_0000_0000_0000) == Wrap64(x)
  {
  }

  lemma WrapMul(k: nat, x: int)
    ensures Wrap64(k * Wrap64(x)) == Wrap64(k * x)
  {
    var m := 0x1_0000_0000_0000_0000;
    var q := (x + 0x8000_0000_0000_0000) / m;
    WrapShift(k * Wrap64(x), k * q);
    assert Wrap64(x) == x - q * m;
    assert k * Wrap64(x) + (k * q) * m == k * x by {
      assert k * (q * m) == (k * q) * m;
    }
  }

  lemma Pow2Of30To63()
    ensures Pow2(30) == 0x4000_0000 && Pow2(55) == 0x80_0000_0000_0000 && Pow2(63) == 0x8000_0000_0000_0000
  {
    assert Pow2(8) == 256 && Pow2(16) == 65536 && Pow2(24) == 0x100_0000 && Pow2(32) == 0x1_0000_0000;
    assert Pow2(40) == 0x100_0000_0000 && Pow2(48) == 0x1_0000_0000_0000 && Pow2(56) == 0x100_0000_0000_0000;
  }

  lemma ShiftedDoubles(n: nat)
    ensures ShiftedOne(n + 1) == Twice(ShiftedOne(n))
  {
    if n == 63 {
      Pow2Of30To63();
    } else if n < 63 {
      TwiceWraps(Pow2(n));
      assert Pow2(n + 1) == 2 * Pow2(n);
    }
  }

  /** The product of the next attempt is twice this one, wrap-around included. */
  lemma ProductDoubles(a: nat)
    requires a >= 1
    ensures Product(a + 1) == Twice(Product(a))
  {
    var k, s := BASE_SECONDS * SECOND, ShiftedOne(a - 1);
    ShiftedDoubles(a - 1);
    TwiceWraps(k * s);
    WrapMul(k, 2 * s);
    WrapShift(2 * s, 0);
    assert k * (2 * s) == 2 * (k * s);
    assert Wrap64(Pow2(0)) == 1 && Twice(s) == Wrap64(2 * s);
  }

  lemma {:induction false} Pow2Grows(m: nat, n: nat)
    requires m <= n
    ensures Pow2(m) <= Pow2(n)
  {
    if m < n {
      Pow2Grows(m, n - 1);
    }
  }

  lemma ProductExact(a: nat)
    requires 1 <= a <= 31
    ensures Product(a) == BASE_SECONDS * SECOND * Pow2(a - 1)
  {
    Pow2Grows(a - 1, 30);
    Pow2Of30To63();
  }

  lemma ScheduleLate(a: nat)
    requires a >= 8
    ensures Schedule(a) == MAX_SECONDS
  {
    Pow2Grows(7, a - 1);
    assert Pow2(7) == 128;
  }

  /** The attempts past 31 whose wrapped product is positive, and therefore capped. */
  predicate LatePositive(a: int) {
    a == 33 || a == 34 || a == 36 || a == 38 || 40 <= a <= 45 || a == 47 || a == 53 || a == 54
  }

  /** The attempts at which the delay is the documented one, as proved below. */
  predicate OnSchedule(attempt: int) {
    attempt <= 31 || LatePositive(attempt)
  }

  lemma Products32To39()
    ensures Product(32) == -7709325833709551616
    ensures Product(33) == 3028092406290448384
    ensures Product(34) == 6056184812580896768
    ensures Product(35) == -6334374448547758080
    ensures Product(36) == 5777995176614035456
    ensures Product(37) == -6890753720481480704
    ensures Product(38) == 4665236632746590208
    ensures Product(39) == -9116270808216371200
  {
    ProductExact(31);
    Pow2Of30To63();
    ProductDoubles(31);
    ProductDoubles(32);
    ProductDoubles(33);
    ProductDoubles(34);
    ProductDoubles(35);
    ProductDoubles(36);
    ProductDoubles(37);
    ProductDoubles(38);
  }

  lemma Products40To47()
    ensures Product(40) == 214202457276809216
    ensures Product(41) == 428404914553618432
    ensures Product(42) == 856809829107236864
    ensures Product(43) == 1713619658214473728
    ensures Product(44) == 3427239316428947456
    ensures Product(45) == 6854478632857894912
    ensures Product(46) == -4737786807993761792
    ensures Product(47) == 8971170457722028032
  {
    Products32To39();
    ProductDoubles(39);
    ProductDoubles(40);
    ProductDoubles(41);
    ProductDoubles(42);
    ProductDoubles(43);
    ProductDoubles(44);
    ProductDoubles(45);
    ProductDoubles(46);
  }

  lemma Products48To55()
    ensures Product(48) == -504403158265495552
    ensures Product(49) == -1008806316530991104
    ensures Product(50) == -2017612633061982208
    ensures Product(51) == -4035225266123964416
    ensures Product(52) == -8070450532247928832
    ensures Product(53) == 2305843009213693952
    ensures Product(54) == 4611686018427387904
    ensures Product(55) == -9223372036854775808
  {
    Products40To47();
    ProductDoubles(47);
    ProductDoubles(48);
    ProductDoubles(49);
    ProductDoubles(50);
    ProductDoubles(51);
    ProductDoubles(52);
    ProductDoubles(53);
    ProductDoubles(54);
  }

  /** From attempt 56 on the wrapped delay is zero: the row may be leased again within two seconds. */
  lemma {:induction false} NoDelayFrom56(a: nat)
    requires a >= 56
    ensures Product(a) == 0 && DelayNs(a) == 0
  {
    if a == 56 {
      Pow2Of30To63();
    } else {
      ProductDoubles(a - 1);
      NoDelayFrom56(a - 1);
    }
  }

  function ProductAt(a: int): int {
    if a >= 1 then Product(a) else 0
  }

  lemma Signs32To39(f: int -> int, a: int)
    requires 32 <= a <= 39
    requires f(32) == -7709325833709551616
    requires f(33) == 3028092406290448384
    requires f(34) == 6056184812580896768
    requires f(35) == -6334374448547758080
    requires f(36) == 5777995176614035456
    requires f(37) == -6890753720481480704
    requires f(38) == 4665236632746590208
    requires f(39) == -9116270808216371200
    ensures if LatePositive(a) then f(a) >= MAX_SECONDS * SECOND else f(a) <= 0
  {
  }

  lemma Signs40To47(f: int -> int, a: int)
    requires 40 <= a <= 47
    requires f(40) == 214202457276809216
    requires f(41) == 428404914553618432
    requires f(42) == 856809829107236864
    requires f(43) == 1713619658214473728
    requires f(44) == 3427239316428947456
    requires f(45) == 6854478632857894912
    requires f(46) == -4737786807993761792
    requires f(47) == 8971170457722028032
    ensures if LatePositive(a) then f(a) >= MAX_SECONDS * SECOND else f(a) <= 0
  {
  }

  lemma Signs48To55(f: int -> int, a: int)
    requires 48 <= a <= 55
    requires f(48) == -504403158265495552
    requires f(49) == -1008806316530991104
    requires f(50) == -2017612633061982208
    requires f(51) == -4035225266123964416
    requires f(52) == -8070450532247928832
    requires f(53) == 2305843009213693952
    requires f(54) == 4611686018427387904
    requires f(55) == -9223372036854775808
    ensures if LatePositive(a) then f(a) >= MAX_SECONDS * SECOND else f(a) <= 0
  {
  }

  lemma LateProducts(a: nat)
    requires a >= 32
    ensures if LatePositive(a) then Product(a) >= MAX_SECONDS * SECOND else Product(a) <= 0
  {
    if a <= 39 {
      Products32To39();
      Signs32To39(ProductAt, a);
    } else if a <= 47 {
      Products40To47();
      Signs40To47(ProductAt, a);
    } else if a <= 55 {
      Products48To55();
      Signs48To55(ProductAt, a);
    } else {
      NoDelayFrom56(a);
    }
  }

  /** The computed delay is the documented one exactly up to attempt 31 and at thirteen later attempts. */
  lemma DelayIsScheduleIff(attempt: int)
    ensures DelayNs(attempt) == Schedule(attempt) * SECOND <==> OnSchedule(attempt)
  {
    var a := AtLeastOne(attempt);
    if a <= 31 {
      ProductExact(a);
    } else {
      ScheduleLate(a);
      LateProducts(a);
    }
  }

  /** So it is the documented one up to attempt 31 and not at attempt 32, where the delay is negative. */
  lemma OnScheduleUpTo31(attempt: int)
    ensures attempt <= 31 ==> DelayNs(attempt) == Schedule(attempt) * SECOND
    ensures DelayNs(32) == -7709325833709551616
  {
    DelayIsScheduleIff(attempt);
    Products32To39();
  }

  lemma ScheduleMonotone(a: int, b: int)
    requires a <= b
    ensures BASE_SECONDS <= Schedule(a) <= Schedule(b) <= MAX_SECONDS
  {
    Pow2Grows(0, AtLeastOne(a) - 1);
    Pow2Grows(AtLeastOne(a) - 1, AtLeastOne(b) - 1);
  }

  /** The returned second is the scheduled delay after the current second, up to one more for the jitter. */
  lemma BackoffWindow(attempt: int, nowNs: int, jitter: nat)
    requires jitter < SECOND && OnSchedule(attempt)
    ensures nowNs / SECOND + Schedule(attempt)
         <= BackoffTime(attempt, nowNs, jitter)
         <= nowNs / SECOND + Schedule(attempt) + 1
  {
    DelayIsScheduleIff(attempt);
    var s, f := nowNs / SECOND, nowNs % SECOND;
    assert nowNs + DelayNs(attempt) + jitter == (s + Schedule(attempt)) * SECOND + (f + jitter);
  }
}
