/**
  The cardinality estimate over exact reals: harmonic mean of the registers,
  with linear counting while registers are still zero and the raw value is small.
  Floating-point rounding is not modelled.
 */
module Estimate {
  import opened Base
  import opened Lattice
  import opened Logarithm

  const M: real := 16384.0
  const ALPHA_MM: real := (0.7213 / (1.0 + 1.079 / M)) * M * M

  /** 2 to the power -v. */
  function InvPow2(v: nat): (p: real)
    ensures 0.0 < p <= 1.0
  {
    if v == 0 then 1.0 else InvPow2(v - 1) / 2.0
  }

  function HarmonicSum(r: seq<byte>): (s: real)
    ensures s >= 0.0 && (r != [] ==> s > 0.0)
  {
    if r == [] then 0.0 else HarmonicSum(r[..|r| - 1]) + InvPow2(r[|r| - 1])
  }

  function Zeros(r: seq<byte>): (z: nat)
    ensures z <= |r|
  {
    if r == [] then 0 else Zeros(r[..|r| - 1]) + if r[|r| - 1] == 0 then 1 else 0
  }

  function Raw(r: Regs): real
  {
    ALPHA_MM / HarmonicSum(r)
  }

  predicate SmallRange(r: Regs)
  {
    Raw(r) <= 2.5 * M && Zeros(r) > 0
  }

  function LinearCount(ln: real -> real, r: Regs): real
    requires Zeros(r) > 0
  {
    M * ln(M / Zeros(r) as real)
  }

  function Estimated(ln: real -> real, r: Regs): real
  {
    if SmallRange(r) then LinearCount(ln, r) else Raw(r)
  }

  /** math.Round for the non-negative estimates that occur. */
  function Rounded(x: real): (n: int)
    ensures n as real - 0.5 <= x < n as real + 0.5
  {
    (x + 0.5).Floor
  }

  // ---- monotone parts ----------------------------------------------------

  lemma {:induction false} InvPow2Antitone(a: nat, b: nat)
    requires a <= b
    ensures InvPow2(b) <= InvPow2(a)
    decreases b
  {
    if a < b {
      InvPow2Antitone(a, b - 1);
    }
  }

  lemma {:induction false} SumsMonotone(a: seq<byte>, b: seq<byte>)
    requires |a| == |b| && forall i | 0 <= i < |a| :: a[i] <= b[i]
    ensures HarmonicSum(b) <= HarmonicSum(a) && Zeros(b) <= Zeros(a)
    decreases |a|
  {
    if a != [] {
      var n := |a| - 1;
      SumsMonotone(a[..n], b[..n]);
      InvPow2Antitone(a[n], b[n]);
    }
  }

  lemma ProductMonotone(x: real, y: real, c: real)
    requires x <= y && c >= 0.0
    ensures x * c <= y * c
  {
  }

  lemma QuotientPositive(c: real, x: real)
    requires c > 0.0 && x > 0.0
    ensures c / x > 0.0
  {
    assert c / x * x == c;
  }

  lemma QuotientAntitone(c: real, x: real, y: real)
    requires c >= 0.0 && 0.0 < x <= y
    ensures c / y <= c / x
  {
  }

  lemma AlphaBounds()
    ensures 0.7212 * M * M < ALPHA_MM < 0.7213 * M * M
  {
  }

  /** Adding and merging only ever raise the raw estimate, and only ever lower the number of empty registers. */
  lemma RawMonotone(a: Regs, b: Regs)
    requires LeqRegs(a, b)
    ensures 0.0 < Raw(a) <= Raw(b) && Zeros(b) <= Zeros(a)
  {
    SumsMonotone(a, b);
    AlphaBounds();
    QuotientAntitone(ALPHA_MM, HarmonicSum(b), HarmonicSum(a));
    QuotientPositive(ALPHA_MM, HarmonicSum(a));
  }

  lemma LinearCountMonotone(ln: real -> real, a: Regs, b: Regs)
    requires IsLn(ln) && LeqRegs(a, b) && Zeros(b) > 0
    ensures Zeros(a) > 0 && LinearCount(ln, a) <= LinearCount(ln, b)
  {
    RawMonotone(a, b);
    var za, zb := Zeros(a) as real, Zeros(b) as real;
    QuotientAntitone(M, zb, za);
    QuotientAntitone(M, za, M);
    LnMonotone(ln, M / za, M / zb);
  }

  // ---- what linear counting computes -------------------------------------

  lemma Cancel(p: real, q: real, c: real)
    requires c > 0.0 && p * c == q * c
    ensures p == q
  {
  }

  /** p is c / z, q is z / x: their product is c / x. */
  lemma ChainQuotients(p: real, q: real, x: real, z: real, c: real)
    requires p * z == c && q * x == z
    ensures (p * q) * x == c
  {
    assert (p * q) * x == p * (q * x);
  }

  lemma LogOfProduct(ln: real -> real, x: real, y: real, z: real)
    requires IsLn(ln) && x > 0.0 && y > 0.0 && x * y == z
    ensures ln(z) == ln(x) + ln(y)
  {
    assert LogProduct(ln, x, y);
  }

  lemma QuotientsMultiply(za: real, zb: real, zc: real)
    requires za > 0.0 && zb > 0.0 && zc > 0.0 && za * zb == M * zc
    ensures (M / za) * (M / zb) == M / zc
  {
    var x, y, z := M / za, M / zb, M / zc;
    assert x * za == M && y * zb == M && z * zc == M;
    var p := x * y;
    calc {
      M * (p * zc);
      p * (M * zc);
      (x * y) * (za * zb);
      (x * za) * (y * zb);
      M * M;
    }
    Cancel(p, z, zc);
  }

  lemma LogOfQuotients(ln: real -> real, za: real, zb: real, zc: real)
    requires IsLn(ln) && za > 0.0 && zb > 0.0 && zc > 0.0 && za * zb == M * zc
    ensures M * ln(M / za) + M * ln(M / zb) == M * ln(M / zc)
  {
    QuotientsMultiply(za, zb, zc);
    QuotientPositive(M, za);
    QuotientPositive(M, zb);
    LogOfProduct(ln, M / za, M / zb, M / zc);
  }

  lemma InverseOf(z: real, w: real)
    requires z > 0.0 && w > 0.0
    ensures 1.0 / (w / z) == z / w
  {
    QuotientPositive(w, z);
    var q, t := w / z, z / w;
    assert q * z == w && t * w == z && (1.0 / q) * q == 1.0;
    ChainQuotients(t, q, z, w, z);
    Cancel(t * q, 1.0, z);
    Cancel(t, 1.0 / q, q);
  }

  lemma RatioOf(z: real, w: real)
    requires z > 0.0 && w > 0.0
    ensures (M / w) * (w / z) == M / z
  {
    var x, y, q := M / z, M / w, w / z;
    assert x * z == M && y * w == M && q * z == w;
    ChainQuotients(y, q, z, w, M);
    Cancel(y * q, x, z);
  }

  /** The logarithm of a ratio lies between its tangent bounds. */
  lemma LogGap(ln: real -> real, z: real, w: real)
    requires IsLn(ln) && z > 0.0 && w > 0.0
    ensures 1.0 - z / w <= ln(M / z) - ln(M / w) <= w / z - 1.0
  {
    RatioOf(z, w);
    InverseOf(z, w);
    QuotientPositive(M, w);
    QuotientPositive(w, z);
    LogOfProduct(ln, M / w, w / z, M / z);
    assert LogBounds(ln, w / z);
  }

  /**
    In the small range, with z, w and v the numbers of empty registers: empty
    fractions that multiply have estimates that add up, ...
   */
  lemma EstimateAdds(ln: real -> real, a: Regs, b: Regs, c: Regs, z: real, w: real, v: real)
    requires IsLn(ln) && SmallRange(a) && SmallRange(b) && SmallRange(c)
    requires z == Zeros(a) as real && w == Zeros(b) as real && v == Zeros(c) as real && z * w == M * v
    ensures Estimated(ln, a) + Estimated(ln, b) == Estimated(ln, c)
  {
    LogOfQuotients(ln, z, w, v);
  }

  /** ... two estimates are as far apart as the ratio of the empty counts allows, ... */
  lemma EstimateGap(ln: real -> real, a: Regs, b: Regs, z: real, w: real)
    requires IsLn(ln) && SmallRange(a) && SmallRange(b) && z == Zeros(a) as real && w == Zeros(b) as real
    ensures M * (1.0 - z / w) <= Estimated(ln, a) - Estimated(ln, b) <= M * (w / z - 1.0)
  {
    LogGap(ln, z, w);
  }

  /** ... and an estimate is at least the number of occupied registers and at most M / z times that. */
  lemma EstimateBounds(ln: real -> real, r: Regs, z: real)
    requires IsLn(ln) && SmallRange(r) && z == Zeros(r) as real
    ensures M - z <= Estimated(ln, r) <= M * (M / z - 1.0)
  {
    LogGap(ln, z, M);
    assert LogBounds(ln, 1.0) && M / M == 1.0;
  }

  /** The estimate never drops while both sketches are in the same range; once out of the small range, a sketch stays out. */
  lemma EstimateMonotoneWithinRange(ln: real -> real, a: Regs, b: Regs)
    requires IsLn(ln) && LeqRegs(a, b)
    ensures SmallRange(b) ==> SmallRange(a)
    ensures (SmallRange(a) <==> SmallRange(b)) ==> Estimated(ln, a) <= Estimated(ln, b)
    ensures Estimated(ln, a) > Estimated(ln, b) <==> SmallRange(a) && !SmallRange(b) && LinearCount(ln, a) > Raw(b)
  {
    RawMonotone(a, b);
    if SmallRange(b) {
      LinearCountMonotone(ln, a, b);
    }
  }

  lemma {:induction false} NoZeros(r: seq<byte>)
    ensures Zeros(r) == 0 <==> forall i | 0 <= i < |r| :: r[i] != 0
    decreases |r|
  {
    if r != [] {
      NoZeros(r[..|r| - 1]);
    }
  }

  /** Zeros is the number of empty registers. */
  lemma {:induction false} ZerosCounts(r: seq<byte>)
    ensures Zeros(r) == |set i | 0 <= i < |r| && r[i] == 0|
    decreases |r|
  {
    if r != [] {
      var n := |r| - 1;
      ZerosCounts(r[..n]);
      var before, all := set i | 0 <= i < n && r[..n][i] == 0, set i | 0 <= i < |r| && r[i] == 0;
      if r[n] == 0 {
        assert all == before + {n};
      } else {
        assert all == before;
      }
    }
  }

  // ---- concrete values ---------------------------------------------------

  function Filled(n: nat, v: byte): seq<byte>
  {
    seq(n, i => v)
  }

  lemma {:induction false} SumOfFilled(n: nat, v: byte)
    ensures HarmonicSum(Filled(n, v)) == n as real * InvPow2(v)
    ensures Zeros(Filled(n, v)) == if v == 0 then n else 0
    decreases n
  {
    if n > 0 {
      SumOfFilled(n - 1, v);
      assert Filled(n, v)[..n - 1] == Filled(n - 1, v);
      assert n as real * InvPow2(v) == (n - 1) as real * InvPow2(v) + InvPow2(v);
    }
  }

  lemma EmptyEstimatesZero(ln: real -> real)
    requires IsLn(ln)
    ensures Estimated(ln, EmptyRegs()) == 0.0 && Rounded(Estimated(ln, EmptyRegs())) == 0
  {
    assert EmptyRegs() == Filled(NUM_REGS, 0);
    SumOfFilled(NUM_REGS, 0);
    AlphaBounds();
    assert Raw(EmptyRegs()) * M == ALPHA_MM;
    assert LogBounds(ln, 1.0);
  }

  lemma InvPow2At50()
    ensures InvPow2(50) * 1125899906842624.0 == 1.0 && InvPow2(51) == InvPow2(50) / 2.0
  {
    InvPow2Step(10); InvPow2Step(20); InvPow2Step(30); InvPow2Step(40);
    assert InvPow2(10) * 1024.0 == 1.0;
  }

  lemma InvPow2Step(v: nat)
    ensures InvPow2(v + 10) * 1024.0 == InvPow2(v)
  {
    assert InvPow2(v + 2) == InvPow2(v) / 4.0;
    assert InvPow2(v + 4) == InvPow2(v + 2) / 4.0;
    assert InvPow2(v + 6) == InvPow2(v + 4) / 4.0;
    assert InvPow2(v + 8) == InvPow2(v + 6) / 4.0;
    assert InvPow2(v + 10) == InvPow2(v + 8) / 4.0;
  }

  const TWO64: real := 18446744073709551616.0

  function Pow2(n: nat): (p: nat)
    ensures p > 0
  {
    if n == 0 then 1 else 2 * Pow2(n - 1)
  }

  predicate AtMost(r: seq<byte>, top: nat)
  {
    forall i | 0 <= i < |r| :: r[i] as int <= top
  }

  /** The harmonic sum of registers up to `top`, in units of its smallest possible term. */
  function UnitsOf(r: seq<byte>, top: nat): nat
    requires AtMost(r, top)
  {
    if r == [] then 0 else UnitsOf(r[..|r| - 1], top) + Pow2(top - r[|r| - 1] as int)
  }

  lemma {:induction false} TermInUnits(v: nat, top: nat, scale: real)
    requires v <= top && InvPow2(top) * scale == 1.0
    ensures InvPow2(v) * scale == Pow2(top - v) as real
    decreases top - v
  {
    if v < top {
      TermInUnits(v + 1, top, scale);
      assert InvPow2(v + 1) == InvPow2(v) / 2.0;
    }
  }

  const TWO51: real := 2251799813685248.0
  const TWO255: real := 57896044618658097711785492504343953926634992332820282019728792003956564819968.0

  lemma {:induction false} InvPow2Add(u: nat, v: nat)
    ensures InvPow2(u + v) == InvPow2(u) * InvPow2(v)
    decreases v
  {
    if v > 0 {
      InvPow2Add(u, v - 1);
    }
  }

  lemma ScaleTimes(u: nat, x: real, v: nat, y: real, z: real)
    requires InvPow2(u) * x == 1.0 && InvPow2(v) * y == 1.0 && x * y == z
    ensures InvPow2(u + v) * z == 1.0
  {
    ProductOfOnes(InvPow2(u), x, InvPow2(v), y);
    assert InvPow2(u + v) == InvPow2(u) * InvPow2(v) by {
      InvPow2Add(u, v);
    }
  }

  lemma ProductOfOnes(p: real, x: real, q: real, y: real)
    requires p * x == 1.0 && q * y == 1.0
    ensures (p * q) * (x * y) == 1.0
  {
    assert (p * q) * (x * y) == (p * x) * (q * y);
  }

  lemma ScaleOf51(v: nat)
    requires v == 51
    ensures InvPow2(v) * TWO51 == 1.0
  {
    InvPow2At50();
  }

  lemma ScaleOf255(v: nat, top: nat)
    requires v == 51 && top == v + v + (v + v) + v
    ensures InvPow2(top) * TWO255 == 1.0
  {
    var two102, two204 := 5070602400912917605986812821504.0, 25711008708143844408671393477458601640355247900524685364822016.0;
    ScaleOf51(v);
    ScaleTimes(v, TWO51, v, TWO51, two102);
    ScaleTimes(v + v, two102, v + v, two102, two204);
    ScaleTimes(v + v + (v + v), two204, v, TWO51, TWO255);
  }

  /** In units of 2 to the power -255, which every register byte allows. */
  function Units(r: seq<byte>): nat
  {
    UnitsOf(r, 255)
  }

  /** In units of 2 to the power -51, for the ranks that adding ids produces. */
  function Weight(r: seq<byte>): nat
    requires InRange(r)
  {
    UnitsOf(r, 51)
  }

  lemma TermIs255(v: nat, top: nat)
    requires v <= top == 255
    ensures InvPow2(v) * TWO255 == Pow2(top - v) as real
  {
    ScaleOf255(51, top);
    TermInUnits(v, top, TWO255);
  }

  lemma TermIs51(v: nat, top: nat)
    requires v <= top == 51
    ensures InvPow2(v) * TWO51 == Pow2(top - v) as real
  {
    ScaleOf51(top);
    TermInUnits(v, top, TWO51);
  }

  lemma {:induction false} SumIsUnits(r: seq<byte>, top: nat)
    requires top == 255
    ensures HarmonicSum(r) * TWO255 == UnitsOf(r, top) as real
    decreases |r|
  {
    if r != [] {
      var n := |r| - 1;
      SumIsUnits(r[..n], top);
      TermIs255(r[n] as int, top);
    }
  }

  lemma {:induction false} SumIsWeight(r: seq<byte>, top: nat)
    requires InRange(r) && top == 51
    ensures HarmonicSum(r) * TWO51 == UnitsOf(r, top) as real
    decreases |r|
  {
    if r != [] {
      var n := |r| - 1;
      SumIsWeight(r[..n], top);
      TermIs51(r[n] as int, top);
    }
  }

  /** With the sum measured in whole units u, the quotient is below a bound exactly from some t units on. */
  lemma QuotientThreshold(sum: real, u: nat, scale: real, bound: real, t: nat)
    requires sum > 0.0 && sum * scale == u as real && scale > 0.0 && bound > 0.0 && t > 0
    requires (t - 1) as real * bound <= ALPHA_MM * scale < t as real * bound
    ensures ALPHA_MM / sum < bound <==> u >= t
  {
    AlphaBounds();
    var raw := ALPHA_MM / sum;
    assert raw * sum == ALPHA_MM && raw > 0.0;
    ProductCancels(raw, sum, scale, u as real);
    if u >= t {
      ProductMonotone(t as real, u as real, raw);
      if raw >= bound {
        ProductMonotone(bound, raw, t as real);
      }
    } else {
      ProductMonotone(u as real, (t - 1) as real, raw);
      if raw < bound {
        ProductBelow(raw, bound, u as real, (t - 1) as real);
      }
    }
  }

  lemma ProductCancels(raw: real, sum: real, scale: real, u: real)
    requires raw * sum == ALPHA_MM && sum * scale == u
    ensures raw * u == ALPHA_MM * scale
  {
    assert raw * (sum * scale) == (raw * sum) * scale;
  }

  lemma ProductBelow(x: real, y: real, u: real, v: real)
    requires 0.0 < x < y && 0.0 < u <= v
    ensures x * u < y * v
  {
    assert x * u < y * u;
    ProductMonotone(u, v, y);
  }

  /** The raw estimate is below 2^64 from this many units on. */
  const RAW_UNITS: nat := 607654029613166181240467550197398310847690743709749562054443402150

  /** The rounded one, which needs to be below 2^64 - 1/2, from slightly more. */
  const ROUNDED_UNITS: nat := 607654029613166181256938045673052456328575896945943921575719913926

  lemma UnitThresholds()
    ensures (RAW_UNITS - 1) as real * TWO64 <= ALPHA_MM * TWO255 < RAW_UNITS as real * TWO64
    ensures (ROUNDED_UNITS - 1) as real * (TWO64 - 0.5) <= ALPHA_MM * TWO255 < ROUNDED_UNITS as real * (TWO64 - 0.5)
  {
  }

  lemma UnitsFit(sum: real, u: nat)
    requires sum > 0.0 && sum * TWO255 == u as real
    ensures ALPHA_MM / sum < TWO64 <==> u >= RAW_UNITS
    ensures ALPHA_MM / sum < TWO64 - 0.5 <==> u >= ROUNDED_UNITS
  {
    UnitThresholds();
    QuotientThreshold(sum, u, TWO255, TWO64, RAW_UNITS);
    QuotientThreshold(sum, u, TWO255, TWO64 - 0.5, ROUNDED_UNITS);
  }

  lemma WeightFits(sum: real, w: nat)
    requires sum > 0.0 && sum * TWO51 == w as real
    ensures ALPHA_MM / sum < TWO64 <==> w >= 23635
    ensures ALPHA_MM / sum < TWO64 - 0.5 <==> w >= 23635
  {
    QuotientThreshold(sum, w, TWO51, TWO64, 23635);
    QuotientThreshold(sum, w, TWO51, TWO64 - 0.5, 23635);
  }

  /** The exact condition under which the raw estimate fits an unsigned 64-bit result, for all register contents. */
  lemma RawFitsIff(r: Regs)
    ensures Raw(r) < TWO64 <==> Units(r) >= RAW_UNITS
    ensures Raw(r) < TWO64 - 0.5 <==> Units(r) >= ROUNDED_UNITS
  {
    SumIsUnits(r, 255);
    UnitsFit(HarmonicSum(r), Units(r));
  }

  /** From this many units on the raw estimate is at most 2.5 times the number of registers. */
  const SMALL_UNITS: nat := 273663046133603555547914367385947507458202537175840675371329203335726932713553231

  lemma SmallThreshold(sum: real, u: nat)
    requires sum > 0.0 && sum * TWO255 == u as real
    ensures ALPHA_MM / sum <= 40960.0 <==> u >= SMALL_UNITS
  {
    AlphaBounds();
    var raw := ALPHA_MM / sum;
    assert raw * sum == ALPHA_MM;
    QuotientPositive(ALPHA_MM, sum);
    ProductCancels(raw, sum, TWO255, u as real);
    SmallConstants();
    if u >= SMALL_UNITS {
      ProductMonotone(SMALL_UNITS as real, u as real, raw);
      if raw > 40960.0 {
        ProductMonotone(40960.0, raw, SMALL_UNITS as real);
      }
    } else if raw <= 40960.0 {
      ProductMonotone(raw, 40960.0, u as real);
    }
  }

  lemma SmallConstants()
    ensures 40960.0 * (SMALL_UNITS - 1) as real < ALPHA_MM * TWO255 < 40960.0 * SMALL_UNITS as real
  {
  }

  /** The small range, exactly: a register is empty and the sum of 2^(255-register) is large enough. */
  lemma SmallRangeIff(r: Regs)
    ensures SmallRange(r) <==> (exists i | 0 <= i < NUM_REGS :: r[i] == 0) && Units(r) >= SMALL_UNITS
  {
    NoZeros(r);
    SumIsUnits(r, 255);
    SmallThreshold(HarmonicSum(r), Units(r));
  }

  lemma QuotientTimesUnits(raw: real, sum: real, u: nat)
    requires sum > 0.0 && raw == ALPHA_MM / sum && sum * TWO255 == u as real
    ensures raw * u as real == ALPHA_MM * TWO255
  {
    assert raw * sum == ALPHA_MM;
    ProductCancels(raw, sum, TWO255, u as real);
  }

  /** Outside the small range the estimate e is inversely proportional to u, the sum of 2^(255-register). */
  lemma EstimateOutside(ln: real -> real, r: Regs, e: real, u: nat)
    requires !SmallRange(r) && e == Estimated(ln, r) && u == Units(r)
    ensures e * u as real == ALPHA_MM * TWO255
  {
    SumIsUnits(r, 255);
    QuotientTimesUnits(e, HarmonicSum(r), u);
  }

  /** In the small range the estimate is nowhere near the limit. */
  lemma RoundedFitsIff(ln: real -> real, r: Regs)
    requires IsLn(ln)
    ensures Rounded(Estimated(ln, r)) as real < TWO64 <==> Raw(r) < TWO64 - 0.5
  {
    if SmallRange(r) {
      var z := Zeros(r) as real;
      QuotientAntitone(M, 1.0, z);
      assert LogBounds(ln, M / z);
      assert LinearCount(ln, r) <= M * M;
    }
  }

  /** The conversion of the rounded estimate to uint64 is exact under this condition and no other. */
  lemma ConversionFitsIff(ln: real -> real, r: Regs)
    requires IsLn(ln)
    ensures Rounded(Estimated(ln, r)) as real < TWO64 <==> Units(r) >= ROUNDED_UNITS
  {
    RoundedFitsIff(ln, r);
    RawFitsIff(r);
  }

  /** For ranks up to 51, the only ones adds and merges of added ids produce, both thresholds are the same small number. */
  lemma InRangeFitsIff(ln: real -> real, r: Regs)
    requires IsLn(ln) && InRange(r)
    ensures Raw(r) < TWO64 <==> Weight(r) >= 23635
    ensures Rounded(Estimated(ln, r)) as real < TWO64 <==> Weight(r) >= 23635
  {
    RoundedFitsIff(ln, r);
    SumIsWeight(r, 51);
    WeightFits(HarmonicSum(r), Weight(r));
  }

  /** Up to rank 50 the raw estimate fits an unsigned 64-bit result. */
  lemma RawFitsUpTo50(r: Regs)
    requires forall i | 0 <= i < NUM_REGS :: r[i] <= 50
    ensures Raw(r) < TWO64
  {
    var top := Filled(NUM_REGS, 50);
    SumsMonotone(r, top);
    SumOfFilled(NUM_REGS, 50);
    InvPow2At50();
    AlphaBounds();
    RawMonotone(r, top);
    assert Raw(top) * HarmonicSum(top) == ALPHA_MM;
  }

  /** With every register at the largest rank the conversion to uint64 overflows. */
  lemma RawOverflowsAt51()
    ensures Raw(Filled(NUM_REGS, 51)) > TWO64
  {
    var top := Filled(NUM_REGS, 51);
    SumOfFilled(NUM_REGS, 51);
    InvPow2At50();
    AlphaBounds();
    assert Raw(top) * HarmonicSum(top) == ALPHA_MM;
  }

  /**
    Not monotone across the switch: with every register but one at rank 1 the
    estimate is above 114000; raising the last register ends linear counting
    and the estimate falls below 24000.
   */
  lemma EstimateCanDrop(ln: real -> real)
    requires IsLn(ln)
    ensures var a: Regs, b: Regs := Filled(NUM_REGS - 1, 1) + [0], Filled(NUM_REGS, 1);
            LeqRegs(a, b) && Estimated(ln, a) > 114000.0 && Estimated(ln, b) < 24000.0
  {
    var a: Regs, b: Regs := Filled(NUM_REGS - 1, 1) + [0], Filled(NUM_REGS, 1);
    SumOfFilled(NUM_REGS - 1, 1);
    SumOfFilled(NUM_REGS, 1);
    assert a[..NUM_REGS - 1] == Filled(NUM_REGS - 1, 1);
    assert HarmonicSum(a) == 16383.0 / 2.0 + 1.0 && Zeros(a) == 1;
    AlphaBounds();
    assert Raw(a) * HarmonicSum(a) == ALPHA_MM && Raw(b) * HarmonicSum(b) == ALPHA_MM;
    LnOf16384(ln);
  }

  // ---- when growth can lower the estimate --------------------------------

  /** The least growth that leaves no register empty. */
  function Topped(a: Regs): Regs
  {
    seq(NUM_REGS, i requires 0 <= i < NUM_REGS => if a[i] == 0 then 1 else a[i])
  }

  lemma ToppedIsLeast(a: Regs, b: Regs)
    ensures LeqRegs(a, Topped(a)) && Zeros(Topped(a)) == 0
    ensures LeqRegs(a, b) && Zeros(b) == 0 ==> LeqRegs(Topped(a), b)
  {
    NoZeros(Topped(a));
    NoZeros(b);
  }

  lemma LinearAboveIff(ln: real -> real, z: nat)
    requires IsLn(ln) && 0 < z <= NUM_REGS
    ensures var l := M * ln(M / z as real); if z <= 1344 then l >= 40965.0 else l <= 40960.0
  {
    if z <= 1344 {
      QuotientAntitone(M, z as real, 1344.0);
      LnFrom(ln, M / z as real);
    } else {
      QuotientAntitone(M, 1345.0, z as real);
      LnUpTo(ln, M / z as real);
    }
  }

  lemma {:induction false} SumAfterUpdate(r: seq<byte>, i: nat, v: byte)
    requires i < |r|
    ensures HarmonicSum(r[i := v]) == HarmonicSum(r) - InvPow2(r[i] as int) + InvPow2(v as int)
    decreases |r|
  {
    var n := |r| - 1;
    if i < n {
      SumAfterUpdate(r[..n], i, v);
      assert r[i := v][..n] == r[..n][i := v];
    } else {
      assert r[i := v][..n] == r[..n];
    }
  }

  /** Raising one register by one moves a raw estimate in the small range by less than five. */
  lemma SmallStep(b: Regs, i: nat)
    requires Raw(b) <= 2.5 * M && i < NUM_REGS && b[i] < 255
    ensures Raw(b[i := b[i] + 1]) < 40965.0
  {
    var b' := b[i := b[i] + 1];
    SumAfterUpdate(b, i, b[i] + 1);
    assert InvPow2((b[i] + 1) as int) == InvPow2(b[i] as int) / 2.0;
    SmallStepArithmetic(HarmonicSum(b), HarmonicSum(b'));
  }

  lemma SmallStepArithmetic(sum: real, sum': real)
    requires sum > 0.0 && sum' > 0.0 && ALPHA_MM / sum <= 2.5 * M && sum' >= sum - 0.5
    ensures ALPHA_MM / sum' < 40965.0
  {
    AlphaBounds();
    ProductMonotone(ALPHA_MM / sum, 2.5 * M, sum);
    assert ALPHA_MM / sum * sum == ALPHA_MM && ALPHA_MM / sum' * sum' == ALPHA_MM;
    if ALPHA_MM / sum' >= 40965.0 {
      ProductMonotone(40965.0, ALPHA_MM / sum', sum');
    }
  }

  /** With one register empty and all others at rank 51 or more, the raw estimate is far above the small range. */
  lemma OneLeftIsLarge(b: Regs, q: nat)
    requires q < NUM_REGS && b[q] == 0 && forall k | 0 <= k < NUM_REGS && k != q :: b[k] >= 51
    ensures Raw(b) > 2.5 * M
  {
    var top: Regs := Filled(NUM_REGS, 51);
    SumOfFilled(NUM_REGS, 51);
    SumAfterUpdate(top, q, 0);
    InvPow2At50();
    SumsMonotone(top[q := 0], b);
    assert HarmonicSum(b) < 2.0;
    AlphaBounds();
    assert Raw(b) * HarmonicSum(b) == ALPHA_MM;
  }

  /** Registers from i on can be raised one by one until the raw estimate just leaves the small range. */
  lemma {:induction false} Climb(b: Regs, q: nat, i: nat) returns (b': Regs)
    requires q < NUM_REGS && b[q] == 0 && Raw(b) <= 2.5 * M && i <= NUM_REGS
    requires forall k | 0 <= k < i && k != q :: b[k] >= 51
    ensures LeqRegs(b, b') && b'[q] == 0 && 2.5 * M < Raw(b') < 40965.0
    ensures InRange(b) ==> InRange(b')
    decreases NUM_REGS - i, if i < NUM_REGS then 51 - b[i] as int else 0
  {
    if i == NUM_REGS {
      OneLeftIsLarge(b, q);
      assert false;
    } else if i == q || b[i] >= 51 {
      b' := Climb(b, q, i + 1);
    } else {
      var next := b[i := b[i] + 1];
      SmallStep(b, i);
      if Raw(next) <= 2.5 * M {
        b' := Climb(next, q, i);
      } else {
        b' := next;
      }
    }
  }

  /** The estimate of a can drop: read off a alone. */
  predicate CanDrop(ln: real -> real, a: Regs)
  {
    SmallRange(a) && (Zeros(a) <= 1344 || LinearCount(ln, a) > Raw(Topped(a)))
  }

  /** Some growth of the sketch, to registers an add or merge can reach, lowers the estimate ... */
  lemma DropHappens(ln: real -> real, a: Regs) returns (b: Regs)
    requires IsLn(ln) && CanDrop(ln, a)
    ensures LeqRegs(a, b) && (InRange(a) ==> InRange(b)) && Estimated(ln, b) < Estimated(ln, a)
  {
    if Zeros(a) <= 1344 {
      NoZeros(a);
      var q :| 0 <= q < NUM_REGS && a[q] == 0;
      b := Climb(a, q, 0);
      LinearAboveIff(ln, Zeros(a));
    } else {
      b := Topped(a);
      ToppedIsLeast(a, a);
    }
  }

  /** ... exactly when CanDrop holds. */
  lemma DropIff(ln: real -> real, a: Regs)
    requires IsLn(ln)
    ensures (exists b: Regs | LeqRegs(a, b) :: Estimated(ln, b) < Estimated(ln, a)) <==> CanDrop(ln, a)
  {
    if CanDrop(ln, a) {
      var b := DropHappens(ln, a);
    } else {
      forall b: Regs | LeqRegs(a, b) ensures Estimated(ln, a) <= Estimated(ln, b) {
        NoDrop(ln, a, b);
      }
    }
  }

  lemma NoDrop(ln: real -> real, a: Regs, b: Regs)
    requires IsLn(ln) && LeqRegs(a, b) && !CanDrop(ln, a)
    ensures Estimated(ln, a) <= Estimated(ln, b)
  {
    EstimateMonotoneWithinRange(ln, a, b);
    if SmallRange(a) && !SmallRange(b) {
      LinearAboveIff(ln, Zeros(a));
      ToppedIsLeast(a, b);
      if Zeros(b) == 0 {
        RawMonotone(Topped(a), b);
      }
    }
  }
}
