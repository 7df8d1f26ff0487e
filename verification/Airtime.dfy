/**
 LoRa time on air (src/lora/airtime.rs, src/lora/calibration.rs) and its relation to the
 formula of section 6.1.4 of the SX126x datasheet, stated over the reals.
 */
module Airtime {
  import opened Prelude

  const PREAMBLE_SYMBOLS: u16 := 8

  function Pow2(n: nat): nat {
    if n == 0 then 1 else 2 * Pow2(n - 1)
  }

  lemma Pow2Table()
    ensures Pow2(7) == 128 && Pow2(8) == 256 && Pow2(9) == 512
    ensures Pow2(10) == 1024 && Pow2(11) == 2048 && Pow2(12) == 4096
  {}

  function BandwidthHz(bandwidthKhz: u32): (hz: nat)
    ensures hz > 0
  {
    match bandwidthKhz
    case 7 => 7_800
    case 8 => 7_800
    case 10 => 10_400
    case 15 => 15_600
    case 16 => 15_600
    case 20 => 20_800
    case 21 => 20_800
    case 31 => 31_250
    case 41 => 41_700
    case 42 => 41_700
    case 62 => 62_500
    case 63 => 62_500
    case 125 => 125_000
    case 250 => 250_000
    case 500 => 500_000
    case _ => 125_000
  }

  predicate LdroEnabled(spreadingFactor: u8, bandwidthKhz: u32) {
    bandwidthKhz == 0 || spreadingFactor >= 32 || Pow2(spreadingFactor) * 1000 / bandwidthKhz >= 16_384
  }

  /** From 16.384 ms on, what a symbol takes calls for low-data-rate optimisation. */
  predicate SlowSymbols(sf: nat, hz: nat)
    requires hz > 0
  {
    (Pow2(sf) * 1_000_000) as real / hz as real >= 16_384.0
  }

  predicate Tabulated(bandwidthKhz: u32) {
    bandwidthKhz in {7, 8, 10, 15, 16, 20, 21, 31, 41, 42, 62, 63, 125, 250, 500}
  }

  /**
   Where the label in kHz stands for the bandwidth well enough: all labels of the table but
   three that were rounded up past the threshold; of the others, which stand for 125 kHz, those
   on the side of the threshold that 125 kHz is on.
   */
  predicate LabelTellsLdro(sf: u8, bandwidthKhz: u32) {
    if Tabulated(bandwidthKhz) then (sf, bandwidthKhz) !in {(7, 8), (8, 16), (10, 63)}
    else if sf >= 11 then sf >= 32 || 16_384 * bandwidthKhz <= 1000 * Pow2(sf)
    else 16_384 * bandwidthKhz > 1000 * Pow2(sf)
  }

  function ClampSf(spreadingFactor: u8): nat {
    if spreadingFactor < 7 then 7 else if spreadingFactor > 12 then 12 else spreadingFactor
  }

  /** The coded-redundancy term CR of the formula; out-of-range values fall back to 4/5. */
  function CodingRateTerm(codingRate: u8): nat {
    if 5 <= codingRate <= 8 then codingRate - 4 else 1
  }

  function Blocks(sf: nat, ldro: bool, payloadLen: nat, crcOn: bool): nat
    requires 7 <= sf <= 12
  {
    var numerator := 8 * payloadLen - 4 * sf + 28 + if crcOn then 16 else 0;
    var denominator := 4 * (sf - if ldro then 2 else 0);
    if numerator > 0 then (numerator + denominator - 1) / denominator else 0
  }

  /** The whole packet in quarter symbols. */
  function QuarterSymbols(sf: nat, ldro: bool, cr: nat, payloadLen: nat, preamble: nat, crcOn: bool): nat
    requires 7 <= sf <= 12
  {
    (preamble + (8 + Blocks(sf, ldro, payloadLen, crcOn) * (cr + 4))) * 4 + 17
  }

  function SymbolTimeAt(sf: nat, hz: nat): nat
    requires hz > 0
  {
    Pow2(sf) * 1_000_000 / hz
  }

  function SymbolTimeUs(sf: nat, bandwidthKhz: u32): nat {
    SymbolTimeAt(sf, BandwidthHz(bandwidthKhz))
  }

  function QuartersUs(quarters: nat, symbolTime: nat): nat {
    quarters * symbolTime / 4
  }

  function TotalUs(sf: nat, ldro: bool, bandwidthKhz: u32, cr: nat, payloadLen: nat, preamble: nat, crcOn: bool): nat
    requires 7 <= sf <= 12
  {
    QuartersUs(QuarterSymbols(sf, ldro, cr, payloadLen, preamble, crcOn), SymbolTimeUs(sf, bandwidthKhz))
  }

  function TimeOnAirMsExt(spreadingFactor: u8, bandwidthKhz: u32, codingRate: u8, payloadLen: nat, preamble: u16, crcOn: bool): nat {
    var sf := ClampSf(spreadingFactor);
    DivCeil(TotalUs(sf, LdroEnabled(sf, bandwidthKhz), bandwidthKhz, CodingRateTerm(codingRate), payloadLen, preamble, crcOn), 1000)
  }

  function TimeOnAirMs(spreadingFactor: u8, bandwidthKhz: u32, codingRate: u8, payloadLen: nat): nat {
    TimeOnAirMsExt(spreadingFactor, bandwidthKhz, codingRate, payloadLen, PREAMBLE_SYMBOLS, true)
  }

  // ----- The datasheet's formula ---------------------------------------------

  function Ceil(x: real): int {
    -(-x).Floor
  }

  /** Packet length in symbols: explicit header, spreading factors 7 to 12. */
  function DatasheetSymbols(sf: nat, ldro: bool, cr: nat, payloadLen: nat, preamble: nat, crcOn: bool): real
    requires 7 <= sf <= 12
  {
    var bits := (8 * payloadLen + (if crcOn then 16 else 0) - 4 * sf + 8 + 20) as real;
    var perBlock := (4 * (sf - if ldro then 2 else 0)) as real;
    preamble as real + 4.25 + 8.0 + (Ceil((if bits > 0.0 then bits else 0.0) / perBlock) * (cr + 4)) as real
  }

  function DatasheetUs(sf: nat, ldro: bool, bandwidthHz: nat, cr: nat, payloadLen: nat, preamble: nat, crcOn: bool): real
    requires 7 <= sf <= 12 && bandwidthHz > 0
  {
    DatasheetSymbols(sf, ldro, cr, payloadLen, preamble, crcOn) * ((Pow2(sf) * 1_000_000) as real / bandwidthHz as real)
  }

  /** The exact time on air of what the arguments of `TimeOnAirMsExt` ask for. */
  function ExactUs(spreadingFactor: u8, bandwidthKhz: u32, codingRate: u8, payloadLen: nat, preamble: u16, crcOn: bool): real {
    var sf := ClampSf(spreadingFactor);
    DatasheetUs(sf, SlowSymbols(sf, BandwidthHz(bandwidthKhz)), BandwidthHz(bandwidthKhz), CodingRateTerm(codingRate), payloadLen, preamble, crcOn)
  }

  lemma DivBounds(n: nat, d: nat)
    requires d > 0
    ensures n / d * d <= n < n / d * d + d
  {
    assert n == n / d * d + n % d;
  }

  lemma MulMonotone(a: nat, b: nat, c: nat)
    requires a <= b
    ensures a * c <= b * c
  {}

  lemma DivMonotone(m: nat, n: nat, d: nat)
    requires m <= n && d > 0
    ensures m / d <= n / d
  {
    DivBounds(m, d);
    DivBounds(n, d);
    if n / d < m / d {
      MulMonotone(n / d + 1, m / d, d);
      assert false;
    }
  }

  lemma {:induction false} RealProduct(a: nat, b: nat)
    ensures (a * b) as real == a as real * b as real
  {
    if b > 0 {
      RealProduct(a, b - 1);
      assert a * b == a * (b - 1) + a;
    }
  }

  /** Where a quotient lies between two bounds, from where the dividend lies. */
  lemma RealQuotient(lo: real, n: real, d: real, hi: real)
    requires d > 0.0
    ensures lo * d <= n ==> lo <= n / d
    ensures lo * d < n ==> lo < n / d
    ensures n <= hi * d ==> n / d <= hi
    ensures n < hi * d ==> n / d < hi
  {
    assert n / d * d == n;
    if n / d < lo {
      assert n / d * d < lo * d;
    }
    if hi < n / d {
      assert hi * d < n / d * d;
    }
  }

  /** A product of reals, by name. */
  function Times(a: real, b: real): real {
    a * b
  }

  lemma TimesMonotone(c: real, a: real, b: real)
    requires a <= b && c >= 0.0
    ensures Times(c, a) <= Times(c, b)
  {}

  lemma TimesNext(c: real, a: real)
    ensures Times(c, a + 1.0) == Times(c, a) + c
  {}

  /** A quotient of whole numbers lies between its floor and one above it. */
  lemma QuotientBounds(n: nat, d: nat)
    requires d > 0
    ensures (n / d) as real <= n as real / d as real < (n / d) as real + 1.0
  {
    var q := n / d;
    DivBounds(n, d);
    RealProduct(q, d);
    RealProduct(q + 1, d);
    assert (q + 1) * d == q * d + d;
    RealQuotient(q as real, n as real, d as real, (q + 1) as real);
  }

  /** A number between two neighbours, the upper one included, has the upper one as its ceiling. */
  lemma CeilBetween(x: real, q: int)
    requires q as real - 1.0 < x <= q as real
    ensures Ceil(x) == q
  {}

  /** How the rounded-up quotient brackets the dividend. */
  lemma CeilDivBounds(n: nat, d: nat) returns (q: int)
    requires d > 0
    ensures q == (n + d - 1) / d
    ensures n as real <= q as real * d as real && (q as real - 1.0) * d as real < n as real
  {
    q := DivCeil(n, d);
    DivBounds(n + d - 1, d);
    RealProduct(q, d);
    assert (q as real - 1.0) * d as real == q as real * d as real - d as real;
  }

  lemma CeilOfQuotient(n: nat, d: nat)
    requires d > 0
    ensures Ceil(n as real / d as real) == (n + d - 1) / d
  {
    hide Ceil;
    var q: int := CeilDivBounds(n, d);
    RealQuotient(q as real - 1.0, n as real, d as real, q as real);
    CeilBetween(n as real / d as real, q);
  }

  predicate LowByLess(total: nat, q: nat, exact: real) {
    total as real <= exact < total as real + q as real / 4.0 + 1.0
  }

  lemma FourTimesReal(a: real, s: real, b: real)
    requires a * 4.0 == b
    ensures Times(a, s) * 4.0 == Times(b, s)
  {}

  lemma QuarterProduct(quarter: real, q: nat, st: nat)
    requires quarter * 4.0 == q as real
    ensures Times(quarter, st as real) * 4.0 == (q * st) as real
  {
    FourTimesReal(quarter, st as real, q as real);
    RealProduct(q, st);
  }

  lemma QuarterBounds(n: nat)
    ensures (n / 4) as real * 4.0 <= n as real < (n / 4) as real * 4.0 + 4.0
  {}

  /** The two truncations add up: one below a unit of the quarter, one below a microsecond. */
  lemma TruncationsAdd(total: nat, n: nat, q: nat, quarter: real, product: real, exact: real)
    requires quarter * 4.0 == q as real && product * 4.0 == n as real
    requires total as real * 4.0 <= n as real < total as real * 4.0 + 4.0
    requires product <= exact <= product + quarter
    ensures LowByLess(total, q, exact)
  {}

  lemma TruncationErrorAt(q: nat, st: nat, quarter: real, x: real)
    requires quarter * 4.0 == q as real && st as real <= x < st as real + 1.0
    ensures LowByLess(q * st / 4, q, Times(quarter, x))
  {
    hide Times, LowByLess;
    QuarterProduct(quarter, q, st);
    QuarterBounds(q * st);
    TimesMonotone(quarter, st as real, x);
    TimesMonotone(quarter, x, st as real + 1.0);
    TimesNext(quarter, st as real);
    TruncationsAdd(q * st / 4, q * st, q, quarter, Times(quarter, st as real), Times(quarter, x));
  }

  /** Truncating the symbol time and then the quarter costs less than q/4 + 1. */
  lemma TruncationError(q: nat, n: nat, d: nat)
    requires d > 0
    ensures LowByLess(q * (n / d) / 4, q, Times(q as real / 4.0, n as real / d as real))
  {
    hide Times, LowByLess;
    QuotientBounds(n, d);
    TruncationErrorAt(q, n / d, q as real / 4.0, n as real / d as real);
  }

  lemma NoTruncation(q: nat, n: nat, d: nat)
    requires d > 0 && n / d * d == n && n / d % 4 == 0
    ensures (q * (n / d) / 4) as real == q as real / 4.0 * (n as real / d as real)
  {
    var st := n / d;
    RealProduct(st, d);
    RealQuotient(st as real, n as real, d as real, st as real);
    RealProduct(q, st);
    RealProduct(q, st / 4);
    FourTimes(q, st / 4);
  }

  lemma FourTimes(q: nat, quarter: nat)
    ensures q * (4 * quarter) == 4 * (q * quarter)
  {}

  lemma QuarterSymbolsAreDatasheetSymbols(sf: nat, ldro: bool, cr: nat, payloadLen: nat, preamble: nat, crcOn: bool)
    requires 7 <= sf <= 12
    ensures QuarterSymbols(sf, ldro, cr, payloadLen, preamble, crcOn) as real == 4.0 * DatasheetSymbols(sf, ldro, cr, payloadLen, preamble, crcOn)
  {
    var numerator := 8 * payloadLen - 4 * sf + 28 + if crcOn then 16 else 0;
    var denominator := 4 * (sf - if ldro then 2 else 0);
    CeilOfQuotient(if numerator > 0 then numerator else 0, denominator);
    CeilOfQuotient(0, denominator);
  }

  /** Quarter symbols times quarter symbol times, over the reals. */
  lemma DatasheetUsInQuarters(sf: nat, ldro: bool, bandwidthHz: nat, cr: nat, payloadLen: nat, preamble: nat, crcOn: bool)
    requires 7 <= sf <= 12 && bandwidthHz > 0
    ensures DatasheetUs(sf, ldro, bandwidthHz, cr, payloadLen, preamble, crcOn)
            == QuarterSymbols(sf, ldro, cr, payloadLen, preamble, crcOn) as real / 4.0 * ((Pow2(sf) * 1_000_000) as real / bandwidthHz as real)
  {
    hide QuarterSymbols, DatasheetSymbols, Pow2;
    QuarterSymbolsAreDatasheetSymbols(sf, ldro, cr, payloadLen, preamble, crcOn);
    var symbols := DatasheetSymbols(sf, ldro, cr, payloadLen, preamble, crcOn);
    assert QuarterSymbols(sf, ldro, cr, payloadLen, preamble, crcOn) as real / 4.0 == symbols;
  }

  /** Before rounding to milliseconds the result is low by less than q/4 + 1 microseconds. */
  lemma UnderEstimateIsBounded(sf: nat, ldro: bool, bandwidthKhz: u32, cr: nat, payloadLen: nat, preamble: nat, crcOn: bool)
    requires 7 <= sf <= 12
    ensures LowByLess(TotalUs(sf, ldro, bandwidthKhz, cr, payloadLen, preamble, crcOn),
                      QuarterSymbols(sf, ldro, cr, payloadLen, preamble, crcOn),
                      DatasheetUs(sf, ldro, BandwidthHz(bandwidthKhz), cr, payloadLen, preamble, crcOn))
  {
    hide QuarterSymbols, DatasheetUs, Pow2, BandwidthHz, LowByLess;
    DatasheetUsInQuarters(sf, ldro, BandwidthHz(bandwidthKhz), cr, payloadLen, preamble, crcOn);
    TruncationError(QuarterSymbols(sf, ldro, cr, payloadLen, preamble, crcOn), Pow2(sf) * 1_000_000, BandwidthHz(bandwidthKhz));
  }

  predicate BinaryBandwidth(hz: nat) {
    hz in {31_250, 62_500, 125_000, 250_000, 500_000}
  }

  /** A divisor of a million divides every multiple of it. */
  lemma WholeQuotient(p: nat, hz: nat, m: nat)
    requires hz > 0 && hz * m == 1_000_000
    ensures p * 1_000_000 / hz == p * m && p * m * hz == p * 1_000_000
  {
    Regroup(p, m, hz);
    DivBounds(p * 1_000_000, hz);
    OnlyQuotient(p * 1_000_000 / hz, p * m, hz, p * 1_000_000);
  }

  lemma Regroup(p: nat, m: nat, hz: nat)
    ensures p * m * hz == p * (hz * m)
  {}

  lemma OnlyQuotient(q: nat, r: nat, d: nat, n: nat)
    requires r * d == n && q * d <= n < q * d + d
    ensures q == r
  {
    if q < r {
      MulMonotone(q + 1, r, d);
      assert false;
    } else if r < q {
      assert false;
    }
  }

  function PerMegahertz(hz: nat): nat
    requires BinaryBandwidth(hz)
  {
    if hz == 31_250 then 32 else if hz == 62_500 then 16 else if hz == 125_000 then 8 else if hz == 250_000 then 4 else 2
  }

  lemma BinarySymbolTime(sf: nat, bandwidthKhz: u32)
    requires 7 <= sf <= 12 && BinaryBandwidth(BandwidthHz(bandwidthKhz))
    ensures SymbolTimeUs(sf, bandwidthKhz) * BandwidthHz(bandwidthKhz) == Pow2(sf) * 1_000_000
    ensures SymbolTimeUs(sf, bandwidthKhz) % 4 == 0
  {
    hide Pow2, BandwidthHz;
    var hz := BandwidthHz(bandwidthKhz);
    WholeQuotient(Pow2(sf), hz, PerMegahertz(hz));
    Pow2Table();
    FourTimes(PerMegahertz(hz), Pow2(sf) / 4);
  }

  lemma ExactForBinaryBandwidths(sf: nat, ldro: bool, bandwidthKhz: u32, cr: nat, payloadLen: nat, preamble: nat, crcOn: bool)
    requires 7 <= sf <= 12 && BinaryBandwidth(BandwidthHz(bandwidthKhz))
    ensures TotalUs(sf, ldro, bandwidthKhz, cr, payloadLen, preamble, crcOn) as real
            == DatasheetUs(sf, ldro, BandwidthHz(bandwidthKhz), cr, payloadLen, preamble, crcOn)
  {
    hide QuarterSymbols, DatasheetUs, Pow2, BandwidthHz;
    DatasheetUsInQuarters(sf, ldro, BandwidthHz(bandwidthKhz), cr, payloadLen, preamble, crcOn);
    BinarySymbolTime(sf, bandwidthKhz);
    NoTruncation(QuarterSymbols(sf, ldro, cr, payloadLen, preamble, crcOn), Pow2(sf) * 1_000_000, BandwidthHz(bandwidthKhz));
  }

  // ----- Low-data-rate optimisation ------------------------------------------

  lemma {:induction false} Pow2Grows(m: nat, n: nat)
    requires m <= n
    ensures Pow2(m) <= Pow2(n)
    decreases n
  {
    if m < n {
      Pow2Grows(m, n - 1);
    }
  }

  lemma FloorAtLeast(n: nat, d: nat, bound: nat)
    requires d > 0
    ensures n / d >= bound <==> n >= bound * d
  {
    DivBounds(n, d);
    if n / d >= bound {
      MulMonotone(bound, n / d, d);
    } else {
      MulMonotone(n / d + 1, bound, d);
    }
  }

  lemma SlowSymbolsIff(sf: nat, hz: nat)
    requires hz > 0
    ensures SlowSymbols(sf, hz) <==> Pow2(sf) * 1_000_000 >= 16_384 * hz
  {
    hide Pow2;
    RealQuotient(16_384.0, (Pow2(sf) * 1_000_000) as real, hz as real, 16_384.0);
  }

  lemma LdroEnabledIff(sf: u8, bandwidthKhz: u32)
    ensures LdroEnabled(sf, bandwidthKhz) <==> bandwidthKhz == 0 || sf >= 32 || Pow2(sf) * 1000 >= 16_384 * bandwidthKhz
  {
    hide Pow2;
    if bandwidthKhz != 0 {
      FloorAtLeast(Pow2(sf) * 1000, bandwidthKhz, 16_384);
    }
  }

  /** Powers of two outside the modem's spreading factors, as far as they matter. */
  lemma Pow2Outside(sf: nat)
    ensures sf < 7 ==> Pow2(sf) <= 64
    ensures sf > 12 ==> Pow2(sf) >= 8192
  {
    Pow2Table();
    if sf < 7 {
      Pow2Grows(sf, 6);
    } else if sf > 12 {
      Pow2Grows(13, sf);
    }
  }

  /** The switch agrees with the symbol time, over the reals, exactly where the label tells. */
  lemma LdroIsSlowSymbolsIff(sf: u8, bandwidthKhz: u32)
    ensures (LdroEnabled(sf, bandwidthKhz) <==> SlowSymbols(sf, BandwidthHz(bandwidthKhz))) <==> LabelTellsLdro(sf, bandwidthKhz)
  {
    hide Pow2, LdroEnabled, SlowSymbols;
    LdroEnabledIff(sf, bandwidthKhz);
    SlowSymbolsIff(sf, BandwidthHz(bandwidthKhz));
    Pow2Table();
    Pow2Outside(sf);
  }

  // ----- Rounded up? ---------------------------------------------------------

  /** The worst case: the longest preamble makes the truncated symbol time tell. */
  lemma LongPreambleIsUndercharged(bandwidthKhz: u32)
    requires !BinaryBandwidth(BandwidthHz(bandwidthKhz))
    ensures TimeOnAirMsExt(7, bandwidthKhz, 5, 0, 65_535, false) as real * 1000.0 < ExactUs(7, bandwidthKhz, 5, 0, 65_535, false)
  {
    hide QuarterSymbols, DatasheetSymbols, LdroEnabled, SlowSymbols, Pow2, QuartersUs, DivCeil;
    Pow2Table();
    LongPreambleSymbols(LdroEnabled(7, bandwidthKhz));
    LongPreambleSymbols(SlowSymbols(7, BandwidthHz(bandwidthKhz)));
    LongPreambleLoss(BandwidthHz(bandwidthKhz));
  }

  /** 262,189 quarter symbols at a truncated symbol time, for each of the other bandwidths. */
  lemma LongPreambleLoss(hz: nat)
    requires hz in {7_800, 10_400, 15_600, 20_800, 41_700}
    ensures DivCeil(QuartersUs(262_189, 128 * 1_000_000 / hz), 1000) as real * 1000.0 < 65_547.25 * ((128 * 1_000_000) as real / hz as real)
  {}

  lemma LongPreambleSymbols(ldro: bool)
    ensures QuarterSymbols(7, ldro, 1, 0, 65_535, false) == 262_189
    ensures DatasheetSymbols(7, ldro, 1, 0, 65_535, false) == 65_547.25
  {
    QuarterSymbolsAreDatasheetSymbols(7, ldro, 1, 0, 65_535, false);
  }

  /** At a bandwidth with whole microseconds, the exact time rounded up is the code's own sum with the right switch. */
  lemma ExactRoundedUp(sf: u8, bandwidthKhz: u32, codingRate: u8, payloadLen: nat, preamble: u16, crcOn: bool)
    requires BinaryBandwidth(BandwidthHz(bandwidthKhz))
    ensures var s := ClampSf(sf);
            Ceil(ExactUs(sf, bandwidthKhz, codingRate, payloadLen, preamble, crcOn) / 1000.0)
            == DivCeil(TotalUs(s, SlowSymbols(s, BandwidthHz(bandwidthKhz)), bandwidthKhz, CodingRateTerm(codingRate), payloadLen, preamble, crcOn), 1000)
  {
    hide TotalUs, DatasheetUs, SlowSymbols, BandwidthHz, CodingRateTerm, BinaryBandwidth, Ceil;
    var s, cr, slow := ClampSf(sf), CodingRateTerm(codingRate), SlowSymbols(ClampSf(sf), BandwidthHz(bandwidthKhz));
    ExactForBinaryBandwidths(s, slow, bandwidthKhz, cr, payloadLen, preamble, crcOn);
    CeilOfQuotient(TotalUs(s, slow, bandwidthKhz, cr, payloadLen, preamble, crcOn), 1000);
  }

  /** Labels on which the code's time on air is the exact one rounded up to a millisecond. */
  predicate RoundsUp(bandwidthKhz: u32) {
    bandwidthKhz in {31, 62, 125, 250, 500} || 64 <= bandwidthKhz <= 124
  }

  /** They are those with whole microseconds at which the label always tells. */
  lemma RoundsUpIff(bandwidthKhz: u32)
    ensures RoundsUp(bandwidthKhz) <==>
            BinaryBandwidth(BandwidthHz(bandwidthKhz)) && forall sf: u8 :: 7 <= sf <= 12 ==> LabelTellsLdro(sf, bandwidthKhz)
    ensures BinaryBandwidth(BandwidthHz(bandwidthKhz)) && !RoundsUp(bandwidthKhz) ==>
              !LabelTellsLdro(10, bandwidthKhz) || !LabelTellsLdro(11, bandwidthKhz)
  {
    Pow2Table();
    assert LabelTellsLdro(10, bandwidthKhz) || !LabelTellsLdro(10, bandwidthKhz);
    assert LabelTellsLdro(11, bandwidthKhz) || !LabelTellsLdro(11, bandwidthKhz);
  }

  /** A hundred bytes at spreading factors 10 and 11 take visibly longer with the switch on. */
  lemma SwitchShows(sf: u8, bandwidthKhz: u32)
    requires sf in {10, 11} && BinaryBandwidth(BandwidthHz(bandwidthKhz))
    ensures DivCeil(TotalUs(sf, true, bandwidthKhz, 1, 100, 8, false), 1000) > DivCeil(TotalUs(sf, false, bandwidthKhz, 1, 100, 8, false), 1000)
  {
    hide SymbolTimeUs, QuarterSymbols;
    HundredBytes(sf);
    SymbolTimeDoubles(sf, bandwidthKhz);
  }

  lemma HundredBytes(sf: u8)
    requires sf in {10, 11}
    ensures QuarterSymbols(sf, true, 1, 100, 8, false) == if sf == 10 then 581 else 521
    ensures QuarterSymbols(sf, false, 1, 100, 8, false) == if sf == 10 then 481 else 441
  {}

  /**
   `time_on_air_ms` is documented as rounded up. It is the ceiling of the datasheet's time for
   every packet exactly at these labels: elsewhere the symbol time is cut to a microsecond, or
   the label puts some spreading factor on the wrong side of the low-data-rate threshold.
   */
  lemma RoundedUpIff(bandwidthKhz: u32)
    ensures RoundsUp(bandwidthKhz) <==>
            forall sf: u8, codingRate: u8, payloadLen: nat, preamble: u16, crcOn: bool ::
              TimeOnAirMsExt(sf, bandwidthKhz, codingRate, payloadLen, preamble, crcOn)
              == Ceil(ExactUs(sf, bandwidthKhz, codingRate, payloadLen, preamble, crcOn) / 1000.0)
  {
    hide TotalUs, LdroEnabled, SlowSymbols, LabelTellsLdro, BandwidthHz, CodingRateTerm, BinaryBandwidth, ExactUs, RoundsUp, DivCeil, Ceil;
    RoundsUpIff(bandwidthKhz);
    if RoundsUp(bandwidthKhz) {
      forall sf: u8, codingRate: u8, payloadLen: nat, preamble: u16, crcOn: bool
        ensures TimeOnAirMsExt(sf, bandwidthKhz, codingRate, payloadLen, preamble, crcOn)
                == Ceil(ExactUs(sf, bandwidthKhz, codingRate, payloadLen, preamble, crcOn) / 1000.0)
      {
        ExactRoundedUp(sf, bandwidthKhz, codingRate, payloadLen, preamble, crcOn);
        LdroIsSlowSymbolsIff(ClampSf(sf), bandwidthKhz);
      }
    } else if BinaryBandwidth(BandwidthHz(bandwidthKhz)) {
      var sf: u8 := if LabelTellsLdro(10, bandwidthKhz) then 11 else 10;
      WrongSwitchShows(sf, bandwidthKhz);
    } else {
      LongPreambleIsUndercharged(bandwidthKhz);
      NotTheCeiling(TimeOnAirMsExt(7, bandwidthKhz, 5, 0, 65_535, false), ExactUs(7, bandwidthKhz, 5, 0, 65_535, false));
    }
  }

  lemma WrongSwitchShows(sf: u8, bandwidthKhz: u32)
    requires sf in {10, 11} && BinaryBandwidth(BandwidthHz(bandwidthKhz)) && !LabelTellsLdro(sf, bandwidthKhz)
    ensures TimeOnAirMsExt(sf, bandwidthKhz, 5, 100, 8, false) != Ceil(ExactUs(sf, bandwidthKhz, 5, 100, 8, false) / 1000.0)
  {
    hide TotalUs, LdroEnabled, SlowSymbols, LabelTellsLdro, BandwidthHz, BinaryBandwidth, ExactUs, DivCeil, Ceil;
    ExactRoundedUp(sf, bandwidthKhz, 5, 100, 8, false);
    LdroIsSlowSymbolsIff(sf, bandwidthKhz);
    SwitchShows(sf, bandwidthKhz);
  }

  lemma NotTheCeiling(ms: nat, us: real)
    requires ms as real * 1000.0 < us
    ensures ms != Ceil(us / 1000.0)
  {}

  // ----- Monotonicity --------------------------------------------------------

  lemma LdroGrowsWithSf(sf: nat, bandwidthKhz: u32)
    requires 7 <= sf < 12 && LdroEnabled(sf, bandwidthKhz)
    ensures LdroEnabled(sf + 1, bandwidthKhz)
  {
    if bandwidthKhz != 0 {
      DivMonotone(Pow2(sf) * 1000, Pow2(sf + 1) * 1000, bandwidthKhz);
    }
  }

  /** Fewer bits per code word but at most four more per block still leave half the blocks. */
  lemma HalfTheBlocks(n: nat, d: nat, d': nat)
    requires n > 4 && d >= 20 && 0 < d' <= d + 4
    ensures 2 * ((n - 4 + d' - 1) / d') + 1 >= (n + d - 1) / d
  {
    DivBounds(n + d - 1, d);
    DivBounds(n - 4 + d' - 1, d');
    HalvesProducts(n, d, d', (n + d - 1) / d, (n - 4 + d' - 1) / d');
  }

  lemma HalvesProducts(n: nat, d: nat, d': nat, k: nat, c: nat)
    requires d >= 20 && 0 < d' <= d + 4
    requires k * d <= n + d - 1 < k * d + d && c * d' <= n - 4 + d' - 1 < c * d' + d'
    ensures 2 * c + 1 >= k
  {
    MulMonotone(d', d + 4, c);
    MulMonotone(20, d, k);
    if 2 * c + 2 <= k {
      MulMonotone(2 * c + 2, k, d);
    }
    HalvesLinear(n, d, d', k, c, k * d, c * d, c * d');
  }

  /** The linear core: the products are given. */
  lemma HalvesLinear(n: nat, d: nat, d': nat, k: nat, c: nat, kd: nat, cd: nat, cd': nat)
    requires kd <= n + d - 1 < kd + d && cd' <= n - 4 + d' - 1 < cd' + d'
    requires cd' <= cd + 4 * c && kd >= 20 * k && (2 * c + 2 <= k ==> 2 * cd + 2 * d <= kd)
    ensures 2 * c + 1 >= k
  {}

  /** One step up in spreading factor leaves at least half the blocks, give or take one. */
  lemma BlocksHalveAtMost(sf: nat, ldro: bool, ldro': bool, payloadLen: nat, crcOn: bool)
    requires 7 <= sf < 12 && (ldro ==> ldro')
    ensures 2 * Blocks(sf + 1, ldro', payloadLen, crcOn) + 1 >= Blocks(sf, ldro, payloadLen, crcOn)
  {
    var n := 8 * payloadLen - 4 * sf + 28 + if crcOn then 16 else 0;
    if n > 4 {
      HalfTheBlocks(n, 4 * (sf - if ldro then 2 else 0), 4 * (sf + 1 - if ldro' then 2 else 0));
    } else if n > 0 {
      DivBounds(n + 4 * (sf - if ldro then 2 else 0) - 1, 4 * (sf - if ldro then 2 else 0));
      assert Blocks(sf, ldro, payloadLen, crcOn) <= 1;
    }
  }

  lemma SymbolTimeDoubles(sf: nat, bandwidthKhz: u32)
    requires 7 <= sf < 12
    ensures SymbolTimeUs(sf + 1, bandwidthKhz) >= 2 * SymbolTimeUs(sf, bandwidthKhz) >= 512
  {
    Pow2Table();
  }

  lemma LongerByAMillisecond(b: nat, b': nat, cr: nat, preamble: nat, st: nat, st': nat)
    requires 2 * b' + 1 >= b && 1 <= cr <= 4 && st' >= 2 * st >= 512
    ensures var q, q' := (preamble + (8 + b * (cr + 4))) * 4 + 17, (preamble + (8 + b' * (cr + 4))) * 4 + 17;
            DivCeil(QuartersUs(q, st), 1000) < DivCeil(QuartersUs(q', st'), 1000)
  {
    var q, q' := (preamble + (8 + b * (cr + 4))) * 4 + 17, (preamble + (8 + b' * (cr + 4))) * 4 + 17;
    MulMonotone(b, 2 * b' + 1, cr + 4);
    assert 2 * q' >= q + 17;
    MulMonotone(q + 17, 2 * q', st);
    MulMonotone(2 * st, st', q');
    assert q' * st' >= q * st + 17 * st;
  }

  lemma CodingRateRange(codingRate: u8)
    ensures 1 <= CodingRateTerm(codingRate) <= 4
  {}

  /** Airtime strictly grows with the spreading factor, whatever the low-data-rate switch does. */
  lemma AirtimeGrowsWithSf(sf: u8, bandwidthKhz: u32, codingRate: u8, payloadLen: nat, preamble: u16, crcOn: bool)
    requires 7 <= sf < 12
    ensures TimeOnAirMsExt(sf, bandwidthKhz, codingRate, payloadLen, preamble, crcOn)
            < TimeOnAirMsExt(sf + 1, bandwidthKhz, codingRate, payloadLen, preamble, crcOn)
  {
    hide Blocks, SymbolTimeUs, LdroEnabled, DivCeil, QuartersUs, CodingRateTerm;
    CodingRateRange(codingRate);
    var cr := CodingRateTerm(codingRate);
    var ldro, ldro' := LdroEnabled(sf, bandwidthKhz), LdroEnabled(sf + 1, bandwidthKhz);
    if ldro {
      LdroGrowsWithSf(sf, bandwidthKhz);
    }
    BlocksHalveAtMost(sf, ldro, ldro', payloadLen, crcOn);
    SymbolTimeDoubles(sf, bandwidthKhz);
    LongerByAMillisecond(Blocks(sf, ldro, payloadLen, crcOn), Blocks(sf + 1, ldro', payloadLen, crcOn),
                         cr, preamble, SymbolTimeUs(sf, bandwidthKhz), SymbolTimeUs(sf + 1, bandwidthKhz));
  }

  lemma BlocksMonotone(sf: nat, ldro: bool, len: nat, len': nat, crc: bool, crc': bool)
    requires 7 <= sf <= 12 && len <= len' && (crc ==> crc')
    ensures Blocks(sf, ldro, len, crc) <= Blocks(sf, ldro, len', crc')
  {
    var d := 4 * (sf - if ldro then 2 else 0);
    var n := 8 * len - 4 * sf + 28 + if crc then 16 else 0;
    var n' := 8 * len' - 4 * sf + 28 + if crc' then 16 else 0;
    if n > 0 {
      DivMonotone(n + d - 1, n' + d - 1, d);
    }
  }

  /** Airtime never drops as payload, preamble, coding rate or the CRC grow. */
  lemma AirtimeMonotone(sf: u8, bandwidthKhz: u32, cr: u8, cr': u8, len: nat, len': nat, preamble: u16, preamble': u16, crc: bool, crc': bool)
    requires 5 <= cr <= cr' <= 8 && len <= len' && preamble <= preamble' && (crc ==> crc')
    ensures TimeOnAirMsExt(sf, bandwidthKhz, cr, len, preamble, crc) <= TimeOnAirMsExt(sf, bandwidthKhz, cr', len', preamble', crc')
  {
    hide Blocks, SymbolTimeUs, LdroEnabled, DivCeil, QuartersUs;
    var s := ClampSf(sf);
    var ldro, st := LdroEnabled(s, bandwidthKhz), SymbolTimeUs(s, bandwidthKhz);
    BlocksMonotone(s, ldro, len, len', crc, crc');
    NotShorter(Blocks(s, ldro, len, crc), Blocks(s, ldro, len', crc'), cr, cr', preamble, preamble', st);
  }

  lemma NotShorter(b: nat, b': nat, cr: nat, cr': nat, preamble: nat, preamble': nat, st: nat)
    requires b <= b' && cr <= cr' && preamble <= preamble'
    ensures var q, q' := (preamble + (8 + b * cr)) * 4 + 17, (preamble' + (8 + b' * cr')) * 4 + 17;
            DivCeil(QuartersUs(q, st), 1000) <= DivCeil(QuartersUs(q', st), 1000)
  {
    MulMonotone(b, b', cr);
    MulMonotone(cr, cr', b');
    MulMonotone((preamble + (8 + b * cr)) * 4 + 17, (preamble' + (8 + b' * cr')) * 4 + 17, st);
  }

  // ----- Widths --------------------------------------------------------------

  /** For payloads up to 256 bytes no intermediate leaves the width the code gives it. */
  lemma NoOverflow(sf: nat, ldro: bool, bandwidthKhz: u32, cr: nat, payloadLen: nat, preamble: u16, crcOn: bool)
    requires 7 <= sf <= 12 && 1 <= cr <= 4 && payloadLen <= 256
    ensures preamble + (8 + Blocks(sf, ldro, payloadLen, crcOn) * (cr + 4)) < U32_SIZE
    ensures QuarterSymbols(sf, ldro, cr, payloadLen, preamble, crcOn) * SymbolTimeUs(sf, bandwidthKhz) < U32_SIZE * U32_SIZE
    ensures DivCeil(TotalUs(sf, ldro, bandwidthKhz, cr, payloadLen, preamble, crcOn), 1000) < U32_SIZE
  {
    hide SymbolTimeUs, Blocks;
    SymbolTimeBound(sf, bandwidthKhz);
    BlocksBound(sf, ldro, payloadLen, crcOn);
    MulMonotone(Blocks(sf, ldro, payloadLen, crcOn), 110, cr + 4);
    ProductBelow(QuarterSymbols(sf, ldro, cr, payloadLen, preamble, crcOn), SymbolTimeUs(sf, bandwidthKhz));
  }

  lemma SymbolTimeBound(sf: nat, bandwidthKhz: u32)
    requires 7 <= sf <= 12
    ensures SymbolTimeUs(sf, bandwidthKhz) <= 600_000
  {
    Pow2Table();
  }

  lemma BlocksBound(sf: nat, ldro: bool, payloadLen: nat, crcOn: bool)
    requires 7 <= sf <= 12 && payloadLen <= 256
    ensures Blocks(sf, ldro, payloadLen, crcOn) <= 110
  {
    BlocksMonotone(sf, ldro, payloadLen, 256, crcOn, true);
  }

  lemma ProductBelow(q: nat, st: nat)
    requires q <= 300_000 && st <= 600_000
    ensures q * st <= 180_000_000_000
  {
    MulMonotone(q, 300_000, st);
  }
}
