/** Protocol timers in units of 1/256 s, and why the single-precision arithmetic of the
    program loses nothing. */
module Timers {
  import opened Wire
  import opened Packet

  /** A point in time, in nanoseconds. */
  type Instant = nat

  const SECOND: nat := 1_000_000_000

  /** One 256th of a second is a whole number of nanoseconds. */
  const UNIT_NS: nat := 3_906_250

  function SkewUnits(version: VrrpVersion, priority: byte, interval: byte): nat {
    match version
    case V2 => 256 - priority
    case V3 => (256 - priority) * interval
  }

  function MasterDownUnits(version: VrrpVersion, priority: byte, interval: byte): nat {
    768 * interval + SkewUnits(version, priority, interval)
  }

  function AdvertUnits(interval: byte): nat {
    256 * interval
  }

  function After(now: Instant, units: nat): Instant {
    now + units * UNIT_NS
  }

  function Pow2(n: nat): (r: nat)
    ensures r > 0
  {
    if n == 0 then 1 else 2 * Pow2(n - 1)
  }

  /** A value single precision holds exactly: at most 24 significant bits over a power of two. */
  ghost predicate Binary32(x: real) {
    exists m: int, k: nat :: IsScaled(x, m, k)
  }

  ghost predicate IsScaled(x: real, m: int, k: nat) {
    -0x100_0000 <= m <= 0x100_0000 && k <= 126 && x * Pow2(k) as real == m as real
  }

  /** All that is used of IEEE 754 rounding: representable results are returned as they are. */
  ghost predicate Rounds(round: real -> real) {
    forall x :: Binary32(x) ==> round(x) == x
  }

  /** The constructor's f32 expressions, every operation followed by a rounding. */
  function SkewTimeF32(round: real -> real, version: VrrpVersion, priority: byte, interval: byte): real {
    SkewOfGap(round, version, round(256.0 - priority as real), interval as real)
  }

  function SkewOfGap(round: real -> real, version: VrrpVersion, gap: real, interval: real): real {
    match version
    case V2 => round(gap / 256.0)
    case V3 => round(round(gap * interval) / 256.0)
  }

  function MasterDownF32(round: real -> real, version: VrrpVersion, priority: byte, interval: byte): real {
    round(round(3.0 * interval as real) + SkewTimeF32(round, version, priority, interval))
  }

  /** Duration::from_secs_f32: the nearest nanosecond. */
  function DurationNs(secs: real): int {
    (secs * 1_000_000_000.0 + 0.5).Floor
  }

  lemma {:induction false} UnitsAreBinary32(units: int)
    requires -0x100_0000 <= units <= 0x100_0000
    ensures Binary32(units as real / 256.0)
  {
    assert Pow2(8) == 256;
    assert IsScaled(units as real / 256.0, units, 8);
  }

  lemma {:induction false} IntegersAreBinary32(n: int)
    requires -0x100_0000 <= n <= 0x100_0000
    ensures Binary32(n as real)
  {
    assert Pow2(0) == 1;
    assert IsScaled(n as real, n, 0);
  }

  lemma {:induction false} SkewTimeIsExact(
    round: real -> real, version: VrrpVersion, priority: byte, interval: byte)
    requires Rounds(round)
    ensures SkewTimeF32(round, version, priority, interval)
         == SkewUnits(version, priority, interval) as real / 256.0
  {
    IntegersAreBinary32(256 - priority);
    assert 256.0 - priority as real == (256 - priority) as real;
    SkewOfGapIsExact(round, version, 256 - priority, interval);
  }

  lemma {:induction false} SkewOfGapIsExact(
    round: real -> real, version: VrrpVersion, gap: nat, interval: byte)
    requires Rounds(round) && gap <= 256
    ensures SkewOfGap(round, version, gap as real, interval as real)
         == (if version.V2? then gap else gap * interval) as real / 256.0
  {
    var scaled := gap * interval;
    ProductBound(gap, interval);
    IntegersAreBinary32(scaled);
    UnitsAreBinary32(scaled);
    UnitsAreBinary32(gap);
    assert gap as real * interval as real == scaled as real;
  }

  /** Under any rounding that keeps representable values, skew time and master-down interval
      come out as exactly their number of 256ths, for every priority and interval. */
  lemma {:induction false} SinglePrecisionIsExact(
    round: real -> real, version: VrrpVersion, priority: byte, interval: byte)
    requires Rounds(round)
    ensures SkewTimeF32(round, version, priority, interval)
         == SkewUnits(version, priority, interval) as real / 256.0
    ensures MasterDownF32(round, version, priority, interval)
         == MasterDownUnits(version, priority, interval) as real / 256.0
  {
    SkewTimeIsExact(round, version, priority, interval);
    ProductBound(256 - priority, interval);
    var skew := SkewUnits(version, priority, interval);
    var three := 3 * interval;
    IntegersAreBinary32(three);
    assert 3.0 * interval as real == three as real;
    UnitsAreBinary32(256 * three + skew);
    assert three as real + skew as real / 256.0 == (256 * three + skew) as real / 256.0;
  }

  lemma {:induction false} ProductBound(a: nat, b: byte)
    requires a <= 256
    ensures 0 <= a * b <= 256 * 255
  {
  }

  /** Setting a timer adds a whole number of nanoseconds. */
  lemma {:induction false} DurationIsExact(units: nat)
    ensures DurationNs(units as real / 256.0) == units * UNIT_NS
  {
  }

  /** A master-down interval lies above three intervals, and below four (v3) or below three
      intervals and a second (v2). */
  lemma {:induction false} MasterDownBounds(version: VrrpVersion, priority: byte, interval: byte)
    ensures interval >= 1 ==> 768 * interval < MasterDownUnits(version, priority, interval)
    ensures version.V3? ==> MasterDownUnits(version, priority, interval) <= 1024 * interval
    ensures version.V2? ==> MasterDownUnits(version, priority, interval) <= 768 * interval + 256
  {
  }

  /** Higher priorities wait strictly less, in both versions. */
  lemma {:induction false} MasterDownDecreases(version: VrrpVersion, high: byte, low: byte, interval: byte)
    requires high > low && interval >= 1
    ensures MasterDownUnits(version, high, interval) < MasterDownUnits(version, low, interval)
    ensures SkewUnits(version, high, interval) < SkewUnits(version, low, interval)
  {
  }
}
