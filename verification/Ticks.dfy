/** Conversion between durations and performance counter ticks, in 64-bit arithmetic. */
module Ticks {

  const TWO_63 := 0x8000_0000_0000_0000
  const TWO_64 := 0x1_0000_0000_0000_0000

  /** A second in the unit of the filter times. */
  const NANOSECONDS: nat := 1_000_000_000

  /** The value a 64-bit unsigned integer takes. */
  function Wrapped(x: int): (r: nat)
    ensures r < TWO_64
    ensures 0 <= x < TWO_64 ==> r == x
    ensures -TWO_64 <= x < 0 ==> r == x + TWO_64
  {
    x % TWO_64
  }

  /** The same 64 bits read as a signed integer. */
  function Signed(u: nat): int {
    if u < TWO_63 then u else u - TWO_64
  }

  function Gcd(a: nat, b: nat): nat
    decreases b
  {
    if b == 0 then a else Gcd(b, a % b)
  }

  /** `factor / divisor` times `count`, where a negative count is first read as unsigned. */
  function Scaled(count: int, factor: nat, divisor: nat): int
    requires divisor > 0
  {
    Signed(Wrapped(Wrapped(count) * factor) / divisor)
  }

  /** A duration of `count` nanoseconds in ticks. */
  function ToTicks(count: int, frequency: nat): int
    requires 0 < frequency < TWO_64
  {
    ReducedPositive(frequency, NANOSECONDS);
    Scaled(count, frequency / Gcd(frequency, NANOSECONDS), NANOSECONDS / Gcd(frequency, NANOSECONDS))
  }

  /** Ticks in nanoseconds. */
  function FromTicks(ticks: int, frequency: nat): int
    requires 0 < frequency < TWO_64
  {
    ReducedPositive(NANOSECONDS, frequency);
    Scaled(ticks, NANOSECONDS / Gcd(NANOSECONDS, frequency), frequency / Gcd(NANOSECONDS, frequency))
  }

  function FromRelativeTicks(ticks: nat, start: nat, frequency: nat): int
    requires 0 < frequency < TWO_64
  {
    if ticks < start then 0 else FromTicks(Signed(Wrapped(ticks - start)), frequency)
  }

  /** The timestamp of a filter time relative to the start of the session. */
  function FilterTimestamp(sessionStart: nat, time: int, frequency: nat): nat
    requires 0 < frequency < TWO_64
  {
    Wrapped(sessionStart + if ToTicks(time, frequency) > 0 then ToTicks(time, frequency) else 0)
  }

  // ----- Arithmetic --------------------------------------------------------------------

  lemma {:induction false} MulMonotone(g: int, x: int, y: int)
    requires g >= 0 && x <= y
    ensures g * x <= g * y
  {
    assert g * (y - x) == g * y - g * x;
  }

  lemma {:induction false} MulPositive(x: int, y: int)
    requires 0 < x && 0 < y
    ensures 0 < x * y && x <= x * y && y <= x * y
  {
    MulMonotone(x, 1, y);
    MulMonotone(y, 1, x);
  }

  lemma {:induction false} NonZeroMultiple(d: int, k: int)
    requires d > 0 && k != 0
    ensures d * k >= d || d * k <= -d
  {
    if k > 0 { MulMonotone(d, 1, k); } else { MulMonotone(d, k, -1); }
  }

  lemma {:induction false} SmallMultiple(d: int, k: int)
    requires d > 0 && -d < d * k < d
    ensures k == 0
  {
    if k != 0 { NonZeroMultiple(d, k); }
  }

  /** The quotient is determined by its bounds. */
  lemma {:induction false} QuotientIs(x: int, d: int, q: int)
    requires d > 0 && d * q <= x < d * q + d
    ensures x / d == q
  {
    var r := x / d;
    assert x == d * r + x % d;
    assert d * (r - q) == d * r - d * q;
    SmallMultiple(d, r - q);
  }

  lemma {:induction false} QuotientBounds(x: int, d: int)
    requires d > 0
    ensures d * (x / d) <= x < d * (x / d) + d
  {
    assert x == d * (x / d) + x % d;
  }

  lemma {:induction false} QuotientOfProduct(g: int, x: int)
    requires g > 0
    ensures (g * x) / g == x
  {
    QuotientIs(g * x, g, x);
  }

  lemma {:induction false} CancelLess(d: int, x: int, y: int)
    requires d > 0 && d * x < d * y
    ensures x < y
  {
    if y <= x { MulMonotone(d, y, x); }
  }

  lemma {:induction false} QuotientMonotone(x: int, y: int, d: int)
    requires d > 0 && x <= y
    ensures x / d <= y / d
  {
    QuotientBounds(x, d);
    QuotientBounds(y, d);
    assert d * (y / d + 1) == d * (y / d) + d;
    CancelLess(d, x / d, y / d + 1);
  }

  lemma {:induction false} QuotientNatural(x: nat, d: nat)
    requires d > 0
    ensures 0 <= x / d <= x
  {
    QuotientMonotone(0, x, d);
    QuotientIs(0, d, 0);
    QuotientBounds(x, d);
    MulMonotone(x / d, 1, d);
  }

  /** A common factor does not change the quotient. */
  lemma {:induction false} CancelFactor(g: int, x: int, y: int)
    requires g > 0 && y > 0
    ensures g * y > 0 && (g * x) / (g * y) == x / y
  {
    MulPositive(g, y);
    var q := x / y;
    QuotientBounds(x, y);
    MulMonotone(g, y * q, x);
    MulMonotone(g, x + 1, y * q + y);
    assert g * (y * q) == (g * y) * q;
    assert g * (y * q + y) == (g * y) * q + g * y;
    assert g * (x + 1) == g * x + g;
    QuotientIs(g * x, g * y, q);
  }

  lemma {:induction false} Regroup(g: int, x: int, q: int, y: int)
    ensures g * (x * q + y) == (g * x) * q + g * y
  {
  }

  lemma {:induction false} GcdDivides(a: nat, b: nat) returns (x: nat, y: nat)
    ensures a == Gcd(a, b) * x && b == Gcd(a, b) * y
    decreases b
  {
    if b == 0 {
      x, y := 1, 0;
    } else {
      var x1, y1 := GcdDivides(b, a % b);
      var q := a / b;
      assert a == b * q + a % b;
      QuotientNatural(a, b);
      MulMonotone(x1, 0, q);
      x, y := x1 * q + y1, x1;
      Regroup(Gcd(a, b), x1, q, y1);
    }
  }

  lemma {:induction false} GcdPositive(a: nat, b: nat)
    requires a > 0 || b > 0
    ensures Gcd(a, b) > 0
    decreases b
  {
    if b > 0 { GcdPositive(b, a % b); }
  }

  /** Both numbers are multiples of the divisor, by their quotients. */
  lemma {:induction false} ReducedPositive(a: nat, b: nat)
    requires a > 0 && b > 0
    ensures Gcd(a, b) > 0 && a / Gcd(a, b) > 0 && b / Gcd(a, b) > 0
    ensures a == Gcd(a, b) * (a / Gcd(a, b)) && b == Gcd(a, b) * (b / Gcd(a, b))
  {
    GcdPositive(a, b);
    var x, y := GcdDivides(a, b);
    QuotientOfProduct(Gcd(a, b), x);
    QuotientOfProduct(Gcd(a, b), y);
  }

  /** Reducing by the greatest common divisor before multiplying gives the exact floor. */
  lemma {:induction false} ReducedQuotient(c: nat, a: nat, d: nat)
    requires a > 0 && d > 0
    ensures Gcd(a, d) > 0 && d / Gcd(a, d) > 0 && (c * (a / Gcd(a, d))) / (d / Gcd(a, d)) == (c * a) / d
  {
    ReducedPositive(a, d);
    var g := Gcd(a, d);
    var x, y := a / g, d / g;
    CancelFactor(g, c * x, y);
    assert g * (c * x) == c * (g * x);
  }

  // ----- Conversions without overflow --------------------------------------------------

  /** The product before the division stays in the signed range. */
  predicate Fits(count: int, factor: int) {
    0 <= count < TWO_63 && count * factor < TWO_63
  }

  predicate TicksFit(count: int, frequency: nat)
    requires 0 < frequency
  {
    Gcd(frequency, NANOSECONDS) > 0 && Fits(count, frequency / Gcd(frequency, NANOSECONDS))
  }

  predicate DurationFits(ticks: int, frequency: nat)
    requires 0 < frequency
  {
    Gcd(NANOSECONDS, frequency) > 0 && Fits(ticks, NANOSECONDS / Gcd(NANOSECONDS, frequency))
  }

  lemma {:induction false} ScaledFits(count: int, factor: nat, divisor: nat)
    requires divisor > 0 && Fits(count, factor)
    ensures Scaled(count, factor, divisor) == (count * factor) / divisor
  {
    MulMonotone(count, 0, factor);
    QuotientNatural(count * factor, divisor);
  }

  /** Without overflow, ticks are the floor of the exact quotient. */
  lemma {:induction false} ToTicksIsFloor(count: nat, frequency: nat)
    requires 0 < frequency < TWO_64 && TicksFit(count, frequency)
    ensures ToTicks(count, frequency) == (count * frequency) / NANOSECONDS
  {
    hide Gcd, Scaled, Fits;
    ReducedQuotient(count, frequency, NANOSECONDS);
    ScaledFits(count, frequency / Gcd(frequency, NANOSECONDS), NANOSECONDS / Gcd(frequency, NANOSECONDS));
  }

  lemma {:induction false} FromTicksIsFloor(ticks: nat, frequency: nat)
    requires 0 < frequency < TWO_64 && DurationFits(ticks, frequency)
    ensures FromTicks(ticks, frequency) == (ticks * NANOSECONDS) / frequency
  {
    hide Gcd, Scaled, Fits;
    ReducedQuotient(ticks, NANOSECONDS, frequency);
    ScaledFits(ticks, NANOSECONDS / Gcd(NANOSECONDS, frequency), frequency / Gcd(NANOSECONDS, frequency));
  }

  lemma {:induction false} ToTicksMonotone(c1: nat, c2: nat, frequency: nat)
    requires 0 < frequency < TWO_64 && TicksFit(c1, frequency) && TicksFit(c2, frequency) && c1 <= c2
    ensures ToTicks(c1, frequency) <= ToTicks(c2, frequency)
  {
    ToTicksIsFloor(c1, frequency);
    ToTicksIsFloor(c2, frequency);
    MulMonotone(frequency, c1, c2);
    QuotientMonotone(c1 * frequency, c2 * frequency, NANOSECONDS);
  }

  lemma {:induction false} FromTicksMonotone(t1: nat, t2: nat, frequency: nat)
    requires 0 < frequency < TWO_64 && DurationFits(t1, frequency) && DurationFits(t2, frequency) && t1 <= t2
    ensures FromTicks(t1, frequency) <= FromTicks(t2, frequency)
  {
    FromTicksIsFloor(t1, frequency);
    FromTicksIsFloor(t2, frequency);
    MulMonotone(NANOSECONDS, t1, t2);
    QuotientMonotone(t1 * NANOSECONDS, t2 * NANOSECONDS, frequency);
  }

  /** To ticks and back never overshoots, and loses less than one tick and one nanosecond:
      `count - back` is less than `NANOSECONDS / frequency + 1`. */
  lemma {:induction false} ThereAndBack(count: nat, frequency: nat)
    requires 0 < frequency < TWO_64 && TicksFit(count, frequency) && ToTicks(count, frequency) >= 0
    requires DurationFits(ToTicks(count, frequency), frequency)
    ensures FromTicks(ToTicks(count, frequency), frequency) <= count
    ensures (count - FromTicks(ToTicks(count, frequency), frequency)) * frequency < NANOSECONDS + frequency
  {
    hide Gcd, Scaled, Fits, ToTicks, FromTicks;
    var ticks := ToTicks(count, frequency);
    var back := FromTicks(ticks, frequency);
    ToTicksIsFloor(count, frequency);
    FromTicksIsFloor(ticks, frequency);
    QuotientBounds(count * frequency, NANOSECONDS);
    QuotientBounds(ticks * NANOSECONDS, frequency);
    assert (count - back) * frequency == count * frequency - frequency * back;
    NonNegativeFactor(count - back, frequency);
  }

  lemma {:induction false} NonNegativeFactor(x: int, f: int)
    requires f > 0 && x * f > -f
    ensures x >= 0
  {
    if x < 0 { MulMonotone(f, x, -1); }
  }

  // ----- Filter times and shown times --------------------------------------------------

  lemma {:induction false} FilterTimestampIs(sessionStart: nat, time: nat, frequency: nat)
    requires 0 < frequency < TWO_64 && TicksFit(time, frequency)
    requires sessionStart + (time * frequency) / NANOSECONDS < TWO_64
    ensures FilterTimestamp(sessionStart, time, frequency) == sessionStart + (time * frequency) / NANOSECONDS
  {
    hide Gcd, Scaled, Fits, ToTicks;
    ToTicksIsFloor(time, frequency);
    MulMonotone(time, 0, frequency);
    QuotientNatural(time * frequency, NANOSECONDS);
  }

  lemma {:induction false} ShownTimeIs(timestamp: nat, sessionStart: nat, frequency: nat)
    requires 0 < frequency < TWO_64 && sessionStart <= timestamp && DurationFits(timestamp - sessionStart, frequency)
    ensures FromRelativeTicks(timestamp, sessionStart, frequency)
            == ((timestamp - sessionStart) * NANOSECONDS) / frequency
  {
    hide Gcd, Scaled, FromTicks;
    FromTicksIsFloor(timestamp - sessionStart, frequency);
  }

  /** A sample cut off by a minimal time is shown with an earlier time: what is shown at or behind the minimum is
      kept. */
  lemma {:induction false} CutOffIsShownEarlier(timestamp: nat, sessionStart: nat, time: nat, frequency: nat)
    requires 0 < frequency < TWO_64 && TicksFit(time, frequency)
    requires sessionStart + (time * frequency) / NANOSECONDS < TWO_64
    requires sessionStart <= timestamp < FilterTimestamp(sessionStart, time, frequency)
    requires DurationFits(timestamp - sessionStart, frequency)
    ensures FromRelativeTicks(timestamp, sessionStart, frequency) < time
  {
    hide Gcd, Scaled, Fits, FilterTimestamp, FromRelativeTicks;
    var ticks := timestamp - sessionStart;
    FilterTimestampIs(sessionStart, time, frequency);
    ShownTimeIs(timestamp, sessionStart, frequency);
    QuotientBounds(time * frequency, NANOSECONDS);
    QuotientBounds(ticks * NANOSECONDS, frequency);
    CancelLess(frequency, (ticks * NANOSECONDS) / frequency, time);
  }

  /** A sample cut off by a maximal time is shown at or behind it. */
  lemma {:induction false} CutOffIsShownLater(timestamp: nat, sessionStart: nat, time: nat, frequency: nat)
    requires 0 < frequency < TWO_64 && TicksFit(time, frequency)
    requires sessionStart + (time * frequency) / NANOSECONDS < TWO_64
    requires sessionStart <= timestamp && FilterTimestamp(sessionStart, time, frequency) < timestamp
    requires DurationFits(timestamp - sessionStart, frequency)
    ensures time <= FromRelativeTicks(timestamp, sessionStart, frequency)
  {
    hide Gcd, Scaled, Fits, FilterTimestamp, FromRelativeTicks;
    var ticks := timestamp - sessionStart;
    FilterTimestampIs(sessionStart, time, frequency);
    ShownTimeIs(timestamp, sessionStart, frequency);
    QuotientBounds(time * frequency, NANOSECONDS);
    QuotientBounds(ticks * NANOSECONDS, frequency);
    assert frequency * ((ticks * NANOSECONDS) / frequency + 1)
        == frequency * ((ticks * NANOSECONDS) / frequency) + frequency;
    CancelLess(frequency, time, (ticks * NANOSECONDS) / frequency + 1);
  }

  // ----- Filter times before the session -----------------------------------------------

  /** The product as the program has it before the division, and the divisor. */
  function TickProduct(time: int, frequency: nat): nat
    requires 0 < frequency < TWO_64 && Gcd(frequency, NANOSECONDS) > 0
  {
    Wrapped(time * (frequency / Gcd(frequency, NANOSECONDS)))
  }

  /** For every time and frequency: the timestamp is the start of the session exactly when the product, as an unsigned
      number, is less than the divisor, or there is nothing to divide by and it is negative as a signed number. The
      maximum with zero is meant to have this effect for all times before the session. */
  lemma {:induction false} ClampedExactlyWhen(sessionStart: nat, time: int, frequency: nat)
    requires 0 < frequency < TWO_64 && sessionStart < TWO_64
    ensures Gcd(frequency, NANOSECONDS) > 0 && NANOSECONDS / Gcd(frequency, NANOSECONDS) > 0
    ensures FilterTimestamp(sessionStart, time, frequency) == sessionStart <==>
              var divisor := NANOSECONDS / Gcd(frequency, NANOSECONDS);
              TickProduct(time, frequency) < divisor || (divisor == 1 && TickProduct(time, frequency) >= TWO_63)
  {
    ReducedPositive(frequency, NANOSECONDS);
    var divisor := NANOSECONDS / Gcd(frequency, NANOSECONDS);
    WrappedProduct(time, frequency / Gcd(frequency, NANOSECONDS));
    SignedQuotient(TickProduct(time, frequency), divisor);
    hide Gcd, Wrapped;
    MovesBehind(sessionStart, ToTicks(time, frequency));
  }

  /** Reading a factor as unsigned first does not change the product's bits. */
  lemma {:induction false} WrappedProduct(x: int, factor: nat)
    ensures Wrapped(Wrapped(x) * factor) == Wrapped(x * factor)
  {
    var q := x / TWO_64;
    assert x == TWO_64 * q + Wrapped(x);
    assert x * factor == Wrapped(x) * factor + (q * factor) * TWO_64 by {
      assert (TWO_64 * q + Wrapped(x)) * factor == (q * factor) * TWO_64 + Wrapped(x) * factor;
    }
    WrappedShift(Wrapped(x) * factor, q * factor);
  }

  lemma {:induction false} WrappedShift(x: int, k: int)
    ensures Wrapped(x + k * TWO_64) == Wrapped(x)
  {
    var q := x / TWO_64;
    assert x == TWO_64 * q + Wrapped(x);
    assert TWO_64 * (q + k) == TWO_64 * q + k * TWO_64;
    QuotientIs(x + k * TWO_64, TWO_64, q + k);
  }

  lemma {:induction false} SignedQuotient(product: nat, divisor: nat)
    requires product < TWO_64 && divisor > 0
    ensures Signed(product / divisor) <= 0 <==> product < divisor || (divisor == 1 && product >= TWO_63)
    ensures Signed(product / divisor) < TWO_63
  {
    if product < divisor {
      QuotientIs(product, divisor, 0);
    } else {
      SmallQuotientPositive(product, divisor);
      if divisor == 1 { QuotientIs(product, 1, product); } else { AtMostHalf(product, divisor); }
    }
  }

  lemma {:induction false} AtMostHalf(x: nat, d: nat)
    requires d >= 2
    ensures 2 * (x / d) <= x
  {
    QuotientBounds(x, d);
    QuotientNatural(x, d);
    MulMonotone(x / d, 2, d);
  }

  /** A time before the session whose product with the reduced frequency is not too large is clamped exactly when a tick
      is a whole part of a nanosecond. */
  lemma {:induction false} NegativeTimeClampedExactlyWhen(sessionStart: nat, time: int, frequency: nat)
    requires 0 < frequency < TWO_64 && time < 0 && sessionStart < TWO_64
    requires Gcd(frequency, NANOSECONDS) > 0 && -time * (frequency / Gcd(frequency, NANOSECONDS)) <= TWO_63
    ensures FilterTimestamp(sessionStart, time, frequency) == sessionStart <==> frequency % NANOSECONDS == 0
  {
    ClampedExactlyWhen(sessionStart, time, frequency);
    NegativeProduct(time, frequency);
    ReducedPositive(frequency, NANOSECONDS);
    if frequency % NANOSECONDS == 0 {
      assert Gcd(NANOSECONDS, 0) == NANOSECONDS;
    } else {
      DivisorNotOne(frequency, NANOSECONDS);
    }
  }

  lemma {:induction false} NegativeProduct(time: int, frequency: nat)
    requires 0 < frequency < TWO_64 && time < 0
    requires Gcd(frequency, NANOSECONDS) > 0 && -time * (frequency / Gcd(frequency, NANOSECONDS)) <= TWO_63
    ensures TickProduct(time, frequency) >= TWO_63 && NANOSECONDS / Gcd(frequency, NANOSECONDS) <= NANOSECONDS
  {
    ReducedPositive(frequency, NANOSECONDS);
    var factor := frequency / Gcd(frequency, NANOSECONDS);
    MulPositive(-time, factor);
    assert (-time) * factor == -(time * factor);
    QuotientNatural(NANOSECONDS, Gcd(frequency, NANOSECONDS));
  }

  lemma {:induction false} MovesBehind(start: nat, ticks: int)
    requires start < TWO_64 && ticks < TWO_63
    ensures Wrapped(start + if ticks > 0 then ticks else 0) == start <==> ticks <= 0
  {
    if ticks > 0 && start + ticks >= TWO_64 {
      QuotientIs(start + ticks, TWO_64, 1);
    }
  }

  lemma {:induction false} DivisorOne(a: nat, d: nat)
    requires a > 0 && d > 0 && Gcd(a, d) > 0 && d / Gcd(a, d) == 1
    ensures a % d == 0
  {
    ReducedPositive(a, d);
    QuotientOfProduct(d, a / Gcd(a, d));
    assert a == d * (a / d) + a % d;
  }

  lemma {:induction false} DivisorNotOne(a: nat, d: nat)
    requires a > 0 && d > 0 && a % d != 0
    ensures Gcd(a, d) > 0 && d / Gcd(a, d) > 1
  {
    ReducedPositive(a, d);
    if d / Gcd(a, d) == 1 { DivisorOne(a, d); }
  }

  lemma {:induction false} SmallQuotientPositive(x: int, d: int)
    requires 0 < d <= x
    ensures x / d > 0
  {
    QuotientIs(d, d, 1);
    QuotientMonotone(d, x, d);
  }

  /** Without the bound on the product both directions fail: a frequency that is a multiple of a thousand million with a
      time that is not clamped, and one that is none with a time that is. */
  lemma {:induction false} LargeTimeExamples()
    ensures FilterTimestamp(0, -0x4000_0000_0000_0001, 2_000_000_000) != 0 && 2_000_000_000 % NANOSECONDS == 0
    ensures FilterTimestamp(0, -TWO_63, 1024) == 0 && 1024 % NANOSECONDS != 0
  {
    assert Gcd(2_000_000_000, NANOSECONDS) == Gcd(NANOSECONDS, 0);
    ClampedExactlyWhen(0, -0x4000_0000_0000_0001, 2_000_000_000);
    assert Gcd(1024, NANOSECONDS) == Gcd(NANOSECONDS, 1024) == Gcd(1024, 512) == Gcd(512, 0);
    ClampedExactlyWhen(0, -TWO_63, 1024);
  }

  /** With ten million ticks a second, a filter that starts one nanosecond before the session lets nothing pass that
      was recorded in the first five hundred years. */
  lemma {:induction false} NegativeTimeExample()
    ensures FilterTimestamp(0, -1, 10_000_000) == 184_467_440_737_095_516
  {
    assert Gcd(10_000_000, NANOSECONDS) == 10_000_000 by {
      assert Gcd(10_000_000, NANOSECONDS) == Gcd(NANOSECONDS, 10_000_000);
      assert Gcd(NANOSECONDS, 10_000_000) == Gcd(10_000_000, 0);
    }
  }

  // ----- Timestamps that are nanoseconds -----------------------------------------------

  /** The timestamp of a filter time in a perf.data session. */
  function PerfTimestamp(sessionStart: nat, time: int): nat {
    Wrapped(sessionStart + Wrapped(time))
  }

  function FromPerfTimestamp(timestamp: nat, sessionStart: nat): int {
    if timestamp < sessionStart then 0 else Signed(Wrapped(timestamp - sessionStart))
  }

  /** Also for times before the session, the timestamp is the sum exactly when that is a timestamp. */
  lemma {:induction false} PerfTimestampIsSum(sessionStart: nat, time: int)
    requires sessionStart < TWO_64 && -TWO_63 <= time < TWO_63
    ensures PerfTimestamp(sessionStart, time) == sessionStart + time <==> 0 <= sessionStart + time < TWO_64
  {
    if time < 0 { WrappedShift(sessionStart + time, 1); }
  }

  /** Filter and display agree exactly: a timestamp reaches the filter time if and only if it is shown at or behind
      it. */
  lemma {:induction false} PerfFilterIsExact(timestamp: nat, sessionStart: nat, time: int)
    requires sessionStart <= timestamp < sessionStart + TWO_63 && 0 <= time < TWO_63 && sessionStart + time < TWO_64
    ensures PerfTimestamp(sessionStart, time) <= timestamp <==> time <= FromPerfTimestamp(timestamp, sessionStart)
    ensures timestamp <= PerfTimestamp(sessionStart, time) <==> FromPerfTimestamp(timestamp, sessionStart) <= time
  {
    PerfTimestampIsSum(sessionStart, time);
  }
}
