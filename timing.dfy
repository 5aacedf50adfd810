/** The arithmetic of TimerService (webtask_scheduler/scheduler/services.py):
    turning a relative delay into an absolute fire instant, rounding a
    remaining duration to one decimal of a second, and clamping it at zero.

    Instants are whole microseconds since 1970-01-01T00:00:00Z, the
    resolution of Python's datetime; durations reported to callers are whole
    tenths of a second, the result of round(seconds, 1). */
module Timing {
  import opened Wrappers

  /** Microseconds since the Unix epoch, UTC. */
  type Instant = int

  const MicrosPerSecond: int := 1_000_000
  const MicrosPerTenth: int := 100_000
  const HalfTenth: int := 50_000
  const TenthsPerSecond: int := 10
  const SecondsPerDay: int := 86_400

  /** datetime(1, 1, 1, tzinfo=utc) and datetime(9999, 12, 31, 23, 59, 59, 999999, tzinfo=utc). */
  const MinInstant: Instant := -62_135_596_800 * MicrosPerSecond
  const MaxInstant: Instant := 253_402_300_799 * MicrosPerSecond + 999_999

  /** A timedelta's normalised day count must have magnitude at most this. */
  const MaxDeltaDays: int := 999_999_999

  /** The instants a Python datetime can hold; the clock only yields these. */
  predicate Representable(t: Instant) {
    MinInstant <= t <= MaxInstant
  }

  /** The two ways the delay computation raises OverflowError. */
  datatype Overflow =
    | DeltaOutOfRange     // timedelta(hours=..., minutes=..., seconds=...) itself
    | InstantOutOfRange   // now + delta leaves the datetime range

  /** The requested delay in seconds. The source does not check the sign of
      the three components, so any integers are accepted. */
  function DelaySeconds(hours: int, minutes: int, seconds: int): int {
    hours * 3600 + minutes * 60 + seconds
  }

  /** now + timedelta(hours=hours, minutes=minutes, seconds=seconds), as
      services.py:18-19 computes the fire instant. timedelta keeps
      floor(total / 86400) days, and refuses more than MaxDeltaDays of them
      in either direction; the sum must again be a datetime. */
  function FireAt(hours: int, minutes: int, seconds: int, now: Instant): (r: Result<Instant, Overflow>)
    requires Representable(now)
    ensures r.Ok? <==>
      && -MaxDeltaDays * SecondsPerDay <= DelaySeconds(hours, minutes, seconds) < (MaxDeltaDays + 1) * SecondsPerDay
      && Representable(now + DelaySeconds(hours, minutes, seconds) * MicrosPerSecond)
    ensures r.Ok? ==> Representable(r.value) && r.value - now == DelaySeconds(hours, minutes, seconds) * MicrosPerSecond
    ensures r.Err? ==> (r.error == DeltaOutOfRange <==>
      !(-MaxDeltaDays * SecondsPerDay <= DelaySeconds(hours, minutes, seconds) < (MaxDeltaDays + 1) * SecondsPerDay))
  {
    var total := DelaySeconds(hours, minutes, seconds);
    var days := total / SecondsPerDay;
    if days < -MaxDeltaDays || MaxDeltaDays < days then
      Err(DeltaOutOfRange)
    else
      var runAt := now + total * MicrosPerSecond;
      if !Representable(runAt) then Err(InstantOutOfRange) else Ok(runAt)
  }

  /** The last w decimal digits of n, zero-padded: Python's %0wd for
      0 <= n < 10^w. */
  function Digits(n: int, w: nat): (r: string)
    ensures |r| == w
    ensures forall i :: 0 <= i < |r| ==> '0' <= r[i] <= '9'
    decreases w
  {
    if w == 0 then [] else Digits(n / 10, w - 1) + [('0' as int + n % 10) as char]
  }

  /** The proleptic Gregorian date (year, month, day) of a day number counted
      from 1970-01-01, by the usual era/day-of-era decomposition. */
  function CivilDate(days: int): (int, int, int) {
    var z := days + 719_468;
    var era := z / 146_097;
    var dayOfEra := z - era * 146_097;
    var yearOfEra := (dayOfEra - dayOfEra / 1460 + dayOfEra / 36_524 - dayOfEra / 146_096) / 365;
    var dayOfYear := dayOfEra - (365 * yearOfEra + yearOfEra / 4 - yearOfEra / 100);
    var mp := (5 * dayOfYear + 2) / 153;
    var day := dayOfYear - (153 * mp + 2) / 5 + 1;
    var month := if mp < 10 then mp + 3 else mp - 9;
    var year := yearOfEra + era * 400 + (if month <= 2 then 1 else 0);
    (year, month, day)
  }

  /** YYYY-MM-DD of a day number counted from 1970-01-01. */
  function DateText(days: int): (r: string)
    ensures |r| == 10
  {
    var (year, month, day) := CivilDate(days);
    Digits(year, 4) + "-" + Digits(month, 2) + "-" + Digits(day, 2)
  }

  /** HH:MM:SS of a second of the day. */
  function ClockText(ofDay: int): (r: string)
    ensures |r| == 8
  {
    Digits(ofDay / 3600, 2) + ":" + Digits(ofDay / 60 % 60, 2) + ":" + Digits(ofDay % 60, 2)
  }

  /** .ffffff, or nothing when the microseconds are zero. */
  function FractionText(micros: int): (r: string)
    ensures |r| == if micros == 0 then 0 else 7
  {
    if micros == 0 then "" else "." + Digits(micros, 6)
  }

  /** str() of a UTC datetime, as the f-string at services.py:21 renders the
      fire instant: YYYY-MM-DD HH:MM:SS, then .ffffff only when the
      microseconds are not zero, then the offset +00:00. */
  function IsoUtc(t: Instant): (r: string)
    ensures |r| == if t % MicrosPerSecond == 0 then 25 else 32
  {
    var secs := t / MicrosPerSecond;
    DateText(secs / SecondsPerDay) + " " + ClockText(secs % SecondsPerDay) + FractionText(t % MicrosPerSecond) + "+00:00"
  }

  lemma CivilDateExample()
    ensures CivilDate(19_874) == (2024, 5, 31)
  {
  }

  /** Two digits are the tens and the units, for 0 <= n < 100. */
  lemma DigitsPair(n: int)
    requires 0 <= n < 100
    ensures Digits(n, 2) == [('0' as int + n / 10) as char, ('0' as int + n % 10) as char]
  {
    assert Digits(n / 10, 1) == Digits(n / 10 / 10, 0) + [('0' as int + n / 10 % 10) as char];
  }

  lemma DigitsExample()
    ensures Digits(2024, 4) == "2024" && Digits(5, 2) == "05" && Digits(31, 2) == "31"
    ensures Digits(2, 2) == "02" && Digits(24, 2) == "24" && Digits(0, 2) == "00"
  {
    assert Digits(2024, 4) == Digits(20, 2) + "2" + "4";
    DigitsPair(20);
    DigitsPair(5);
    DigitsPair(31);
    DigitsPair(2);
    DigitsPair(24);
    DigitsPair(0);
  }

  lemma DateTextExample()
    ensures DateText(19_874) == "2024-05-31"
  {
    CivilDateExample();
    DigitsExample();
  }

  lemma ClockTextExample()
    ensures ClockText(8640) == "02:24:00"
  {
    DigitsExample();
  }

  /** The rendering the view test expects for the instant 2024-05-31T02:24:00Z. */
  lemma IsoUtcExample()
    ensures IsoUtc(1_717_122_240 * MicrosPerSecond) == "2024-05-31 02:24:00+00:00"
  {
    var t := 1_717_122_240 * MicrosPerSecond;
    assert t / MicrosPerSecond / SecondsPerDay == 19_874 && t / MicrosPerSecond % SecondsPerDay == 8640;
    assert t % MicrosPerSecond == 0;
    DateTextExample();
    ClockTextExample();
  }

  /** r is a correct rounding of us microseconds to tenths of a second: within
      half a tenth, and even when us lies exactly halfway between two tenths. */
  ghost predicate IsRoundedTenths(us: int, r: int) {
    && r * MicrosPerTenth - HalfTenth <= us <= r * MicrosPerTenth + HalfTenth
    && ((us - r * MicrosPerTenth == HalfTenth || r * MicrosPerTenth - us == HalfTenth) ==> r % 2 == 0)
  }

  /** round(us / 10^6, 1), in tenths of a second: Python's round-half-to-even
      to one decimal, taken on the exact microsecond value. */
  function RoundTenths(us: int): (r: int)
    ensures IsRoundedTenths(us, r)
  {
    var q := us / MicrosPerTenth;
    var rest := us % MicrosPerTenth;
    if rest < HalfTenth then q
    else if HalfTenth < rest then q + 1
    else if q % 2 == 0 then q
    else q + 1
  }

  /** There is only one correct rounding, so RoundTenths is it. */
  lemma RoundTenthsUnique(us: int, r: int)
    requires IsRoundedTenths(us, r)
    ensures RoundTenths(us) == r
  {
  }

  /** A whole number of tenths is reported exactly. */
  lemma RoundTenthsExact(k: int)
    ensures RoundTenths(k * MicrosPerTenth) == k
  {
    RoundTenthsUnique(k * MicrosPerTenth, k);
  }

  /** Rounding never reverses the order of two durations. */
  lemma RoundTenthsMonotone(a: int, b: int)
    requires a <= b
    ensures RoundTenths(a) <= RoundTenths(b)
  {
  }

  /** Shifting a duration by an even number of tenths (2k) shifts its
      rounding by exactly as much; ties keep their parity. */
  lemma RoundTenthsShift(us: int, k: int)
    ensures RoundTenths(us + 2 * k * MicrosPerTenth) == RoundTenths(us) + 2 * k
  {
    var r := RoundTenths(us);
    assert (r + 2 * k) * MicrosPerTenth == r * MicrosPerTenth + 2 * k * MicrosPerTenth;
    assert (r + 2 * k) % 2 == r % 2;
    RoundTenthsUnique(us + 2 * k * MicrosPerTenth, r + 2 * k);
  }

  /** The time left reported by get (services.py:46-49): the remaining
      duration, rounded to tenths, and 0 in place of a negative rounding.
      It is 0 exactly when at most half a tenth remains, in particular once
      the fire instant has passed; otherwise it is the nearest tenth. */
  function TimeLeft(fireAt: Instant, now: Instant): (r: nat)
    ensures r == 0 <==> fireAt - now <= HalfTenth
    ensures now >= fireAt ==> r == 0
    ensures r > 0 ==> IsRoundedTenths(fireAt - now, r)
  {
    var rounded := RoundTenths(fireAt - now);
    if rounded < 0 then 0 else rounded
  }

  /** Asked later, get never reports more time left. */
  lemma TimeLeftNonIncreasing(fireAt: Instant, t1: Instant, t2: Instant)
    requires t1 <= t2
    ensures TimeLeft(fireAt, t2) <= TimeLeft(fireAt, t1)
  {
    RoundTenthsMonotone(fireAt - t2, fireAt - t1);
  }

  /** While time is still left, waiting k whole seconds lowers the reported
      time left by exactly k seconds. */
  lemma TimeLeftElapsed(fireAt: Instant, t: Instant, k: nat)
    requires TimeLeft(fireAt, t + k * MicrosPerSecond) > 0
    ensures TimeLeft(fireAt, t) == TimeLeft(fireAt, t + k * MicrosPerSecond) + k * TenthsPerSecond
  {
    var later := fireAt - (t + k * MicrosPerSecond);
    assert fireAt - t == later + 2 * (5 * k) * MicrosPerTenth;
    RoundTenthsShift(later, 5 * k);
  }

  /** set reports round(fire_at - now, 1) without a clamp (services.py:28).
      That is the requested delay, in tenths, for any delay; and a get at the
      same instant reports the same value exactly when the delay is not
      negative. */
  lemma SetThenGetAgree(hours: int, minutes: int, seconds: int, now: Instant)
    requires Representable(now) && FireAt(hours, minutes, seconds, now).Ok?
    ensures RoundTenths(FireAt(hours, minutes, seconds, now).value - now)
            == DelaySeconds(hours, minutes, seconds) * TenthsPerSecond
    ensures TimeLeft(FireAt(hours, minutes, seconds, now).value, now)
            == DelaySeconds(hours, minutes, seconds) * TenthsPerSecond
            <==> DelaySeconds(hours, minutes, seconds) >= 0
  {
    var d := DelaySeconds(hours, minutes, seconds);
    assert FireAt(hours, minutes, seconds, now).value - now == (d * TenthsPerSecond) * MicrosPerTenth;
    RoundTenthsExact(d * TenthsPerSecond);
  }
}
