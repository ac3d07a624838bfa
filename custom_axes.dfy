/**
 * The time axis of the custom-axes demo: a grid spacer that turns the visible range of
 * minutes into grid marks tagged with the coarsest unit they fall on (a day, an hour or
 * five minutes), and the label formatter that prints "Day d" or "h:mm" for a mark.
 */
module CustomAxes {
  import opened Wrappers
  import opened Format

  const MinsPerDay: int := 24 * 60
  const MinsPerHour: int := 60
  /** The finest grid step; integers that are not a multiple of it get no mark. */
  const MinsPerTick: int := 5
  /** Labels are printed only for minutes in [0, LabelledDays * MinsPerDay). */
  const LabelledDays: int := 5
  /** The tolerance of `is_approx_integer`, 1e-6, as an exact rational. */
  const Tolerance: real := 0.000001

  const I32Min: int := -0x8000_0000
  const I32Max: int := 0x7fff_ffff

  /** One grid line: its position in minutes and the unit it stands for. */
  datatype GridMark = GridMark(value: int, stepSize: int)

  // ---------------------------------------------------------------------------
  // Integer arithmetic as the source performs it
  // ---------------------------------------------------------------------------

  /** Rust's `%` on i32: truncates toward zero, so the remainder has the sign of `a`. */
  function TruncRem(a: int, b: int): (r: int)
    requires b > 0
    ensures a >= 0 ==> 0 <= r < b
    ensures a < 0 ==> -b < r <= 0
    ensures r == 0 <==> a % b == 0
  {
    NegatedMultiple(a, b);
    if a >= 0 then a % b else -((-a) % b)
  }

  /** `a` is a multiple of `b` exactly when `-a` is. */
  lemma NegatedMultiple(a: int, b: int)
    requires b > 0
    ensures (-a) % b == 0 <==> a % b == 0
  {
    if a % b == 0 {
      var q := a / b;
      assert -a == b * -q;
      MultipleRem(-q, b);
    }
    if (-a) % b == 0 {
      var q := (-a) / b;
      assert a == b * -q;
      MultipleRem(-q, b);
    }
  }

  lemma MultipleRem(q: int, b: int)
    requires b > 0
    ensures (b * q) % b == 0
  {
    var d, r := (b * q) / b, (b * q) % b;
    var e := q - d;
    assert b * e == r by {
      assert b * q == b * d + r;
      assert b * e == b * q - b * d;
    }
  }

  /** Rust's `f64 as i32`: a saturating conversion. */
  function SaturateI32(x: int): (r: int)
    ensures I32Min <= r <= I32Max
    ensures I32Min <= x <= I32Max ==> r == x
    ensures x < I32Min ==> r == I32Min
    ensures x > I32Max ==> r == I32Max
  {
    if x < I32Min then I32Min else if x > I32Max then I32Max else x
  }

  /** `min.floor() as i32` */
  function FloorI32(x: real): (r: int)
    ensures I32Min <= r <= I32Max
    ensures I32Min <= x.Floor <= I32Max ==> r as real <= x < r as real + 1.0
    ensures x.Floor < I32Min ==> r == I32Min
    ensures x.Floor > I32Max ==> r == I32Max
  {
    SaturateI32(x.Floor)
  }

  /** `max.ceil() as i32` */
  function CeilI32(x: real): (r: int)
    ensures I32Min <= r <= I32Max
    ensures I32Min <= -((-x).Floor) <= I32Max ==> r as real - 1.0 < x <= r as real
    ensures -((-x).Floor) < I32Min ==> r == I32Min
    ensures -((-x).Floor) > I32Max ==> r == I32Max
  {
    SaturateI32(-((-x).Floor))
  }

  // ---------------------------------------------------------------------------
  // The grid spacer
  // ---------------------------------------------------------------------------

  /**
   * The step size `x_grid` gives the integer `i`, or None when it skips `i`. The contract
   * states the hierarchy in terms of divisibility, whichever `%` is used.
   */
  function StepOf(i: int): (step: Option<int>)
    ensures step == Some(MinsPerDay) <==> i % MinsPerDay == 0
    ensures step == Some(MinsPerHour) <==> i % MinsPerHour == 0 && i % MinsPerDay != 0
    ensures step == Some(MinsPerTick) <==> i % MinsPerTick == 0 && i % MinsPerHour != 0
    ensures step == None <==> i % MinsPerTick != 0
    ensures step.Some? ==> i % step.value == 0
  {
    UnitsNest(i);
    if TruncRem(i, MinsPerDay) == 0 then Some(MinsPerDay)
    else if TruncRem(i, MinsPerHour) == 0 then Some(MinsPerHour)
    else if TruncRem(i, MinsPerTick) == 0 then Some(MinsPerTick)
    else None
  }

  /** A whole day is a whole number of hours, and an hour a whole number of five-minute steps. */
  lemma UnitsNest(i: int)
    ensures i % MinsPerDay == 0 ==> i % MinsPerHour == 0
    ensures i % MinsPerHour == 0 ==> i % MinsPerTick == 0
  {
    if i % MinsPerDay == 0 {
      assert i == MinsPerHour * (24 * (i / MinsPerDay));
      MultipleRem(24 * (i / MinsPerDay), MinsPerHour);
    }
    if i % MinsPerHour == 0 {
      assert i == MinsPerTick * (12 * (i / MinsPerHour));
      MultipleRem(12 * (i / MinsPerHour), MinsPerTick);
    }
  }

  /** The marks for `i` alone: one mark, or none when `i` is skipped. */
  function MarksAt(i: int): (r: seq<GridMark>)
    ensures |r| <= 1
    ensures r != [] <==> i % MinsPerTick == 0
    ensures r != [] ==> r[0].value == i
  {
    match StepOf(i)
    case Some(s) => [GridMark(i, s)]
    case None => []
  }

  /** The marks for the integers `lo..=hi`, in increasing order. */
  function GridMarks(lo: int, hi: int): (r: seq<GridMark>)
    ensures |r| <= if hi < lo then 0 else hi - lo + 1
    decreases if hi < lo then 0 else hi - lo + 1
  {
    if hi < lo then [] else GridMarks(lo, hi - 1) + MarksAt(hi)
  }

  /** The marks for `lo..=i` are those for `lo..=i-1` followed by those for `i`. */
  lemma GridMarksExtend(lo: int, i: int)
    requires lo <= i
    ensures GridMarks(lo, i) == GridMarks(lo, i - 1) + MarksAt(i)
  {
  }

  /**
   * `x_grid`: floors the lower and ceils the upper bound of the visible range (saturating
   * to i32) and marks the integers in between.
   */
  method XGrid(minBound: real, maxBound: real) returns (marks: seq<GridMark>)
    ensures marks == GridMarks(FloorI32(minBound), CeilI32(maxBound))
    ensures MarksWithin(marks, FloorI32(minBound), CeilI32(maxBound))
    ensures StrictlyIncreasing(marks)
    ensures CoarsestSteps(marks)
    ensures CoversTicks(marks, FloorI32(minBound), CeilI32(maxBound))
    ensures MarksWithin(marks, minBound.Floor, -((-maxBound).Floor))
  {
    var lo := FloorI32(minBound);
    var hi := CeilI32(maxBound);
    marks := MarksBetween(lo, hi);
    GridMarksFacts(lo, hi);
    SaturatedBoundsWithin(marks, minBound, maxBound);
  }

  /**
   * Saturation never lets a mark escape the real bounds: the ends of i32 are not multiples
   * of five, so a bound clamped to one of them cannot itself carry a mark.
   */
  lemma SaturatedBoundsWithin(marks: seq<GridMark>, minBound: real, maxBound: real)
    requires MarksWithin(marks, FloorI32(minBound), CeilI32(maxBound))
    requires CoarsestSteps(marks)
    ensures MarksWithin(marks, minBound.Floor, -((-maxBound).Floor))
  {
    assert I32Min % MinsPerTick == 2 && I32Max % MinsPerTick == 2;
    forall k | 0 <= k < |marks|
      ensures minBound.Floor <= marks[k].value <= -((-maxBound).Floor)
    {
      assert StepOf(marks[k].value) != None;
    }
  }

  /**
   * The loop of `x_grid` over `lo..=hi`: tags each integer with the coarsest unit it is a
   * multiple of and skips it when it is not a multiple of five minutes.
   */
  method MarksBetween(lo: int, hi: int) returns (marks: seq<GridMark>)
    ensures marks == GridMarks(lo, hi)
  {
    marks := [];
    var i := lo;
    while i <= hi
      invariant lo <= i && (lo <= hi ==> i <= hi + 1) && (hi < lo ==> i == lo)
      invariant marks == GridMarks(lo, i - 1)
    {
      var stepSize;
      if TruncRem(i, MinsPerDay) == 0 {
        stepSize := MinsPerDay;
      } else if TruncRem(i, MinsPerHour) == 0 {
        stepSize := MinsPerHour;
      } else if TruncRem(i, MinsPerTick) == 0 {
        stepSize := MinsPerTick;
      } else {
        assert MarksAt(i) == [];
        GridMarksExtend(lo, i);
        i := i + 1;
        continue;
      }
      assert MarksAt(i) == [GridMark(i, stepSize)];
      GridMarksExtend(lo, i);
      marks := marks + [GridMark(i, stepSize)];
      i := i + 1;
    }
    assert lo <= hi ==> i == hi + 1;
    assert hi < lo ==> GridMarks(lo, hi) == [] == GridMarks(lo, i - 1);
  }

  /** Every mark lies in [lo, hi]. */
  predicate MarksWithin(marks: seq<GridMark>, lo: int, hi: int) {
    forall k :: 0 <= k < |marks| ==> lo <= marks[k].value <= hi
  }

  /** Mark values strictly increase. */
  predicate StrictlyIncreasing(marks: seq<GridMark>) {
    forall j, k :: 0 <= j < k < |marks| ==> marks[j].value < marks[k].value
  }

  /** Every mark carries the step `x_grid` gives its value. */
  predicate CoarsestSteps(marks: seq<GridMark>) {
    forall k :: 0 <= k < |marks| ==> StepOf(marks[k].value) == Some(marks[k].stepSize)
  }

  /** Every multiple of five minutes in [lo, hi] has a mark. */
  predicate CoversTicks(marks: seq<GridMark>, lo: int, hi: int) {
    forall v :: lo <= v <= hi && v % MinsPerTick == 0 ==> HasMarkAt(marks, v)
  }

  /** The properties of the marks for `lo..=hi` that `x_grid` promises, together. */
  lemma GridMarksFacts(lo: int, hi: int)
    ensures MarksWithin(GridMarks(lo, hi), lo, hi)
    ensures StrictlyIncreasing(GridMarks(lo, hi))
    ensures CoarsestSteps(GridMarks(lo, hi))
    ensures CoversTicks(GridMarks(lo, hi), lo, hi)
  {
    GridMarksInRange(lo, hi);
    GridMarksIncreasing(lo, hi);
    GridMarksSteps(lo, hi);
    GridMarksComplete(lo, hi);
  }

  /** Every mark lies in [lo, hi]. */
  lemma {:induction false} GridMarksInRange(lo: int, hi: int)
    ensures forall k :: 0 <= k < |GridMarks(lo, hi)| ==> lo <= GridMarks(lo, hi)[k].value <= hi
    decreases if hi < lo then 0 else hi - lo + 1
  {
    if lo <= hi {
      GridMarksInRange(lo, hi - 1);
    }
  }

  /** Mark values strictly increase, so no two marks share a value. */
  lemma {:induction false} GridMarksIncreasing(lo: int, hi: int)
    ensures forall j, k :: 0 <= j < k < |GridMarks(lo, hi)| ==>
      GridMarks(lo, hi)[j].value < GridMarks(lo, hi)[k].value
    decreases if hi < lo then 0 else hi - lo + 1
  {
    if lo <= hi {
      GridMarksIncreasing(lo, hi - 1);
      GridMarksInRange(lo, hi - 1);
    }
  }

  /**
   * Every mark carries the step of the coarsest unit its value is a multiple of, so its
   * value is a multiple of its step and the step is one of a day, an hour or five minutes.
   */
  lemma {:induction false} GridMarksSteps(lo: int, hi: int)
    ensures forall k :: 0 <= k < |GridMarks(lo, hi)| ==>
      StepOf(GridMarks(lo, hi)[k].value) == Some(GridMarks(lo, hi)[k].stepSize)
    decreases if hi < lo then 0 else hi - lo + 1
  {
    if lo <= hi {
      GridMarksSteps(lo, hi - 1);
    }
  }

  /** Some mark of `marks` sits at `v`. */
  predicate HasMarkAt(marks: seq<GridMark>, v: int) {
    exists k :: 0 <= k < |marks| && marks[k].value == v
  }

  /** Every multiple of five minutes in [lo, hi] has a mark. */
  lemma {:induction false} GridMarksComplete(lo: int, hi: int)
    ensures forall v :: lo <= v <= hi && v % MinsPerTick == 0 ==> HasMarkAt(GridMarks(lo, hi), v)
    decreases if hi < lo then 0 else hi - lo + 1
  {
    if lo <= hi {
      GridMarksComplete(lo, hi - 1);
      var prev := GridMarks(lo, hi - 1);
      var all := GridMarks(lo, hi);
      assert all == prev + MarksAt(hi);
      forall v | lo <= v <= hi && v % MinsPerTick == 0
        ensures HasMarkAt(all, v)
      {
        if v == hi {
          assert StepOf(hi).Some?;
          assert all[|prev|].value == v;
        } else {
          assert HasMarkAt(prev, v);
          var k :| 0 <= k < |prev| && prev[k].value == v;
          assert all[k] == prev[k];
        }
      }
    }
  }

  /** The step sizes a mark can carry, and what each one means for its value. */
  lemma StepHierarchy(m: GridMark, lo: int, hi: int)
    requires m in GridMarks(lo, hi)
    ensures m.stepSize in {MinsPerDay, MinsPerHour, MinsPerTick}
    ensures m.value % m.stepSize == 0
    ensures m.stepSize == MinsPerDay <==> m.value % MinsPerDay == 0
    ensures m.stepSize == MinsPerHour <==> m.value % MinsPerHour == 0 && m.value % MinsPerDay != 0
    ensures m.stepSize == MinsPerTick <==> m.value % MinsPerTick == 0 && m.value % MinsPerHour != 0
  {
    GridMarksSteps(lo, hi);
    var k :| 0 <= k < |GridMarks(lo, hi)| && GridMarks(lo, hi)[k] == m;
    assert StepOf(m.value) == Some(m.stepSize);
  }

  // ---------------------------------------------------------------------------
  // The time label formatter
  // ---------------------------------------------------------------------------

  /** `day(x) = floor(x / MINS_PER_DAY)`, on whole minutes. */
  function Day(m: int): (d: int)
    ensures d * MinsPerDay <= m < d * MinsPerDay + MinsPerDay
  {
    m / MinsPerDay
  }

  /** `hour(x) = floor(x.rem_euclid(MINS_PER_DAY) / MINS_PER_H)`, on whole minutes. */
  function Hour(m: int): (h: int)
    ensures 0 <= h < 24
  {
    (m % MinsPerDay) / MinsPerHour
  }

  /** `minute(x) = floor(x.rem_euclid(MINS_PER_H))`, on whole minutes. */
  function Minute(m: int): (mi: int)
    ensures 0 <= mi < MinsPerHour
  {
    m % MinsPerHour
  }

  /** Day, hour and minute recompose the minute count and stay within their units. */
  lemma DayHourMinute(m: int)
    ensures Day(m) * MinsPerDay + Hour(m) * MinsPerHour + Minute(m) == m
    ensures 0 <= Hour(m) < 24 && 0 <= Minute(m) < MinsPerHour
    ensures 0 <= m < LabelledDays * MinsPerDay ==> 0 <= Day(m) < LabelledDays
  {
    var d, r := m / MinsPerDay, m % MinsPerDay;
    var h, s := r / MinsPerHour, r % MinsPerHour;
    assert m == d * MinsPerDay + h * MinsPerHour + s;
    assert m == (d * 24 + h) * MinsPerHour + s;
    assert m % MinsPerHour == s;
  }

  /** Rust's `f64::trunc`, exactly. */
  function Trunc(x: real): (t: int)
    ensures x >= 0.0 ==> 0 <= t && t as real <= x < t as real + 1.0
    ensures x < 0.0 ==> t <= 0 && t as real - 1.0 < x <= t as real
  {
    if x >= 0.0 then x.Floor else -((-x).Floor)
  }

  /** `is_approx_integer`: the fractional part `x - trunc(x)` is within 1e-6 of zero. */
  predicate IsApproxInteger(x: real): (b: bool)
    ensures x == x.Floor as real ==> b
  {
    var f := x - Trunc(x) as real;
    -Tolerance < f < Tolerance
  }

  /** The fractional part of `n / MINS_PER_DAY` for a whole number of minutes `n >= 0`. */
  lemma DayFraction(n: int)
    requires n >= 0
    ensures var x := n as real / MinsPerDay as real;
      x.Floor == n / MinsPerDay && x - x.Floor as real == (n % MinsPerDay) as real / MinsPerDay as real
  {
    var x := n as real / MinsPerDay as real;
    var q, r := n / MinsPerDay, n % MinsPerDay;
    assert x == q as real + r as real / MinsPerDay as real;
  }

  /** A remainder by MINS_PER_DAY, as a fraction of a day, is within 1e-6 of zero only when it is zero. */
  lemma SmallFraction(r: int)
    requires 0 <= r < MinsPerDay
    ensures -Tolerance < r as real / MinsPerDay as real < Tolerance <==> r == 0
  {
  }

  /** For whole minutes, the day test `is_approx_integer(m / MINS_PER_DAY)` is divisibility. */
  lemma ApproxWholeDay(m: int)
    ensures IsApproxInteger(m as real / MinsPerDay as real) <==> m % MinsPerDay == 0
  {
    var x := m as real / MinsPerDay as real;
    if m >= 0 {
      DayFraction(m);
      SmallFraction(m % MinsPerDay);
    } else {
      DayFraction(-m);
      SmallFraction((-m) % MinsPerDay);
      assert -x == (-m) as real / MinsPerDay as real;
      NegatedMultiple(m, MinsPerDay);
    }
  }

  /**
   * `time_formatter`: empty outside the five labelled days, "Day d" on a whole day and
   * "h:mm" (minutes zero-padded to two digits) otherwise.
   */
  function TimeLabel(m: int): (s: string)
    ensures s == [] <==> !(0 <= m < LabelledDays * MinsPerDay)
  {
    if !(0 <= m < LabelledDays * MinsPerDay) then ""
    else if IsApproxInteger(m as real / MinsPerDay as real) then "Day " + Decimal(Day(m))
    else Decimal(Hour(m)) + ":" + ZeroPadded(Decimal(Minute(m)), 2)
  }

  /** What a label says: a whole day, or an hour and minute within the day. */
  datatype LabelValue = DayLabel(day: int) | ClockLabel(hour: int, minute: int)

  /** Reads a label back: the partner of TimeLabel. */
  function ParseTimeLabel(s: string): Option<LabelValue> {
    if |s| > 4 && s[..4] == "Day " && AllDigits(s[4..]) then
      Some(DayLabel(DecimalValue(s[4..])))
    else if |s| > 3 && s[|s| - 3] == ':' && AllDigits(s[..|s| - 3]) && AllDigits(s[|s| - 2..]) then
      Some(ClockLabel(DecimalValue(s[..|s| - 3]), DecimalValue(s[|s| - 2..])))
    else
      None
  }

  /** A day label reads back as its day number. */
  lemma DayLabelRoundTrip(d: nat)
    ensures ParseTimeLabel("Day " + Decimal(d)) == Some(DayLabel(d))
  {
    var s := "Day " + Decimal(d);
    assert s[..4] == "Day " && s[4..] == Decimal(d);
    DecimalRoundTrip(d);
  }

  /** A two-digit minute: `{:02}` of a number below 100 is exactly two digits. */
  lemma TwoDigitMinute(mi: nat)
    requires mi < 100
    ensures |ZeroPadded(Decimal(mi), 2)| == 2
    ensures AllDigits(ZeroPadded(Decimal(mi), 2))
    ensures DecimalValue(ZeroPadded(Decimal(mi), 2)) == mi
  {
    if mi >= 10 {
      assert Decimal(mi) == Decimal(mi / 10) + [DigitChar(mi % 10)];
    }
    ZeroPaddedValue(Decimal(mi), 2);
    DecimalRoundTrip(mi);
  }

  /** Any "digits:dd" string parses as a clock label. */
  lemma ClockParse(hs: string, ms: string)
    requires |hs| >= 1 && AllDigits(hs) && |ms| == 2 && AllDigits(ms)
    ensures ParseTimeLabel(hs + ":" + ms) == Some(ClockLabel(DecimalValue(hs), DecimalValue(ms)))
  {
    var s := hs + ":" + ms;
    assert s[..4] != "Day " by {
      if |s| > 4 {
        assert s[..4][0] == s[0] == hs[0];
      }
    }
    assert s[..|s| - 3] == hs;
    assert s[|s| - 2..] == ms;
  }

  /** A clock label reads back as its hour and minute. */
  lemma ClockLabelRoundTrip(h: nat, mi: nat)
    requires mi < MinsPerHour
    ensures ParseTimeLabel(Decimal(h) + ":" + ZeroPadded(Decimal(mi), 2)) == Some(ClockLabel(h, mi))
  {
    TwoDigitMinute(mi);
    DecimalRoundTrip(h);
    ClockParse(Decimal(h), ZeroPadded(Decimal(mi), 2));
  }

  /**
   * Every label reads back as what it was built from: nothing outside the labelled days,
   * the day number on a whole day, the hour and the minute of the day otherwise.
   */
  lemma TimeLabelRoundTrip(m: int)
    ensures ParseTimeLabel(TimeLabel(m)) ==
      if !(0 <= m < LabelledDays * MinsPerDay) then None
      else if m % MinsPerDay == 0 then Some(DayLabel(Day(m)))
      else Some(ClockLabel(Hour(m), Minute(m)))
  {
    if 0 <= m < LabelledDays * MinsPerDay {
      ApproxWholeDay(m);
      DayHourMinute(m);
      if m % MinsPerDay == 0 {
        DayLabelRoundTrip(Day(m));
      } else {
        ClockLabelRoundTrip(Hour(m), Minute(m));
      }
    }
  }

  /** Minutes in the labelled days that agree on what their labels say agree on the time of day. */
  lemma SameTimeOfDay(m1: int, m2: int)
    requires 0 <= m1 < LabelledDays * MinsPerDay && 0 <= m2 < LabelledDays * MinsPerDay
    requires (if m1 % MinsPerDay == 0 then DayLabel(Day(m1)) else ClockLabel(Hour(m1), Minute(m1)))
          == (if m2 % MinsPerDay == 0 then DayLabel(Day(m2)) else ClockLabel(Hour(m2), Minute(m2)))
    ensures m1 % MinsPerDay == m2 % MinsPerDay
    ensures m1 % MinsPerDay == 0 ==> m1 == m2
  {
    DayHourMinute(m1);
    DayHourMinute(m2);
    if m1 % MinsPerDay == 0 {
      assert m2 % MinsPerDay == 0 && Day(m1) == Day(m2);
    } else {
      assert m1 % MinsPerDay == Hour(m1) * MinsPerHour + Minute(m1);
      assert m2 % MinsPerDay == Hour(m2) * MinsPerHour + Minute(m2);
    }
  }

  /**
   * Two minutes with the same non-empty label fall at the same time of day, and two whole
   * days with the same label are the same day.
   */
  lemma SameLabelSameTimeOfDay(m1: int, m2: int)
    requires TimeLabel(m1) == TimeLabel(m2) != ""
    ensures m1 % MinsPerDay == m2 % MinsPerDay
    ensures m1 % MinsPerDay == 0 ==> m1 == m2
  {
    TimeLabelRoundTrip(m1);
    TimeLabelRoundTrip(m2);
    var p1, p2 := ParseTimeLabel(TimeLabel(m1)), ParseTimeLabel(TimeLabel(m2));
    assert p1 == p2;
    SameTimeOfDay(m1, m2);
  }
}
