/**
 * frontend/src/utils/date.js, `formatDistanceToNow`: the elapsed whole seconds are
 * divided by the units year, month, day, hour and minute, largest first, and the first
 * unit that fits at least once is shown as "<count><unit>前"; below a minute, and for
 * a date in the future or one that does not parse, the text is "刚刚".
 */
module RelativeTime {
  import opened Text
  import opened Db
  import opened Paging

  datatype Interval = Interval(name: string, seconds: nat)

  const Year := Interval("年", 31536000)
  const Month := Interval("个月", 2592000)
  const Day := Interval("天", 86400)
  const Hour := Interval("小时", 3600)
  const Minute := Interval("分钟", 60)

  /** The units in the order the loop tries them. */
  const Intervals: seq<Interval> := [Year, Month, Day, Hour, Minute]

  const JustNowText: string := "刚刚"

  const AgoSuffix: string := "前"

  datatype Distance = JustNow | Ago(count: nat, unit: Interval)

  /**
   * `Math.floor((now - date) / 1000)` over millisecond timestamps; with a positive divisor
   * Dafny's division rounds down like `Math.floor`, negative differences included.
   */
  function ElapsedSeconds(nowMs: int, thenMs: int): (s: int)
    ensures s * 1000 <= nowMs - thenMs < s * 1000 + 1000
  {
    (nowMs - thenMs) / 1000
  }

  predicate PositiveUnits(intervals: seq<Interval>)
  {
    forall i :: 0 <= i < |intervals| ==> intervals[i].seconds > 0
  }

  /** The loop over the units: the first whose floored count reaches 1 wins. */
  function Pick(seconds: int, intervals: seq<Interval>): (r: Distance)
    requires PositiveUnits(intervals)
    ensures r.Ago? ==> r.count >= 1 && r.unit in intervals
  {
    if intervals == [] then JustNow
    else
      var count := seconds / intervals[0].seconds;
      if count >= 1 then Ago(count, intervals[0]) else Pick(seconds, intervals[1..])
  }

  function DistanceOf(seconds: int): Distance
  {
    Pick(seconds, Intervals)
  }

  /** `${count}${interval.label}前`, or `刚刚`. */
  function Render(d: Distance): string
  {
    match d
    case JustNow => JustNowText
    case Ago(count, unit) => NatToString(count) + unit.name + AgoSuffix
  }

  /** `formatDistanceToNow`; `None` is a date string that does not parse, whose difference is NaN. */
  function FormatDistanceToNow(thenMs: Option<int>, nowMs: int): string
  {
    match thenMs
    case None => JustNowText
    case Some(t) => Render(DistanceOf(ElapsedSeconds(nowMs, t)))
  }

  /** One turn of the loop: the count reaches 1 exactly when the elapsed time reaches the unit. */
  lemma PickStep(seconds: int, intervals: seq<Interval>)
    requires intervals != [] && PositiveUnits(intervals)
    ensures Pick(seconds, intervals) ==
      if seconds >= intervals[0].seconds then Ago(seconds / intervals[0].seconds, intervals[0])
      else Pick(seconds, intervals[1..])
  {
    DivReachesOne(seconds, intervals[0].seconds);
  }

  /** A floored quotient by a positive unit reaches 1 exactly when the dividend reaches the unit. */
  lemma DivReachesOne(x: int, u: int)
    requires u > 0
    ensures x / u >= 1 <==> x >= u
  {
    var q := x / u;
    assert x == q * u + x % u;
    assert q >= 1 ==> q * u >= u;
    assert q <= 0 ==> q * u <= 0;
  }

  /** The loop over the fixed units, unrolled: the first unit the elapsed time reaches wins. */
  lemma DistanceUnrolled(s: int)
    ensures DistanceOf(s) ==
      if s >= Year.seconds then Ago(s / Year.seconds, Year)
      else if s >= Month.seconds then Ago(s / Month.seconds, Month)
      else if s >= Day.seconds then Ago(s / Day.seconds, Day)
      else if s >= Hour.seconds then Ago(s / Hour.seconds, Hour)
      else if s >= Minute.seconds then Ago(s / Minute.seconds, Minute)
      else JustNow
  {
    var t1 := [Month, Day, Hour, Minute];
    var t2 := [Day, Hour, Minute];
    var t3 := [Hour, Minute];
    var t4 := [Minute];
    assert Intervals[1..] == t1 && t1[1..] == t2 && t2[1..] == t3 && t3[1..] == t4;
    PickStep(s, Intervals);
    PickStep(s, t1);
    PickStep(s, t2);
    PickStep(s, t3);
    PickStep(s, t4);
  }

  /**
   * The unit is the largest one that fits, the count is the floored quotient, and a count
   * never reaches the next larger unit: at most 12 months, 29 days, 23 hours, 59 minutes.
   */
  lemma DistanceCases(s: int)
    ensures s >= Year.seconds ==> DistanceOf(s) == Ago(s / Year.seconds, Year)
    ensures Month.seconds <= s < Year.seconds ==> DistanceOf(s) == Ago(s / Month.seconds, Month) && s / Month.seconds <= 12
    ensures Day.seconds <= s < Month.seconds ==> DistanceOf(s) == Ago(s / Day.seconds, Day) && s / Day.seconds <= 29
    ensures Hour.seconds <= s < Day.seconds ==> DistanceOf(s) == Ago(s / Hour.seconds, Hour) && s / Hour.seconds <= 23
    ensures Minute.seconds <= s < Hour.seconds ==> DistanceOf(s) == Ago(s / Minute.seconds, Minute) && s / Minute.seconds <= 59
    ensures s < Minute.seconds ==> DistanceOf(s) == JustNow
  {
    DistanceUnrolled(s);
  }

  /** The amount of time a distance stands for: `count` whole units, 0 for "just now". */
  function Shown(d: Distance): int
  {
    match d
    case JustNow => 0
    case Ago(count, unit) => count * unit.seconds
  }

  /** A shown distance is within one unit below the elapsed time; a future date shows as "just now". */
  lemma ShownBounds(s: int)
    ensures DistanceOf(s).Ago? ==> Shown(DistanceOf(s)) <= s < Shown(DistanceOf(s)) + DistanceOf(s).unit.seconds
    ensures DistanceOf(s).JustNow? <==> s < Minute.seconds
  {
    DistanceCases(s);
  }

  /** As time passes the shown amount never goes down. */
  lemma ShownMonotone(s: int, t: int)
    requires s <= t
    ensures Shown(DistanceOf(s)) <= Shown(DistanceOf(t))
  {
    var ds, dt := DistanceOf(s), DistanceOf(t);
    if ds.Ago? {
      UnitGrows(s, t);
      ShownBounds(s);
      if ds.unit == dt.unit {
        DivMonotone(s, t, ds.unit.seconds);
      } else {
        assert ds.count * ds.unit.seconds <= s < dt.unit.seconds;
        MulMonotone(1, dt.count, dt.unit.seconds);
      }
    }
  }

  /** Later, the unit is the same or a larger one the earlier time had not reached. */
  lemma UnitGrows(s: int, t: int)
    requires s <= t && DistanceOf(s).Ago?
    ensures s >= Minute.seconds
    ensures DistanceOf(t).Ago? && DistanceOf(t).count >= 1
    ensures DistanceOf(s).count == s / DistanceOf(s).unit.seconds
    ensures DistanceOf(t).count == t / DistanceOf(t).unit.seconds
    ensures DistanceOf(t).unit == DistanceOf(s).unit || s < DistanceOf(t).unit.seconds
  {
    DistanceUnrolled(s);
    DistanceUnrolled(t);
  }

  /** Floored division by a positive unit, multiplied back, is monotone. */
  lemma DivMonotone(s: int, t: int, u: int)
    requires s <= t && u > 0
    ensures (s / u) * u <= (t / u) * u
  {
    var qs, qt := s / u, t / u;
    assert qs * u <= s && t < qt * u + u;
    assert (qt + 1) * u == qt * u + u;
    MulLess(qs, qt + 1, u);
    MulLessEq(qs, qt, u);
  }

  lemma MulLess(a: int, b: int, u: int)
    requires u > 0
    ensures a * u < b * u ==> a < b
  {
    assert a >= b ==> (a - b) * u >= 0;
    assert a * u - b * u == (a - b) * u;
  }

  lemma MulLessEq(a: int, b: int, u: int)
    requires u > 0
    ensures a <= b ==> a * u <= b * u
  {
    assert a <= b ==> (b - a) * u >= 0;
    assert b * u - a * u == (b - a) * u;
  }

  /** The number of decimal digits `s` starts with. */
  function LeadingDigits(s: string): (n: nat)
    ensures n <= |s|
  {
    if s != [] && '0' <= s[0] <= '9' then 1 + LeadingDigits(s[1..]) else 0
  }

  lemma {:induction false} LeadingDigitsOf(a: string, b: string)
    requires forall i :: 0 <= i < |a| ==> '0' <= a[i] <= '9'
    requires b != [] && !('0' <= b[0] <= '9')
    ensures LeadingDigits(a + b) == |a|
  {
    if a != [] {
      assert (a + b)[1..] == a[1..] + b;
      LeadingDigitsOf(a[1..], b);
    }
  }

  /** A digit string followed by text that starts with something else splits in one way only. */
  lemma DigitsThenOther(a: string, b: string, c: string, d: string)
    requires forall i :: 0 <= i < |a| ==> '0' <= a[i] <= '9'
    requires forall i :: 0 <= i < |c| ==> '0' <= c[i] <= '9'
    requires b != [] && !('0' <= b[0] <= '9') && d != [] && !('0' <= d[0] <= '9')
    requires a + b == c + d
    ensures a == c && b == d
  {
    LeadingDigitsOf(a, b);
    LeadingDigitsOf(c, d);
    assert a == (a + b)[..|a|] && c == (c + d)[..|c|];
    assert b == (a + b)[|a|..] && d == (c + d)[|c|..];
  }

  /** The unit names are pairwise different. */
  lemma UnitNamesDistinct(u1: Interval, u2: Interval)
    requires u1 in Intervals && u2 in Intervals && u1.name == u2.name
    ensures u1 == u2
  {
    assert Year.name[0] == '年' && Month.name[0] == '个' && Day.name[0] == '天';
    assert Hour.name[0] == '小' && Minute.name[0] == '分';
  }

  /** Only "just now" renders as "刚刚": every other text starts with a digit. */
  lemma RenderJustNowIff(d: Distance)
    ensures Render(d) == JustNowText <==> d.JustNow?
  {
    if d.Ago? {
      assert Render(d)[0] == NatToString(d.count)[0];
      assert JustNowText[0] == '刚';
    }
  }

  /** The text determines the distance: no two distances render alike. */
  lemma RenderInjective(d1: Distance, d2: Distance)
    requires d1.Ago? && d2.Ago? && d1.unit in Intervals && d2.unit in Intervals
    requires Render(d1) == Render(d2)
    ensures d1 == d2
  {
    var l1, l2 := d1.unit.name + AgoSuffix, d2.unit.name + AgoSuffix;
    assert Render(d1) == NatToString(d1.count) + l1;
    assert Render(d2) == NatToString(d2.count) + l2;
    DigitsThenOther(NatToString(d1.count), l1, NatToString(d2.count), l2);
    NatToStringInjective(d1.count, d2.count);
    assert d1.unit.name == l1[..|l1| - 1] && d2.unit.name == l2[..|l2| - 1];
    UnitNamesDistinct(d1.unit, d2.unit);
  }

  /**
   * "刚刚" exactly when less than a whole minute has passed, which includes every
   * date in the future and every date that does not parse.
   */
  lemma JustNowIff(thenMs: Option<int>, nowMs: int)
    ensures FormatDistanceToNow(thenMs, nowMs) == JustNowText <==>
            thenMs.None? || nowMs - thenMs.value < 60000
  {
    if thenMs.Some? {
      var s := ElapsedSeconds(nowMs, thenMs.value);
      DistanceCases(s);
      RenderJustNowIff(DistanceOf(s));
    }
  }

  /** Two dates that show the same text stand for the same amount of elapsed time. */
  lemma FormatDeterminesShown(t1: int, t2: int, nowMs: int)
    requires FormatDistanceToNow(Some(t1), nowMs) == FormatDistanceToNow(Some(t2), nowMs)
    ensures Shown(DistanceOf(ElapsedSeconds(nowMs, t1))) == Shown(DistanceOf(ElapsedSeconds(nowMs, t2)))
  {
    var d1, d2 := DistanceOf(ElapsedSeconds(nowMs, t1)), DistanceOf(ElapsedSeconds(nowMs, t2));
    RenderJustNowIff(d1);
    RenderJustNowIff(d2);
    if d1.Ago? && d2.Ago? {
      assert d1.unit in Intervals && d2.unit in Intervals;
      RenderInjective(d1, d2);
    }
  }
}
