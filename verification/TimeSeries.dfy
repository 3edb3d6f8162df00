/**
 PlatformStatisticsService.fillMissingDates, with instants in milliseconds since the epoch and the
 server clock on UTC, so that a calendar day is 86400000 ms.  A date string is represented by its
 day number, a value by the number it is parsed to; decimal series are shown in cents.
 */
module TimeSeries {
  import ProviderCosts

  const DAY_MS := 86400000

  datatype Point = Point(day: int, value: real)

  function DayOf(instant: int): int { instant / DAY_MS }

  function TimeOfDay(instant: int): int { instant % DAY_MS }

  /** dataMap after the first n rows; a later row for the same day replaces an earlier one. */
  function DataMap(rows: seq<Point>, n: nat): map<int, real>
    requires n <= |rows|
  {
    if n == 0 then map[] else DataMap(rows, n - 1)[rows[n - 1].day := rows[n - 1].value]
  }

  function ValueOn(m: map<int, real>, day: int): real { if day in m then m[day] else 0.0 }

  /** A value as it is shown. */
  function Shown(value: real, isDecimal: bool): real { if isDecimal then ProviderCosts.RoundCents(value) else value }

  /** How often the loop runs. */
  function DaysBetween(from: int, until: int): nat {
    if from <= until then (until - from) / DAY_MS + 1 else 0
  }

  lemma DayAfter(instant: int, k: int)
    ensures DayOf(instant + k * DAY_MS) == DayOf(instant) + k
  {}

  /** The filled series: consecutive days from the day of `from`, each with the value shown for it. */
  predicate IsFilled(filled: seq<Point>, m: map<int, real>, from: int, isDecimal: bool) {
    forall i | 0 <= i < |filled| ::
      filled[i] == Point(DayOf(from) + i, Shown(ValueOn(m, DayOf(from) + i), isDecimal))
  }

  method FillMissingDates(rows: seq<Point>, from: int, until: int, isDecimal: bool) returns (filled: seq<Point>)
    ensures |filled| == DaysBetween(from, until)
    ensures IsFilled(filled, DataMap(rows, |rows|), from, isDecimal)
  {
    var dataMap: map<int, real> := map[];
    for i: nat := 0 to |rows|
      invariant dataMap == DataMap(rows, i)
    {
      dataMap := dataMap[rows[i].day := rows[i].value];
    }
    filled := [];
    var current := from;
    while current <= until
      invariant current == from + |filled| * DAY_MS
      invariant |filled| <= DaysBetween(from, until)
      invariant IsFilled(filled, dataMap, from, isDecimal)
      decreases until - current
    {
      var day := current / DAY_MS;
      DayAfter(from, |filled|);
      var value := if day in dataMap then dataMap[day] else 0.0;
      filled := filled + [Point(day, if isDecimal then (value * 100.0 + 0.5).Floor as real / 100.0 else value)];
      current := current + DAY_MS;
    }
  }

  /** The value of a day is that of its last row. */
  lemma {:induction false} LastRowWins(rows: seq<Point>, n: nat, k: nat)
    requires k < n <= |rows| && forall j | k < j < n :: rows[j].day != rows[k].day
    ensures ValueOn(DataMap(rows, n), rows[k].day) == rows[k].value
  {
    if k < n - 1 {
      LastRowWins(rows, n - 1, k);
    }
  }

  function Total(points: seq<Point>): real {
    if points == [] then 0.0 else Total(points[..|points| - 1]) + points[|points| - 1].value
  }

  /** Sum of the first n rows that fall on the days lo, ..., hi. */
  function TotalWithin(rows: seq<Point>, n: nat, lo: int, hi: int): real
    requires n <= |rows|
  {
    if n == 0 then 0.0 else
    TotalWithin(rows, n - 1, lo, hi) + (if lo <= rows[n - 1].day <= hi then rows[n - 1].value else 0.0)
  }

  /** Sum of the values on count days from lo. */
  function RangeSum(m: map<int, real>, lo: int, count: nat): real {
    if count == 0 then 0.0 else RangeSum(m, lo, count - 1) + ValueOn(m, lo + count - 1)
  }

  ghost predicate DistinctDays(rows: seq<Point>) {
    forall i, j | 0 <= i < j < |rows| :: rows[i].day != rows[j].day
  }

  lemma {:induction false} RangeSumAdd(m: map<int, real>, lo: int, count: nat, day: int, value: real)
    requires day !in m
    ensures RangeSum(m[day := value], lo, count)
         == RangeSum(m, lo, count) + (if lo <= day < lo + count then value else 0.0)
  {
    if count > 0 {
      RangeSumAdd(m, lo, count - 1, day, value);
    }
  }

  lemma {:induction false} DataMapKeys(rows: seq<Point>, n: nat, day: int)
    requires n <= |rows|
    ensures day in DataMap(rows, n) <==> exists i :: 0 <= i < n && rows[i].day == day
  {
    if n > 0 {
      DataMapKeys(rows, n - 1, day);
    }
  }

  lemma {:induction false} RangeSumIsTotal(rows: seq<Point>, n: nat, lo: int, count: nat)
    requires n <= |rows| && DistinctDays(rows)
    ensures RangeSum(DataMap(rows, n), lo, count) == TotalWithin(rows, n, lo, lo + count - 1)
  {
    if n == 0 {
      RangeSumEmpty(lo, count);
    } else {
      RangeSumIsTotal(rows, n - 1, lo, count);
      DataMapKeys(rows, n - 1, rows[n - 1].day);
      RangeSumAdd(DataMap(rows, n - 1), lo, count, rows[n - 1].day, rows[n - 1].value);
    }
  }

  lemma {:induction false} RangeSumEmpty(lo: int, count: nat)
    ensures RangeSum(map[], lo, count) == 0.0
  {
    if count > 0 {
      RangeSumEmpty(lo, count - 1);
    }
  }

  /** Showing a series moves its sum by at most half a cent a day, and not at all unless it is decimal. */
  lemma {:induction false} TotalIsRangeSum(filled: seq<Point>, m: map<int, real>, from: int, isDecimal: bool)
    requires IsFilled(filled, m, from, isDecimal)
    ensures ProviderCosts.Abs(Total(filled) - RangeSum(m, DayOf(from), |filled|))
         <= if isDecimal then 0.005 * |filled| as real else 0.0
  {
    if filled != [] {
      var n := |filled| - 1;
      TotalIsRangeSum(filled[..n], m, from, isDecimal);
      ProviderCosts.RoundingError(ValueOn(m, DayOf(from) + n));
    }
  }

  /** The last day filled: the day of `until`, or the one before when `until` comes earlier in its day than `from`. */
  lemma LastDayFilled(from: int, until: int)
    requires from <= until
    ensures DayOf(from) + DaysBetween(from, until) - 1
         == DayOf(until) - (if TimeOfDay(until) < TimeOfDay(from) then 1 else 0)
  {
    var k := DayOf(until) - DayOf(from);
    var d := TimeOfDay(until) - TimeOfDay(from);
    assert until - from == k * DAY_MS + d;
  }

  lemma {:induction false} TotalWithinSplit(rows: seq<Point>, n: nat, lo: int, hi: int)
    requires n <= |rows| && lo <= hi
    ensures TotalWithin(rows, n, lo, hi) == TotalWithin(rows, n, lo, hi - 1) + TotalWithin(rows, n, hi, hi)
  {
    if n > 0 {
      TotalWithinSplit(rows, n - 1, lo, hi);
    }
  }

  /**
   Filling conserves the sum of the rows on the calendar days from..until, except that the last day
   is dropped exactly when `until` has an earlier time of day than `from`, and that a decimal series
   is off by at most half a cent a day.
   */
  lemma FillingConserves(rows: seq<Point>, from: int, until: int, isDecimal: bool, filled: seq<Point>)
    requires from <= until && DistinctDays(rows) && |filled| == DaysBetween(from, until)
    requires IsFilled(filled, DataMap(rows, |rows|), from, isDecimal)
    ensures var kept := TotalWithin(rows, |rows|, DayOf(from), DayOf(until))
                        - (if TimeOfDay(until) < TimeOfDay(from)
                           then TotalWithin(rows, |rows|, DayOf(until), DayOf(until)) else 0.0);
            if isDecimal then ProviderCosts.Abs(Total(filled) - kept) <= 0.005 * |filled| as real
            else Total(filled) == kept
  {
    TotalIsRangeSum(filled, DataMap(rows, |rows|), from, isDecimal);
    RangeSumIsTotal(rows, |rows|, DayOf(from), |filled|);
    LastDayFilled(from, until);
    TotalWithinSplit(rows, |rows|, DayOf(from), DayOf(until));
  }
}
