/**
 * The chart builders and the motivational message of the home screen. A chart
 * is a list of (x, y) points; the labels are not modelled. Day maps are keyed
 * by day number, hour maps by hour of day, and a missing key counts as 0.
 */
module HomeCharts {
  import Sums
  import HealthConnect

  /** One chart point: its position and its step value. */
  datatype ChartEntry = ChartEntry(x: int, y: int)

  /** `map[key] ?: 0`. */
  function Lookup(m: map<int, int>, k: int): (v: int)
    ensures k in m ==> v == m[k]
    ensures k !in m ==> v == 0
  {
    if k in m then m[k] else 0
  }

  /** The sum of the y values of a chart. */
  function ChartTotal(entries: seq<ChartEntry>): int
    decreases |entries|
  {
    if entries == [] then 0 else ChartTotal(entries[..|entries| - 1]) + entries[|entries| - 1].y
  }

  /** The keys of `m` in [lo, hi). */
  function KeysIn(m: map<int, int>, lo: int, hi: int): (ks: set<int>)
    ensures ks <= m.Keys
  {
    set k | k in m && lo <= k < hi
  }

  /**
   * A chart whose point i shows key lo + i totals the map's values over the
   * keys it covers: a key outside the range is never shown.
   */
  lemma {:induction false} ConsecutiveTotal(entries: seq<ChartEntry>, m: map<int, int>, lo: int)
    requires forall i :: 0 <= i < |entries| ==> entries[i].y == Lookup(m, lo + i)
    ensures ChartTotal(entries) == Sums.SumOver(m, KeysIn(m, lo, lo + |entries|))
    decreases |entries|
  {
    var n := |entries|;
    if n == 0 {
      assert KeysIn(m, lo, lo) == {};
    } else {
      var init := entries[..n - 1];
      forall i | 0 <= i < |init| ensures init[i].y == Lookup(m, lo + i) {
        assert init[i] == entries[i];
      }
      ConsecutiveTotal(init, m, lo);
      var k := lo + n - 1;
      if k in m {
        Sums.SumOverRemove(m, KeysIn(m, lo, lo + n), k);
        assert KeysIn(m, lo, lo + n) - {k} == KeysIn(m, lo, lo + n - 1);
      } else {
        assert KeysIn(m, lo, lo + n) == KeysIn(m, lo, lo + n - 1);
      }
    }
  }

  /** `loadDayChart`: one point per hour 0..23, the hour's steps or 0. */
  function DayChart(hourly: map<int, int>): (r: seq<ChartEntry>)
    ensures |r| == 24
    ensures forall h :: 0 <= h < 24 ==> r[h] == ChartEntry(h, Lookup(hourly, h))
  {
    seq(24, h => ChartEntry(h, Lookup(hourly, h)))
  }

  /** The day chart shows every hourly value when the hours are 0..23. */
  lemma DayChartTotal(hourly: map<int, int>)
    requires forall h :: h in hourly ==> 0 <= h < 24
    ensures ChartTotal(DayChart(hourly)) == Sums.SumValues(hourly)
  {
    ConsecutiveTotal(DayChart(hourly), hourly, 0);
    assert KeysIn(hourly, 0, 24) == hourly.Keys;
  }

  /** Fed by the hourly reader, the day chart adds up to all steps read for today. */
  lemma DayChartOfReader(today: int, readRecords: (int, int) -> HealthConnect.Outcome<seq<HealthConnect.StepsRecord>>,
                         zoneOffset: int)
    requires readRecords(HealthConnect.StartOfDay(today, zoneOffset), HealthConnect.StartOfDay(today + 1, zoneOffset)).Success?
    ensures var records := readRecords(HealthConnect.StartOfDay(today, zoneOffset), HealthConnect.StartOfDay(today + 1, zoneOffset)).value;
      ChartTotal(DayChart(HealthConnect.HourlySteps(today, true, readRecords, zoneOffset))) == HealthConnect.CountSum(records)
  {
    DayChartTotal(HealthConnect.HourlySteps(today, true, readRecords, zoneOffset));
  }

  /** `loadWeekChart`: seven points, oldest first; point i is the day `today - (6 - i)`, or 0. */
  function WeekChart(stepsMap: map<int, int>, today: int): (r: seq<ChartEntry>)
    ensures |r| == 7
    ensures forall i :: 0 <= i < 7 ==> r[i] == ChartEntry(i, Lookup(stepsMap, today - (6 - i)))
  {
    seq(7, i => ChartEntry(i, Lookup(stepsMap, today - (6 - i))))
  }

  /** The week chart totals exactly the days of the last week, today included. */
  lemma WeekChartTotal(stepsMap: map<int, int>, today: int)
    ensures ChartTotal(WeekChart(stepsMap, today)) == Sums.SumOver(stepsMap, KeysIn(stepsMap, today - 6, today + 1))
  {
    ConsecutiveTotal(WeekChart(stepsMap, today), stepsMap, today - 6);
  }

  /** The day sampled by point i of the month chart: `29 - 5i` days ago. */
  function MonthSampleDay(today: int, i: int): (d: int)
    requires 0 <= i < 6
    ensures today - 29 <= d <= today - 4
    ensures i > 0 ==> d == MonthSampleDay(today, i - 1) + 5
  {
    today - (29 - i * 5)
  }

  /** What `loadMonthChart` yields: six single-day samples, one every five days. */
  function MonthPoints(stepsMap: map<int, int>, today: int): (r: seq<ChartEntry>)
    ensures |r| == 6
    ensures forall i :: 0 <= i < 6 ==> r[i] == ChartEntry(i, Lookup(stepsMap, MonthSampleDay(today, i)))
  {
    seq(6, i requires 0 <= i < 6 => ChartEntry(i, Lookup(stepsMap, MonthSampleDay(today, i))))
  }

  /** `loadMonthChart`: appends the six samples in a loop. */
  method MonthChart(stepsMap: map<int, int>, today: int) returns (entries: seq<ChartEntry>)
    ensures entries == MonthPoints(stepsMap, today)
  {
    entries := [];
    for i := 0 to 6
      invariant |entries| == i
      invariant forall j :: 0 <= j < i ==> entries[j] == ChartEntry(j, Lookup(stepsMap, MonthSampleDay(today, j)))
    {
      var daysAgo := 29 - i * 5;
      var date := today - daysAgo;
      entries := entries + [ChartEntry(i, Lookup(stepsMap, date))];
    }
  }

  /** Only the six sampled days reach the month chart; today's steps never do. */
  lemma MonthPointsOnlySamples(m1: map<int, int>, m2: map<int, int>, today: int)
    requires forall i :: 0 <= i < 6 ==> Lookup(m1, MonthSampleDay(today, i)) == Lookup(m2, MonthSampleDay(today, i))
    ensures MonthPoints(m1, today) == MonthPoints(m2, today)
  {
  }

  /** Changing today's value leaves the month chart as it was. */
  lemma MonthPointsSkipToday(stepsMap: map<int, int>, today: int, steps: int)
    ensures MonthPoints(stepsMap[today := steps], today) == MonthPoints(stepsMap, today)
  {
    forall i | 0 <= i < 6
      ensures Lookup(stepsMap[today := steps], MonthSampleDay(today, i)) == Lookup(stepsMap, MonthSampleDay(today, i))
    {
    }
    MonthPointsOnlySamples(stepsMap[today := steps], stepsMap, today);
  }

  /** The days of `m` that fall in calendar month `month` under `monthOf`. */
  function DaysInMonth(m: map<int, int>, monthOf: int -> int, month: int): (ks: set<int>)
    ensures ks <= m.Keys
  {
    set k | k in m && monthOf(k) == month
  }

  /** The steps of one calendar month: the sum over its days, 0 when none is present. */
  function MonthTotal(m: map<int, int>, monthOf: int -> int, month: int): (s: int)
    ensures DaysInMonth(m, monthOf, month) == {} ==> s == 0
  {
    Sums.SumOver(m, DaysInMonth(m, monthOf, month))
  }

  /** The days of `m` whose month lies in the n months ending with `lastMonth`. */
  function DaysInMonths(m: map<int, int>, monthOf: int -> int, lastMonth: int, n: int): (ks: set<int>)
    ensures ks <= m.Keys
  {
    set k | k in m && lastMonth - n < monthOf(k) <= lastMonth
  }

  /**
   * The six-month and year charts: n points, oldest month first; point i is
   * the total of the month `thisMonth - (n - 1 - i)`.
   */
  function MonthlyChart(m: map<int, int>, monthOf: int -> int, thisMonth: int, n: nat): (r: seq<ChartEntry>)
    ensures |r| == n
    ensures forall i :: 0 <= i < n ==> r[i] == ChartEntry(i, MonthTotal(m, monthOf, thisMonth - (n - 1 - i)))
  {
    seq(n, i => ChartEntry(i, MonthTotal(m, monthOf, thisMonth - (n - 1 - i))))
  }

  /** `loadSixMonthChart`: the six months ending with the current one. */
  function SixMonthChart(stepsMap: map<int, int>, monthOf: int -> int, today: int): (r: seq<ChartEntry>)
    ensures |r| == 6
    ensures forall i :: 0 <= i < 6 ==> r[i].y == MonthTotal(stepsMap, monthOf, monthOf(today) - (5 - i))
  {
    MonthlyChart(stepsMap, monthOf, monthOf(today), 6)
  }

  /** `loadYearChart`: the twelve months ending with the current one. */
  function YearChart(stepsMap: map<int, int>, monthOf: int -> int, today: int): (r: seq<ChartEntry>)
    ensures |r| == 12
    ensures forall i :: 0 <= i < 12 ==> r[i].y == MonthTotal(stepsMap, monthOf, monthOf(today) - (11 - i))
  {
    MonthlyChart(stepsMap, monthOf, monthOf(today), 12)
  }

  /** The monthly chart counts every day of its months exactly once. */
  lemma {:induction false} MonthlyChartTotal(m: map<int, int>, monthOf: int -> int, thisMonth: int, n: nat)
    ensures ChartTotal(MonthlyChart(m, monthOf, thisMonth, n)) == Sums.SumOver(m, DaysInMonths(m, monthOf, thisMonth, n))
    decreases n
  {
    var chart := MonthlyChart(m, monthOf, thisMonth, n);
    if n == 0 {
      assert DaysInMonths(m, monthOf, thisMonth, n) == {};
    } else {
      var earlier := MonthlyChart(m, monthOf, thisMonth - 1, n - 1);
      assert chart[..n - 1] == earlier;
      MonthlyChartTotal(m, monthOf, thisMonth - 1, n - 1);
      var a := DaysInMonths(m, monthOf, thisMonth - 1, n - 1);
      var b := DaysInMonth(m, monthOf, thisMonth);
      assert DaysInMonths(m, monthOf, thisMonth, n) == a + b;
      Sums.SumOverUnion(m, a, b);
    }
  }

  /** When every day of the map falls in the chart's months, the chart shows all of the map's steps. */
  lemma MonthlyChartShowsAll(m: map<int, int>, monthOf: int -> int, thisMonth: int, n: nat)
    requires forall k :: k in m ==> thisMonth - n < monthOf(k) <= thisMonth
    ensures ChartTotal(MonthlyChart(m, monthOf, thisMonth, n)) == Sums.SumValues(m)
  {
    MonthlyChartTotal(m, monthOf, thisMonth, n);
    forall k | k in m ensures k in DaysInMonths(m, monthOf, thisMonth, n) {
    }
    assert DaysInMonths(m, monthOf, thisMonth, n) == m.Keys;
  }

  /** The six motivational messages, from the goal reached down to the nudge to start walking. */
  datatype Motivation = GoalReached | VeryClose | Close | PastHalf | GoodStart | GetMoving

  /** `getMotivationalMessage`, on the already computed whole percent of the goal. */
  function MessageFor(percent: int): (msg: Motivation)
    ensures msg == GoalReached <==> percent >= 100
    ensures msg == VeryClose <==> 90 <= percent < 100
    ensures msg == Close <==> 75 <= percent < 90
    ensures msg == PastHalf <==> 50 <= percent < 75
    ensures msg == GoodStart <==> 25 <= percent < 50
    ensures msg == GetMoving <==> percent < 25
  {
    if percent >= 100 then GoalReached
    else if percent >= 90 then VeryClose
    else if percent >= 75 then Close
    else if percent >= 50 then PastHalf
    else if percent >= 25 then GoodStart
    else GetMoving
  }

  /** How far along a message is: 0 for the nudge up to 5 for the goal reached. */
  function Level(msg: Motivation): (n: int)
    ensures 0 <= n <= 5
  {
    match msg
    case GetMoving => 0
    case GoodStart => 1
    case PastHalf => 2
    case Close => 3
    case VeryClose => 4
    case GoalReached => 5
  }

  /** More progress never gives a lower message. */
  lemma MessageMonotone(p: int, q: int)
    requires p <= q
    ensures Level(MessageFor(p)) <= Level(MessageFor(q))
  {
  }
}
