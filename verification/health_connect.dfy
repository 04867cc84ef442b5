/**
 * The record-folding logic of the health reader. The provider's answer to a
 * read is a parameter: `available` is the SDK status check, and a read either
 * fails (the exception branch) or returns the records. Instants are epoch
 * milliseconds; the system time zone is a fixed offset `zoneOffset` in
 * milliseconds, and a local date is a day number.
 */
module HealthConnect {
  import opened Wrappers
  import Grouping
  import Sums

  const DAY_MILLIS := 86_400_000
  const HOUR_MILLIS := 3_600_000

  /** A provider steps record: its time interval and its count. */
  datatype StepsRecord = StepsRecord(startTime: int, endTime: int, count: int)

  /** The answer of a provider read: the exception branch, or the value read. */
  datatype Outcome<T> = Failure | Success(value: T)

  /** The local date (day number) of an instant: the day whose 24 hours of local time contain it. */
  function LocalDay(instant: int, zoneOffset: int): (d: int)
    ensures d * DAY_MILLIS <= instant + zoneOffset < (d + 1) * DAY_MILLIS
  {
    (instant + zoneOffset) / DAY_MILLIS
  }

  /** The local hour of day of an instant. */
  function LocalHour(instant: int, zoneOffset: int): (h: int)
    ensures 0 <= h < 24
  {
    ((instant + zoneOffset) % DAY_MILLIS) / HOUR_MILLIS
  }

  /** `atStartOfDay(...).toInstant()`: the first instant of a local date. */
  function StartOfDay(day: int, zoneOffset: int): (instant: int)
    ensures LocalDay(instant, zoneOffset) == day
    ensures LocalDay(instant - 1, zoneOffset) == day - 1
    ensures LocalHour(instant, zoneOffset) == 0
  {
    day * DAY_MILLIS - zoneOffset
  }

  /** Every instant of a local date lies between its start and the next day's start. */
  lemma DayBounds(instant: int, zoneOffset: int)
    ensures var d := LocalDay(instant, zoneOffset);
      StartOfDay(d, zoneOffset) <= instant < StartOfDay(d + 1, zoneOffset)
  {
  }

  /** The hour of an instant `ms` milliseconds into a local date is the number of whole hours in `ms`. */
  lemma LocalHourWithinDay(day: int, zoneOffset: int, ms: int)
    requires 0 <= ms < DAY_MILLIS
    ensures LocalDay(StartOfDay(day, zoneOffset) + ms, zoneOffset) == day
    ensures LocalHour(StartOfDay(day, zoneOffset) + ms, zoneOffset) == ms / HOUR_MILLIS
  {
    var local := StartOfDay(day, zoneOffset) + ms + zoneOffset;
    assert local == day * DAY_MILLIS + ms;
    assert local / DAY_MILLIS == day;
    assert local % DAY_MILLIS == ms;
  }

  /** Each record as a tally keyed by `keyOf`. */
  function TalliesBy(records: seq<StepsRecord>, keyOf: StepsRecord -> int): (ts: seq<Grouping.Tally>)
    ensures |ts| == |records|
    ensures forall i :: 0 <= i < |records| ==> ts[i] == Grouping.Tally(keyOf(records[i]), records[i].count)
  {
    seq(|records|, i requires 0 <= i < |records| => Grouping.Tally(keyOf(records[i]), records[i].count))
  }

  /** The bucket of a record by its start's local date. */
  function DayOf(zoneOffset: int): StepsRecord -> int {
    (r: StepsRecord) => LocalDay(r.startTime, zoneOffset)
  }

  /** The bucket of a record by its start's local hour. */
  function HourOf(zoneOffset: int): StepsRecord -> int {
    (r: StepsRecord) => LocalHour(r.startTime, zoneOffset)
  }

  /** The sum of the counts of `records`. */
  function CountSum(records: seq<StepsRecord>): int
    decreases |records|
  {
    if records == [] then 0 else CountSum(records[..|records| - 1]) + records[|records| - 1].count
  }

  /** The sum of the counts of the records whose bucket is `k`. */
  function CountSumAt(records: seq<StepsRecord>, keyOf: StepsRecord -> int, k: int): int
    decreases |records|
  {
    if records == [] then 0
    else
      var last := records[|records| - 1];
      CountSumAt(records[..|records| - 1], keyOf, k) + (if keyOf(last) == k then last.count else 0)
  }

  /**
   * The grouped totals of the records: a bucket is present exactly when some
   * record falls in it, and holds the sum of those records' counts.
   */
  function TotalsBy(records: seq<StepsRecord>, keyOf: StepsRecord -> int): (m: map<int, int>)
    ensures forall k :: k in m <==> exists i :: 0 <= i < |records| && keyOf(records[i]) == k
    ensures forall k :: k in m ==> m[k] == CountSumAt(records, keyOf, k)
    ensures Sums.SumValues(m) == CountSum(records)
  {
    var ts := TalliesBy(records, keyOf);
    TalliesTotals(records, keyOf);
    Grouping.GroupTotalsSum(ts);
    Grouping.GroupTotals(ts)
  }

  /** The tally view agrees with the per-record sums. */
  lemma {:induction false} TalliesTotals(records: seq<StepsRecord>, keyOf: StepsRecord -> int)
    ensures forall k :: Grouping.KeyTotal(TalliesBy(records, keyOf), k) == CountSumAt(records, keyOf, k)
    ensures Grouping.TotalCount(TalliesBy(records, keyOf)) == CountSum(records)
    decreases |records|
  {
    if records != [] {
      var n := |records|;
      var init := records[..n - 1];
      TalliesTotals(init, keyOf);
      assert TalliesBy(records, keyOf)[..n - 1] == TalliesBy(init, keyOf);
    }
  }

  /** The `forEach` of the readers: `result[key] = (result[key] ?: 0) + record.count` for each record in turn. */
  method AccumulateCounts(records: seq<StepsRecord>, keyOf: StepsRecord -> int) returns (result: map<int, int>)
    ensures result == TotalsBy(records, keyOf)
  {
    ghost var ts := TalliesBy(records, keyOf);
    result := map[];
    var i := 0;
    while i < |records|
      invariant 0 <= i <= |records|
      invariant result == Grouping.GroupTotals(ts[..i])
    {
      var key := keyOf(records[i]);
      Grouping.GroupTotalsSnoc(ts[..i], ts[i]);
      assert ts[..i + 1] == ts[..i] + [ts[i]];
      result := result[key := (if key in result then result[key] else 0) + records[i].count];
      i := i + 1;
    }
    assert ts[..i] == ts;
  }

  /**
   * `getStepsForDateRange`: reads the records from the start of `startDate` to the
   * start of the day after `endDate` and sums their counts per local start date.
   * Unavailable provider or failed read: the empty map.
   */
  method GetStepsForDateRange(startDate: int, endDate: int, available: bool,
                              readRecords: (int, int) -> Outcome<seq<StepsRecord>>, zoneOffset: int)
    returns (result: map<int, int>)
    ensures result == DateRangeSteps(startDate, endDate, available, readRecords, zoneOffset)
  {
    if !available {
      return map[];
    }
    var startInstant := StartOfDay(startDate, zoneOffset);
    var endInstant := StartOfDay(endDate + 1, zoneOffset);
    var response := readRecords(startInstant, endInstant);
    if response.Failure? {
      return map[];
    }
    assert DateRangeSteps(startDate, endDate, available, readRecords, zoneOffset) == TotalsBy(response.value, DayOf(zoneOffset));
    result := AccumulateCounts(response.value, DayOf(zoneOffset));
  }

  /** What `getStepsForDateRange` answers. */
  function DateRangeSteps(startDate: int, endDate: int, available: bool,
                          readRecords: (int, int) -> Outcome<seq<StepsRecord>>, zoneOffset: int): (m: map<int, int>)
    ensures !available ==> m == map[]
    ensures available && readRecords(StartOfDay(startDate, zoneOffset), StartOfDay(endDate + 1, zoneOffset)).Failure? ==> m == map[]
    ensures available && readRecords(StartOfDay(startDate, zoneOffset), StartOfDay(endDate + 1, zoneOffset)).Success? ==>
      var records := readRecords(StartOfDay(startDate, zoneOffset), StartOfDay(endDate + 1, zoneOffset)).value;
      (forall d :: d in m <==> exists i :: 0 <= i < |records| && LocalDay(records[i].startTime, zoneOffset) == d) &&
      (forall d :: d in m ==> m[d] == CountSumAt(records, DayOf(zoneOffset), d)) &&
      Sums.SumValues(m) == CountSum(records)
  {
    if !available then map[]
    else match readRecords(StartOfDay(startDate, zoneOffset), StartOfDay(endDate + 1, zoneOffset))
      case Failure => map[]
      case Success(records) => TotalsBy(records, DayOf(zoneOffset))
  }

  /** The inclusive window of the last `days` local dates ending today. */
  function LastDaysWindow(days: int, today: int): (w: (int, int))
    ensures w.1 == today
    ensures w.1 - w.0 + 1 == days
  {
    (today - (days - 1), today)
  }

  /** `getStepsForLastDays`: the per-date totals over the window of the last `days` dates. */
  method GetStepsForLastDays(days: int, today: int, available: bool,
                             readRecords: (int, int) -> Outcome<seq<StepsRecord>>, zoneOffset: int)
    returns (result: map<int, int>)
    ensures var w := LastDaysWindow(days, today);
      result == DateRangeSteps(w.0, w.1, available, readRecords, zoneOffset)
  {
    var window := LastDaysWindow(days, today);
    result := GetStepsForDateRange(window.0, window.1, available, readRecords, zoneOffset);
  }

  /**
   * `getStepsGroupedByHour`: reads today's records and sums their counts per
   * local start hour. Unavailable provider or failed read: the empty map.
   */
  method GetStepsGroupedByHour(today: int, available: bool,
                               readRecords: (int, int) -> Outcome<seq<StepsRecord>>, zoneOffset: int)
    returns (result: map<int, int>)
    ensures result == HourlySteps(today, available, readRecords, zoneOffset)
  {
    if !available {
      return map[];
    }
    var response := readRecords(StartOfDay(today, zoneOffset), StartOfDay(today + 1, zoneOffset));
    if response.Failure? {
      return map[];
    }
    assert HourlySteps(today, available, readRecords, zoneOffset) == TotalsBy(response.value, HourOf(zoneOffset));
    result := AccumulateCounts(response.value, HourOf(zoneOffset));
  }

  /** What `getStepsGroupedByHour` answers: hours 0..23 only, each the sum of the counts starting in it. */
  function HourlySteps(today: int, available: bool,
                       readRecords: (int, int) -> Outcome<seq<StepsRecord>>, zoneOffset: int): (m: map<int, int>)
    ensures forall h :: h in m ==> 0 <= h < 24
    ensures !available ==> m == map[]
    ensures available && readRecords(StartOfDay(today, zoneOffset), StartOfDay(today + 1, zoneOffset)).Failure? ==> m == map[]
    ensures available && readRecords(StartOfDay(today, zoneOffset), StartOfDay(today + 1, zoneOffset)).Success? ==>
      var records := readRecords(StartOfDay(today, zoneOffset), StartOfDay(today + 1, zoneOffset)).value;
      (forall h :: h in m <==> exists i :: 0 <= i < |records| && LocalHour(records[i].startTime, zoneOffset) == h) &&
      (forall h :: h in m ==> m[h] == CountSumAt(records, HourOf(zoneOffset), h)) &&
      Sums.SumValues(m) == CountSum(records)
  {
    if !available then map[]
    else match readRecords(StartOfDay(today, zoneOffset), StartOfDay(today + 1, zoneOffset))
      case Failure => map[]
      case Success(records) => TotalsBy(records, HourOf(zoneOffset))
  }

  /**
   * `getTodaySteps`: the provider's aggregate total over today, 0 when the
   * provider is unavailable, the read fails or the total is missing.
   */
  function GetTodaySteps(today: int, available: bool,
                         aggregate: (int, int) -> Outcome<Option<int>>, zoneOffset: int): (steps: int)
    ensures !available ==> steps == 0
    ensures available ==>
      var response := aggregate(StartOfDay(today, zoneOffset), StartOfDay(today + 1, zoneOffset));
      steps == (if response.Success? && response.value.Some? then response.value.value else 0)
  {
    if !available then 0
    else match aggregate(StartOfDay(today, zoneOffset), StartOfDay(today + 1, zoneOffset))
      case Failure => 0
      case Success(None) => 0
      case Success(Some(total)) => total
  }

  /** One step session as the reader lists it. */
  datatype StepSessionData = StepSessionData(startTimeMillis: int, endTimeMillis: int, steps: int)

  /** `records.map { ... }`: one session per record, fields copied. */
  function SessionsOf(records: seq<StepsRecord>): (ss: seq<StepSessionData>)
    ensures |ss| == |records|
    ensures forall i :: 0 <= i < |records| ==>
      ss[i] == StepSessionData(records[i].startTime, records[i].endTime, records[i].count)
  {
    seq(|records|, i requires 0 <= i < |records| => StepSessionData(records[i].startTime, records[i].endTime, records[i].count))
  }

  /** Sorted by start time, latest first. */
  predicate StartNonIncreasing(ss: seq<StepSessionData>) {
    forall i, j :: 0 <= i < j < |ss| ==> ss[i].startTimeMillis >= ss[j].startTimeMillis
  }

  /**
   * Places `x` in front of the first element that does not start later than
   * it, so an earlier element of equal start stays ahead of later ones.
   */
  function InsertByStartDesc(x: StepSessionData, sorted: seq<StepSessionData>): (r: seq<StepSessionData>)
    ensures |r| == |sorted| + 1
    decreases |sorted|
  {
    if sorted == [] || sorted[0].startTimeMillis <= x.startTimeMillis then [x] + sorted
    else [sorted[0]] + InsertByStartDesc(x, sorted[1..])
  }

  /** Inserting adds `x` and keeps every other element. */
  lemma {:induction false} InsertPermutes(x: StepSessionData, sorted: seq<StepSessionData>)
    ensures multiset(InsertByStartDesc(x, sorted)) == multiset(sorted) + multiset{x}
    decreases |sorted|
  {
    if sorted != [] && sorted[0].startTimeMillis > x.startTimeMillis {
      InsertPermutes(x, sorted[1..]);
      assert sorted == [sorted[0]] + sorted[1..];
    }
  }

  /** Inserting into a list sorted latest first keeps it sorted latest first. */
  lemma {:induction false} InsertKeepsOrder(x: StepSessionData, sorted: seq<StepSessionData>)
    requires StartNonIncreasing(sorted)
    ensures StartNonIncreasing(InsertByStartDesc(x, sorted))
    decreases |sorted|
  {
    if sorted != [] && sorted[0].startTimeMillis > x.startTimeMillis {
      var rest := InsertByStartDesc(x, sorted[1..]);
      InsertKeepsOrder(x, sorted[1..]);
      InsertPermutes(x, sorted[1..]);
      forall j | 0 <= j < |rest| ensures sorted[0].startTimeMillis >= rest[j].startTimeMillis {
        assert rest[j] in multiset(rest);
        if rest[j] != x {
          assert rest[j] in multiset(sorted[1..]);
          var k :| 0 <= k < |sorted[1..]| && sorted[1..][k] == rest[j];
          assert sorted[k + 1] == rest[j];
        }
      }
    }
  }

  /** The sessions of `ss` that start at `t`, in their order in `ss`. */
  function WithStart(ss: seq<StepSessionData>, t: int): seq<StepSessionData>
    decreases |ss|
  {
    if ss == [] then []
    else (if ss[0].startTimeMillis == t then [ss[0]] else []) + WithStart(ss[1..], t)
  }

  /**
   * Inserting puts `x` ahead of every element with its start time, and keeps
   * the order among the others.
   */
  lemma {:induction false} InsertKeepsTies(x: StepSessionData, sorted: seq<StepSessionData>)
    ensures forall t ::
      WithStart(InsertByStartDesc(x, sorted), t) == (if x.startTimeMillis == t then [x] else []) + WithStart(sorted, t)
    decreases |sorted|
  {
    if sorted == [] || sorted[0].startTimeMillis <= x.startTimeMillis {
      assert ([x] + sorted)[1..] == sorted;
    } else {
      InsertKeepsTies(x, sorted[1..]);
      var r := InsertByStartDesc(x, sorted[1..]);
      assert ([sorted[0]] + r)[1..] == r;
      forall t ensures WithStart([sorted[0]] + r, t)
        == (if x.startTimeMillis == t then [x] else []) + WithStart(sorted, t)
      {
        if sorted[0].startTimeMillis == t {
          assert x.startTimeMillis != t;
        }
      }
    }
  }

  /**
   * `sortedByDescending { it.startTimeMillis }`: a permutation, latest start
   * first, and stable: sessions with equal starts keep their input order.
   */
  function SortedByStartDesc(ss: seq<StepSessionData>): (r: seq<StepSessionData>)
    ensures multiset(r) == multiset(ss)
    ensures StartNonIncreasing(r)
    ensures forall t :: WithStart(r, t) == WithStart(ss, t)
    ensures |r| == |ss|
    decreases |ss|
  {
    if ss == [] then []
    else
      var rest := SortedByStartDesc(ss[1..]);
      InsertPermutes(ss[0], rest);
      InsertKeepsOrder(ss[0], rest);
      InsertKeepsTies(ss[0], rest);
      assert ss == [ss[0]] + ss[1..];
      assert multiset(ss) == multiset{ss[0]} + multiset(ss[1..]);
      InsertByStartDesc(ss[0], rest)
  }

  /** The session list of a read over [from, to): empty when unavailable or failed, else sorted latest first. */
  function SessionsRead(from: int, to: int, available: bool,
                        readRecords: (int, int) -> Outcome<seq<StepsRecord>>): (ss: seq<StepSessionData>)
    ensures !available ==> ss == []
    ensures available && readRecords(from, to).Failure? ==> ss == []
    ensures available && readRecords(from, to).Success? ==>
      multiset(ss) == multiset(SessionsOf(readRecords(from, to).value)) && StartNonIncreasing(ss) &&
      forall t :: WithStart(ss, t) == WithStart(SessionsOf(readRecords(from, to).value), t)
  {
    if !available then []
    else match readRecords(from, to)
      case Failure => []
      case Success(records) => SortedByStartDesc(SessionsOf(records))
  }

  /** `getTodayStepSessions`: today's sessions, latest first. */
  function GetTodayStepSessions(today: int, available: bool,
                                readRecords: (int, int) -> Outcome<seq<StepsRecord>>, zoneOffset: int)
    : (ss: seq<StepSessionData>)
    ensures var response := readRecords(StartOfDay(today, zoneOffset), StartOfDay(today + 1, zoneOffset));
      (!available || response.Failure? ==> ss == []) &&
      (available && response.Success? ==>
        multiset(ss) == multiset(SessionsOf(response.value)) && StartNonIncreasing(ss) &&
        forall t :: WithStart(ss, t) == WithStart(SessionsOf(response.value), t))
  {
    SessionsRead(StartOfDay(today, zoneOffset), StartOfDay(today + 1, zoneOffset), available, readRecords)
  }

  /** `getStepSessionsForLastDays`: the sessions of the last `days` dates, latest first. */
  function GetStepSessionsForLastDays(days: int, today: int, available: bool,
                                      readRecords: (int, int) -> Outcome<seq<StepsRecord>>, zoneOffset: int)
    : (ss: seq<StepSessionData>)
    ensures var w := LastDaysWindow(days, today);
      var response := readRecords(StartOfDay(w.0, zoneOffset), StartOfDay(w.1 + 1, zoneOffset));
      (!available || response.Failure? ==> ss == []) &&
      (available && response.Success? ==>
        multiset(ss) == multiset(SessionsOf(response.value)) && StartNonIncreasing(ss) &&
        forall t :: WithStart(ss, t) == WithStart(SessionsOf(response.value), t))
  {
    var startDate := today - (days - 1);
    SessionsRead(StartOfDay(startDate, zoneOffset), StartOfDay(today + 1, zoneOffset), available, readRecords)
  }

  /** Each record read contributes exactly one session with its own fields. */
  lemma OneSessionPerRecord(records: seq<StepsRecord>, i: int)
    requires 0 <= i < |records|
    ensures StepSessionData(records[i].startTime, records[i].endTime, records[i].count) in SortedByStartDesc(SessionsOf(records))
  {
    var ss := SessionsOf(records);
    assert ss[i] in multiset(ss);
  }
}
