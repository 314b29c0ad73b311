/**
 * The cycle-statistics endpoint (src/routes/cycle_stats.rs). Its SQL orders
 * the user's cycles by start date, pairs each start with the next one
 * (`LEAD`) and counts the bleeding logs from the start up to, not including,
 * the next start (with no upper bound for the last cycle); a loop then numbers
 * the cycles from 1, computes each cycle's length and sums both lengths for
 * the averages.
 *
 * The SQL leaves the order of equal start dates open; this model breaks such
 * ties by insertion order (a stable sort of the cycles as given).
 */
module CycleStats {
  import opened Wrappers
  import Sorting
  import opened Models

  /** A row of the query: a start date, the next start date and the bleeding count. */
  datatype CycleRow = CycleRow(startDate: int, nextStartDate: Option<int>, periodLength: Option<int>)

  /** One numbered cycle of the response. */
  datatype CycleStat = CycleStat(cycleNumber: int, periodLength: int, cycleLength: int)

  /** The response: both averages and the per-cycle statistics. */
  datatype CycleStatsResponse = CycleStatsResponse(
    averagePeriodLength: real,
    averageCycleLength: real,
    cycleStats: seq<CycleStat>)

  /** The sort key of `ORDER BY start_date`. */
  function StartOf(c: Cycle): int { c.startDate }

  /** The user's cycles in ascending start-date order; equal dates keep their given order. */
  function OrderedCycles(cycles: seq<Cycle>): seq<Cycle> {
    Sorting.SortBy(cycles, StartOf)
  }

  /** The start dates of `cycles`, in the order given. */
  function StartDates(cycles: seq<Cycle>): (dates: seq<int>)
    ensures |dates| == |cycles|
    ensures forall i :: 0 <= i < |cycles| ==> dates[i] == cycles[i].startDate
  {
    Sorting.Keys(cycles, StartOf)
  }

  /** The start dates of the ordered cycles. */
  function OrderedStarts(cycles: seq<Cycle>): (starts: seq<int>)
    ensures |starts| == |cycles|
    ensures Ascending(starts)
  {
    var ordered := OrderedCycles(cycles);
    var starts := StartDates(ordered);
    assert Ascending(starts) by {
      forall i, j | 0 <= i < j < |starts| ensures starts[i] <= starts[j] {
        assert StartOf(ordered[i]) <= StartOf(ordered[j]);
      }
    }
    starts
  }

  /** The ordered start dates are exactly the cycles' start dates, rearranged. */
  lemma OrderedStartsArePermutation(cycles: seq<Cycle>)
    ensures multiset(OrderedStarts(cycles)) == multiset(StartDates(cycles))
  {
    Sorting.SortByKeysArePermutation(cycles, StartOf);
  }

  /** The dates never decrease. */
  ghost predicate Ascending(starts: seq<int>) {
    forall i, j :: 0 <= i < j < |starts| ==> starts[i] <= starts[j]
  }

  /** `LEAD(start_date) OVER (ORDER BY start_date)`: the next start date, if there is one. */
  function Lead(starts: seq<int>, i: nat): Option<int>
    requires i < |starts|
  {
    if i + 1 < |starts| then Some(starts[i + 1]) else None
  }

  /** Whether a log dated `d` belongs to the cycle from `start` to the optional `next` start. */
  predicate InCycle(d: int, start: int, next: Option<int>) {
    start <= d && (next.None? || d < next.value)
  }

  /** The correlated `COUNT(*)`: how many of `logs` belong to the cycle from `start` to `next`. */
  function CountInCycle(logs: seq<int>, start: int, next: Option<int>): (count: nat)
    ensures count <= |logs|
  {
    if logs == [] then 0
    else (if InCycle(logs[0], start, next) then 1 else 0) + CountInCycle(logs[1..], start, next)
  }

  /** How many of `logs` are dated on or after `start`. */
  function CountFrom(logs: seq<int>, start: int): nat {
    if logs == [] then 0
    else (if start <= logs[0] then 1 else 0) + CountFrom(logs[1..], start)
  }

  /** The query's row for the `i`-th cycle in start-date order. */
  function RowAt(starts: seq<int>, logs: seq<int>, i: nat): CycleRow
    requires i < |starts|
  {
    CycleRow(starts[i], Lead(starts, i), Some(CountInCycle(logs, starts[i], Lead(starts, i))))
  }

  /** The rows the query returns for the user's cycles and bleeding log dates. */
  function CycleRows(cycles: seq<Cycle>, logs: seq<int>): (rows: seq<CycleRow>)
    ensures |rows| == |cycles|
  {
    var starts := OrderedStarts(cycles);
    seq(|starts|, i requires 0 <= i < |starts| => RowAt(starts, logs, i))
  }

  /** The length of the `i`-th cycle: days to the next start, or 0 for the open last cycle. */
  function CycleSpan(starts: seq<int>, i: nat): int
    requires i < |starts|
  {
    if i + 1 < |starts| then starts[i + 1] - starts[i] else 0
  }

  /** The sum of the first `k` period lengths. */
  function SumPeriods(starts: seq<int>, logs: seq<int>, k: nat): int
    requires k <= |starts|
  {
    if k == 0 then 0 else SumPeriods(starts, logs, k - 1) + CountInCycle(logs, starts[k - 1], Lead(starts, k - 1))
  }

  /** The sum of the first `k` cycle lengths. */
  function SumCycles(starts: seq<int>, k: nat): int
    requires k <= |starts|
  {
    if k == 0 then 0 else SumCycles(starts, k - 1) + CycleSpan(starts, k - 1)
  }

  /** `as i32`: keeps the low 32 bits, read as a two's-complement number. */
  function AsI32(x: int): (r: int)
    ensures -0x8000_0000 <= r < 0x8000_0000
    ensures (x - r) % 0x1_0000_0000 == 0
    ensures -0x8000_0000 <= x < 0x8000_0000 ==> r == x
  {
    (x + 0x8000_0000) % 0x1_0000_0000 - 0x8000_0000
  }

  /** A bounded cycle counts the logs from its start minus those from the next start on. */
  lemma {:induction false} CountInClosedCycle(logs: seq<int>, start: int, next: int)
    requires start <= next
    ensures CountInCycle(logs, start, Some(next)) == CountFrom(logs, start) - CountFrom(logs, next)
  {
    if logs != [] {
      CountInClosedCycle(logs[1..], start, next);
    }
  }

  /** The open last cycle counts every log from its start on. */
  lemma {:induction false} CountInOpenCycle(logs: seq<int>, start: int)
    ensures CountInCycle(logs, start, None) == CountFrom(logs, start)
  {
    if logs != [] {
      CountInOpenCycle(logs[1..], start);
    }
  }

  /** The first `k` closed cycles together count the logs from the first start up to the `k`-th. */
  lemma {:induction false} SumPeriodsPrefix(starts: seq<int>, logs: seq<int>, k: nat)
    requires Ascending(starts) && k < |starts|
    ensures SumPeriods(starts, logs, k) == CountFrom(logs, starts[0]) - CountFrom(logs, starts[k])
  {
    if k > 0 {
      SumPeriodsPrefix(starts, logs, k - 1);
      CountInClosedCycle(logs, starts[k - 1], starts[k]);
    }
  }

  /**
   * The cycles' intervals tile the time from the first start on, so the period
   * lengths add up to the number of logs dated on or after the first start.
   */
  lemma PeriodLengthsSum(starts: seq<int>, logs: seq<int>)
    requires Ascending(starts) && starts != []
    ensures SumPeriods(starts, logs, |starts|) == CountFrom(logs, starts[0])
  {
    var n := |starts|;
    SumPeriodsPrefix(starts, logs, n - 1);
    CountInOpenCycle(logs, starts[n - 1]);
  }

  /**
   * The cycle lengths telescope: the first `k` of them span from the first
   * start to the `k`-th, and all of them (the open cycle adding 0) from the
   * first start to the last.
   */
  lemma {:induction false} CycleLengthsTelescope(starts: seq<int>, k: nat)
    requires starts != [] && k <= |starts|
    ensures SumCycles(starts, k) == (if k < |starts| then starts[k] else starts[k - 1]) - starts[0]
  {
    if k > 0 {
      CycleLengthsTelescope(starts, k - 1);
    }
  }

  /** Start dates in ascending order make every cycle length non-negative. */
  lemma CycleLengthsNonNegative(starts: seq<int>, i: nat)
    requires Ascending(starts) && i < |starts|
    ensures CycleSpan(starts, i) >= 0
  {
  }

  /** A log dated on or after the first start belongs to exactly one cycle. */
  lemma {:induction false} LogInExactlyOneCycle(starts: seq<int>, d: int)
    requires Ascending(starts) && starts != [] && starts[0] <= d
    ensures exists i :: 0 <= i < |starts| && InCycle(d, starts[i], Lead(starts, i))
    ensures forall i, j ::
              (0 <= i < |starts| && 0 <= j < |starts|
               && InCycle(d, starts[i], Lead(starts, i)) && InCycle(d, starts[j], Lead(starts, j))) ==> i == j
  {
    var i := LastStartAtOrBefore(starts, d, |starts|);
    assert InCycle(d, starts[i], Lead(starts, i));
  }

  /** The last of the first `k` starts that is on or before `d`. */
  function LastStartAtOrBefore(starts: seq<int>, d: int, k: nat): (i: nat)
    requires 0 < k <= |starts| && starts[0] <= d
    ensures i < k && starts[i] <= d
    ensures forall j :: i < j < k ==> d < starts[j]
  {
    if starts[k - 1] <= d || k == 1 then k - 1 else LastStartAtOrBefore(starts, d, k - 1)
  }

  /** The `i`-th entry of the response: its 1-based number, bleeding count and length, each cast `as i32`. */
  function StatFor(starts: seq<int>, logs: seq<int>, i: nat): CycleStat
    requires i < |starts|
  {
    CycleStat(AsI32(i + 1), AsI32(CountInCycle(logs, starts[i], Lead(starts, i))), AsI32(CycleSpan(starts, i)))
  }

  /**
   * `get_cycle_stats` after the query: number the cycles from 1 in start-date
   * order, give each its bleeding count and its length (0 for the open last
   * cycle), and average both over all cycles, the open one included; with no
   * cycles both averages are 0.
   */
  method GetCycleStats(cycles: seq<Cycle>, bleedingLogs: seq<int>) returns (resp: CycleStatsResponse)
    ensures |resp.cycleStats| == |cycles|
    ensures forall i :: 0 <= i < |cycles| ==> resp.cycleStats[i] == StatFor(OrderedStarts(cycles), bleedingLogs, i)
    ensures cycles == [] ==> resp == CycleStatsResponse(0.0, 0.0, [])
    ensures cycles != [] ==>
      var starts, n := OrderedStarts(cycles), |cycles|;
      && resp.averagePeriodLength == CountFrom(bleedingLogs, starts[0]) as real / n as real
      && resp.averageCycleLength == (starts[n - 1] - starts[0]) as real / n as real
  {
    var rows := CycleRows(cycles, bleedingLogs);
    ghost var starts := OrderedStarts(cycles);
    var totalPeriod := 0;
    var totalCycle := 0;
    var stats: seq<CycleStat> := [];
    for i := 0 to |rows|
      invariant StatsUpTo(starts, bleedingLogs, i, stats, totalPeriod, totalCycle)
    {
      var row := rows[i];
      assert row == RowAt(starts, bleedingLogs, i);
      var period := row.periodLength.GetOr(0);
      var cycleLen := match row.nextStartDate
        case Some(next) => next - row.startDate
        case None => 0;
      ghost var before, periodBefore, cycleBefore := stats, totalPeriod, totalCycle;
      totalPeriod := totalPeriod + period;
      totalCycle := totalCycle + cycleLen;
      stats := stats + [CycleStat(AsI32(i + 1), AsI32(period), AsI32(cycleLen))];
      NextStat(starts, bleedingLogs, i, before, periodBefore, cycleBefore, period, cycleLen);
    }
    var count := |stats|;
    resp := CycleStatsResponse(
      if count > 0 then totalPeriod as real / count as real else 0.0,
      if count > 0 then totalCycle as real / count as real else 0.0,
      stats);
    if count > 0 {
      PeriodLengthsSum(starts, bleedingLogs);
      CycleLengthsTelescope(starts, count);
    }
  }

  /**
   * The state of the statistics loop after `i` rows: one statistic per row so
   * far and the running totals of period and cycle lengths.
   */
  ghost predicate StatsUpTo(starts: seq<int>, logs: seq<int>, i: nat, stats: seq<CycleStat>, totalPeriod: int, totalCycle: int) {
    && i <= |starts|
    && |stats| == i
    && (forall k :: 0 <= k < i ==> stats[k] == StatFor(starts, logs, k))
    && totalPeriod == SumPeriods(starts, logs, i)
    && totalCycle == SumCycles(starts, i)
  }

  /** One turn of the statistics loop: the `i`-th row's period and length extend the state. */
  lemma NextStat(starts: seq<int>, logs: seq<int>, i: nat, stats: seq<CycleStat>, totalPeriod: int, totalCycle: int,
                 period: int, cycleLen: int)
    requires i < |starts| && StatsUpTo(starts, logs, i, stats, totalPeriod, totalCycle)
    requires RowAt(starts, logs, i).periodLength.GetOr(0) == period
    requires cycleLen == match RowAt(starts, logs, i).nextStartDate
                           case Some(next) => next - starts[i]
                           case None => 0
    ensures StatsUpTo(starts, logs, i + 1, stats + [CycleStat(AsI32(i + 1), AsI32(period), AsI32(cycleLen))],
                      totalPeriod + period, totalCycle + cycleLen)
  {
  }

  /**
   * With fewer than 2^31 cycles and logs, and all start dates within 2^31 - 1
   * days of each other, the `as i32` casts change nothing: the cycles are
   * numbered 1, 2, ..., each with its exact count and length.
   */
  lemma StatForInRange(starts: seq<int>, logs: seq<int>, i: nat)
    requires Ascending(starts) && i < |starts|
    requires |starts| < 0x8000_0000 && |logs| < 0x8000_0000
    requires starts[|starts| - 1] - starts[0] < 0x8000_0000
    ensures StatFor(starts, logs, i) == CycleStat(i + 1, CountInCycle(logs, starts[i], Lead(starts, i)), CycleSpan(starts, i))
  {
  }

  /** Counting over two blocks of logs adds the blocks' counts. */
  lemma {:induction false} CountInCycleAppend(a: seq<int>, b: seq<int>, start: int, next: Option<int>)
    ensures CountInCycle(a + b, start, next) == CountInCycle(a, start, next) + CountInCycle(b, start, next)
  {
    if a != [] {
      assert (a + b)[0] == a[0] && (a + b)[1..] == a[1..] + b;
      CountInCycleAppend(a[1..], b, start, next);
    } else {
      assert a + b == b;
    }
  }

  /** A cycle that holds every one of the logs counts them all. */
  lemma {:induction false} CountAllInCycle(logs: seq<int>, start: int, next: Option<int>)
    requires forall k :: 0 <= k < |logs| ==> InCycle(logs[k], start, next)
    ensures CountInCycle(logs, start, next) == |logs|
  {
    if logs != [] {
      CountAllInCycle(logs[1..], start, next);
    }
  }

  /** A cycle that holds none of the logs counts none. */
  lemma {:induction false} CountNoneInCycle(logs: seq<int>, start: int, next: Option<int>)
    requires forall k :: 0 <= k < |logs| ==> !InCycle(logs[k], start, next)
    ensures CountInCycle(logs, start, next) == 0
  {
    if logs != [] {
      CountNoneInCycle(logs[1..], start, next);
    }
  }

  /** The count over three consecutive blocks of logs is the sum of the three counts. */
  lemma CountInThreeBlocks(a: seq<int>, b: seq<int>, c: seq<int>, start: int, next: Option<int>)
    ensures CountInCycle(a + b + c, start, next)
         == CountInCycle(a, start, next) + CountInCycle(b, start, next) + CountInCycle(c, start, next)
  {
    CountInCycleAppend(a, b, start, next);
    CountInCycleAppend(a + b, c, start, next);
  }

  /**
   * The worked example: starts 28 days apart, with five bleeding days in the
   * first cycle, six in the second and two in the open third, give the
   * statistics (1, 5, 28), (2, 6, 28) and (3, 2, 0), 13 logs from the first
   * start on and 56 days of cycle length in all.
   */
  lemma ThreeCyclesExample(first: seq<int>, second: seq<int>, open: seq<int>)
    requires |first| == 5 && |second| == 6 && |open| == 2
    requires forall k :: 0 <= k < |first| ==> 0 <= first[k] < 28
    requires forall k :: 0 <= k < |second| ==> 28 <= second[k] < 56
    requires forall k :: 0 <= k < |open| ==> 56 <= open[k]
    ensures StatFor([0, 28, 56], first + second + open, 0) == CycleStat(1, 5, 28)
    ensures StatFor([0, 28, 56], first + second + open, 1) == CycleStat(2, 6, 28)
    ensures StatFor([0, 28, 56], first + second + open, 2) == CycleStat(3, 2, 0)
    ensures CountFrom(first + second + open, 0) == 13
    ensures SumCycles([0, 28, 56], 3) == 56
  {
    var starts, logs := [0, 28, 56], first + second + open;
    CountAllInCycle(first, 0, Some(28));
    CountNoneInCycle(second, 0, Some(28));
    CountNoneInCycle(open, 0, Some(28));
    CountInThreeBlocks(first, second, open, 0, Some(28));
    CountNoneInCycle(first, 28, Some(56));
    CountAllInCycle(second, 28, Some(56));
    CountNoneInCycle(open, 28, Some(56));
    CountInThreeBlocks(first, second, open, 28, Some(56));
    CountNoneInCycle(first, 56, None);
    CountNoneInCycle(second, 56, None);
    CountAllInCycle(open, 56, None);
    CountInThreeBlocks(first, second, open, 56, None);
    CountAllInCycle(first, 0, None);
    CountAllInCycle(second, 0, None);
    CountAllInCycle(open, 0, None);
    CountInThreeBlocks(first, second, open, 0, None);
    CountInOpenCycle(logs, 0);
    assert Lead(starts, 0) == Some(28) && Lead(starts, 1) == Some(56) && Lead(starts, 2) == None;
    StatForInRange(starts, logs, 0);
    StatForInRange(starts, logs, 1);
    StatForInRange(starts, logs, 2);
  }
}
