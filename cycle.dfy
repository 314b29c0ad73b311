/**
 * The current-cycle summary of the `/cycle` endpoint (src/routes/cycle.rs):
 * from the latest start date among the user's cycles and today's date it
 * derives the cycle day, whether today is in the fertile window (days 12 to
 * 16 after the start, both included) and the days until the next period,
 * assuming a fixed 26-day cycle. The clock is read by the caller and passed
 * in as `today`.
 */
module CurrentCycle {
  import opened Models

  /** The endpoint's outcome: a summary, or NOT_FOUND when the user has no cycle. */
  datatype SummaryResult = Found(summary: CycleSummary) | NotFound

  /** First day of the fertile window, counted from the start date. */
  const FertileFrom: int := 12
  /** Last day of the fertile window, counted from the start date. */
  const FertileTo: int := 16
  /** The assumed cycle length used to predict the next period. */
  const AssumedCycleLength: int := 26

  /** `ORDER BY start_date DESC LIMIT 1`: the latest start date among the cycles. */
  function LatestStart(cycles: seq<Cycle>): (s: int)
    requires cycles != []
    ensures exists i :: 0 <= i < |cycles| && cycles[i].startDate == s
    ensures forall i :: 0 <= i < |cycles| ==> cycles[i].startDate <= s
  {
    if |cycles| == 1 then cycles[0].startDate
    else
      var rest := LatestStart(cycles[1..]);
      assert forall i :: 1 <= i < |cycles| ==> cycles[i] == cycles[1..][i - 1];
      if cycles[0].startDate >= rest then cycles[0].startDate else rest
  }

  /** `get_cycle_summary` for the user's cycles on the day `today`. */
  function GetCycleSummary(cycles: seq<Cycle>, today: int): (r: SummaryResult)
    ensures r.NotFound? <==> cycles == []
    ensures r.Found? ==> r.summary.startDate == LatestStart(cycles)
    ensures r.Found? ==> r.summary.cycleDay == today - r.summary.startDate
    ensures r.Found? ==> (r.summary.inFertileWindow <==> 12 <= r.summary.cycleDay <= 16)
    ensures r.Found? ==> r.summary.cycleDay + r.summary.periodExpectedInDays == 26
  {
    if cycles == [] then NotFound
    else
      var start := LatestStart(cycles);
      var cycleDay := today - start;
      var fertile := start + FertileFrom <= today <= start + FertileTo;
      Found(CycleSummary(cycleDay, fertile, AssumedCycleLength - cycleDay, start))
  }

  /** The window's bounds are inclusive: days 12 and 16 are fertile, days 11 and 17 are not. */
  lemma FertileWindowBoundaries(cycles: seq<Cycle>, start: int)
    requires cycles != [] && LatestStart(cycles) == start
    ensures GetCycleSummary(cycles, start + 12).summary.inFertileWindow
    ensures GetCycleSummary(cycles, start + 16).summary.inFertileWindow
    ensures !GetCycleSummary(cycles, start + 11).summary.inFertileWindow
    ensures !GetCycleSummary(cycles, start + 17).summary.inFertileWindow
  {
  }

  /** A start date after today is passed through: the cycle day is negative and the window closed. */
  lemma FutureStartIsNotClamped(cycles: seq<Cycle>, today: int)
    requires cycles != [] && LatestStart(cycles) > today
    ensures GetCycleSummary(cycles, today).summary.cycleDay < 0
    ensures !GetCycleSummary(cycles, today).summary.inFertileWindow
    ensures GetCycleSummary(cycles, today).summary.periodExpectedInDays > 26
  {
  }
}
