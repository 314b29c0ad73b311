# joycycles-backend: cycle and symptom logic in Dafny

This project models the logic at the centre of the joycycles backend, a
menstrual-cycle tracker with HTTP endpoints over a Postgres store. It covers
four pieces:

- **Bleeding history** (`bleeding.dfy`). The user's bleeding logs are sorted
  by date. One forward pass then cuts them into *episodes*. An episode is a
  maximal run of logs in which each date is at most one day after the date
  before it. The pass is a method whose result is proved to be the unique
  partition of the sorted days into such runs.
- **Cycle statistics** (`cycle_stats.dfy`). The query pairs each cycle start
  with the next one (`LEAD`) and counts the bleeding logs in between. It is
  modelled as pure functions. The accumulating loop is a method. It is proved
  to number the cycles, to take each length as the distance to the next
  start, and to average both quantities. Lemmas show that the period lengths
  add up to the logs from the first start on. They also show that the cycle
  lengths telescope to the distance from the first start to the last.
- **Current-cycle summary** (`cycle.dfy`). From the
  latest cycle start and today's date the function gives the cycle day and
  whether today falls in the fertile window (days 12 to 16, both included).
  It also gives the days until the next period expected from a 26-day cycle.
  With no cycle the answer is NOT_FOUND.
- **Symptoms** (`symptoms.dfy`). The grouped view fills a map from date to
  symptom list, the way a `BTreeMap` is filled, and emits the entries in
  ascending date order. The symptoms table is a class holding a sequence of
  rows. Its delete removes every log of a user with a given date and type. It
  answers NOT_FOUND when no row matched.

Supporting modules: `wrappers.dfy` (the `Option` type), `models.dfy` (the
shared records of `src/models.rs`) and `sorting.dfy` (a stable sort by an
integer key, proved sorted, a permutation of its input and stable).

Dates are day numbers (`int`), so subtracting two dates gives the number of
days between them, as chrono's `num_days` does. The clock (`Utc::now`) is a
parameter `today`. Each SQL query is a pure function of the rows it reads.
For the bleeding history, the cycle statistics, the grouped symptoms and the
current cycle, the caller applies the queries' `WHERE` filters: the inputs
are the user's own rows (`user_id = $1`), and the bleeding logs are only
those with `symptom_type = 'bleeding'`. The symptoms table of the delete is
different. It holds every user's logs, and the model applies the whole
`WHERE user_id = $1 AND logged_at::date = $2 AND symptom_type = $3` clause
itself (`Symptoms.Matches`).

## Model

| member | source | states |
|---|---|---|
| Sorting.SortBy | src/routes/bleeding.rs:32 | `sort_by_key` returns as many elements as it was given, in non-decreasing key order |
| Sorting.SortByIsPermutation | src/routes/bleeding.rs:32 | the sort is a permutation: the multiset of elements is unchanged |
| Sorting.SortByIsStable | src/routes/bleeding.rs:32 | the sort is stable: for every key, the elements with that key keep their relative order |
| Sorting.SortByOfSortedIsIdentity | src/routes/bleeding.rs:31-32 | sorting an already ordered sequence returns it unchanged |
| Bleeding.SortedRows | src/routes/bleeding.rs:32 | the rows after `sort_by_key` are in date order and are a rearrangement of the fetched rows |
| Bleeding.ToDay | src/routes/bleeding.rs:40-57 | definition: one row becomes a day with the row's date and its intensity, "" when the intensity is missing |
| Bleeding.ToDays | src/routes/bleeding.rs:40-41 | each row becomes one day with its date and its intensity, "" when the intensity is missing |
| Bleeding.Seal | src/routes/bleeding.rs:47-51 | the pushed episode holds exactly the run, its start date is the run's first date and its end date the run's last; built from a gap-free run it is well formed |
| Bleeding.GetBleedingHistory | src/routes/bleeding.rs:31-70 | the result cuts the date-sorted days into maximal runs: concatenated, the episodes give back every day in sorted order; each episode is well formed; consecutive episodes are more than one day apart; their number is one plus the number of gaps of more than one day |
| Bleeding.GroupEpisodes | src/routes/bleeding.rs:34-68 | over date-ordered rows, the grouping loop and the final push yield exactly that partition into runs and that number of episodes |
| Bleeding.Scan | src/routes/bleeding.rs:39-59 | definition: the sealed episodes and the open run after the loop has read the first n rows; `ScanIsOpenRun` states what they hold |
| Bleeding.ScanIsOpenRun | src/routes/bleeding.rs:39-59 | after each row the sealed episodes and the open run spell out the rows seen so far, the open run has no gap, and the episodes are separated |
| Bleeding.CloseRuns | src/routes/bleeding.rs:61-68 | pushing the non-empty final run completes the partition; with no rows the result is empty |
| Bleeding.RunPartitionIsUnique | src/routes/bleeding.rs:39-68 | only one sequence of episodes partitions a given sequence of days into maximal runs, so the result is fully determined |
| Bleeding.EpisodeStartsBeforeEnd | src/routes/bleeding.rs:47-49 | every episode, the last and an only one included, starts no later than it ends |
| Bleeding.EpisodesAscending | src/routes/bleeding.rs:44-51 | each episode ends more than one day before any later episode starts |
| Bleeding.SortIsNoOpOnOrderedRows | src/routes/bleeding.rs:17-32 | rows the query already returns in date order are unchanged by the sort |
| Bleeding.TwoEpisodesExample | src/routes/bleeding.rs:39-68 | days 1, 2, 3, 10, 11 form exactly two episodes, 1-3 and 10-11 |
| Sorting.Keys | src/routes/cycle_stats.rs:42-43 | the keys of a sequence, one per element and in the same order |
| Sorting.SortByKeysArePermutation | src/routes/cycle_stats.rs:43-60 | sorting rearranges the keys: the multiset of keys is unchanged |
| CycleStats.OrderedCycles | src/routes/cycle_stats.rs:39-60 | definition: the user's cycles stably sorted by start date; `Sorting.SortBy` and its lemmas state what it holds |
| CycleStats.StartDates | src/routes/cycle_stats.rs:42 | one start date per cycle, the i-th being the i-th cycle's |
| CycleStats.OrderedStarts | src/routes/cycle_stats.rs:43-60 | the start dates in `ORDER BY start_date` order, one per cycle, never decreasing |
| CycleStats.OrderedStartsArePermutation | src/routes/cycle_stats.rs:39-60 | the ordered start dates are exactly the cycles' start dates, rearranged |
| CycleStats.Lead | src/routes/cycle_stats.rs:43 | definition: `LEAD` gives the next start in order, and none for the last cycle |
| CycleStats.InCycle | src/routes/cycle_stats.rs:54-57 | definition: a log belongs to a cycle when it is on or after the start and, unless the cycle is the last, before the next start |
| CycleStats.CountInCycle | src/routes/cycle_stats.rs:50-58 | the correlated `COUNT(*)` of the logs in a cycle, never more than the number of logs |
| CycleStats.RowAt | src/routes/cycle_stats.rs:47-58 | definition: the query row of the i-th cycle, with its start, its `LEAD` and its count |
| CycleStats.CycleRows | src/routes/cycle_stats.rs:39-61 | the query returns one row per cycle |
| CycleStats.CycleSpan | src/routes/cycle_stats.rs:77-79 | definition: `cycle_len`, the days from the cycle's start to the next start, or 0 for the last cycle; `CycleLengthsNonNegative` states it is never negative over ascending starts |
| CycleStats.SumPeriods | src/routes/cycle_stats.rs:76-81 | definition: `total_period` after the first k rounds of the loop; `SumPeriodsPrefix` and `PeriodLengthsSum` state what it adds up to |
| CycleStats.SumCycles | src/routes/cycle_stats.rs:77-82 | definition: `total_cycle` after the first k rounds of the loop; `CycleLengthsTelescope` states what it adds up to |
| CycleStats.StatFor | src/routes/cycle_stats.rs:75-88 | definition: the pushed statistic of the i-th row, each field cast `as i32`; `StatForInRange` states it without the casts |
| CycleStats.AsI32 | src/routes/cycle_stats.rs:85-87 | `as i32` gives a value in the i32 range, congruent to its input modulo 2^32, and equal to its input when the input is in range |
| CycleStats.GetCycleStats | src/routes/cycle_stats.rs:37-97 | one statistic per cycle, the i-th being cycle number i + 1, the logs counted from its start up to the next start (unbounded for the last), and the days to the next start (0 for the last), each cast as i32; with no cycles both averages are 0; otherwise the average period is the number of logs on or after the first start over the cycle count, and the average cycle length is the first-to-last start distance over the cycle count |
| CycleStats.CountInClosedCycle | src/routes/cycle_stats.rs:50-58 | a cycle with a next start counts the logs from its start minus those from the next start |
| CycleStats.CountInOpenCycle | src/routes/cycle_stats.rs:55-57 | the last cycle, with no next start, counts every log from its start on |
| CycleStats.SumPeriodsPrefix | src/routes/cycle_stats.rs:50-58 | the first k closed cycles together count the logs from the first start up to the k-th start |
| CycleStats.PeriodLengthsSum | src/routes/cycle_stats.rs:76-81 | the period lengths sum to the number of logs dated on or after the first start |
| CycleStats.CycleLengthsTelescope | src/routes/cycle_stats.rs:77-82 | the first k cycle lengths sum to the distance from the first start to the k-th, and all of them to the distance from the first start to the last |
| CycleStats.CycleLengthsNonNegative | src/routes/cycle_stats.rs:77-79 | with starts in ascending order no cycle length is negative |
| CycleStats.LogInExactlyOneCycle | src/routes/cycle_stats.rs:50-58 | a log on or after the first start is counted in exactly one cycle |
| CycleStats.LastStartAtOrBefore | src/routes/cycle_stats.rs:54-56 | finds the cycle whose interval holds a given log date: its start is on or before the date and every later start is after it |
| CycleStats.CountInCycleAppend | src/routes/cycle_stats.rs:50-58 | the count over two blocks of logs is the sum of the counts over each |
| CycleStats.CountAllInCycle | src/routes/cycle_stats.rs:50-58 | logs that all lie in the cycle are all counted |
| CycleStats.CountNoneInCycle | src/routes/cycle_stats.rs:50-58 | logs none of which lies in the cycle count 0 |
| CycleStats.StatForInRange | src/routes/cycle_stats.rs:84-88 | with fewer than 2^31 cycles and logs and starts within 2^31 - 1 days, the casts change nothing |
| CycleStats.ThreeCyclesExample | src/routes/cycle_stats.rs:50-88 | with starts on days 0, 28 and 56, five logs in the first cycle, six in the second and two from day 56 on give the statistics (1, 5, 28), (2, 6, 28) and (3, 2, 0); the period lengths total 13 and the cycle lengths 56 |
| CurrentCycle.LatestStart | src/routes/cycle.rs:64 | the chosen start date belongs to one of the cycles and no cycle starts later |
| CurrentCycle.GetCycleSummary | src/routes/cycle.rs:62-87 | NOT_FOUND exactly when there is no cycle; otherwise the start is the latest, the cycle day is today minus the start, today is fertile exactly when the cycle day is between 12 and 16 inclusive, and the cycle day plus the days until the next period is 26 |
| CurrentCycle.FertileWindowBoundaries | src/routes/cycle.rs:79-84 | the window is inclusive: days 12 and 16 are fertile, days 11 and 17 are not |
| CurrentCycle.FutureStartIsNotClamped | src/routes/cycle.rs:76-80 | a start after today gives a negative cycle day, no fertile window and more than 26 days to the next period |
| Symptoms.SymptomsOn | src/routes/symptoms.rs:159-163 | definition: the symptom types of the rows with a given date, in row order, as the `entry(...).or_default().push(...)` calls build them |
| Symptoms.InsertKey | src/routes/symptoms.rs:160-161 | a new key goes into the ordered key set: the keys stay strictly ascending and gain exactly that key |
| Symptoms.GetSymptomsGrouped | src/routes/symptoms.rs:158-168 | the dates come out strictly ascending; every row's date appears; each date's list is non-empty and holds that date's symptom types in row order; the lists together hold exactly as many symptoms as there are rows |
| Symptoms.GroupStep | src/routes/symptoms.rs:159-163 | appending one row to its date's entry, creating the entry when absent, keeps the map equal to the per-date symptom lists of the rows seen |
| Symptoms.SpreadCoversRows | src/routes/symptoms.rs:158-168 | over distinct dates that include every row's date, each row is counted exactly once |
| Symptoms.Matches | src/routes/symptoms.rs:53 | definition: the delete's `WHERE` clause, matching user, date and type |
| Symptoms.Remaining | src/routes/symptoms.rs:52-58 | definition: the table without the matching logs, in the table's order; `RemainingKeepsOthers` states what it keeps |
| Symptoms.MatchCount | src/routes/symptoms.rs:61-62 | definition: `rows_affected`, the number of matching logs; `RemainingSize` and `MatchCountPositive` relate it to the delete |
| Symptoms.SymptomTable.DeleteSymptom | src/routes/symptoms.rs:52-68 | the table afterwards holds exactly the rows not matching user, date and type, in order; the answer is 204 No Content when any row matched and 404 Not Found otherwise |
| Symptoms.RemainingKeepsOthers | src/routes/symptoms.rs:53 | the delete removes every matching row and keeps every other row as often as it occurred |
| Symptoms.RemainingSize | src/routes/symptoms.rs:53-62 | rows kept plus rows affected is the number of rows before |
| Symptoms.MatchCountPositive | src/routes/symptoms.rs:61-63 | rows were affected exactly when some row matches, so 404 means no row matched |

## Left out

- HTTP routing, JSON (de)serialisation, the Postgres pool, `sqlx` and logging are not modelled; a query's result is an input of the member that uses it.
- Store errors (the 500 INTERNAL_SERVER_ERROR paths in every modelled handler) are not modelled: the store is assumed to answer.
- Parsing in `delete_symptom` (UUID and `YYYY-MM-DD`, answered with 400 BAD_REQUEST) is not modelled; the model takes the parsed user id and date.
- `log_symptom`, `create_cycle`, the flat symptom listing and `main.rs` hold no logic beyond a single insert or select and are not modelled.
- `Utc::now` is a parameter `today` of `CurrentCycle.GetCycleSummary`.
- User ids are integers and dates are day numbers; `Cycle.id` and `Cycle.createdAt` are carried but unused, as in the source.
- Sorting.SortBy: `sort_by_key` sorts the vector in place; the model is a pure stable insertion sort whose result the grouping pass then reads.
- CycleStats.OrderedCycles: SQL orders equal start dates in no set way, both in `LEAD`'s window and in the outer `ORDER BY c.start_date`. The model emits the rows in the window's order. Of k cycles that share a start date, the first k - 1 get that date as their `LEAD`, so length 0 and count 0, and the last gets the next later start. An outer sort that lists the tied rows in another order, and so numbers them differently, is not captured. The totals and the averages do not depend on that order.
- Symptoms.GetSymptomsGrouped: the rows come in the order the store returns them (`ORDER BY logged_at DESC`, ties in no set order); the model takes that order as its input and does not constrain it.
- CycleStats.GetCycleStats: the averages are exact rationals, not `f64` results, because floating-point rounding is not modelled; the running totals are unbounded integers, so a wrap of the 64-bit totals is not modelled.
- CycleStats.GetCycleStats: `COUNT(*)` always yields a value, so the `unwrap_or(0)` fallback of the period length is never taken in the model.
- Bleeding.GroupEpisodes: the "more than one day" gap test makes repeated logs of the same date (a gap of 0 days) part of one episode, and the model follows the code.
