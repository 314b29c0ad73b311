/**
 * The bleeding-history endpoint (src/routes/bleeding.rs). The user's bleeding
 * logs are re-sorted by date and then cut, in one forward pass, into episodes:
 * maximal runs in which each logged date is at most one day after the one
 * before it. Dates are day numbers, so the difference of two dates is the
 * number of days between them.
 */
module Bleeding {
  import opened Wrappers
  import Sorting

  /** A row of the bleeding-log query: its date and its optional intensity. */
  datatype BleedingRow = BleedingRow(date: int, intensity: Option<string>)

  /** A bleeding day as it appears in an episode; a missing intensity is "". */
  datatype BleedingDay = BleedingDay(date: int, intensity: string)

  /** One bleeding episode: its first and last dates and its days in order. */
  datatype BleedingCycle = BleedingCycle(startDate: int, endDate: int, days: seq<BleedingDay>)

  /** The sort key of the grouping pass. */
  function RowDate(r: BleedingRow): int { r.date }

  /** The rows once sorted by date: Rust's stable `sort_by_key`. */
  function SortedRows(fetched: seq<BleedingRow>): (rows: seq<BleedingRow>)
    ensures Sorting.SortedBy(rows, RowDate)
    ensures multiset(rows) == multiset(fetched)
  {
    Sorting.SortByIsPermutation(fetched, RowDate);
    Sorting.SortBy(fetched, RowDate)
  }

  /** The day the grouping pass emits for a row: a missing intensity becomes "". */
  function ToDay(r: BleedingRow): BleedingDay {
    BleedingDay(r.date, r.intensity.GetOr(""))
  }

  /** The days the grouping pass emits for `rows`, one per row and in order. */
  function ToDays(rows: seq<BleedingRow>): (days: seq<BleedingDay>)
    ensures |days| == |rows|
    ensures forall k :: 0 <= k < |rows| ==> days[k] == ToDay(rows[k])
  {
    if rows == [] then [] else [ToDay(rows[0])] + ToDays(rows[1..])
  }

  /** The number of days from the day before position `k` to the day at `k`. */
  function Step(days: seq<BleedingDay>, k: int): int
    requires 0 < k < |days|
  {
    days[k].date - days[k - 1].date
  }

  /** Consecutive days never go back in time and are at most one day apart. */
  ghost predicate Contiguous(days: seq<BleedingDay>) {
    forall k :: 0 < k < |days| ==> 0 <= Step(days, k) <= 1
  }

  /** An episode has days, its endpoints are its first and last days, and it has no gap. */
  ghost predicate WellFormed(e: BleedingCycle) {
    && e.days != []
    && e.startDate == e.days[0].date
    && e.endDate == e.days[|e.days| - 1].date
    && Contiguous(e.days)
  }

  /** The number of days from the end of episode `i - 1` to the start of episode `i`. */
  function GapBefore(g: seq<BleedingCycle>, i: int): int
    requires 0 < i < |g|
  {
    g[i].startDate - g[i - 1].endDate
  }

  /** Each episode starts more than one day after the previous one ends. */
  ghost predicate Separated(g: seq<BleedingCycle>) {
    forall i :: 0 < i < |g| ==> GapBefore(g, i) > 1
  }

  /** The days of all episodes, in episode order. */
  function Flatten(g: seq<BleedingCycle>): seq<BleedingDay> {
    if g == [] then [] else g[0].days + Flatten(g[1..])
  }

  /** Every episode of `g` is well formed. */
  ghost predicate AllWellFormed(g: seq<BleedingCycle>) {
    forall j :: 0 <= j < |g| ==> WellFormed(g[j])
  }

  /** `g` cuts `days` into well-formed, maximal runs, without loss, repetition or reordering. */
  ghost predicate IsRunPartition(g: seq<BleedingCycle>, days: seq<BleedingDay>) {
    && Flatten(g) == days
    && AllWellFormed(g)
    && Separated(g)
  }

  /** The number of adjacent pairs among the first `n` days that are more than one day apart. */
  function Gaps(days: seq<BleedingDay>, n: nat): nat
    requires n <= |days|
  {
    if n <= 1 then 0
    else Gaps(days, n - 1) + (if Step(days, n - 1) > 1 then 1 else 0)
  }

  /** How many episodes the first `n` days fall into: none when there are none, else one more than their gaps. */
  function EpisodesIn(days: seq<BleedingDay>, n: nat): nat
    requires n <= |days|
  {
    if n == 0 then 0 else 1 + Gaps(days, n)
  }

  /** How many episodes `days` falls into. */
  function EpisodeCount(days: seq<BleedingDay>): nat {
    EpisodesIn(days, |days|)
  }

  lemma {:induction false} FlattenAppend(g: seq<BleedingCycle>, e: BleedingCycle)
    ensures Flatten(g + [e]) == Flatten(g) + e.days
  {
    if g == [] {
      assert g + [e] == [e];
      assert Flatten([e]) == e.days + Flatten([]);
    } else {
      assert (g + [e])[0] == g[0] && (g + [e])[1..] == g[1..] + [e];
      FlattenAppend(g[1..], e);
    }
  }

  /** Appending a day at most one day after the last keeps a run contiguous. */
  lemma ContiguousAppend(days: seq<BleedingDay>, d: BleedingDay)
    requires Contiguous(days)
    requires days != [] ==> 0 <= d.date - days[|days| - 1].date <= 1
    ensures Contiguous(days + [d])
  {
    var ext := days + [d];
    forall k | 0 < k < |ext| ensures 0 <= Step(ext, k) <= 1 {
      if k < |days| {
        assert Step(ext, k) == Step(days, k);
      }
    }
  }

  /** Adding an episode that starts more than one day after the last one ends keeps the cut separated. */
  lemma SeparatedAppend(g: seq<BleedingCycle>, e: BleedingCycle)
    requires Separated(g)
    requires g != [] ==> e.startDate - g[|g| - 1].endDate > 1
    ensures Separated(g + [e])
  {
    var ext := g + [e];
    forall i | 0 < i < |ext| ensures GapBefore(ext, i) > 1 {
      if i < |g| {
        assert GapBefore(ext, i) == GapBefore(g, i);
      }
    }
  }

  /** Closes the open run `current` into an episode. */
  function Seal(current: seq<BleedingDay>): (e: BleedingCycle)
    requires current != []
    ensures e.days == current
    ensures e.startDate == current[0].date && e.endDate == current[|current| - 1].date
    ensures Contiguous(current) ==> WellFormed(e)
  {
    BleedingCycle(current[0].date, current[|current| - 1].date, current)
  }

  /**
   * `get_bleeding_history` after the query: sort the fetched rows by date,
   * then group them into episodes.
   */
  method GetBleedingHistory(fetched: seq<BleedingRow>) returns (grouped: seq<BleedingCycle>)
    ensures IsRunPartition(grouped, ToDays(SortedRows(fetched)))
    ensures |grouped| == EpisodeCount(ToDays(SortedRows(fetched)))
  {
    var rows := SortedRows(fetched);
    grouped := GroupEpisodes(rows);
  }

  /**
   * What the grouping pass knows after its first `i` days: the sealed episodes
   * followed by the open run spell out exactly those days; the open run is
   * empty only before the first day; every sealed episode is well formed; the
   * open run has no gap; sealed episodes are separated, and the open run starts
   * more than one day after the last of them ends; and there are as many
   * episodes, sealed or open, as the first `i` days fall into.
   */
  ghost predicate OpenRun(days: seq<BleedingDay>, i: nat, grouped: seq<BleedingCycle>, current: seq<BleedingDay>)
    requires i <= |days|
  {
    && Flatten(grouped) + current == days[..i]
    && (current == []) == (i == 0)
    && AllWellFormed(grouped)
    && Contiguous(current)
    && Separated(grouped)
    && (grouped != [] && current != [] ==> current[0].date - grouped[|grouped| - 1].endDate > 1)
    && |grouped| + (if current == [] then 0 else 1) == EpisodesIn(days, i)
  }

  /** A day at most one day after the previous one joins the open run. */
  lemma ExtendRun(days: seq<BleedingDay>, i: nat, grouped: seq<BleedingCycle>, current: seq<BleedingDay>)
    requires i < |days| && OpenRun(days, i, grouped, current)
    requires i > 0 ==> 0 <= Step(days, i) <= 1
    ensures OpenRun(days, i + 1, grouped, current + [days[i]])
  {
    assert days[..i + 1] == days[..i] + [days[i]];
    assert Flatten(grouped) + (current + [days[i]]) == days[..i + 1];
    if i == 0 {
      FlattenEmpty(grouped);
    } else {
      assert current[|current| - 1] == days[..i][i - 1];
    }
    ContiguousAppend(current, days[i]);
  }

  /** A day more than one day after the previous one seals the open run and opens a new one. */
  lemma BreakRun(days: seq<BleedingDay>, i: nat, grouped: seq<BleedingCycle>, current: seq<BleedingDay>)
    requires 0 < i < |days| && OpenRun(days, i, grouped, current)
    requires Step(days, i) > 1
    ensures OpenRun(days, i + 1, grouped + [Seal(current)], [days[i]])
  {
    var sealed := Seal(current);
    assert current[|current| - 1] == days[..i][i - 1];
    assert days[..i + 1] == days[..i] + [days[i]];
    FlattenAppend(grouped, sealed);
    SeparatedAppend(grouped, sealed);
    var ext := grouped + [sealed];
    assert AllWellFormed(ext) by {
      forall j | 0 <= j < |ext| ensures WellFormed(ext[j]) {
        if j < |grouped| {
          assert ext[j] == grouped[j];
        }
      }
    }
  }

  /**
   * The sealed episodes and the open run after the grouping pass has seen the
   * first `n` rows: a row more than one day after the previous one seals a
   * non-empty open run, and every row joins the open run.
   */
  ghost function Scan(rows: seq<BleedingRow>, n: nat): (seq<BleedingCycle>, seq<BleedingDay>)
    requires n <= |rows|
  {
    if n == 0 then ([], [])
    else
      var (grouped, current) := Scan(rows, n - 1);
      if n > 1 && rows[n - 1].date - rows[n - 2].date > 1 && current != [] then
        (grouped + [Seal(current)], [ToDay(rows[n - 1])])
      else
        (grouped, current + [ToDay(rows[n - 1])])
  }

  /** In date-sorted rows each date is on or after the one before it. */
  lemma AdjacentRowsOrdered(rows: seq<BleedingRow>, i: nat)
    requires Sorting.SortedBy(rows, RowDate) && 0 < i < |rows|
    ensures rows[i - 1].date <= rows[i].date
  {
    assert RowDate(rows[i - 1]) <= RowDate(rows[i]);
  }

  /** The grouping pass keeps the open-run invariant over date-ordered rows. */
  lemma {:induction false} ScanIsOpenRun(rows: seq<BleedingRow>, n: nat)
    requires Sorting.SortedBy(rows, RowDate) && n <= |rows|
    ensures OpenRun(ToDays(rows), n, Scan(rows, n).0, Scan(rows, n).1)
  {
    if n > 0 {
      var days, i := ToDays(rows), n - 1;
      ScanIsOpenRun(rows, i);
      var (grouped, current) := Scan(rows, i);
      assert days[i] == ToDay(rows[i]);
      if i > 0 {
        assert Step(days, i) == rows[i].date - rows[i - 1].date;
        AdjacentRowsOrdered(rows, i);
      }
      if i > 0 && Step(days, i) > 1 {
        BreakRun(days, i, grouped, current);
      } else {
        ExtendRun(days, i, grouped, current);
      }
    }
  }

  /** Sealing the open run at the end cuts all the days into their episodes. */
  lemma CloseRuns(days: seq<BleedingDay>, grouped: seq<BleedingCycle>, current: seq<BleedingDay>)
    requires OpenRun(days, |days|, grouped, current)
    ensures current != [] ==> IsRunPartition(grouped + [Seal(current)], days)
    ensures current != [] ==> |grouped| + 1 == EpisodeCount(days)
    ensures current == [] ==> IsRunPartition(grouped, days) && |grouped| == EpisodeCount(days)
  {
    assert days[..|days|] == days;
    if current != [] {
      var sealed := Seal(current);
      FlattenAppend(grouped, sealed);
      SeparatedAppend(grouped, sealed);
      var ext := grouped + [sealed];
      assert AllWellFormed(ext) by {
        forall j | 0 <= j < |ext| ensures WellFormed(ext[j]) {
          if j < |grouped| {
            assert ext[j] == grouped[j];
          }
        }
      }
    }
  }

  /**
   * The grouping pass of `get_bleeding_history`: walk the date-ordered rows
   * once, sealing the open run whenever a date is more than one day after the
   * previous one, and seal the last run at the end.
   */
  method GroupEpisodes(rows: seq<BleedingRow>) returns (grouped: seq<BleedingCycle>)
    requires Sorting.SortedBy(rows, RowDate)
    ensures IsRunPartition(grouped, ToDays(rows))
    ensures |grouped| == EpisodeCount(ToDays(rows))
  {
    ghost var days := ToDays(rows);
    grouped := [];
    var current: seq<BleedingDay> := [];
    var prevDate: Option<int> := None;
    for i := 0 to |rows|
      invariant prevDate == if i == 0 then None else Some(rows[i - 1].date)
      invariant (grouped, current) == Scan(rows, i)
    {
      var date := rows[i].date;
      var intensity := rows[i].intensity.GetOr("");
      match prevDate {
        case Some(prev) =>
          if date - prev > 1 {
            if current != [] {
              grouped := grouped + [Seal(current)];
              current := [];
            }
          }
        case None =>
      }
      assert [] + [BleedingDay(date, intensity)] == [BleedingDay(date, intensity)];
      current := current + [BleedingDay(date, intensity)];
      prevDate := Some(date);
    }
    ScanIsOpenRun(rows, |rows|);
    CloseRuns(days, grouped, current);
    if current != [] {
      grouped := grouped + [Seal(current)];
    }
  }

  /** The first day of a non-empty flattening is the first episode's first day. */
  lemma FlattenHead(g: seq<BleedingCycle>)
    requires g != [] && g[0].days != []
    ensures Flatten(g) != [] && Flatten(g)[0] == g[0].days[0]
  {
  }

  /** Episodes that all have days flatten to nothing only when there are none. */
  lemma FlattenEmpty(g: seq<BleedingCycle>)
    requires AllWellFormed(g)
    ensures Flatten(g) == [] <==> g == []
  {
    if g != [] {
      FlattenHead(g);
    }
  }

  /** Dropping the first episode keeps the rest separated. */
  lemma SeparatedTail(g: seq<BleedingCycle>)
    requires Separated(g) && g != []
    ensures Separated(g[1..])
  {
    forall i | 0 < i < |g[1..]| ensures GapBefore(g[1..], i) > 1 {
      assert GapBefore(g[1..], i) == GapBefore(g, i + 1);
    }
  }

  /** In a gap-free run each day is zero or one day after the one before it. */
  lemma ContiguousAt(days: seq<BleedingDay>, k: int)
    requires Contiguous(days) && 0 < k < |days|
    ensures 0 <= Step(days, k) <= 1
  {
  }

  /** Where the first episode ends, the days jump by more than one day. */
  lemma BoundaryGap(g: seq<BleedingCycle>, days: seq<BleedingDay>)
    requires IsRunPartition(g, days) && g != [] && |g[0].days| < |days|
    ensures 0 < |g[0].days| && Step(days, |g[0].days|) > 1
  {
    var a := |g[0].days|;
    assert days == g[0].days + Flatten(g[1..]);
    assert g[1..] != [];
    FlattenHead(g[1..]);
    assert days[a] == g[1].days[0];
    assert GapBefore(g, 1) > 1;
  }

  /** Only one way to cut a sequence of days into maximal runs exists. */
  lemma {:induction false} RunPartitionIsUnique(g1: seq<BleedingCycle>, g2: seq<BleedingCycle>, days: seq<BleedingDay>)
    requires IsRunPartition(g1, days) && IsRunPartition(g2, days)
    ensures g1 == g2
  {
    FlattenEmpty(g1);
    FlattenEmpty(g2);
    if g1 == [] || g2 == [] {
    } else {
      var e1, e2 := g1[0], g2[0];
      var a, b := |e1.days|, |e2.days|;
      assert days == e1.days + Flatten(g1[1..]);
      assert days == e2.days + Flatten(g2[1..]);
      if a < b {
        BoundaryGap(g1, days);
        ContiguousAt(e2.days, a);
        assert false;
      } else if b < a {
        BoundaryGap(g2, days);
        ContiguousAt(e1.days, b);
        assert false;
      }
      assert e1.days == days[..a] == e2.days;
      assert Flatten(g1[1..]) == days[a..] == Flatten(g2[1..]);
      assert AllWellFormed(g1[1..]) && AllWellFormed(g2[1..]) by {
        forall j | 0 <= j < |g1| - 1 ensures WellFormed(g1[1..][j]) {
          assert g1[1..][j] == g1[j + 1];
        }
        forall j | 0 <= j < |g2| - 1 ensures WellFormed(g2[1..][j]) {
          assert g2[1..][j] == g2[j + 1];
        }
      }
      SeparatedTail(g1);
      SeparatedTail(g2);
      RunPartitionIsUnique(g1[1..], g2[1..], days[a..]);
      assert g1 == [e1] + g1[1..] && g2 == [e2] + g2[1..];
    }
  }

  /** Along a run without gaps the dates never decrease. */
  lemma {:induction false} ContiguousMonotone(days: seq<BleedingDay>, i: nat, j: nat)
    requires Contiguous(days) && i <= j < |days|
    ensures days[i].date <= days[j].date
    decreases j - i
  {
    if i < j {
      ContiguousMonotone(days, i, j - 1);
      assert 0 <= Step(days, j);
    }
  }

  /** Every well-formed episode starts no later than it ends. */
  lemma EpisodeStartsBeforeEnd(g: seq<BleedingCycle>, i: nat)
    requires AllWellFormed(g) && i < |g|
    ensures g[i].startDate <= g[i].endDate
  {
    ContiguousMonotone(g[i].days, 0, |g[i].days| - 1);
  }

  /** Episodes are ordered: each ends more than one day before any later one starts. */
  lemma {:induction false} EpisodesAscending(g: seq<BleedingCycle>, i: nat, j: nat)
    requires AllWellFormed(g) && Separated(g) && i < j < |g|
    ensures g[i].endDate + 1 < g[j].startDate
    decreases j - i
  {
    assert GapBefore(g, j) > 1;
    if i + 1 < j {
      EpisodesAscending(g, i, j - 1);
      EpisodeStartsBeforeEnd(g, j - 1);
    }
  }

  /** Rows already in date order are left as they are by the sort. */
  lemma SortIsNoOpOnOrderedRows(fetched: seq<BleedingRow>)
    requires Sorting.SortedBy(fetched, RowDate)
    ensures SortedRows(fetched) == fetched
  {
    Sorting.SortByOfSortedIsIdentity(fetched, RowDate);
  }

  /** Five days, two of them after a gap of a week, make exactly two episodes. */
  lemma TwoEpisodesExample(g: seq<BleedingCycle>)
    requires IsRunPartition(g, [BleedingDay(1, ""), BleedingDay(2, ""), BleedingDay(3, ""), BleedingDay(10, ""), BleedingDay(11, "")])
    ensures g == [BleedingCycle(1, 3, [BleedingDay(1, ""), BleedingDay(2, ""), BleedingDay(3, "")]),
                  BleedingCycle(10, 11, [BleedingDay(10, ""), BleedingDay(11, "")])]
  {
    var first := [BleedingDay(1, ""), BleedingDay(2, ""), BleedingDay(3, "")];
    var second := [BleedingDay(10, ""), BleedingDay(11, "")];
    var expected := [BleedingCycle(1, 3, first), BleedingCycle(10, 11, second)];
    assert Flatten(expected) == first + second by {
      assert expected[1..] == [BleedingCycle(10, 11, second)];
      assert Flatten(expected[1..]) == second + Flatten([]);
    }
    assert first + second == [BleedingDay(1, ""), BleedingDay(2, ""), BleedingDay(3, ""), BleedingDay(10, ""), BleedingDay(11, "")];
    assert Contiguous(first) by {
      forall k | 0 < k < |first| ensures 0 <= Step(first, k) <= 1 {
      }
    }
    assert Contiguous(second) by {
      forall k | 0 < k < |second| ensures 0 <= Step(second, k) <= 1 {
      }
    }
    assert GapBefore(expected, 1) > 1;
    RunPartitionIsUnique(g, expected, first + second);
  }
}
