/**
 * The symptom endpoints of src/routes/symptoms.rs that hold logic: the view
 * grouped by date, built in a `BTreeMap` keyed by date and emitted in
 * ascending date order, and the delete, which removes every log of a user
 * with a given date and symptom type and reports NOT_FOUND when none matched.
 */
module Symptoms {
  import opened Wrappers
  import opened Models

  /** A row of the grouped-view query: a log's date and symptom type, in the order fetched. */
  datatype SymptomRow = SymptomRow(loggedAt: int, symptomType: string)

  /** The symptom types of the rows dated `d`, in row order. */
  function SymptomsOn(rows: seq<SymptomRow>, d: int): seq<string> {
    if rows == [] then []
    else
      var last := rows[|rows| - 1];
      SymptomsOn(rows[..|rows| - 1], d) + (if last.loggedAt == d then [last.symptomType] else [])
  }

  /** The dates strictly increase. */
  ghost predicate StrictlyAscending(dates: seq<int>) {
    forall i, j :: 0 <= i < j < |dates| ==> dates[i] < dates[j]
  }

  /** The dates of the grouped view, in order. */
  function DatesOf(groups: seq<SymptomsByDate>): (dates: seq<int>)
    ensures |dates| == |groups|
    ensures forall i :: 0 <= i < |groups| ==> dates[i] == groups[i].loggedAt
  {
    if groups == [] then [] else [groups[0].loggedAt] + DatesOf(groups[1..])
  }

  /** The number of symptoms across the grouped view. */
  function TotalSymptoms(groups: seq<SymptomsByDate>): nat {
    if groups == [] then 0 else |groups[0].symptoms| + TotalSymptoms(groups[1..])
  }

  /** Puts the new key `k` into the ascending keys at its place, as a B-tree insertion does. */
  function InsertKey(keys: seq<int>, k: int): (r: seq<int>)
    requires StrictlyAscending(keys) && k !in keys
    ensures StrictlyAscending(r)
    ensures forall x :: x in r <==> x in keys || x == k
    ensures |r| == |keys| + 1
  {
    if keys == [] || k < keys[0] then [k] + keys
    else
      var tail := InsertKey(keys[1..], k);
      forall j | 0 <= j < |tail| ensures keys[0] < tail[j] {
        var x := tail[j];
        assert x in tail;
        if x != k {
          assert x in keys[1..];
          var m :| 0 <= m < |keys[1..]| && keys[1..][m] == x;
          assert keys[m + 1] == x;
        }
      }
      [keys[0]] + tail
  }

  /**
   * `get_symptoms_grouped` after the query: append each row's symptom type to
   * the list of its date in a map ordered by date, then emit the dates with
   * their lists in ascending order.
   */
  method GetSymptomsGrouped(rows: seq<SymptomRow>) returns (result: seq<SymptomsByDate>)
    ensures StrictlyAscending(DatesOf(result))
    ensures forall r :: r in rows ==> r.loggedAt in DatesOf(result)
    ensures forall i :: 0 <= i < |result| ==>
              result[i].symptoms == SymptomsOn(rows, result[i].loggedAt) && result[i].symptoms != []
    ensures TotalSymptoms(result) == |rows|
  {
    var byDate: map<int, seq<string>> := map[];
    var keys: seq<int> := [];
    for i := 0 to |rows|
      invariant GroupedUpTo(rows, i, byDate, keys)
    {
      var row := rows[i];
      ghost var before, beforeKeys := byDate, keys;
      if row.loggedAt in byDate {
        byDate := byDate[row.loggedAt := byDate[row.loggedAt] + [row.symptomType]];
      } else {
        keys := InsertKey(keys, row.loggedAt);
        byDate := byDate[row.loggedAt := [row.symptomType]];
      }
      GroupStep(rows, i, before, beforeKeys, byDate, keys);
    }
    assert rows[..|rows|] == rows;
    forall k | 0 <= k < |keys| ensures keys[k] in byDate {
      assert keys[k] in keys;
    }
    result := [];
    for j := 0 to |keys|
      invariant |result| == j
      invariant forall k :: 0 <= k < j ==> result[k] == SymptomsByDate(keys[k], byDate[keys[k]])
    {
      result := result + [SymptomsByDate(keys[j], byDate[keys[j]])];
    }
    assert DatesOf(result) == keys;
    SpreadOfGrouping(rows, result);
    SpreadCoversRows(rows, keys);
  }

  /**
   * The state of the grouping loop after the first `i` rows: the keys are the
   * map's dates in ascending order, and each date holds, in order, the
   * symptom types of the rows seen so far on that date.
   */
  ghost predicate GroupedUpTo(rows: seq<SymptomRow>, i: nat, byDate: map<int, seq<string>>, keys: seq<int>)
    requires i <= |rows|
  {
    && StrictlyAscending(keys)
    && (forall d :: d in byDate <==> d in keys)
    && (forall d :: d in byDate ==> byDate[d] == SymptomsOn(rows[..i], d) && byDate[d] != [])
    && (forall j :: 0 <= j < i ==> rows[j].loggedAt in byDate)
  }

  /** One `entry(...).or_default().push(...)` step keeps the map equal to the per-date lists of the rows seen. */
  lemma GroupStep(rows: seq<SymptomRow>, i: nat, before: map<int, seq<string>>, beforeKeys: seq<int>,
                  after: map<int, seq<string>>, afterKeys: seq<int>)
    requires i < |rows| && GroupedUpTo(rows, i, before, beforeKeys)
    requires rows[i].loggedAt in before ==>
               after == before[rows[i].loggedAt := before[rows[i].loggedAt] + [rows[i].symptomType]]
               && afterKeys == beforeKeys
    requires rows[i].loggedAt !in before ==>
               after == before[rows[i].loggedAt := [rows[i].symptomType]]
               && StrictlyAscending(afterKeys)
               && (forall x :: x in afterKeys <==> x in beforeKeys || x == rows[i].loggedAt)
    ensures GroupedUpTo(rows, i + 1, after, afterKeys)
  {
    var row := rows[i];
    assert rows[..i + 1][..i] == rows[..i];
    forall d | d in after ensures after[d] == SymptomsOn(rows[..i + 1], d) && after[d] != [] {
      assert SymptomsOn(rows[..i + 1], d)
          == SymptomsOn(rows[..i], d) + (if row.loggedAt == d then [row.symptomType] else []);
      if d == row.loggedAt && d !in before {
        SymptomsOnAbsent(rows[..i], d);
      }
    }
    forall j | 0 <= j < i + 1 ensures rows[j].loggedAt in after {
      if j < i {
        assert rows[j].loggedAt in before;
      }
    }
    assert forall d :: d in after <==> d in afterKeys;
  }

  /** A date no row carries has no symptoms. */
  lemma {:induction false} SymptomsOnAbsent(rows: seq<SymptomRow>, d: int)
    requires forall j :: 0 <= j < |rows| ==> rows[j].loggedAt != d
    ensures SymptomsOn(rows, d) == []
  {
    if rows != [] {
      SymptomsOnAbsent(rows[..|rows| - 1], d);
    }
  }

  /** The number of symptoms the rows hold on the dates `dates`, counting each listed date once. */
  function Spread(rows: seq<SymptomRow>, dates: seq<int>): nat {
    if dates == [] then 0 else |SymptomsOn(rows, dates[0])| + Spread(rows, dates[1..])
  }

  /** How often `d` occurs in `dates`. */
  function Occurrences(dates: seq<int>, d: int): nat {
    if dates == [] then 0 else (if dates[0] == d then 1 else 0) + Occurrences(dates[1..], d)
  }

  /** A date of strictly ascending dates occurs exactly once among them. */
  lemma {:induction false} OccursOnce(dates: seq<int>, d: int)
    requires StrictlyAscending(dates) && d in dates
    ensures Occurrences(dates, d) == 1
  {
    if dates[0] == d {
      OccursNot(dates[1..], d);
    } else {
      OccursOnce(dates[1..], d);
    }
  }

  /** A date not among the dates occurs zero times. */
  lemma {:induction false} OccursNot(dates: seq<int>, d: int)
    requires d !in dates
    ensures Occurrences(dates, d) == 0
  {
    if dates != [] {
      OccursNot(dates[1..], d);
    }
  }

  /** One more row adds one symptom to each occurrence of its date. */
  lemma {:induction false} SpreadAppend(rows: seq<SymptomRow>, r: SymptomRow, dates: seq<int>)
    ensures Spread(rows + [r], dates) == Spread(rows, dates) + Occurrences(dates, r.loggedAt)
  {
    assert (rows + [r])[..|rows|] == rows;
    if dates != [] {
      SpreadAppend(rows, r, dates[1..]);
    }
  }

  /** Over distinct dates that include every row's date, each row is counted exactly once. */
  lemma {:induction false} SpreadCoversRows(rows: seq<SymptomRow>, dates: seq<int>)
    requires StrictlyAscending(dates)
    requires forall r :: r in rows ==> r.loggedAt in dates
    ensures Spread(rows, dates) == |rows|
  {
    if rows == [] {
      SpreadOfNoRows(dates);
    } else {
      var init, last := rows[..|rows| - 1], rows[|rows| - 1];
      assert rows == init + [last];
      SpreadCoversRows(init, dates);
      SpreadAppend(init, last, dates);
      OccursOnce(dates, last.loggedAt);
    }
  }

  /** No rows spread over any dates count zero. */
  lemma {:induction false} SpreadOfNoRows(dates: seq<int>)
    ensures Spread([], dates) == 0
  {
    if dates != [] {
      SpreadOfNoRows(dates[1..]);
    }
  }

  /** The total of a grouping whose lists are the rows' symptoms per date is the spread over its dates. */
  lemma {:induction false} SpreadOfGrouping(rows: seq<SymptomRow>, groups: seq<SymptomsByDate>)
    requires forall i :: 0 <= i < |groups| ==> groups[i].symptoms == SymptomsOn(rows, groups[i].loggedAt)
    ensures TotalSymptoms(groups) == Spread(rows, DatesOf(groups))
  {
    if groups != [] {
      SpreadOfGrouping(rows, groups[1..]);
      assert DatesOf(groups)[1..] == DatesOf(groups[1..]);
    }
  }

  // ---------------------------------------------------------------------------
  // delete_symptom
  // ---------------------------------------------------------------------------

  /** A row of the `symptom_logs` table. */
  datatype SymptomLog = SymptomLog(userId: int, loggedAt: int, symptomType: string, intensity: Option<string>)

  /** The delete's answer: 204 No Content when a row was removed, 404 Not Found otherwise. */
  datatype DeleteStatus = NoContent | NotFound

  /** The `WHERE` clause of the delete. */
  predicate Matches(log: SymptomLog, userId: int, loggedAt: int, symptomType: string) {
    log.userId == userId && log.loggedAt == loggedAt && log.symptomType == symptomType
  }

  /** The table once the matching logs are removed, in the table's order. */
  function Remaining(logs: seq<SymptomLog>, userId: int, loggedAt: int, symptomType: string): seq<SymptomLog> {
    if logs == [] then []
    else
      var last := logs[|logs| - 1];
      Remaining(logs[..|logs| - 1], userId, loggedAt, symptomType)
        + (if Matches(last, userId, loggedAt, symptomType) then [] else [last])
  }

  /** `rows_affected`: the number of matching logs. */
  function MatchCount(logs: seq<SymptomLog>, userId: int, loggedAt: int, symptomType: string): nat {
    if logs == [] then 0
    else
      var last := logs[|logs| - 1];
      MatchCount(logs[..|logs| - 1], userId, loggedAt, symptomType)
        + (if Matches(last, userId, loggedAt, symptomType) then 1 else 0)
  }

  /** The `symptom_logs` table, as a sequence of rows. */
  class SymptomTable {
    var logs: seq<SymptomLog>

    constructor (initial: seq<SymptomLog>)
      ensures logs == initial
    {
      logs := initial;
    }

    /**
     * `delete_symptom` after its identifiers are parsed: remove every log of
     * the user with that date and type, and answer by whether any was removed.
     */
    method DeleteSymptom(userId: int, loggedAt: int, symptomType: string) returns (status: DeleteStatus)
      modifies this
      ensures logs == Remaining(old(logs), userId, loggedAt, symptomType)
      ensures status == (if MatchCount(old(logs), userId, loggedAt, symptomType) > 0 then NoContent else NotFound)
    {
      var kept: seq<SymptomLog> := [];
      var rowsAffected := 0;
      for i := 0 to |logs|
        invariant kept == Remaining(logs[..i], userId, loggedAt, symptomType)
        invariant rowsAffected == MatchCount(logs[..i], userId, loggedAt, symptomType)
      {
        assert logs[..i + 1][..i] == logs[..i];
        if Matches(logs[i], userId, loggedAt, symptomType) {
          rowsAffected := rowsAffected + 1;
        } else {
          kept := kept + [logs[i]];
        }
      }
      assert logs[..|logs|] == logs;
      logs := kept;
      status := if rowsAffected > 0 then NoContent else NotFound;
    }
  }

  /** Deleting keeps every non-matching log as often as it occurred and no matching log. */
  lemma {:induction false} RemainingKeepsOthers(logs: seq<SymptomLog>, userId: int, loggedAt: int, symptomType: string, x: SymptomLog)
    ensures multiset(Remaining(logs, userId, loggedAt, symptomType))[x]
         == if Matches(x, userId, loggedAt, symptomType) then 0 else multiset(logs)[x]
  {
    if logs != [] {
      var init, last := logs[..|logs| - 1], logs[|logs| - 1];
      RemainingKeepsOthers(init, userId, loggedAt, symptomType, x);
      assert logs == init + [last];
      var kept := if Matches(last, userId, loggedAt, symptomType) then [] else [last];
      calc {
        multiset(Remaining(logs, userId, loggedAt, symptomType));
        multiset(Remaining(init, userId, loggedAt, symptomType) + kept);
        multiset(Remaining(init, userId, loggedAt, symptomType)) + multiset(kept);
      }
    }
  }

  /** Deleting removes exactly as many logs as it reports affected. */
  lemma {:induction false} RemainingSize(logs: seq<SymptomLog>, userId: int, loggedAt: int, symptomType: string)
    ensures |Remaining(logs, userId, loggedAt, symptomType)| + MatchCount(logs, userId, loggedAt, symptomType) == |logs|
  {
    if logs != [] {
      RemainingSize(logs[..|logs| - 1], userId, loggedAt, symptomType);
    }
  }

  /** Some log is affected exactly when some log matches. */
  lemma {:induction false} MatchCountPositive(logs: seq<SymptomLog>, userId: int, loggedAt: int, symptomType: string)
    ensures MatchCount(logs, userId, loggedAt, symptomType) > 0
        <==> exists i :: 0 <= i < |logs| && Matches(logs[i], userId, loggedAt, symptomType)
  {
    if logs != [] {
      var init := logs[..|logs| - 1];
      MatchCountPositive(init, userId, loggedAt, symptomType);
      assert forall i :: 0 <= i < |init| ==> init[i] == logs[i];
    }
  }
}
