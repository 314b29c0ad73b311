/**
 * The records of src/models.rs that the analytics read or produce. Dates are
 * day numbers, identifiers and timestamps are plain integers.
 */
module Models {

  /** A row of the `cycles` table: one cycle the user logged as starting. */
  datatype Cycle = Cycle(id: int, userId: int, startDate: int, createdAt: int)

  /** The current-cycle summary returned by the `/cycle` endpoint. */
  datatype CycleSummary = CycleSummary(
    cycleDay: int,
    inFertileWindow: bool,
    periodExpectedInDays: int,
    startDate: int)

  /** One date of the grouped symptom view with the symptom types logged on it. */
  datatype SymptomsByDate = SymptomsByDate(loggedAt: int, symptoms: seq<string>)
}
