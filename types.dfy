/** The records the game passes between its parts. */
module Types {
  import opened Wrappers

  /**
   * A country of the round. `ranks` maps each statistic column chosen for
   * the round to the country's value in that column.
   */
  datatype Country = Country(
    id: string,
    name: string,
    abbreviation: string,
    emoji: string,
    ranks: map<string, int>)

  /**
   * A statistic bucket and the country placed in it, if any. `caption` is
   * the bucket's `label` (a word Dafny reserves).
   */
  datatype Bucket = Bucket(
    id: string,
    caption: string,
    emoji: string,
    assignedCountryId: Option<string>)

  /** The score recorded for one submitted round. */
  datatype RoundResult = RoundResult(round: int, score: int)

  /** A pointer position on the screen. */
  datatype Point = Point(x: int, y: int)
}
