/** Values shared by the extraction and the cleaning stage: the optional and
    failure wrappers, the missing-value sentinel, and the columnar record that
    the extractor builds and the cleaner reads. */
module Records {

  /** A value that may be absent (a markup element that was not found, a
      spreadsheet cell that is null). */
  datatype Option<+T> = None | Some(value: T)

  /** The outcome of a step that can fail. */
  datatype Result<+R, +E> = Success(value: R) | Failure(error: E)

  /** The placeholder written for a field that could not be located. */
  const Sentinel: string := "N/A"

  /** One columnar record: four parallel sequences, position k of each
      belonging to the same listing. Field order follows the record's keys
      title, description, opened_on, link. */
  datatype Aggregate = Aggregate(
    title: seq<string>,
    description: seq<string>,
    openedOn: seq<string>,
    link: seq<string>)

  /** The four sequences have the same length. */
  predicate SameLength(a: Aggregate) {
    |a.description| == |a.title| && |a.openedOn| == |a.title| && |a.link| == |a.title|
  }
}
