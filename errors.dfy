/** Error kinds raised along the ingestion path, and the results that carry them. */
module Errors {

  /** One constructor per sentinel the parser wraps, with the column name its message names. */
  datatype Error =
    | UnknownColumn(column: string)          // unrecognised header name or non-integer level suffix
    | ReoccurringColumn(column: string)      // second `item_id`, or a level number seen before
    | MissingRequiredColumn(column: string)  // `item_id` or `level_1` absent from the header
    | MissingParentElement                   // a level gap in the header, or a value under an empty parent
    | MissingRequiredValue(column: string)   // a row too short for a configured column
    | InvalidIndex(column: string)           // a `level_i` the row reader looks up is not in the schema
    | HeaderUnreadable                       // the input holds no header record at all

  datatype Result<+T> = Success(value: T) | Failure(error: Error)

  /** The user-fault classes that the error package recognises; the others map to server faults. */
  predicate IsKnownUserError(e: Error)
  {
    e.UnknownColumn? || e.MissingRequiredColumn? || e.MissingParentElement?
  }
}
