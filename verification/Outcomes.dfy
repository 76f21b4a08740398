/** Optional values, and results that are either a value or an error. */
module Outcomes {

  datatype Option<+T> = None | Some(value: T)

  /** The errors the filter reports to the client, one constructor per message text. */
  datatype Error =
    | StarUnsupported                 // "star expression is not supported"
    | Unsupported                     // "unsupported" (UNION, DELETE, array expressions)
    | UnknownSource(column: string)   // "unable to determine the source of column"
    | AmbiguousColumn(column: string)// "detected ambiguous column name"
    | InvalidUse(table: string, column: string)  // "invalid use of encrypted column"
    | JoinColumnsNotSelected          // "columns present in join condition must be also present in SELECT body"
    | OnlyLiterals                    // "only literals can be used as ... values"
    | BadInsert                       // "bad INSERT statement"
    | ColumnsRequired                 // "columns definition for INSERT is required"
    | InsertSelectUnsupported         // "INSERT INTO SELECT is not supported"
    | ParseError                      // "unable to parse query"
    | DecryptionFailed                // "decryption failed"

  datatype Result<+T> = Ok(value: T) | Err(error: Error) {
    predicate IsFailure() { Err? }

    function PropagateFailure<U>(): Result<U>
      requires Err?
    {
      Err(error)
    }

    function Extract(): T
      requires Ok?
    {
      value
    }
  }
}
