/** Outcomes of resolution: a value, or the error the repository raises. */
module Errors {

  datatype RepoError =
      /** A statement column is not one of the table's statement columns. */
    | StatementColumnNotFound(column: string, table: string)
      /** No table owns a column that was to be joined into the target table. */
    | NoOwningTable(column: string, target: string)
      /** The owning table was found but no join handler is registered for it. */
    | NoJoinHandler(table: string, target: string)
      /** An error raised by a part of the repository that is not modelled. */
    | Delegated(reason: string)

  datatype Result<+T> = Ok(value: T) | Err(error: RepoError)
}
