/** Optional values, and results that carry the error a clause would report. */
module Results {
  datatype Option<+T> = None | Some(value: T)

  datatype Error =
    | DuplicateVariable          // "variable %s already exists"
    | UnknownEntityType          // "unknown entity type to join to"
    | MissingDirection           // "edge direction must be specified in a CREATE clause"
    | VertexWasDeleted           // "vertex assigned to variable %s was deleted"
    | NullVertexVariable         // "Existing variable %s cannot be NULL in MERGE clause"
    | NullProperties             // the not-null constraint on "properties"
    | NotAnEntity                // "DELETE clause can only delete vertices and edges"
    | AlreadyModified            // "tuple to be updated was already modified"
    | TooManyColumns             // "CUBE is limited to 12 elements"
    | SetReturningInAggregate    // "aggregate function calls cannot contain set-returning function calls"
    | WindowInAggregate          // "aggregate function calls cannot contain window function calls"
    | NestedAggregates           // "aggregate function calls cannot be nested"
    | LowerLevelVariable         // "outer-level aggregate cannot contain a lower-level variable in its direct arguments"
    | AggregateNotAllowed        // "aggregate functions are not allowed in %s"
    | UngroupedColumn            // "must be either part of an explicitly listed key or used inside an aggregate function"
    | UngroupedInSubquery        // "subquery uses ungrouped column \"%s.%s\" from outer query"
    | EdgesAttached              // "Cannot delete vertex %s, because it still has edges attached."
    | ColumnCountMismatch        // "each %s query must have the same number of columns"
    | LabelExists                // "label \"%s\" already exists"
    | NoSuchLabel                // "label \"%s\" does not exist"
    | NoMoreLabels               // "no more new labels are available"
    | NoMoreEntries              // the label's own sequence reached its maximum value
    | InvalidUnicodeEscape       // "invalid Unicode escape"
    | InvalidUnicodeValue        // "invalid Unicode escape value"
    | MalformedNode              // a node text that no printer made
    | InvalidSurrogatePair       // "invalid Unicode surrogate pair"

  datatype Result<+T> = Ok(value: T) | Err(error: Error) {
    predicate IsFailure() {
      Err?
    }

    function PropagateFailure<U>(): Result<U>
      requires Err?
    {
      Err(error)
    }

    function Extract(): T
      requires Ok?
    {
      value
    }
  }
}
