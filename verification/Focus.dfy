/** The token classes of a FOCUS row (internal/focus/row.go). */
module Focus {
  datatype TokenClass =
    | InputUncached
    | CacheRead
    | CacheWrite5m
    | CacheWrite1h
    | CacheWrite30m
    | CacheWrite12h
    | Output
    | ReasoningOutput
    | CachedInputReported
  {
    /** Such tokens are part of another class and are billed there. */
    predicate Informational() {
      ReasoningOutput? || CachedInputReported?
    }

    predicate IsWrite() {
      CacheWrite5m? || CacheWrite1h? || CacheWrite30m? || CacheWrite12h?
    }
  }

  datatype CostBasis = Measured | ListEquivalent

  /** The row contract's limit on fractional digits. */
  const MAX_SCALE := 12
}
