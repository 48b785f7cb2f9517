/** The diagnostic records produced by rule checkers. */
module RuleViolations {
  import opened Wrappers
  import opened Ast

  /** Rule identifiers; a closed enumeration. */
  datatype RuleViolationKind =
    | AddingNotNullableField
    | PreferRobustStmts

  /** A violation: its kind, the statement it refers to, and an optional message. */
  datatype RuleViolation = RuleViolation(kind: RuleViolationKind, stmt: RawStmt, detail: Option<string>)
}
