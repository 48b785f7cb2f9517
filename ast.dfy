/**
  The part of the parsed-SQL syntax tree that the NOT NULL rule reads.
  The parser that builds these values is not part of this model; only the
  fields the rule pattern-matches on are represented, and each tagged union
  keeps a catch-all variant for the shapes the rule does not inspect.
 */
module Ast {
  import opened Wrappers

  /** Kinds of constraint, as in PostgreSQL's `ConstrType`. */
  datatype ConstrType =
    | Null
    | NotNull
    | Default
    | Identity
    | Generated
    | Check
    | Primary
    | Unique
    | Exclusion
    | Foreign
    | AttrDeferrable
    | AttrNotDeferrable
    | AttrDeferred
    | AttrImmediate

  /** One inline constraint of a column definition. */
  datatype Constraint = Constraint(contype: ConstrType)

  /** A column definition: its name and its inline constraints, in order. */
  datatype ColumnDef = ColumnDef(colname: string, constraints: seq<Constraint>)

  /** The payload an ALTER TABLE sub-command may carry. */
  datatype AlterTableDef =
    | ColumnDefinition(column: ColumnDef)
    | TableConstraint(constraint: Constraint)
    | OtherDefinition

  /** The kind of an ALTER TABLE sub-command (a representative subset). */
  datatype AlterTableType =
    | AddColumn
    | ColumnDefault
    | DropNotNull
    | SetNotNull
    | DropColumn
    | AlterColumnType
    | AddConstraint
    | DropConstraint
    | OtherSubtype

  /** One sub-command of an ALTER TABLE statement. */
  datatype AlterTableCmd = AlterTableCmd(subtype: AlterTableType, def: Option<AlterTableDef>)

  /** An ALTER TABLE statement: its sub-commands, in order. */
  datatype AlterTableStmt = AlterTableStmt(cmds: seq<AlterTableCmd>)

  /** A parsed statement; only ALTER TABLE is inspected by the rule. */
  datatype Stmt =
    | AlterTable(alter: AlterTableStmt)
    | CreateTable
    | CreateIndex
    | Transaction
    | Rename
    | OtherStmt

  /** A statement with an opaque identifier standing for its source position. */
  datatype RawStmt = RawStmt(stmt: Stmt, id: nat)

  /** A top-level entry of a parsed migration. */
  datatype RootStmt = Root(raw: RawStmt)
}
