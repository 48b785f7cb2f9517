# squawk: the "adding a NOT NULL column" rule, in Dafny

squawk is a linter for PostgreSQL migration scripts. It parses a migration into a
sequence of top-level statements, then runs independent rule checkers over them.
This project models one rule checker, `adding_not_nullable_field`. The checker
walks the parsed migration and reports one violation of kind
`AddingNotNullableField` for every `NOT NULL` constraint on a column added by an
`ALTER TABLE ... ADD COLUMN` sub-command. Each violation refers to the statement
that holds the constraint.

Files:

- `wrappers.dfy` (module `Wrappers`): `Option`, standing in for Rust's `Option`.
- `ast.dfy` (module `Ast`): the minimal syntax tree the rule reads.
  - `RootStmt`, `RawStmt` (a statement plus an opaque `id` for its position), `Stmt`.
  - `AlterTableStmt`, `AlterTableCmd` (with `subtype` and an optional `def`), `AlterTableType`, `AlterTableDef`.
  - `ColumnDef`, `Constraint`, `ConstrType`.
  - Each tagged union keeps variants that the rule skips.
  - The single-variant Rust wrappers `AlterTableCmds::AlterTableCmd` and `ColumnDefConstraint::Constraint` are folded into the record they wrap.
- `violations.dfy` (module `RuleViolations`): the `RuleViolation` record (kind, statement, optional detail) and the `RuleViolationKind` enumeration.
- `adding_not_null_field.dfy` (module `AddingNotNullField`):
  - the specification `Violations`, concatenated over statements (`StatementViolations`), sub-commands (`CommandsViolations`, `CommandViolations`) and constraints (`ConstraintViolations`);
  - independent reference definitions: the counts `NotNullCount` … `TreeNotNullCount`, and the position predicate `NotNullSite(tree, i, j, k)`. That predicate says that statement `i` is an ALTER TABLE, its sub-command `j` adds a column, and that column's constraint `k` is `NOT NULL`;
  - the checker `AddingNotNullableField`, a method with the source's three nested `for` loops appending to `errs`, proved equal to `Violations`;
  - lemmas about the specification.

The tree is passed as a `seq`, a value, so the checker cannot modify it. Its
postcondition `errs == Violations(tree)` fixes the result as a function of the
input, so two runs on the same tree give identical results.

## Model

| member | source | states |
|---|---|---|
| AddingNotNullField.AddingNotNullableField | linter/src/rules/adding_not_null_field.rs:6-33 | The result of the nested loops equals the specification `Violations(tree)`. Its length is the number of offending NOT NULL constraints. Every element has kind `AddingNotNullableField` and no detail. |
| AddingNotNullField.ViolationsAppend | linter/src/rules/adding_not_null_field.rs:7-8 | The result on `a + b` is the result on `a` followed by the result on `b`, so output follows statement order. |
| AddingNotNullField.CommandsViolationsAppend | linter/src/rules/adding_not_null_field.rs:11-27 | Within one statement, the result on `a + b` sub-commands is the result on `a` followed by the result on `b` (command order). |
| AddingNotNullField.ConstraintViolationsAppend | linter/src/rules/adding_not_null_field.rs:14-24 | Within one column, the result on `a + b` constraints is the result on `a` followed by the result on `b` (constraint order). |
| AddingNotNullField.ConstraintViolationsUniform | linter/src/rules/adding_not_null_field.rs:14-24 | A column's constraints yield exactly `NotNullCount(cs)` copies of the rule's record: one per NOT NULL entry, so two NOT NULL entries give two records. |
| AddingNotNullField.CommandsViolationsUniform | linter/src/rules/adding_not_null_field.rs:11-27 | A statement's sub-commands yield exactly one copy of the rule's record per NOT NULL constraint, summed over the ADD COLUMN commands with a column payload. Two offending commands give two records for the same statement. |
| AddingNotNullField.StatementViolationsUniform | linter/src/rules/adding_not_null_field.rs:9-30 | One statement yields exactly `StatementNotNullCount` copies of the record that refers to that statement. A statement other than ALTER TABLE yields none. |
| AddingNotNullField.ViolationsCount | linter/src/rules/adding_not_null_field.rs:8-23 | The number of violations equals the number of offending NOT NULL constraints, counted over every ALTER TABLE, ADD COLUMN command and constraint. |
| AddingNotNullField.NotNullCountPositive | linter/src/rules/adding_not_null_field.rs:14-17 | A column's NOT NULL count is positive if and only if some constraint position holds `NotNull`. |
| AddingNotNullField.CommandsNotNullCountPositive | linter/src/rules/adding_not_null_field.rs:11-17 | A statement's count is positive if and only if some ADD COLUMN sub-command with a column payload has a NOT NULL constraint at some position. |
| AddingNotNullField.ViolationsMembership | linter/src/rules/adding_not_null_field.rs:8-22 | A record is in the result if and only if it is the rule's record for a statement `tree[i]` that holds an offending constraint at some position `(j, k)`. No record refers to a statement outside the migration. |
| AddingNotNullField.ViolationsKindAndDetail | linter/src/rules/adding_not_null_field.rs:18-22 | Every result has kind `AddingNotNullableField` and detail `None`, and refers to an ALTER TABLE statement of the migration. |
| AddingNotNullField.NoAlterTableNoViolations | linter/src/rules/adding_not_null_field.rs:9-32 | A migration with no ALTER TABLE statement yields the empty sequence. |
| AddingNotNullField.NonAlterStatementIgnored | linter/src/rules/adding_not_null_field.rs:29 | Inserting a statement other than ALTER TABLE anywhere in the migration does not change the result. |
| AddingNotNullField.IrrelevantCommandIgnored | linter/src/rules/adding_not_null_field.rs:12-13 | For a fixed statement reference, inserting a sub-command that is not ADD COLUMN, or has no payload, or has a payload other than a column definition, leaves the sub-commands' result unchanged. |
| AddingNotNullField.OtherConstraintIgnored | linter/src/rules/adding_not_null_field.rs:17 | For a fixed statement reference, inserting a constraint of any other kind (a DEFAULT, say) anywhere in a column's constraints leaves the constraints' result unchanged: it neither reports nor suppresses. |
| AddingNotNullField.NotNullConstraintReported | linter/src/rules/adding_not_null_field.rs:14-23 | A NOT NULL constraint adds exactly one record at its own position, whatever constraints surround it. |

## Left out

- The SQL lexer and parser that build the tree are not modelled. The model takes the parsed tree as its input and declares the fields the rule reads. It also keeps a column name (`ColumnDef.colname`) and a table-constraint payload (`TableConstraint(constraint)`) only to fill out the shape of those types; the rule never reads them.
- `RuleViolation::new` and `RuleViolationKind` come from a module that is not part of this model. The violation is a plain record holding the statement itself, and the enumeration lists only `AddingNotNullableField` and `PreferRobustStmts`.
- Source spans inside a raw statement are not modelled. They are reduced to an opaque `id`, so two statements are told apart only by their contents and `id`.
- `AlterTableType`, `Stmt` and `AlterTableDef` list a representative subset of the parser's variants plus a catch-all. The rule tests only `AddColumn`, `AlterTable` and `ColumnDefinition`, so every other variant is handled the same way.
- The file's test module (lines 35-61) is not modelled. It runs SQL text through the parser, and it names the rule `prefer-robust-stmts`, not this one.
- The rule registry and the orchestrator that runs several rules are not part of this model.
- Rust's borrow semantics (`&[RootStmt]`, `&raw_stmt`) are not modelled. Here the tree is a sequence value and a violation holds a copy of its statement.
