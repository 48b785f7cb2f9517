/**
  The rule "adding a NOT NULL column": every NOT NULL constraint on a column
  added by an ALTER TABLE ... ADD COLUMN sub-command is reported, once per
  constraint, against the statement that holds it.

  `Violations` and its helpers give the specification as a concatenation over
  statements, sub-commands and constraints; the `...NotNullCount` functions
  and `NotNullSite` count and locate the offending constraints independently;
  `AddingNotNullableField` is the checker itself, written with the three
  nested loops of squawk's `adding_not_nullable_field`, and proved equal to
  `Violations`.
 */
module AddingNotNullField {
  import opened Wrappers
  import opened Ast
  import opened RuleViolations

  /** The record the rule emits for an offending constraint of `raw`. */
  function ViolationFor(raw: RawStmt): RuleViolation
  {
    RuleViolation(RuleViolationKind.AddingNotNullableField, raw, None)
  }

  /** `n` copies of `v`. */
  function Repeat(v: RuleViolation, n: nat): seq<RuleViolation>
  {
    seq(n, _ => v)
  }

  /** The sub-command is an ADD COLUMN whose payload is present and is a column definition. */
  predicate AddsColumn(cmd: AlterTableCmd)
  {
    cmd.subtype == AddColumn && cmd.def.Some? && cmd.def.value.ColumnDefinition?
  }

  // ---------------------------------------------------------------------------
  // Specification: concatenation over statements, sub-commands and constraints

  /** Violations for the constraints of one added column, in constraint order. */
  function ConstraintViolations(raw: RawStmt, cs: seq<Constraint>): seq<RuleViolation>
  {
    if cs == [] then []
    else (if cs[0].contype == NotNull then [ViolationFor(raw)] else [])
         + ConstraintViolations(raw, cs[1..])
  }

  /** Violations for one sub-command: only ADD COLUMN with a column payload contributes. */
  function CommandViolations(raw: RawStmt, cmd: AlterTableCmd): seq<RuleViolation>
  {
    if AddsColumn(cmd) then ConstraintViolations(raw, cmd.def.value.column.constraints) else []
  }

  /** Violations for a sequence of sub-commands, in command order. */
  function CommandsViolations(raw: RawStmt, cmds: seq<AlterTableCmd>): seq<RuleViolation>
  {
    if cmds == [] then []
    else CommandViolations(raw, cmds[0]) + CommandsViolations(raw, cmds[1..])
  }

  /** Violations for one top-level statement: only ALTER TABLE contributes. */
  function StatementViolations(root: RootStmt): seq<RuleViolation>
  {
    if root.raw.stmt.AlterTable? then CommandsViolations(root.raw, root.raw.stmt.alter.cmds) else []
  }

  /** Violations for a whole migration, in statement order. */
  function Violations(tree: seq<RootStmt>): seq<RuleViolation>
  {
    if tree == [] then []
    else StatementViolations(tree[0]) + Violations(tree[1..])
  }

  // ---------------------------------------------------------------------------
  // Reference definitions: how many offending constraints there are, and where

  /** Number of NOT NULL entries among `cs`. */
  function NotNullCount(cs: seq<Constraint>): nat
  {
    if cs == [] then 0
    else (if cs[0].contype == NotNull then 1 else 0) + NotNullCount(cs[1..])
  }

  /** Number of NOT NULL entries on the column a sub-command adds (0 if it adds none). */
  function CommandNotNullCount(cmd: AlterTableCmd): nat
  {
    if AddsColumn(cmd) then NotNullCount(cmd.def.value.column.constraints) else 0
  }

  /** Sum of `CommandNotNullCount` over `cmds`. */
  function CommandsNotNullCount(cmds: seq<AlterTableCmd>): nat
  {
    if cmds == [] then 0 else CommandNotNullCount(cmds[0]) + CommandsNotNullCount(cmds[1..])
  }

  /** Number of offending constraints in one statement (0 unless it is an ALTER TABLE). */
  function StatementNotNullCount(stmt: Stmt): nat
  {
    if stmt.AlterTable? then CommandsNotNullCount(stmt.alter.cmds) else 0
  }

  /** Number of offending constraints in a whole migration. */
  function TreeNotNullCount(tree: seq<RootStmt>): nat
  {
    if tree == [] then 0 else StatementNotNullCount(tree[0].raw.stmt) + TreeNotNullCount(tree[1..])
  }

  /** Constraint `k` of the column added by sub-command `j` of `cmds` is NOT NULL. */
  predicate CommandSite(cmds: seq<AlterTableCmd>, j: int, k: int)
  {
    0 <= j < |cmds| && AddsColumn(cmds[j])
    && 0 <= k < |cmds[j].def.value.column.constraints|
    && cmds[j].def.value.column.constraints[k].contype == NotNull
  }

  /** Statement `i` of `tree` is an ALTER TABLE whose sub-command `j` adds a column whose constraint `k` is NOT NULL. */
  predicate NotNullSite(tree: seq<RootStmt>, i: int, j: int, k: int)
  {
    0 <= i < |tree| && tree[i].raw.stmt.AlterTable? && CommandSite(tree[i].raw.stmt.alter.cmds, j, k)
  }

  // ---------------------------------------------------------------------------
  // The checker

  /** The rule checker: three nested loops that append to `errs`. */
  method AddingNotNullableField(tree: seq<RootStmt>) returns (errs: seq<RuleViolation>)
    ensures errs == Violations(tree)
    ensures |errs| == TreeNotNullCount(tree)
    ensures forall v :: v in errs ==> v.kind == RuleViolationKind.AddingNotNullableField && v.detail == None
  {
    errs := [];
    for i := 0 to |tree|
      invariant errs == Violations(tree[..i])
    {
      ghost var before := errs;
      var raw := tree[i].raw;
      if raw.stmt.AlterTable? {
          var stmt := raw.stmt.alter;
          for j := 0 to |stmt.cmds|
            invariant errs == before + CommandsViolations(raw, stmt.cmds[..j])
          {
            ghost var beforeCmd := errs;
            var cmd := stmt.cmds[j];
            if cmd.subtype == AddColumn {
              if cmd.def.Some? && cmd.def.value.ColumnDefinition? {
                var columnDef := cmd.def.value.column;
                for k := 0 to |columnDef.constraints|
                  invariant errs == beforeCmd + ConstraintViolations(raw, columnDef.constraints[..k])
                {
                  if columnDef.constraints[k].contype == NotNull {
                    errs := errs + [ViolationFor(raw)];
                  }
                  ConstraintViolationsStep(raw, columnDef.constraints, k);
                  AppendAssoc(beforeCmd, ConstraintViolations(raw, columnDef.constraints[..k]),
                              if columnDef.constraints[k].contype == NotNull then [ViolationFor(raw)] else []);
                }
                assert columnDef.constraints[..|columnDef.constraints|] == columnDef.constraints;
              }
            }
            assert errs == beforeCmd + CommandViolations(raw, cmd);
            CommandsViolationsStep(raw, stmt.cmds, j);
            AppendAssoc(before, CommandsViolations(raw, stmt.cmds[..j]), CommandViolations(raw, cmd));
          }
          assert stmt.cmds[..|stmt.cmds|] == stmt.cmds;
      }
      assert errs == before + StatementViolations(tree[i]);
      ViolationsStep(tree, i);
    }
    assert tree[..|tree|] == tree;
    ViolationsCount(tree);
    ViolationsKindAndDetail(tree);
  }

  // ---------------------------------------------------------------------------
  // Order: the result on a concatenation is the concatenation of the results

  lemma {:induction false} ConstraintViolationsAppend(raw: RawStmt, a: seq<Constraint>, b: seq<Constraint>)
    ensures ConstraintViolations(raw, a + b) == ConstraintViolations(raw, a) + ConstraintViolations(raw, b)
  {
    if a != [] {
      assert (a + b)[1..] == a[1..] + b;
      ConstraintViolationsAppend(raw, a[1..], b);
    } else {
      assert a + b == b;
    }
  }

  lemma {:induction false} CommandsViolationsAppend(raw: RawStmt, a: seq<AlterTableCmd>, b: seq<AlterTableCmd>)
    ensures CommandsViolations(raw, a + b) == CommandsViolations(raw, a) + CommandsViolations(raw, b)
  {
    if a != [] {
      assert (a + b)[1..] == a[1..] + b;
      CommandsViolationsAppend(raw, a[1..], b);
    } else {
      assert a + b == b;
    }
  }

  lemma {:induction false} ViolationsAppend(a: seq<RootStmt>, b: seq<RootStmt>)
    ensures Violations(a + b) == Violations(a) + Violations(b)
  {
    if a != [] {
      assert (a + b)[1..] == a[1..] + b;
      ViolationsAppend(a[1..], b);
    } else {
      assert a + b == b;
    }
  }

  lemma AppendAssoc(a: seq<RuleViolation>, b: seq<RuleViolation>, c: seq<RuleViolation>)
    ensures a + b + c == a + (b + c)
  {
  }

  /** One iteration of each loop of the checker extends the prefix by one element. */
  lemma ConstraintViolationsStep(raw: RawStmt, cs: seq<Constraint>, k: nat)
    requires k < |cs|
    ensures ConstraintViolations(raw, cs[..k + 1])
            == ConstraintViolations(raw, cs[..k]) + (if cs[k].contype == NotNull then [ViolationFor(raw)] else [])
  {
    assert cs[..k + 1] == cs[..k] + [cs[k]];
    ConstraintViolationsAppend(raw, cs[..k], [cs[k]]);
  }

  lemma CommandsViolationsStep(raw: RawStmt, cmds: seq<AlterTableCmd>, j: nat)
    requires j < |cmds|
    ensures CommandsViolations(raw, cmds[..j + 1]) == CommandsViolations(raw, cmds[..j]) + CommandViolations(raw, cmds[j])
  {
    assert cmds[..j + 1] == cmds[..j] + [cmds[j]];
    CommandsViolationsAppend(raw, cmds[..j], [cmds[j]]);
  }

  lemma ViolationsStep(tree: seq<RootStmt>, i: nat)
    requires i < |tree|
    ensures Violations(tree[..i + 1]) == Violations(tree[..i]) + StatementViolations(tree[i])
  {
    assert tree[..i + 1] == tree[..i] + [tree[i]];
    ViolationsAppend(tree[..i], [tree[i]]);
  }

  // ---------------------------------------------------------------------------
  // Content: each statement yields one identical record per offending constraint

  lemma RepeatAppend(v: RuleViolation, m: nat, n: nat)
    ensures Repeat(v, m) + Repeat(v, n) == Repeat(v, m + n)
  {
  }

  lemma {:induction false} ConstraintViolationsUniform(raw: RawStmt, cs: seq<Constraint>)
    ensures ConstraintViolations(raw, cs) == Repeat(ViolationFor(raw), NotNullCount(cs))
  {
    if cs != [] {
      ConstraintViolationsUniform(raw, cs[1..]);
      RepeatAppend(ViolationFor(raw), if cs[0].contype == NotNull then 1 else 0, NotNullCount(cs[1..]));
    }
  }

  lemma {:induction false} CommandsViolationsUniform(raw: RawStmt, cmds: seq<AlterTableCmd>)
    ensures CommandsViolations(raw, cmds) == Repeat(ViolationFor(raw), CommandsNotNullCount(cmds))
  {
    if cmds != [] {
      var cmd := cmds[0];
      if AddsColumn(cmd) {
        ConstraintViolationsUniform(raw, cmd.def.value.column.constraints);
      }
      assert CommandViolations(raw, cmd) == Repeat(ViolationFor(raw), CommandNotNullCount(cmd));
      CommandsViolationsUniform(raw, cmds[1..]);
      RepeatAppend(ViolationFor(raw), CommandNotNullCount(cmd), CommandsNotNullCount(cmds[1..]));
    }
  }

  /** A statement's violations are exactly its offending-constraint count of copies of one record. */
  lemma StatementViolationsUniform(root: RootStmt)
    ensures StatementViolations(root) == Repeat(ViolationFor(root.raw), StatementNotNullCount(root.raw.stmt))
  {
    if root.raw.stmt.AlterTable? {
      CommandsViolationsUniform(root.raw, root.raw.stmt.alter.cmds);
    }
  }

  /** One violation per offending constraint, over the whole migration. */
  lemma {:induction false} ViolationsCount(tree: seq<RootStmt>)
    ensures |Violations(tree)| == TreeNotNullCount(tree)
  {
    if tree != [] {
      StatementViolationsUniform(tree[0]);
      ViolationsCount(tree[1..]);
    }
  }

  // ---------------------------------------------------------------------------
  // Membership: which records occur, and for which statements

  lemma {:induction false} NotNullCountPositive(cs: seq<Constraint>)
    ensures NotNullCount(cs) > 0 <==> exists k :: 0 <= k < |cs| && cs[k].contype == NotNull
  {
    if cs != [] {
      NotNullCountPositive(cs[1..]);
      if NotNullCount(cs[1..]) > 0 {
        var k :| 0 <= k < |cs[1..]| && cs[1..][k].contype == NotNull;
        assert cs[k + 1].contype == NotNull;
      }
      if exists k :: 0 <= k < |cs| && cs[k].contype == NotNull {
        var k :| 0 <= k < |cs| && cs[k].contype == NotNull;
        if k > 0 {
          assert cs[1..][k - 1].contype == NotNull;
        }
      }
    }
  }

  lemma {:induction false} CommandsNotNullCountPositive(cmds: seq<AlterTableCmd>)
    ensures CommandsNotNullCount(cmds) > 0 <==> exists j, k :: CommandSite(cmds, j, k)
  {
    if cmds != [] {
      var cmd := cmds[0];
      CommandsNotNullCountPositive(cmds[1..]);
      if AddsColumn(cmd) {
        NotNullCountPositive(cmd.def.value.column.constraints);
      }
      if CommandNotNullCount(cmd) > 0 {
        var k :| 0 <= k < |cmd.def.value.column.constraints| && cmd.def.value.column.constraints[k].contype == NotNull;
        assert CommandSite(cmds, 0, k);
      }
      if CommandsNotNullCount(cmds[1..]) > 0 {
        var j, k :| CommandSite(cmds[1..], j, k);
        assert CommandSite(cmds, j + 1, k);
      }
      if exists j, k :: CommandSite(cmds, j, k) {
        var j, k :| CommandSite(cmds, j, k);
        if j == 0 {
          assert cmd.def.value.column.constraints[k].contype == NotNull;
        } else {
          assert CommandSite(cmds[1..], j - 1, k);
        }
      }
    }
  }

  /**
    A record is in the result exactly when it is the rule's record for a
    statement of the migration holding an offending constraint.
   */
  lemma {:induction false} ViolationsMembership(tree: seq<RootStmt>, v: RuleViolation)
    ensures v in Violations(tree) <==>
            exists i, j, k :: NotNullSite(tree, i, j, k) && v == ViolationFor(tree[i].raw)
  {
    if tree != [] {
      var root := tree[0];
      StatementViolationsUniform(root);
      ViolationsMembership(tree[1..], v);
      if root.raw.stmt.AlterTable? {
        CommandsNotNullCountPositive(root.raw.stmt.alter.cmds);
      }
      if v in StatementViolations(root) {
        var j, k :| CommandSite(root.raw.stmt.alter.cmds, j, k);
        assert NotNullSite(tree, 0, j, k);
      }
      if v in Violations(tree[1..]) {
        var i, j, k :| NotNullSite(tree[1..], i, j, k) && v == ViolationFor(tree[1..][i].raw);
        assert NotNullSite(tree, i + 1, j, k);
      }
      if exists i, j, k :: NotNullSite(tree, i, j, k) && v == ViolationFor(tree[i].raw) {
        var i, j, k :| NotNullSite(tree, i, j, k) && v == ViolationFor(tree[i].raw);
        if i == 0 {
          assert CommandSite(root.raw.stmt.alter.cmds, j, k);
          assert StatementViolations(root)[0] == v;
        } else {
          assert NotNullSite(tree[1..], i - 1, j, k);
        }
      }
    }
  }

  /** Every record the rule returns has its kind, no detail, and refers to an ALTER TABLE of the migration. */
  lemma ViolationsKindAndDetail(tree: seq<RootStmt>)
    ensures forall v :: v in Violations(tree) ==>
              v.kind == RuleViolationKind.AddingNotNullableField && v.detail == None
              && exists i :: 0 <= i < |tree| && tree[i].raw == v.stmt && tree[i].raw.stmt.AlterTable?
  {
    forall v | v in Violations(tree)
      ensures v.kind == RuleViolationKind.AddingNotNullableField && v.detail == None
              && exists i :: 0 <= i < |tree| && tree[i].raw == v.stmt && tree[i].raw.stmt.AlterTable?
    {
      ViolationsMembership(tree, v);
      var i, j, k :| NotNullSite(tree, i, j, k) && v == ViolationFor(tree[i].raw);
    }
  }

  /** A migration without ALTER TABLE statements yields no violations. */
  lemma {:induction false} NoAlterTableNoViolations(tree: seq<RootStmt>)
    requires forall i :: 0 <= i < |tree| ==> !tree[i].raw.stmt.AlterTable?
    ensures Violations(tree) == []
  {
    if tree != [] {
      NoAlterTableNoViolations(tree[1..]);
    }
  }

  // ---------------------------------------------------------------------------
  // Shapes that do not contribute, and shapes that do not suppress

  /** A statement other than ALTER TABLE can be removed without changing the result. */
  lemma NonAlterStatementIgnored(pre: seq<RootStmt>, root: RootStmt, post: seq<RootStmt>)
    requires !root.raw.stmt.AlterTable?
    ensures Violations(pre + [root] + post) == Violations(pre + post)
  {
    ViolationsAppend(pre + [root], post);
    ViolationsAppend(pre, [root]);
    ViolationsAppend(pre, post);
  }

  /**
    A sub-command that is not ADD COLUMN, or has no payload, or a payload that
    is not a column definition, can be removed without changing the result.
   */
  lemma IrrelevantCommandIgnored(raw: RawStmt, pre: seq<AlterTableCmd>, cmd: AlterTableCmd, post: seq<AlterTableCmd>)
    requires !AddsColumn(cmd)
    ensures CommandsViolations(raw, pre + [cmd] + post) == CommandsViolations(raw, pre + post)
  {
    CommandsViolationsAppend(raw, pre + [cmd], post);
    CommandsViolationsAppend(raw, pre, [cmd]);
    CommandsViolationsAppend(raw, pre, post);
  }

  /** A constraint other than NOT NULL (a DEFAULT, say) neither reports nor suppresses anything. */
  lemma OtherConstraintIgnored(raw: RawStmt, pre: seq<Constraint>, c: Constraint, post: seq<Constraint>)
    requires c.contype != NotNull
    ensures ConstraintViolations(raw, pre + [c] + post) == ConstraintViolations(raw, pre + post)
  {
    ConstraintViolationsAppend(raw, pre + [c], post);
    ConstraintViolationsAppend(raw, pre, [c]);
    ConstraintViolationsAppend(raw, pre, post);
  }

  /** Each NOT NULL constraint adds exactly one record, at its own position, whatever surrounds it. */
  lemma NotNullConstraintReported(raw: RawStmt, pre: seq<Constraint>, c: Constraint, post: seq<Constraint>)
    requires c.contype == NotNull
    ensures ConstraintViolations(raw, pre + [c] + post)
            == ConstraintViolations(raw, pre) + [ViolationFor(raw)] + ConstraintViolations(raw, post)
  {
    ConstraintViolationsAppend(raw, pre + [c], post);
    ConstraintViolationsAppend(raw, pre, [c]);
  }
}
