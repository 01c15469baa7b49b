/** What the lowering pass guarantees: fresh names never collide, the constant table
    keeps one entry per distinct string, lowering only appends to the output and only
    instructions and labels, it fails exactly on the constructs without a visitor, and
    the generated module has the layout `generate` promises. */
module LoweringProps {
  import opened Options
  import opened Text
  import opened IrStrings
  import opened LlvmAst
  import opened Lowering

  // ---------------------------------------------------------------------------
  // Names.

  lemma RegInjective(a: nat, b: nat)
    requires Reg(a) == Reg(b)
    ensures a == b
  {
    PrefixedNumberInjective("%", a, b);
  }

  lemma LabelNameInjective(a: nat, b: nat)
    requires LabelName(a) == LabelName(b)
    ensures a == b
  {
    PrefixedNumberInjective("label", a, b);
  }

  lemma GlobalNameInjective(a: nat, b: nat)
    requires GlobalName(a) == GlobalName(b)
    ensures a == b
  {
    PrefixedNumberInjective("@.str.", a, b);
  }

  /** Two registers handed out one after the other are different. */
  lemma FreshVariablesDistinct(g: Gen)
    ensures FreshVariable(g).0 != FreshVariable(FreshVariable(g).1).0
  {
    if FreshVariable(g).0 == FreshVariable(FreshVariable(g).1).0 {
      RegInjective(g.variableCounter, g.variableCounter + 1);
    }
  }

  // ---------------------------------------------------------------------------
  // The constant table.

  lemma {:induction false} LookupIff(entries: seq<(string, string)>, key: string)
    ensures Lookup(entries, key).None? <==> forall i :: 0 <= i < |entries| ==> entries[i].0 != key
    ensures Lookup(entries, key).Some? ==>
              exists i :: 0 <= i < |entries| && entries[i] == (key, Lookup(entries, key).value)
  {
    if entries != [] {
      LookupIff(entries[1..], key);
      if entries[0].0 != key {
        if Lookup(entries, key).Some? {
          var i :| 0 <= i < |entries[1..]| && entries[1..][i] == (key, Lookup(entries, key).value);
          assert entries[i + 1] == (key, Lookup(entries, key).value);
        }
        forall i | 0 < i < |entries| && entries[i].0 == key
          ensures Lookup(entries, key).Some?
        {
          assert entries[1..][i - 1].0 == key;
        }
      }
    }
  }

  lemma {:induction false} LookupAppendNew(entries: seq<(string, string)>, key: string, name: string)
    requires Lookup(entries, key).None?
    ensures Lookup(entries + [(key, name)], key) == Some(name)
  {
    if entries != [] {
      assert (entries + [(key, name)])[1..] == entries[1..] + [(key, name)];
      LookupAppendNew(entries[1..], key, name);
    }
  }

  /** Interning keeps the table invariant, only ever appends, and afterwards the
      string is in the table under the name returned. */
  lemma InternValid(g: Gen, s: string)
    requires Valid(g)
    ensures var (name, h) := Intern(g, s);
      && Valid(h)
      && h.stringConstants[..|g.stringConstants|] == g.stringConstants
      && |g.stringConstants| <= |h.stringConstants| <= |g.stringConstants| + 1
      && (exists i :: 0 <= i < |h.stringConstants| && h.stringConstants[i] == (s, name))
  {
    LookupIff(g.stringConstants, s);
    var (name, h) := Intern(g, s);
    if Lookup(g.stringConstants, s).None? {
      assert h.stringConstants[|g.stringConstants|] == (s, name);
      assert h.stringConstants[..|g.stringConstants|] == g.stringConstants;
    } else {
      assert h.stringConstants[..|g.stringConstants|] == g.stringConstants;
    }
  }

  /** Interning a string a second time returns the same global and changes nothing. */
  lemma InternIdempotent(g: Gen, s: string)
    ensures var (name, h) := Intern(g, s); Intern(h, s) == (name, h)
  {
    if Lookup(g.stringConstants, s).None? {
      LookupAppendNew(g.stringConstants, s, GlobalName(g.stringCounter));
    }
  }

  /** Distinct strings are given distinct globals. */
  lemma InternDistinct(g: Gen, s: string, t: string)
    requires Valid(g) && s != t
    ensures var (n1, h) := Intern(g, s); Intern(h, t).0 != n1
  {
    var (n1, h) := Intern(g, s);
    var (n2, k) := Intern(h, t);
    InternValid(g, s);
    InternValid(h, t);
    var i :| 0 <= i < |h.stringConstants| && h.stringConstants[i] == (s, n1);
    var j :| 0 <= j < |k.stringConstants| && k.stringConstants[j] == (t, n2);
    assert k.stringConstants[i] == h.stringConstants[..|h.stringConstants|][i];
    if n1 == n2 {
      GlobalNameInjective(i, j);
    }
  }

  // ---------------------------------------------------------------------------
  // Lowering only appends, and only instructions and labels.

  /** An instruction or comment inside a basic block: indented by two spaces. */
  predicate Indented(line: string) {
    |line| >= 2 && line[0] == ' ' && line[1] == ' '
  }

  /** A basic-block label, as `LabelLine(LabelName(n))` writes it. */
  predicate IsLabelLine(line: string) {
    |line| > 5 && line[..5] == "label" && line[|line| - 1] == ':'
  }

  /** `h` continues `g`: the output and the constant table are only appended to, the
      counters only grow, and the table invariant is kept. */
  predicate Extends(g: Gen, h: Gen) {
    && |g.output| <= |h.output| && h.output[..|g.output|] == g.output
    && g.labelCounter <= h.labelCounter && g.variableCounter <= h.variableCounter
    && |g.stringConstants| <= |h.stringConstants|
    && h.stringConstants[..|g.stringConstants|] == g.stringConstants
    && (Valid(g) ==> Valid(h))
  }

  /** `h` extends `g` by instruction lines, and by label lines when `labels` holds. */
  predicate Grows(g: Gen, h: Gen, labels: bool) {
    && Extends(g, h)
    && forall i :: |g.output| <= i < |h.output| ==>
         Indented(h.output[i]) || (labels && IsLabelLine(h.output[i]))
  }

  lemma GrowsTrans(a: Gen, b: Gen, c: Gen, labels: bool)
    requires Grows(a, b, labels) && Grows(b, c, labels)
    ensures Grows(a, c, labels)
  {
    assert c.output[..|a.output|] == c.output[..|b.output|][..|a.output|];
    assert c.stringConstants[..|a.stringConstants|]
        == c.stringConstants[..|b.stringConstants|][..|a.stringConstants|];
    forall i | |a.output| <= i < |b.output|
      ensures c.output[i] == b.output[i]
    {
      assert c.output[..|b.output|][i] == c.output[i];
    }
  }

  lemma GrowsRefl(g: Gen, labels: bool)
    ensures Grows(g, g, labels)
  {
    assert g.output[..|g.output|] == g.output;
    assert g.stringConstants[..|g.stringConstants|] == g.stringConstants;
  }

  lemma GrowsWithLabels(g: Gen, h: Gen)
    requires Grows(g, h, false)
    ensures Grows(g, h, true)
  {
  }

  lemma EmitGrows(g: Gen, line: string, labels: bool)
    requires Indented(line) || (labels && IsLabelLine(line))
    ensures Grows(g, Emit(g, line), labels)
  {
    assert Emit(g, line).output[..|g.output|] == g.output;
  }

  lemma CountersGrow(g: Gen, h: Gen, labels: bool)
    requires h == FreshVariable(g).1 || h == FreshLabel(g).1
    ensures Grows(g, h, labels)
  {
    assert h.output[..|g.output|] == g.output;
    assert h.stringConstants[..|g.stringConstants|] == g.stringConstants;
  }

  lemma InternGrows(g: Gen, s: string, labels: bool)
    ensures Grows(g, Intern(g, s).1, labels)
  {
    var h := Intern(g, s).1;
    assert h.output[..|g.output|] == g.output;
    if Valid(g) {
      InternValid(g, s);
    } else {
      assert h.stringConstants[..|g.stringConstants|] == g.stringConstants;
    }
  }

  lemma IndentedAppend(a: string, b: string)
    requires Indented(a)
    ensures Indented(a + b)
  {
  }

  lemma LabelLineIsLabel(n: nat)
    ensures IsLabelLine(LabelLine(LabelName(n)))
  {
    var line := LabelLine(LabelName(n));
    assert line == "label" + NatToString(n) + ":";
    assert line[..5] == "label";
  }

  lemma GepIndented(ptr: string, size: nat, global: string)
    ensures Indented(GepLine(ptr, size, global))
  {
  }

  lemma LiteralGrows(v: LitValue, g: Gen)
    ensures Grows(g, LowerLiteral(v, g).1, false)
  {
    if v.StringValue? {
      var (global, g1) := Intern(g, v.s);
      var (ptr, g2) := FreshVariable(g1);
      InternGrows(g, v.s, false);
      CountersGrow(g1, g2, false);
      GrowsTrans(g, g1, g2, false);
      GepIndented(ptr, Utf16Length(v.s) + 1, global);
      EmitGrows(g2, GepLine(ptr, Utf16Length(v.s) + 1, global), false);
      GrowsTrans(g, g2, LowerLiteral(v, g).1, false);
    } else {
      GrowsRefl(g, false);
    }
  }

  lemma IdentifierGrows(name: string, g: Gen)
    ensures Grows(g, LowerIdentifier(name, g).1, false)
  {
    if name in g.variables {
      var (reg, g1) := FreshVariable(g);
      CountersGrow(g, g1, false);
      EmitGrows(g1, LoadLine(reg, g.variables[name]), false);
      GrowsTrans(g, g1, LowerIdentifier(name, g).1, false);
    } else {
      EmitGrows(g, "  ; Undefined variable: " + name, false);
    }
  }

  lemma CombineGrows(op: string, left: string, right: string, g: Gen)
    ensures Grows(g, CombineOperands(op, left, right, g).1, false)
  {
    var (res, g1) := FreshVariable(g);
    CountersGrow(g, g1, false);
    match BinaryOpcode(op)
    case Some(code) =>
      EmitGrows(g1, "  " + res + " = " + code + " i32 " + left + ", " + right, false);
      GrowsTrans(g, g1, CombineOperands(op, left, right, g).1, false);
    case None =>
      EmitGrows(g1, "  ; Unsupported operator: " + op, false);
      GrowsTrans(g, g1, CombineOperands(op, left, right, g).1, false);
  }

  lemma StoreAssignedGrows(target: Expr, value: string, g: Gen)
    ensures Grows(g, StoreAssigned(target, value, g), false)
  {
    if target.Identifier? {
      if target.name in g.variables {
        EmitGrows(g, StoreLine(value, g.variables[target.name]), false);
      } else {
        EmitGrows(g, "  ; Undefined variable in assignment: " + target.name, false);
      }
    } else {
      GrowsRefl(g, false);
    }
  }

  lemma UpdateGrows(op: string, target: Expr, prefix: bool, g: Gen)
    ensures Grows(g, LowerUpdate(op, target, prefix, g).1, false)
  {
    if target.Identifier? && target.name in g.variables {
      var slot := g.variables[target.name];
      var (current, g1) := FreshVariable(g);
      var (result, g2) := FreshVariable(g1);
      var g3 := Emit(g2, LoadLine(current, slot));
      CountersGrow(g, g1, false);
      CountersGrow(g1, g2, false);
      EmitGrows(g2, LoadLine(current, slot), false);
      GrowsTrans(g, g1, g2, false);
      GrowsTrans(g, g2, g3, false);
      var g4 :=
        if op == "++" then Emit(g3, "  " + result + " = add i32 " + current + ", 1")
        else if op == "--" then Emit(g3, "  " + result + " = sub i32 " + current + ", 1")
        else g3;
      if op == "++" {
        EmitGrows(g3, "  " + result + " = add i32 " + current + ", 1", false);
      } else if op == "--" {
        EmitGrows(g3, "  " + result + " = sub i32 " + current + ", 1", false);
      } else {
        GrowsRefl(g3, false);
      }
      GrowsTrans(g, g3, g4, false);
      EmitGrows(g4, StoreLine(result, slot), false);
      GrowsTrans(g, g4, Emit(g4, StoreLine(result, slot)), false);
    } else {
      GrowsRefl(g, false);
    }
  }

  /** Lowering an expression appends only indented instruction lines, never shrinks
      a counter or the constant table, and keeps the table invariant. */
  lemma {:induction false} ExprGrows(e: Expr, g: Gen)
    requires LowerExpr(e, g).Some?
    ensures Grows(g, LowerExpr(e, g).value.1, false)
  {
    match e
    case Literal(v) => LiteralGrows(v, g);
    case Identifier(name) => IdentifierGrows(name, g);
    case BinaryExpression(op, l, r) =>
      var (lv, g1) := LowerExpr(l, g).value;
      var (rv, g2) := LowerExpr(r, g1).value;
      ExprGrows(l, g);
      ExprGrows(r, g1);
      CombineGrows(op, lv, rv, g2);
      GrowsTrans(g, g1, g2, false);
      GrowsTrans(g, g2, CombineOperands(op, lv, rv, g2).1, false);
    case UnaryExpression(_, _) =>
    case AssignmentExpression(_, target, r) =>
      var (v, g1) := LowerExpr(r, g).value;
      ExprGrows(r, g);
      StoreAssignedGrows(target, v, g1);
      GrowsTrans(g, g1, StoreAssigned(target, v, g1), false);
    case UpdateExpression(op, target, prefix) => UpdateGrows(op, target, prefix, g);
    case CallExpression(callee, _) =>
      IndentedAppend("  ; Function call not fully implemented: ", CalleeName(callee));
      EmitGrows(g, "  ; Function call not fully implemented: " + CalleeName(callee), false);
    case UnknownExpression(tag) =>
      EmitGrows(g, "  ; Unsupported expression: " + tag, false);
  }

  lemma DeclaratorGrows(d: Declarator, g: Gen)
    requires LowerDeclarator(d, g).Some?
    ensures Grows(g, LowerDeclarator(d, g).value, false)
  {
    var alloc := FreshVariable(g);
    var g2 := Emit(alloc.1, AllocaLine(alloc.0)).(variables := alloc.1.variables[d.id := alloc.0]);
    assert Grows(g, g2, false) by {
      CountersGrow(g, alloc.1, false);
      EmitGrows(alloc.1, AllocaLine(alloc.0), false);
      GrowsTrans(g, alloc.1, g2, false);
    }
    if d.init.Some? {
      var init := LowerExpr(d.init.value, g2).value;
      assert Grows(g, init.1, false) by {
        ExprGrows(d.init.value, g2);
        GrowsTrans(g, g2, init.1, false);
      }
      EmitGrows(init.1, StoreLine(init.0, alloc.0), false);
      GrowsTrans(g, init.1, LowerDeclarator(d, g).value, false);
    }
  }

  lemma {:induction false} DeclaratorsGrow(ds: seq<Declarator>, g: Gen)
    requires LowerDeclarators(ds, g).Some?
    ensures Grows(g, LowerDeclarators(ds, g).value, false)
  {
    if ds == [] {
      GrowsRefl(g, false);
    } else {
      var g1 := LowerDeclarator(ds[0], g).value;
      DeclaratorGrows(ds[0], g);
      DeclaratorsGrow(ds[1..], g1);
      GrowsTrans(g, g1, LowerDeclarators(ds, g).value, false);
    }
  }

  lemma PrintGrows(arg: Option<Expr>, g: Gen)
    requires LowerPrint(arg, g).Some?
    ensures Grows(g, LowerPrint(arg, g).value, false)
  {
    var e := arg.value;
    var (v, g1) := LowerExpr(e, g).value;
    ExprGrows(e, g);
    if IsStringExpression(e) {
      PutsGrows(e.value.s, g1);
    } else {
      PrintfGrows(v, g1);
    }
    GrowsTrans(g, g1, LowerPrint(arg, g).value, false);
  }

  lemma PutsGrows(text: string, g: Gen)
    ensures var (global, g1) := Intern(g, text);
      var (ptr, g2) := FreshVariable(g1);
      Grows(g, Emit(Emit(g2, GepLine(ptr, Utf16Length(text) + 1, global)),
                    "  call i32 @puts(i8* " + ptr + ")"), false)
  {
    var (global, g1) := Intern(g, text);
    var (ptr, g2) := FreshVariable(g1);
    var g3 := Emit(g2, GepLine(ptr, Utf16Length(text) + 1, global));
    assert Grows(g, g2, false) by {
      InternGrows(g, text, false);
      CountersGrow(g1, g2, false);
      GrowsTrans(g, g1, g2, false);
    }
    assert Grows(g, g3, false) by {
      EmitGrows(g2, GepLine(ptr, Utf16Length(text) + 1, global), false);
      GrowsTrans(g, g2, g3, false);
    }
    EmitGrows(g3, "  call i32 @puts(i8* " + ptr + ")", false);
    GrowsTrans(g, g3, Emit(g3, "  call i32 @puts(i8* " + ptr + ")"), false);
  }

  lemma PrintfGrows(v: string, g: Gen)
    ensures var (format, g1) := Intern(g, PrintfFormat);
      var (ptr, g2) := FreshVariable(g1);
      Grows(g, Emit(Emit(g2, GepLine(ptr, 4, format)),
                    "  call i32 (i8*, ...) @printf(i8* " + ptr + ", i32 " + v + ")"), false)
  {
    var (format, g1) := Intern(g, PrintfFormat);
    var (ptr, g2) := FreshVariable(g1);
    var g3 := Emit(g2, GepLine(ptr, 4, format));
    assert Grows(g, g2, false) by {
      InternGrows(g, PrintfFormat, false);
      CountersGrow(g1, g2, false);
      GrowsTrans(g, g1, g2, false);
    }
    assert Grows(g, g3, false) by {
      EmitGrows(g2, GepLine(ptr, 4, format), false);
      GrowsTrans(g, g2, g3, false);
    }
    var call := "  call i32 (i8*, ...) @printf(i8* " + ptr + ", i32 " + v + ")";
    EmitGrows(g3, call, false);
    GrowsTrans(g, g3, Emit(g3, call), false);
  }

  lemma ReturnGrows(arg: Option<Expr>, g: Gen)
    requires LowerReturn(arg, g).Some?
    ensures Grows(g, LowerReturn(arg, g).value, false)
  {
    if arg.Some? {
      var (v, g1) := LowerExpr(arg.value, g).value;
      ExprGrows(arg.value, g);
      EmitGrows(g1, "  ret i32 " + v, false);
      GrowsTrans(g, g1, LowerReturn(arg, g).value, false);
    } else {
      EmitGrows(g, "  ret i32 0", false);
    }
  }

  lemma IfHeadGrows(hasElse: bool, testVar: string, g: Gen)
    ensures var (thenLabel, elseLabel, endLabel, h) := IfHead(hasElse, testVar, g);
      && Grows(g, h, true)
      && IsLabelLine(LabelLine(endLabel))
      && (hasElse ==> IsLabelLine(LabelLine(elseLabel)))
  {
    var (thenLabel, g1) := FreshLabel(g);
    var (elseLabel, g2) := if hasElse then FreshLabel(g1) else ("", g1);
    var (endLabel, g3) := FreshLabel(g2);
    var (cond, g4) := FreshVariable(g3);
    CountersGrow(g, g1, true);
    if hasElse {
      CountersGrow(g1, g2, true);
      LabelLineIsLabel(g1.labelCounter);
    } else {
      GrowsRefl(g1, true);
    }
    CountersGrow(g2, g3, true);
    CountersGrow(g3, g4, true);
    GrowsTrans(g, g1, g2, true);
    GrowsTrans(g, g2, g3, true);
    GrowsTrans(g, g3, g4, true);
    var g5 := Emit(g4, IcmpLine(cond, testVar));
    var g6 := Emit(g5, CondBrLine(cond, thenLabel, if hasElse then elseLabel else endLabel));
    EmitGrows(g4, IcmpLine(cond, testVar), true);
    EmitGrows(g5, CondBrLine(cond, thenLabel, if hasElse then elseLabel else endLabel), true);
    LabelLineIsLabel(g.labelCounter);
    LabelLineIsLabel(g2.labelCounter);
    EmitGrows(g6, LabelLine(thenLabel), true);
    GrowsTrans(g, g4, g5, true);
    GrowsTrans(g, g5, g6, true);
    GrowsTrans(g, g6, Emit(g6, LabelLine(thenLabel)), true);
  }

  lemma WhileHeadGrows(g: Gen)
    ensures var (condLabel, bodyLabel, endLabel, h) := WhileHead(g);
      && Grows(g, h, true)
      && IsLabelLine(LabelLine(bodyLabel)) && IsLabelLine(LabelLine(endLabel))
  {
    var (condLabel, g1) := FreshLabel(g);
    var (bodyLabel, g2) := FreshLabel(g1);
    var (endLabel, g3) := FreshLabel(g2);
    CountersGrow(g, g1, true);
    CountersGrow(g1, g2, true);
    CountersGrow(g2, g3, true);
    GrowsTrans(g, g1, g2, true);
    GrowsTrans(g, g2, g3, true);
    LabelLineIsLabel(g.labelCounter);
    LabelLineIsLabel(g1.labelCounter);
    LabelLineIsLabel(g2.labelCounter);
    var g4 := Emit(g3, BrLine(condLabel));
    EmitGrows(g3, BrLine(condLabel), true);
    EmitGrows(g4, LabelLine(condLabel), true);
    GrowsTrans(g, g3, g4, true);
    GrowsTrans(g, g4, Emit(g4, LabelLine(condLabel)), true);
  }

  lemma WhileBranchGrows(testVar: string, bodyLabel: string, endLabel: string, g: Gen)
    requires IsLabelLine(LabelLine(bodyLabel))
    ensures Grows(g, WhileBranch(testVar, bodyLabel, endLabel, g), true)
  {
    var (cond, g1) := FreshVariable(g);
    var g2 := Emit(g1, IcmpLine(cond, testVar));
    var g3 := Emit(g2, CondBrLine(cond, bodyLabel, endLabel));
    CountersGrow(g, g1, true);
    EmitGrows(g1, IcmpLine(cond, testVar), true);
    EmitGrows(g2, CondBrLine(cond, bodyLabel, endLabel), true);
    EmitGrows(g3, LabelLine(bodyLabel), true);
    GrowsTrans(g, g1, g2, true);
    GrowsTrans(g, g2, g3, true);
    GrowsTrans(g, g3, Emit(g3, LabelLine(bodyLabel)), true);
  }

  /** Lowering a statement appends only instructions and labels, never shrinks a
      counter or the constant table, and keeps the table invariant. */
  lemma {:induction false} StmtGrows(s: Stmt, g: Gen)
    requires LowerStmt(s, g).Some?
    ensures Grows(g, LowerStmt(s, g).value, true)
    decreases s, 2
  {
    match s
    case VariableDeclaration(ds) => DeclaratorsGrow(ds, g);
    case ExpressionStatement(e) => ExprGrows(e, g);
    case PrintStatement(arg) => PrintGrows(arg, g);
    case IfStatement(_, _, _) => IfGrows(s, g);
    case WhileStatement(_, _) => WhileGrows(s, g);
    case ForStatement =>
    case BlockStatement(ss) => StmtsGrow(ss, g);
    case ReturnStatement(arg) => ReturnGrows(arg, g);
    case UnknownStatement(tag) =>
      IndentedAppend("  ; Unsupported statement: ", tag);
      EmitGrows(g, "  ; Unsupported statement: " + tag, true);
  }

  lemma {:induction false} IfGrows(s: Stmt, g: Gen)
    requires s.IfStatement? && LowerIf(s, g).Some?
    ensures Grows(g, LowerIf(s, g).value, true)
    decreases s, 1
  {
    var test := LowerExpr(s.test, g).value;
    var head := IfHead(s.alternate.Some?, test.0, test.1);
    IfHeadGrows(s.alternate.Some?, test.0, test.1);
    assert Grows(g, head.3, true) by {
      ExprGrows(s.test, g);
      GrowsTrans(g, test.1, head.3, true);
    }
    var g3 := LowerStmt(s.consequent, head.3).value;
    var g4 := Emit(g3, BrLine(head.2));
    assert Grows(g, g4, true) by {
      StmtGrows(s.consequent, head.3);
      GrowsTrans(g, head.3, g3, true);
      EmitGrows(g3, BrLine(head.2), true);
      GrowsTrans(g, g3, g4, true);
    }
    IfEndGrows(s, head.1, head.2, g4);
    GrowsTrans(g, g4, LowerIf(s, g).value, true);
  }

  /** The part of an `if` after its consequent: the else block, if any, and the end label. */
  lemma {:induction false} IfEndGrows(s: Stmt, elseLabel: string, endLabel: string, g: Gen)
    requires s.IfStatement?
    requires IsLabelLine(LabelLine(endLabel))
    requires s.alternate.Some? ==> IsLabelLine(LabelLine(elseLabel))
    requires s.alternate.Some? ==> LowerStmt(s.alternate.value, Emit(g, LabelLine(elseLabel))).Some?
    ensures var h :=
      match s.alternate
      case None => Emit(g, LabelLine(endLabel))
      case Some(alt) =>
        Emit(Emit(LowerStmt(alt, Emit(g, LabelLine(elseLabel))).value, BrLine(endLabel)), LabelLine(endLabel));
      Grows(g, h, true)
    decreases s, 0
  {
    if s.alternate.None? {
      EmitGrows(g, LabelLine(endLabel), true);
    } else {
      var g1 := Emit(g, LabelLine(elseLabel));
      var g2 := LowerStmt(s.alternate.value, g1).value;
      assert Grows(g, g2, true) by {
        EmitGrows(g, LabelLine(elseLabel), true);
        StmtGrows(s.alternate.value, g1);
        GrowsTrans(g, g1, g2, true);
      }
      var g3 := Emit(g2, BrLine(endLabel));
      assert Grows(g, g3, true) by {
        EmitGrows(g2, BrLine(endLabel), true);
        GrowsTrans(g, g2, g3, true);
      }
      EmitGrows(g3, LabelLine(endLabel), true);
      GrowsTrans(g, g3, Emit(g3, LabelLine(endLabel)), true);
    }
  }

  lemma {:induction false} WhileGrows(s: Stmt, g: Gen)
    requires s.WhileStatement? && LowerWhile(s, g).Some?
    ensures Grows(g, LowerWhile(s, g).value, true)
    decreases s, 0
  {
    var (condLabel, bodyLabel, endLabel, g1) := WhileHead(g);
    WhileHeadGrows(g);
    var (testVar, g2) := LowerExpr(s.test, g1).value;
    ExprGrows(s.test, g1);
    GrowsTrans(g, g1, g2, true);
    var g3 := WhileBranch(testVar, bodyLabel, endLabel, g2);
    WhileBranchGrows(testVar, bodyLabel, endLabel, g2);
    GrowsTrans(g, g2, g3, true);
    var g4 := LowerStmt(s.body, g3).value;
    StmtGrows(s.body, g3);
    GrowsTrans(g, g3, g4, true);
    var g5 := Emit(g4, BrLine(condLabel));
    EmitGrows(g4, BrLine(condLabel), true);
    GrowsTrans(g, g4, g5, true);
    EmitGrows(g5, LabelLine(endLabel), true);
    GrowsTrans(g, g5, Emit(g5, LabelLine(endLabel)), true);
  }

  lemma {:induction false} StmtsGrow(ss: seq<Stmt>, g: Gen)
    requires LowerStmts(ss, g).Some?
    ensures Grows(g, LowerStmts(ss, g).value, true)
    decreases ss
  {
    if ss == [] {
      GrowsRefl(g, true);
    } else {
      var g1 := LowerStmt(ss[0], g).value;
      StmtGrows(ss[0], g);
      StmtsGrow(ss[1..], g1);
      GrowsTrans(g, g1, LowerStmts(ss, g).value, true);
    }
  }

  // ---------------------------------------------------------------------------
  // When lowering throws.

  /** Lowering an expression fails exactly when it reaches a unary expression through
      the operands the generator visits. */
  lemma {:induction false} ExprFailsIff(e: Expr, g: Gen)
    ensures LowerExpr(e, g).None? <==> ExprThrows(e)
  {
    match e
    case BinaryExpression(_, l, r) =>
      ExprFailsIff(l, g);
      if LowerExpr(l, g).Some? {
        ExprFailsIff(r, LowerExpr(l, g).value.1);
      }
    case AssignmentExpression(_, _, r) => ExprFailsIff(r, g);
    case _ =>
  }

  lemma {:induction false} DeclaratorsFailIff(ds: seq<Declarator>, g: Gen)
    ensures LowerDeclarators(ds, g).None? <==> DeclaratorsThrow(ds)
  {
    if ds != [] {
      var d := ds[0];
      var alloc := FreshVariable(g);
      var g2 := Emit(alloc.1, AllocaLine(alloc.0)).(variables := alloc.1.variables[d.id := alloc.0]);
      if d.init.Some? {
        ExprFailsIff(d.init.value, g2);
      }
      if LowerDeclarator(d, g).Some? {
        DeclaratorsFailIff(ds[1..], LowerDeclarator(d, g).value);
        if DeclaratorsThrow(ds[1..]) {
          var i :| 0 <= i < |ds[1..]| && ds[1..][i].init.Some? && ExprThrows(ds[1..][i].init.value);
          assert ds[i + 1] == ds[1..][i];
        }
        if DeclaratorsThrow(ds) {
          var i :| 0 <= i < |ds| && ds[i].init.Some? && ExprThrows(ds[i].init.value);
          assert i != 0;
          assert ds[1..][i - 1] == ds[i];
        }
      }
    }
  }

  /** Lowering a statement fails exactly when it reaches a `for` loop, a unary
      expression, or a print statement without an argument. */
  lemma {:induction false} StmtFailsIff(s: Stmt, g: Gen)
    ensures LowerStmt(s, g).None? <==> StmtThrows(s)
    decreases s, 2
  {
    match s
    case VariableDeclaration(ds) => DeclaratorsFailIff(ds, g);
    case ExpressionStatement(e) => ExprFailsIff(e, g);
    case PrintStatement(arg) =>
      if arg.Some? {
        ExprFailsIff(arg.value, g);
      }
    case IfStatement(_, _, _) => IfFailsIff(s, g);
    case WhileStatement(_, _) => WhileFailsIff(s, g);
    case ForStatement =>
    case BlockStatement(ss) => StmtsFailIff(ss, g);
    case ReturnStatement(arg) =>
      if arg.Some? {
        ExprFailsIff(arg.value, g);
      }
    case UnknownStatement(_) =>
  }

  lemma {:induction false} IfFailsIff(s: Stmt, g: Gen)
    requires s.IfStatement?
    ensures LowerIf(s, g).None? <==> StmtThrows(s)
    decreases s, 1
  {
    ExprFailsIff(s.test, g);
    if LowerExpr(s.test, g).Some? {
      var test := LowerExpr(s.test, g).value;
      var head := IfHead(s.alternate.Some?, test.0, test.1);
      StmtFailsIff(s.consequent, head.3);
      if LowerStmt(s.consequent, head.3).Some? && s.alternate.Some? {
        var g4 := Emit(LowerStmt(s.consequent, head.3).value, BrLine(head.2));
        StmtFailsIff(s.alternate.value, Emit(g4, LabelLine(head.1)));
      }
    }
  }

  lemma {:induction false} WhileFailsIff(s: Stmt, g: Gen)
    requires s.WhileStatement?
    ensures LowerWhile(s, g).None? <==> StmtThrows(s)
    decreases s, 1
  {
    var head := WhileHead(g);
    ExprFailsIff(s.test, head.3);
    if LowerExpr(s.test, head.3).Some? {
      var test := LowerExpr(s.test, head.3).value;
      StmtFailsIff(s.body, WhileBranch(test.0, head.1, head.2, test.1));
    }
  }

  lemma {:induction false} StmtsFailIff(ss: seq<Stmt>, g: Gen)
    ensures LowerStmts(ss, g).None? <==> exists i :: 0 <= i < |ss| && StmtThrows(ss[i])
    decreases ss
  {
    if ss != [] {
      StmtFailsIff(ss[0], g);
      if LowerStmt(ss[0], g).Some? {
        StmtsFailIff(ss[1..], LowerStmt(ss[0], g).value);
        if exists i :: 0 <= i < |ss[1..]| && StmtThrows(ss[1..][i]) {
          var i :| 0 <= i < |ss[1..]| && StmtThrows(ss[1..][i]);
          assert ss[i + 1] == ss[1..][i];
        }
        if exists i :: 0 <= i < |ss| && StmtThrows(ss[i]) {
          var i :| 0 <= i < |ss| && StmtThrows(ss[i]);
          assert i != 0;
          assert ss[1..][i - 1] == ss[i];
        }
      }
    }
  }

  /** `generate` throws (and `generateLLVMIR` reports the failure) exactly when some
      top-level statement reaches a construct without a visitor. */
  lemma GenerateFailsIff(p: Program)
    ensures GenerateIR(p).None? <==> exists i :: 0 <= i < |p.body| && StmtThrows(p.body[i])
  {
    var g0 := Reset.(output := StandardLibrary);
    StmtsFailIff(p.body, Emit(Emit(Emit(g0, ""), "define i32 @main() {"), "entry:"));
  }

  // ---------------------------------------------------------------------------
  // The module `generate` assembles.

  /** The constant section defines the table's entries one per line, in table order. */
  lemma {:induction false} ConstantLinesIndex(entries: seq<(string, string)>, i: nat)
    requires i < |entries|
    ensures ConstantLines(entries)[i] == ConstantLine(entries[i].0, entries[i].1)
  {
    if i < |entries| - 1 {
      ConstantLinesIndex(entries[..|entries| - 1], i);
    }
  }

  /** `visitProgram` opens `main`, lowers the body to instructions and labels only,
      and closes `main`. */
  lemma ProgramLayout(p: Program, g: Gen)
    requires LowerProgram(p, g).Some?
    ensures var h := LowerProgram(p, g).value;
      && |g.output| + 5 <= |h.output|
      && h.output[..|g.output| + 3] == g.output + ["", "define i32 @main() {", "entry:"]
      && (forall i :: |g.output| + 3 <= i < |h.output| - 2 ==>
            Indented(h.output[i]) || IsLabelLine(h.output[i]))
      && h.output[|h.output| - 2..] == ["  ret i32 0", "}"]
      && (Valid(g) ==> Valid(h))
  {
    var g1 := Emit(Emit(Emit(g, ""), "define i32 @main() {"), "entry:");
    var g2 := LowerStmts(p.body, g1).value;
    var h := LowerProgram(p, g).value;
    assert g1.output == g.output + ["", "define i32 @main() {", "entry:"];
    StmtsGrow(p.body, g1);
    assert h.output == g2.output + ["  ret i32 0", "}"];
    assert h.output[..|g1.output|] == g2.output[..|g1.output|];
    forall i | |g1.output| <= i < |h.output| - 2
      ensures Indented(h.output[i]) || IsLabelLine(h.output[i])
    {
      assert h.output[i] == g2.output[i];
    }
  }

  /** The layout of the generated module: the library declarations, the header of
      `main`, only instructions and labels in its body, the closing `ret` and brace, and
      the constant section; the table behind that section holds each string once, the
      i-th under `@.str.i`. */
  lemma GenerateLayout(p: Program)
    requires Generated(p).Some?
    ensures var h := Generated(p).value;
      var section := ConstantSection(h.stringConstants);
      var k := |h.output| - |section|;
      && |StandardLibrary| + 5 <= k
      && h.output[..|StandardLibrary|] == StandardLibrary
      && h.output[|StandardLibrary|..|StandardLibrary| + 3] == ["", "define i32 @main() {", "entry:"]
      && (forall i :: |StandardLibrary| + 3 <= i < k - 2 ==>
            Indented(h.output[i]) || IsLabelLine(h.output[i]))
      && h.output[k - 2..k] == ["  ret i32 0", "}"]
      && h.output[k..] == section
      && Valid(h)
  {
    var g0 := Reset.(output := StandardLibrary);
    var g := LowerProgram(p, g0).value;
    var h := Generated(p).value;
    var section := ConstantSection(h.stringConstants);
    ProgramLayout(p, g0);
    assert Valid(g0);
    assert h.output == g.output + section;
    assert h.output[..|g.output|] == g.output;
    assert h.output[..|StandardLibrary|] == g.output[..|StandardLibrary| + 3][..|StandardLibrary|];
    assert h.output[|StandardLibrary|..|StandardLibrary| + 3]
        == g.output[..|StandardLibrary| + 3][|StandardLibrary|..];
  }

  // ---------------------------------------------------------------------------
  // Behaviour the generator has by construction.

  /** A binary expression always takes one register for its result, after both
      operands; the result is that register exactly when the operator is supported,
      and `"0"` otherwise. */
  lemma CombineTakesOneRegister(op: string, left: string, right: string, g: Gen)
    ensures var (res, h) := CombineOperands(op, left, right, g);
      && h.variableCounter == g.variableCounter + 1
      && |h.output| == |g.output| + 1
      && (BinaryOpcode(op).Some? <==> res == Reg(g.variableCounter))
      && (BinaryOpcode(op).None? <==> res == "0")
  {
    assert Reg(g.variableCounter)[0] == '%';
  }

  /** In `let x = x` the initializer already reads the slot just allocated for `x`. */
  lemma SelfInitializerReadsNewSlot(x: string, g: Gen)
    ensures var c := g.variableCounter;
      LowerDeclarator(Declarator(x, Some(Identifier(x))), g).value.output
        == g.output + [AllocaLine(Reg(c)), LoadLine(Reg(c + 1), Reg(c)), StoreLine(Reg(c + 1), Reg(c))]
  {
  }

  /** Printing a string literal decays the same global twice: once when the argument
      is lowered (that address is unused) and once for `puts`; the string is interned
      once. */
  lemma PrintStringDecaysTwice(text: string, g: Gen)
    ensures var c := g.variableCounter;
      var (global, g1) := Intern(g, text);
      var h := LowerPrint(Some(Literal(StringValue(text))), g).value;
      && h.stringConstants == g1.stringConstants
      && h.variableCounter == c + 2
      && h.output == g.output + [GepLine(Reg(c), Utf16Length(text) + 1, global),
                                 GepLine(Reg(c + 1), Utf16Length(text) + 1, global),
                                 "  call i32 @puts(i8* " + Reg(c + 1) + ")"]
  {
    InternIdempotent(g, text);
  }


  /** The `printf` format holds the four characters `%`, `d`, backslash, `n`: its
      constant is declared as 5 bytes with the backslash escaped, while `printf` is
      passed it through a `[4 x i8]` pointer. */
  lemma FormatConstant(name: string)
    ensures ConstantLine(PrintfFormat, name) == DefinitionLine(name, 5, "%d\\5Cn")
  {
    FormatEscaped();
    FormatBytes();
  }

  lemma FormatEscaped()
    ensures Escape(PrintfFormat) == "%d\\5Cn"
  {
    EscapeIsCharwise(PrintfFormat);
    FormatEscapedEach();
  }

  lemma FormatEscapedEach()
    ensures EscapeEach(PrintfFormat) == "%d\\5Cn"
  {
    EscapeEachCons('n', "");
    EscapeEachCons('\\', "n");
    EscapeEachCons('d', "\\n");
    EscapeEachCons('%', "d\\n");
  }

  lemma EscapeEachCons(c: char, rest: string)
    ensures EscapeEach([c] + rest) == EscapeChar(c) + EscapeEach(rest)
  {
    assert ([c] + rest)[1..] == rest;
  }

  lemma FormatBytes()
    ensures UnitsBytes(Utf16Units(PrintfFormat)) == 4
  {
    var f := PrintfFormat;
    assert f[1..] == "d\\n" && f[1..][1..] == "\\n" && f[1..][1..][1..] == "n";
    assert Utf16Units(f) == [37, 100, 92, 110];
    var u: seq<int> := [37, 100, 92, 110];
    assert u[..3] == [37, 100, 92] && u[..3][..2] == [37, 100] && u[..3][..2][..1] == [37];
    assert UnitsBytes([37]) == 1 by {
      assert [37][..0] == [];
    }
  }

  /** The three labels of a `while` are distinct; control enters the condition block
      by an explicit branch. */
  lemma WhileHeadShape(g: Gen)
    ensures var (condLabel, bodyLabel, endLabel, h) := WhileHead(g);
      && condLabel != bodyLabel && bodyLabel != endLabel && condLabel != endLabel
      && h.output == g.output + [BrLine(condLabel), LabelLine(condLabel)]
      && h.labelCounter == g.labelCounter + 3
  {
    var c := g.labelCounter;
    if LabelName(c) == LabelName(c + 1) { LabelNameInjective(c, c + 1); }
    if LabelName(c + 1) == LabelName(c + 2) { LabelNameInjective(c + 1, c + 2); }
    if LabelName(c) == LabelName(c + 2) { LabelNameInjective(c, c + 2); }
  }

  /** The labels of an `if` are distinct, and a false test branches to the else block
      when there is one and to the end block otherwise. */
  lemma IfHeadShape(hasElse: bool, testVar: string, g: Gen)
    ensures var (thenLabel, elseLabel, endLabel, h) := IfHead(hasElse, testVar, g);
      var c := g.variableCounter;
      && thenLabel != endLabel
      && (hasElse ==> thenLabel != elseLabel && elseLabel != endLabel)
      && h.labelCounter == g.labelCounter + (if hasElse then 3 else 2)
      && h.output == g.output + [IcmpLine(Reg(c), testVar),
                                 CondBrLine(Reg(c), thenLabel, if hasElse then elseLabel else endLabel),
                                 LabelLine(thenLabel)]
  {
    var c := g.labelCounter;
    if LabelName(c) == LabelName(c + 1) { LabelNameInjective(c, c + 1); }
    if LabelName(c + 1) == LabelName(c + 2) { LabelNameInjective(c + 1, c + 2); }
    if LabelName(c) == LabelName(c + 2) { LabelNameInjective(c, c + 2); }
  }

  /** The operator of an assignment is ignored: `x += e` lowers like `x = e`. */
  lemma AssignmentIgnoresOperator(op: string, target: Expr, value: Expr, g: Gen)
    ensures LowerExpr(AssignmentExpression(op, target, value), g)
         == LowerExpr(AssignmentExpression("=", target, value), g)
  {
  }

  /** The arguments of a call are never lowered. */
  lemma CallIgnoresArguments(callee: Expr, args: seq<Expr>, g: Gen)
    ensures LowerExpr(CallExpression(callee, args), g) == LowerExpr(CallExpression(callee, []), g)
  {
  }

  /** An update with an operator other than `++` and `--` loads the variable and stores
      back a register that no instruction defines. */
  lemma UpdateOtherOperatorStoresUndefined(op: string, x: string, prefix: bool, g: Gen)
    requires op != "++" && op != "--" && x in g.variables
    ensures var c := g.variableCounter;
      var slot := g.variables[x];
      var (v, h) := LowerUpdate(op, Identifier(x), prefix, g);
      && h.output == g.output + [LoadLine(Reg(c), slot), StoreLine(Reg(c + 1), slot)]
      && v == (if prefix then Reg(c + 1) else Reg(c))
  {
  }
}
