/** The shape of what each visitor emits: the order in which a construct lowers its
    parts, the lines it adds around them, the registers and labels it takes and the
    value it yields. */
module LoweringShape {
  import opened Options
  import opened Text
  import opened IrStrings
  import opened LlvmAst
  import opened Lowering
  import opened LoweringProps

  /** The lines lowering added between state `g` and the later state `h`. */
  function Added(g: Gen, h: Gen): seq<string> {
    if |g.output| <= |h.output| then h.output[|g.output|..] else []
  }

  lemma AddedSplit(g: Gen, h: Gen)
    requires Extends(g, h)
    ensures h.output == g.output + Added(g, h)
  {
  }

  /** A comment line inside a basic block. */
  predicate IsComment(line: string) {
    |line| >= 3 && line[0] == ' ' && line[1] == ' ' && line[2] == ';'
  }

  // ---------------------------------------------------------------------------
  // Expressions.

  /** Lowering an expression never changes which variables are bound, nor their slots,
      and takes no label. */
  lemma {:induction false} ExprKeepsVariables(e: Expr, g: Gen)
    requires LowerExpr(e, g).Some?
    ensures LowerExpr(e, g).value.1.variables == g.variables
    ensures LowerExpr(e, g).value.1.labelCounter == g.labelCounter
  {
    match e
    case BinaryExpression(_, l, r) =>
      ExprKeepsVariables(l, g);
      ExprKeepsVariables(r, LowerExpr(l, g).value.1);
    case AssignmentExpression(_, _, r) =>
      ExprKeepsVariables(r, g);
    case _ =>
  }

  /** A bound identifier is loaded from its slot into one fresh register; an unbound one
      takes no register, adds one comment and yields `0`. Nothing else changes. */
  lemma IdentifierShape(name: string, g: Gen)
    ensures LowerExpr(Identifier(name), g).Some?
    ensures var (v, h) := LowerExpr(Identifier(name), g).value;
      && h.variables == g.variables && h.labelCounter == g.labelCounter
      && h.stringConstants == g.stringConstants && h.stringCounter == g.stringCounter
      && |h.output| == |g.output| + 1 && h.output[..|g.output|] == g.output
      && (name in g.variables ==>
            && v == Reg(g.variableCounter) && h.variableCounter == g.variableCounter + 1
            && h.output[|g.output|] == LoadLine(v, g.variables[name]))
      && (name !in g.variables ==>
            && v == "0" && h.variableCounter == g.variableCounter
            && IsComment(h.output[|g.output|]))
  {
    var h := LowerIdentifier(name, g).1;
    assert h.output[..|g.output|] == g.output;
    if name !in g.variables {
      UndefinedIsComment(name);
    }
  }

  lemma UndefinedIsComment(name: string)
    ensures IsComment("  ; Undefined variable: " + name)
  {
  }

  /** A binary expression lowers its left operand completely, then its right operand
      from the state the left one leaves, and only then takes its result register and
      adds the one line of the operator. */
  lemma BinaryShape(op: string, l: Expr, r: Expr, g: Gen)
    ensures LowerExpr(BinaryExpression(op, l, r), g).Some?
        <==> LowerExpr(l, g).Some? && LowerExpr(r, LowerExpr(l, g).value.1).Some?
    ensures LowerExpr(BinaryExpression(op, l, r), g).Some? ==>
      var (lv, g1) := LowerExpr(l, g).value;
      var (rv, g2) := LowerExpr(r, g1).value;
      var (v, h) := LowerExpr(BinaryExpression(op, l, r), g).value;
      var res := Reg(g2.variableCounter);
      && g.variableCounter <= g1.variableCounter <= g2.variableCounter
      && h.variableCounter == g2.variableCounter + 1
      && h.output == g.output + Added(g, g1) + Added(g1, g2)
           + [match BinaryOpcode(op)
              case Some(code) => "  " + res + " = " + code + " i32 " + lv + ", " + rv
              case None => "  ; Unsupported operator: " + op]
      && v == (if BinaryOpcode(op).Some? then res else "0")
  {
    if LowerExpr(BinaryExpression(op, l, r), g).Some? {
      var (lv, g1) := LowerExpr(l, g).value;
      var (rv, g2) := LowerExpr(r, g1).value;
      ExprGrows(l, g);
      ExprGrows(r, g1);
      AddedSplit(g, g1);
      AddedSplit(g1, g2);
    }
  }

  /** An assignment lowers its right-hand side and yields that value. It then stores
      the value into the slot of an identifier target that is bound, adds a comment for
      an identifier that is not, and adds nothing for any other target. */
  lemma AssignmentShape(op: string, target: Expr, r: Expr, g: Gen)
    ensures LowerExpr(AssignmentExpression(op, target, r), g).Some? <==> LowerExpr(r, g).Some?
    ensures LowerExpr(r, g).Some? ==>
      var (v, g1) := LowerExpr(r, g).value;
      var (w, h) := LowerExpr(AssignmentExpression(op, target, r), g).value;
      && w == v
      && h.variables == g.variables
      && h.variableCounter == g1.variableCounter && h.labelCounter == g1.labelCounter
      && h.stringConstants == g1.stringConstants
      && h.output == g1.output
           + (if target.Identifier? && target.name in g.variables
              then [StoreLine(v, g.variables[target.name])]
              else if target.Identifier?
              then ["  ; Undefined variable in assignment: " + target.name]
              else [])
  {
    if LowerExpr(r, g).Some? {
      ExprKeepsVariables(r, g);
    }
  }

  /** `++` and `--` on a bound variable load the old value, compute the new one in a
      second register and store it back; the expression yields the new value when the
      operator is a prefix and the old one when it is a postfix. Any other target yields
      `0` and changes nothing. */
  lemma UpdateShape(op: string, target: Expr, prefix: bool, g: Gen)
    ensures LowerExpr(UpdateExpression(op, target, prefix), g).Some?
    ensures var (v, h) := LowerExpr(UpdateExpression(op, target, prefix), g).value;
      && (!(target.Identifier? && target.name in g.variables) ==> v == "0" && h == g)
      && (target.Identifier? && target.name in g.variables && (op == "++" || op == "--") ==>
            var c := g.variableCounter;
            var slot := g.variables[target.name];
            && h.output == g.output + [LoadLine(Reg(c), slot), StepLine(op, c), StoreLine(Reg(c + 1), slot)]
            && h.variableCounter == c + 2 && h.variables == g.variables
            && v == (if prefix then Reg(c + 1) else Reg(c)))
  {
    if target.Identifier? && target.name in g.variables && (op == "++" || op == "--") {
      UpdateStep(op, target, prefix, g);
    }
  }

  /** The line computing the new value of `++` or `--` from the old value in `Reg(c)`
      into `Reg(c + 1)`. */
  function StepLine(op: string, c: nat): string {
    "  " + Reg(c + 1) + (if op == "++" then " = add i32 " else " = sub i32 ") + Reg(c) + ", 1"
  }

  lemma UpdateStep(op: string, target: Expr, prefix: bool, g: Gen)
    requires target.Identifier? && target.name in g.variables && (op == "++" || op == "--")
    ensures var c := g.variableCounter;
      var slot := g.variables[target.name];
      var (v, h) := LowerUpdate(op, target, prefix, g);
      && h.output == g.output + [LoadLine(Reg(c), slot), StepLine(op, c), StoreLine(Reg(c + 1), slot)]
      && h.variableCounter == c + 2 && h.variables == g.variables
      && v == (if prefix then Reg(c + 1) else Reg(c))
  {
    var c := g.variableCounter;
    if op == "++" {
      assert StepLine(op, c) == "  " + Reg(c + 1) + " = add i32 " + Reg(c) + ", 1";
    } else {
      assert StepLine(op, c) == "  " + Reg(c + 1) + " = sub i32 " + Reg(c) + ", 1";
    }
  }

  // ---------------------------------------------------------------------------
  // Statements.

  /** A declarator allocates a fresh slot, binds its name to that slot (replacing any
      earlier binding of the same name and keeping the others), and, when there is an
      initializer, lowers it after the binding and stores its value into the slot. */
  lemma DeclaratorShape(d: Declarator, g: Gen)
    ensures var slot := Reg(g.variableCounter);
      var g2 := g.(output := g.output + [AllocaLine(slot)],
                   variableCounter := g.variableCounter + 1,
                   variables := g.variables[d.id := slot]);
      match d.init
      case None => LowerDeclarator(d, g) == Some(g2)
      case Some(e) =>
        && (LowerDeclarator(d, g).Some? <==> LowerExpr(e, g2).Some?)
        && (LowerExpr(e, g2).Some? ==>
              var (v, g3) := LowerExpr(e, g2).value;
              var h := LowerDeclarator(d, g).value;
              && h.output == g2.output + Added(g2, g3) + [StoreLine(v, slot)]
              && h.variables == g.variables[d.id := slot])
  {
    var slot := Reg(g.variableCounter);
    var g2 := g.(output := g.output + [AllocaLine(slot)],
                 variableCounter := g.variableCounter + 1,
                 variables := g.variables[d.id := slot]);
    assert Emit(FreshVariable(g).1, AllocaLine(slot)).(variables := g.variables[d.id := slot]) == g2;
    if d.init.Some? && LowerExpr(d.init.value, g2).Some? {
      ExprGrows(d.init.value, g2);
      AddedSplit(g2, LowerExpr(d.init.value, g2).value.1);
      ExprKeepsVariables(d.init.value, g2);
    }
  }

  /** A return lowers its argument, if any, and then appends the `ret` of its value, or
      of 0 without an argument; it fails exactly when the argument does, and binds no
      variable. */
  lemma ReturnShape(arg: Option<Expr>, g: Gen)
    ensures LowerReturn(arg, g).Some? <==> arg.None? || LowerExpr(arg.value, g).Some?
    ensures arg.None? ==> LowerReturn(arg, g).value == g.(output := g.output + ["  ret i32 0"])
    ensures arg.Some? && LowerExpr(arg.value, g).Some? ==>
      var (v, g1) := LowerExpr(arg.value, g).value;
      var h := LowerReturn(arg, g).value;
      && h.output == g.output + Added(g, g1) + ["  ret i32 " + v]
      && h.variables == g.variables && h.labelCounter == g.labelCounter
  {
    if arg.Some? && LowerExpr(arg.value, g).Some? {
      ExprGrows(arg.value, g);
      ExprKeepsVariables(arg.value, g);
      AddedSplit(g, LowerExpr(arg.value, g).value.1);
    }
  }

  /** A print lowers its argument first. A string literal is then interned and decayed
      once more for `puts`; any other argument interns the `printf` format, decays it
      through a `[4 x i8]` pointer and passes it to `printf` with the argument's value.
      The constant table then maps the printed text or the format to the global used. */
  lemma PrintShape(e: Expr, g: Gen)
    ensures LowerPrint(Some(e), g).Some? <==> LowerExpr(e, g).Some?
    ensures LowerExpr(e, g).Some? ==>
      var (v, g1) := LowerExpr(e, g).value;
      var h := LowerPrint(Some(e), g).value;
      var c := g1.variableCounter;
      var text := if IsStringExpression(e) then e.value.s else PrintfFormat;
      var global := Intern(g1, text).0;
      && Lookup(h.stringConstants, text) == Some(global)
      && h.variableCounter == c + 1
      && h.output == g.output + Added(g, g1)
           + (if IsStringExpression(e)
              then [GepLine(Reg(c), Utf16Length(text) + 1, global),
                    "  call i32 @puts(i8* " + Reg(c) + ")"]
              else [GepLine(Reg(c), 4, global),
                    "  call i32 (i8*, ...) @printf(i8* " + Reg(c) + ", i32 " + v + ")"])
  {
    if LowerExpr(e, g).Some? {
      var (v, g1) := LowerExpr(e, g).value;
      var text := if IsStringExpression(e) then e.value.s else PrintfFormat;
      ExprGrows(e, g);
      AddedSplit(g, g1);
      InternFinds(g1, text);
    }
  }

  /** After interning, the table maps the string to the global interning returned. */
  lemma InternFinds(g: Gen, s: string)
    ensures Lookup(Intern(g, s).1.stringConstants, s) == Some(Intern(g, s).0)
  {
    if Lookup(g.stringConstants, s).None? {
      LookupAppendNew(g.stringConstants, s, GlobalName(g.stringCounter));
    }
  }

  /** An `if` lays out its blocks in source order: the test's instructions, the compare
      and the conditional branch, the then block closed by a jump to the end label, the
      else block (when there is one) opened by its label and closed by the same jump,
      and the end label last. The test adds no label, so the compare and the branch end
      the block the test is in. */
  lemma IfShape(s: Stmt, g: Gen)
    requires s.IfStatement? && LowerIf(s, g).Some?
    ensures var (testVar, g1) := LowerExpr(s.test, g).value;
      var c := g1.variableCounter;
      var l := g1.labelCounter;
      var hasElse := s.alternate.Some?;
      var (thenLabel, elseLabel, endLabel, g2) := IfHead(hasElse, testVar, g1);
      var g3 := LowerStmt(s.consequent, g2).value;
      var g4 := Emit(Emit(g3, BrLine(endLabel)), LabelLine(elseLabel));
      var h := LowerIf(s, g).value;
      && thenLabel == LabelName(l) && endLabel == LabelName(if hasElse then l + 2 else l + 1)
      && (hasElse ==> elseLabel == LabelName(l + 1))
      && thenLabel != endLabel && (hasElse ==> thenLabel != elseLabel && elseLabel != endLabel)
      && (forall i :: 0 <= i < |Added(g, g1)| ==> Indented(Added(g, g1)[i]))
      && h.output == g.output + Added(g, g1)
           + [IcmpLine(Reg(c), testVar),
              CondBrLine(Reg(c), thenLabel, if hasElse then elseLabel else endLabel),
              LabelLine(thenLabel)]
           + Added(g2, g3) + [BrLine(endLabel)]
           + (if hasElse
              then [LabelLine(elseLabel)] + Added(g4, LowerStmt(s.alternate.value, g4).value)
                   + [BrLine(endLabel)]
              else [])
           + [LabelLine(endLabel)]
  {
    var (testVar, g1) := LowerExpr(s.test, g).value;
    var hasElse := s.alternate.Some?;
    var (thenLabel, elseLabel, endLabel, g2) := IfHead(hasElse, testVar, g1);
    IfHeadShape(hasElse, testVar, g1);
    ExprGrows(s.test, g);
    AddedSplit(g, g1);
    var g3 := LowerStmt(s.consequent, g2).value;
    StmtGrows(s.consequent, g2);
    AddedSplit(g2, g3);
    if hasElse {
      var g4 := Emit(Emit(g3, BrLine(endLabel)), LabelLine(elseLabel));
      var g5 := LowerStmt(s.alternate.value, g4).value;
      StmtGrows(s.alternate.value, g4);
      AddedSplit(g4, g5);
    }
  }

  /** A `while` lays out its blocks in order: a jump into the condition block; that
      block holds the test's instructions and ends with the compare against 0 and the
      branch to the body or the end; the body block ends with the jump back to the
      condition; the end label comes last. */
  lemma WhileShape(s: Stmt, g: Gen)
    requires s.WhileStatement? && LowerWhile(s, g).Some?
    ensures var l := g.labelCounter;
      var (condLabel, bodyLabel, endLabel, g1) := WhileHead(g);
      var (testVar, g2) := LowerExpr(s.test, g1).value;
      var c := g2.variableCounter;
      var g3 := WhileBranch(testVar, bodyLabel, endLabel, g2);
      var g4 := LowerStmt(s.body, g3).value;
      && condLabel == LabelName(l) && bodyLabel == LabelName(l + 1) && endLabel == LabelName(l + 2)
      && condLabel != bodyLabel && bodyLabel != endLabel && condLabel != endLabel
      && (forall i :: 0 <= i < |Added(g1, g2)| ==> Indented(Added(g1, g2)[i]))
      && LowerWhile(s, g).value.output
           == g.output + [BrLine(condLabel), LabelLine(condLabel)] + Added(g1, g2)
              + [IcmpLine(Reg(c), testVar), CondBrLine(Reg(c), bodyLabel, endLabel),
                 LabelLine(bodyLabel)]
              + Added(g3, g4) + [BrLine(condLabel), LabelLine(endLabel)]
  {
    var (condLabel, bodyLabel, endLabel, g1) := WhileHead(g);
    WhileHeadShape(g);
    var (testVar, g2) := LowerExpr(s.test, g1).value;
    assert Grows(g1, g2, false) by {
      ExprGrows(s.test, g1);
    }
    AddedSplit(g1, g2);
    var g3 := WhileBranch(testVar, bodyLabel, endLabel, g2);
    var c := g2.variableCounter;
    assert g3.output == g2.output + [IcmpLine(Reg(c), testVar), CondBrLine(Reg(c), bodyLabel, endLabel),
                                     LabelLine(bodyLabel)];
    var g4 := LowerStmt(s.body, g3).value;
    assert Extends(g3, g4) by {
      StmtGrows(s.body, g3);
    }
    AddedSplit(g3, g4);
    assert LowerWhile(s, g).value.output == g4.output + [BrLine(condLabel), LabelLine(endLabel)];
  }
}
