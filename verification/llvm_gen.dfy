/** The generator object: the fields and methods of `LLVMIRGenerator`, each method
    proved to leave the state (and return the value) that module Lowering specifies.
    A visitor that in the source throws returns `ok == false` here, and its callers
    return at once, as the exception would unwind them. */
module LlvmGen {
  import opened Options
  import Text
  import opened IrStrings
  import opened LlvmAst
  import Lowering
  import Seqs

  class LLVMIRGenerator {
    var output: seq<string>
    var labelCounter: nat
    var variableCounter: nat
    var variables: map<string, string>
    var stringConstants: seq<(string, string)>
    var stringCounter: nat

    /** The fields as one value. */
    function State(): Lowering.Gen
      reads this
    {
      Lowering.Gen(output, labelCounter, variableCounter, variables, stringConstants, stringCounter)
    }

    constructor ()
      ensures State() == Lowering.Reset
    {
      output := [];
      labelCounter := 0;
      variableCounter := 0;
      variables := map[];
      stringConstants := [];
      stringCounter := 0;
    }

    method NewLabel() returns (l: string)
      modifies this
      ensures l == Lowering.LabelName(old(labelCounter))
      ensures State() == old(State()).(labelCounter := old(labelCounter) + 1)
    {
      l := Lowering.LabelName(labelCounter);
      labelCounter := labelCounter + 1;
    }

    method NewVariable() returns (v: string)
      modifies this
      ensures v == Lowering.Reg(old(variableCounter))
      ensures State() == old(State()).(variableCounter := old(variableCounter) + 1)
    {
      v := Lowering.Reg(variableCounter);
      variableCounter := variableCounter + 1;
    }

    method NewStringConstant(str: string) returns (globalName: string)
      modifies this
      ensures (globalName, State()) == Lowering.Intern(old(State()), str)
    {
      var found := Lowering.Lookup(stringConstants, str);
      if found.Some? {
        return found.value;
      }
      globalName := Lowering.GlobalName(stringCounter);
      stringCounter := stringCounter + 1;
      stringConstants := stringConstants + [(str, globalName)];
    }

    method Emit(line: string)
      modifies this`output
      ensures output == old(output) + [line]
    {
      output := output + [line];
    }

    /** One full pass: reset every field, then prologue, `main`, constants. */
    method Generate(ast: Program) returns (ok: bool, text: string)
      modifies this
      ensures ok == Lowering.GenerateIR(ast).Some?
      ensures ok ==> text == Lowering.GenerateIR(ast).value
      ensures ok ==> State() == Lowering.Generated(ast).value
    {
      output := [];
      labelCounter := 0;
      variableCounter := 0;
      variables := map[];
      stringConstants := [];
      stringCounter := 0;
      AddStandardLibrary();
      assert State() == Lowering.Reset.(output := Lowering.StandardLibrary) by {
        assert [] + Lowering.StandardLibrary == Lowering.StandardLibrary;
      }
      ok := VisitProgram(ast);
      if !ok {
        return ok, "";
      }
      AddStringConstants();
      text := Text.Join(output, "\n");
    }

    method AddStandardLibrary()
      modifies this
      ensures State() == old(State()).(output := old(output) + Lowering.StandardLibrary)
    {
      Emit("; Standard library functions");
      Emit("declare i32 @printf(i8*, ...)");
      Emit("declare i32 @scanf(i8*, ...)");
      Emit("declare i8* @malloc(i64)");
      Emit("declare void @free(i8*)");
      Emit("declare i32 @puts(i8*)");
      Emit("");
    }

    method AddStringConstants()
      modifies this`output
      ensures output == old(output) + Lowering.ConstantSection(stringConstants)
    {
      if |stringConstants| > 0 {
        Emit("\n; String constants");
        ghost var header := output;
        for i := 0 to |stringConstants|
          invariant output == header + Lowering.ConstantLines(stringConstants[..i])
        {
          var (str, globalName) := stringConstants[i];
          Lowering.ConstantLinesStep(stringConstants, i);
          Seqs.AppendAssoc(header, Lowering.ConstantLines(stringConstants[..i]),
                           [Lowering.ConstantLine(str, globalName)]);
          EmitConstant(str, globalName);
        }
        assert stringConstants[..|stringConstants|] == stringConstants;
        Seqs.AppendAssoc(old(output), ["\n; String constants"], Lowering.ConstantLines(stringConstants));
      }
    }

    /** The body of the loop of `addStringConstants`: the definition of one constant,
        sized by `getUTF8Length` plus the terminator. */
    method EmitConstant(str: string, globalName: string)
      modifies this`output
      ensures output == old(output) + [Lowering.ConstantLine(str, globalName)]
    {
      var length := GetUTF8Length(str);
      UnitsBytesIsUtf8Length(str);
      length := length + 1;
      Emit(Lowering.DefinitionLine(globalName, length, Escape(str)));
    }

    /** Counts bytes per UTF-16 code unit, by range. */
    method GetUTF8Length(str: string) returns (len: nat)
      ensures len == Utf8Length(str) + 2 * SupplementaryCount(str)
    {
      var units := Utf16Units(str);
      len := 0;
      for i := 0 to |units|
        invariant len == UnitsBytes(units[..i])
      {
        var code := units[i];
        if code < 0x80 {
          len := len + 1;
        } else if code < 0x800 {
          len := len + 2;
        } else if code < 0x10000 {
          len := len + 3;
        } else {
          len := len + 4;
        }
        assert units[..i + 1][..i] == units[..i];
      }
      assert units[..|units|] == units;
      UnitsBytesIsUtf8Length(str);
    }

    method VisitProgram(node: Program) returns (ok: bool)
      modifies this
      ensures ok == Lowering.LowerProgram(node, old(State())).Some?
      ensures ok ==> State() == Lowering.LowerProgram(node, old(State())).value
    {
      Emit("");
      Emit("define i32 @main() {");
      Emit("entry:");
      ghost var entry := State();
      for i := 0 to |node.body|
        invariant Lowering.LowerStmts(node.body, entry) == Lowering.LowerStmts(node.body[i..], State())
      {
        assert node.body[i..][1..] == node.body[i + 1..];
        ok := VisitStatement(node.body[i]);
        if !ok {
          return;
        }
      }
      Emit("  ret i32 0");
      Emit("}");
      ok := true;
    }

    method VisitStatement(node: Stmt) returns (ok: bool)
      modifies this
      decreases node, 1
      ensures ok == Lowering.LowerStmt(node, old(State())).Some?
      ensures ok ==> State() == Lowering.LowerStmt(node, old(State())).value
    {
      match node
      case VariableDeclaration(_) => ok := VisitVariableDeclaration(node);
      case ExpressionStatement(_) => ok := VisitExpressionStatement(node);
      case PrintStatement(_) => ok := VisitPrintStatement(node);
      case IfStatement(_, _, _) => ok := VisitIfStatement(node);
      case WhileStatement(_, _) => ok := VisitWhileStatement(node);
      case ForStatement => ok := false;  // `visitForStatement` is not defined: the call throws
      case BlockStatement(_) => ok := VisitBlockStatement(node);
      case ReturnStatement(_) => ok := VisitReturnStatement(node);
      case UnknownStatement(tag) =>
        Emit("  ; Unsupported statement: " + tag);
        ok := true;
    }

    method VisitVariableDeclaration(node: Stmt) returns (ok: bool)
      requires node.VariableDeclaration?
      modifies this
      ensures ok == Lowering.LowerDeclarators(node.declarations, old(State())).Some?
      ensures ok ==> State() == Lowering.LowerDeclarators(node.declarations, old(State())).value
    {
      var ds := node.declarations;
      for i := 0 to |ds|
        invariant Lowering.LowerDeclarators(ds, old(State())) == Lowering.LowerDeclarators(ds[i..], State())
      {
        assert ds[i..][1..] == ds[i + 1..];
        var declarator := ds[i];
        var llvmVar := NewVariable();
        Emit(Lowering.AllocaLine(llvmVar));
        variables := variables[declarator.id := llvmVar];
        if declarator.init.Some? {
          var valueVar;
          ok, valueVar := VisitExpression(declarator.init.value);
          if !ok {
            return;
          }
          Emit(Lowering.StoreLine(valueVar, llvmVar));
        }
      }
      ok := true;
    }

    method VisitExpressionStatement(node: Stmt) returns (ok: bool)
      requires node.ExpressionStatement?
      modifies this
      ensures ok == Lowering.LowerStmt(node, old(State())).Some?
      ensures ok ==> State() == Lowering.LowerStmt(node, old(State())).value
    {
      var value;
      ok, value := VisitExpression(node.expression);
    }

    method VisitPrintStatement(node: Stmt) returns (ok: bool)
      requires node.PrintStatement?
      modifies this
      ensures ok == Lowering.LowerPrint(node.printed, old(State())).Some?
      ensures ok ==> State() == Lowering.LowerPrint(node.printed, old(State())).value
    {
      if node.printed.None? {
        return false;  // `visitExpression(undefined)` reads `undefined.type` and throws
      }
      var argument := node.printed.value;
      var argVar;
      ok, argVar := VisitExpression(argument);
      if !ok {
        return;
      }
      if IsStringExpression(argument) {
        var strValue := argument.value.s;
        var strGlobal := NewStringConstant(strValue);
        var strPtr := NewVariable();
        Emit(Lowering.GepLine(strPtr, Utf16Length(strValue) + 1, strGlobal));
        Emit("  call i32 @puts(i8* " + strPtr + ")");
      } else {
        var formatStr := NewStringConstant(Lowering.PrintfFormat);
        var formatPtr := NewVariable();
        Emit(Lowering.GepLine(formatPtr, 4, formatStr));
        Emit("  call i32 (i8*, ...) @printf(i8* " + formatPtr + ", i32 " + argVar + ")");
      }
    }

    method VisitIfStatement(node: Stmt) returns (ok: bool)
      requires node.IfStatement?
      modifies this
      decreases node, 0
      ensures ok == Lowering.LowerIf(node, old(State())).Some?
      ensures ok ==> State() == Lowering.LowerIf(node, old(State())).value
    {
      var testVar;
      ok, testVar := VisitExpression(node.test);
      if !ok {
        return;
      }
      var thenLabel, elseLabel, endLabel := BranchOnTest(node.alternate.Some?, testVar);
      ghost var head := State();
      ok := VisitStatement(node.consequent);
      if !ok {
        return;
      }
      Emit(Lowering.BrLine(endLabel));
      ghost var afterThen := State();
      if node.alternate.Some? {
        Emit(Lowering.LabelLine(elseLabel));
        ghost var elseHead := State();
        ok := VisitStatement(node.alternate.value);
        if !ok {
          assert Lowering.LowerStmt(node.alternate.value, elseHead).None?;
          return;
        }
        Emit(Lowering.BrLine(endLabel));
      }
      Emit(Lowering.LabelLine(endLabel));
    }

    /** The labels and the conditional branch `visitIfStatement` emits after its test. */
    method BranchOnTest(hasElse: bool, testVar: string) returns (thenLabel: string, elseLabel: string, endLabel: string)
      modifies this
      ensures (thenLabel, elseLabel, endLabel, State()) == Lowering.IfHead(hasElse, testVar, old(State()))
    {
      thenLabel := NewLabel();
      elseLabel := "";
      if hasElse {
        elseLabel := NewLabel();
      }
      endLabel := NewLabel();
      var condVar := NewVariable();
      Emit(Lowering.IcmpLine(condVar, testVar));
      if hasElse {
        Emit(Lowering.CondBrLine(condVar, thenLabel, elseLabel));
      } else {
        Emit(Lowering.CondBrLine(condVar, thenLabel, endLabel));
      }
      Emit(Lowering.LabelLine(thenLabel));
    }

    method VisitWhileStatement(node: Stmt) returns (ok: bool)
      requires node.WhileStatement?
      modifies this
      decreases node, 0
      ensures ok == Lowering.LowerWhile(node, old(State())).Some?
      ensures ok ==> State() == Lowering.LowerWhile(node, old(State())).value
    {
      var condLabel := NewLabel();
      var bodyLabel := NewLabel();
      var endLabel := NewLabel();
      Emit(Lowering.BrLine(condLabel));
      Emit(Lowering.LabelLine(condLabel));
      assert (condLabel, bodyLabel, endLabel, State()) == Lowering.WhileHead(old(State()));
      var testVar;
      ok, testVar := VisitExpression(node.test);
      if !ok {
        return;
      }
      ghost var afterTest := State();
      var condVar := NewVariable();
      Emit(Lowering.IcmpLine(condVar, testVar));
      Emit(Lowering.CondBrLine(condVar, bodyLabel, endLabel));
      Emit(Lowering.LabelLine(bodyLabel));
      assert State() == Lowering.WhileBranch(testVar, bodyLabel, endLabel, afterTest);
      ok := VisitStatement(node.body);
      if !ok {
        return;
      }
      Emit(Lowering.BrLine(condLabel));
      Emit(Lowering.LabelLine(endLabel));
    }

    method VisitBlockStatement(node: Stmt) returns (ok: bool)
      requires node.BlockStatement?
      modifies this
      decreases node, 0
      ensures ok == Lowering.LowerStmts(node.statements, old(State())).Some?
      ensures ok ==> State() == Lowering.LowerStmts(node.statements, old(State())).value
    {
      var ss := node.statements;
      for i := 0 to |ss|
        invariant Lowering.LowerStmts(ss, old(State())) == Lowering.LowerStmts(ss[i..], State())
      {
        assert ss[i..][1..] == ss[i + 1..];
        ok := VisitStatement(ss[i]);
        if !ok {
          return;
        }
      }
      ok := true;
    }

    method VisitReturnStatement(node: Stmt) returns (ok: bool)
      requires node.ReturnStatement?
      modifies this
      ensures ok == Lowering.LowerReturn(node.returned, old(State())).Some?
      ensures ok ==> State() == Lowering.LowerReturn(node.returned, old(State())).value
    {
      if node.returned.Some? {
        var valueVar;
        ok, valueVar := VisitExpression(node.returned.value);
        if !ok {
          return;
        }
        Emit("  ret i32 " + valueVar);
      } else {
        Emit("  ret i32 0");
        ok := true;
      }
    }

    method VisitExpression(node: Expr) returns (ok: bool, v: string)
      modifies this
      decreases node, 1
      ensures ok == Lowering.LowerExpr(node, old(State())).Some?
      ensures ok ==> (v, State()) == Lowering.LowerExpr(node, old(State())).value
    {
      match node
      case Literal(_) => v := VisitLiteral(node); ok := true;
      case Identifier(_) => v := VisitIdentifier(node); ok := true;
      case BinaryExpression(_, _, _) => ok, v := VisitBinaryExpression(node);
      case UnaryExpression(_, _) => ok, v := false, "";  // `visitUnaryExpression` is not defined
      case AssignmentExpression(_, _, _) => ok, v := VisitAssignmentExpression(node);
      case UpdateExpression(_, _, _) => v := VisitUpdateExpression(node); ok := true;
      case CallExpression(_, _) => v := VisitCallExpression(node); ok := true;
      case UnknownExpression(tag) =>
        Emit("  ; Unsupported expression: " + tag);
        ok, v := true, "0";
    }

    method VisitLiteral(node: Expr) returns (v: string)
      requires node.Literal?
      modifies this
      ensures (v, State()) == Lowering.LowerLiteral(node.value, old(State()))
    {
      match node.value
      case NumberValue(n) => v := Text.IntToString(n);
      case StringValue(s) =>
        var strGlobal := NewStringConstant(s);
        v := NewVariable();
        Emit(Lowering.GepLine(v, Utf16Length(s) + 1, strGlobal));
      case BooleanValue(b) => v := if b then "1" else "0";
      case OtherValue => v := "0";
    }

    method VisitIdentifier(node: Expr) returns (v: string)
      requires node.Identifier?
      modifies this
      ensures (v, State()) == Lowering.LowerIdentifier(node.name, old(State()))
    {
      if node.name in variables {
        var slot := variables[node.name];
        v := NewVariable();
        Emit(Lowering.LoadLine(v, slot));
      } else {
        Emit("  ; Undefined variable: " + node.name);
        v := "0";
      }
    }

    method VisitBinaryExpression(node: Expr) returns (ok: bool, v: string)
      requires node.BinaryExpression?
      modifies this
      decreases node, 0
      ensures ok == Lowering.LowerExpr(node, old(State())).Some?
      ensures ok ==> (v, State()) == Lowering.LowerExpr(node, old(State())).value
    {
      var leftVar, rightVar;
      ok, leftVar := VisitExpression(node.left);
      if !ok {
        return false, "";
      }
      ok, rightVar := VisitExpression(node.right);
      if !ok {
        return false, "";
      }
      var resultVar := NewVariable();
      var opcode := Lowering.BinaryOpcode(node.operator);
      if opcode.None? {
        Emit("  ; Unsupported operator: " + node.operator);
        return true, "0";
      }
      Emit("  " + resultVar + " = " + opcode.value + " i32 " + leftVar + ", " + rightVar);
      v := resultVar;
    }

    method VisitAssignmentExpression(node: Expr) returns (ok: bool, v: string)
      requires node.AssignmentExpression?
      modifies this
      decreases node, 0
      ensures ok == Lowering.LowerExpr(node, old(State())).Some?
      ensures ok ==> (v, State()) == Lowering.LowerExpr(node, old(State())).value
    {
      ok, v := VisitExpression(node.right);
      if !ok {
        return;
      }
      if node.left.Identifier? {
        if node.left.name in variables {
          Emit(Lowering.StoreLine(v, variables[node.left.name]));
        } else {
          Emit("  ; Undefined variable in assignment: " + node.left.name);
        }
      }
    }

    method VisitUpdateExpression(node: Expr) returns (v: string)
      requires node.UpdateExpression?
      modifies this
      ensures (v, State()) == Lowering.LowerUpdate(node.operator, node.argument, node.prefix, old(State()))
    {
      if node.argument.Identifier? && node.argument.name in variables {
        var slot := variables[node.argument.name];
        var currentVar := NewVariable();
        var resultVar := NewVariable();
        Emit(Lowering.LoadLine(currentVar, slot));
        if node.operator == "++" {
          Emit("  " + resultVar + " = add i32 " + currentVar + ", 1");
        } else if node.operator == "--" {
          Emit("  " + resultVar + " = sub i32 " + currentVar + ", 1");
        }
        Emit(Lowering.StoreLine(resultVar, slot));
        v := if node.prefix then resultVar else currentVar;
      } else {
        v := "0";
      }
    }

    method VisitCallExpression(node: Expr) returns (v: string)
      requires node.CallExpression?
      modifies this
      ensures (v, State()) == Lowering.LowerExpr(node, old(State())).value
    {
      Emit("  ; Function call not fully implemented: " + Lowering.CalleeName(node.callee));
      v := "0";
    }
  }
}
