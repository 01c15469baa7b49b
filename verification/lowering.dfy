/** The lowering pass of `LLVMIRGenerator` as functions over the generator's state.
    Each function returns what the corresponding visitor returns together with the
    state the visitor leaves behind; `None` is a thrown error (an undefined visitor
    was called). The class in module LlvmGen is proved to compute exactly these. */
module Lowering {
  import opened Options
  import opened Text
  import opened IrStrings
  import opened LlvmAst

  /** The generator's fields: the output lines, the three counters, the symbol table
      (source name to the register holding its stack slot) and the string-constant
      table, a JavaScript `Map` kept as its entries in insertion order. */
  datatype Gen = Gen(
    output: seq<string>,
    labelCounter: nat,
    variableCounter: nat,
    variables: map<string, string>,
    stringConstants: seq<(string, string)>,
    stringCounter: nat)

  /** The state `generate` starts from, whatever a previous pass left. */
  const Reset := Gen([], 0, 0, map[], [], 0)

  function Reg(n: nat): string { "%" + NatToString(n) }
  function LabelName(n: nat): string { "label" + NatToString(n) }
  function GlobalName(n: nat): string { "@.str." + NatToString(n) }

  /** `newVariable`. */
  function FreshVariable(g: Gen): (string, Gen) {
    (Reg(g.variableCounter), g.(variableCounter := g.variableCounter + 1))
  }

  /** `newLabel`. */
  function FreshLabel(g: Gen): (string, Gen) {
    (LabelName(g.labelCounter), g.(labelCounter := g.labelCounter + 1))
  }

  /** `emit`. */
  function Emit(g: Gen, line: string): Gen {
    g.(output := g.output + [line])
  }

  /** `Map.prototype.get` on the entries of the constant table. */
  function Lookup(entries: seq<(string, string)>, key: string): Option<string> {
    if entries == [] then None
    else if entries[0].0 == key then Some(entries[0].1)
    else Lookup(entries[1..], key)
  }

  /** `newStringConstant`. */
  function Intern(g: Gen, s: string): (string, Gen) {
    match Lookup(g.stringConstants, s)
    case Some(name) => (name, g)
    case None =>
      var name := GlobalName(g.stringCounter);
      (name, g.(stringConstants := g.stringConstants + [(s, name)],
                stringCounter := g.stringCounter + 1))
  }

  /** The invariant of the constant table: one entry per distinct string, the i-th
      entry named `@.str.i`, and the counter equal to the number of entries. */
  predicate Valid(g: Gen) {
    && g.stringCounter == |g.stringConstants|
    && (forall i :: 0 <= i < |g.stringConstants| ==> g.stringConstants[i].1 == GlobalName(i))
    && (forall i, j :: 0 <= i < j < |g.stringConstants| ==>
          g.stringConstants[i].0 != g.stringConstants[j].0)
  }

  // ---------------------------------------------------------------------------
  // The instruction lines the visitors emit.

  /** The `printf` format: the four characters `%`, `d`, backslash, `n`. */
  const PrintfFormat := "%d\\n"

  function GepLine(ptr: string, size: nat, global: string): string {
    "  " + ptr + " = getelementptr inbounds [" + NatToString(size) + " x i8], ["
      + NatToString(size) + " x i8]* " + global + ", i64 0, i64 0"
  }
  function LoadLine(reg: string, slot: string): string {
    "  " + reg + " = load i32, i32* " + slot + ", align 4"
  }
  function StoreLine(value: string, slot: string): string {
    "  store i32 " + value + ", i32* " + slot + ", align 4"
  }
  function AllocaLine(reg: string): string {
    "  " + reg + " = alloca i32, align 4"
  }
  function IcmpLine(cond: string, value: string): string {
    "  " + cond + " = icmp ne i32 " + value + ", 0"
  }
  function CondBrLine(cond: string, ifTrue: string, ifFalse: string): string {
    "  br i1 " + cond + ", label %" + ifTrue + ", label %" + ifFalse
  }
  function BrLine(target: string): string {
    "  br label %" + target
  }
  function LabelLine(name: string): string {
    name + ":"
  }

  /** The instruction each supported binary operator becomes. */
  function BinaryOpcode(op: string): Option<string> {
    if op == "+" then Some("add")
    else if op == "-" then Some("sub")
    else if op == "*" then Some("mul")
    else if op == "/" then Some("sdiv")
    else if op == "%" then Some("srem")
    else if op == "<" then Some("icmp slt")
    else if op == ">" then Some("icmp sgt")
    else if op == "<=" then Some("icmp sle")
    else if op == ">=" then Some("icmp sge")
    else if op == "==" then Some("icmp eq")
    else if op == "!=" then Some("icmp ne")
    else if op == "&&" then Some("and")
    else if op == "||" then Some("or")
    else None
  }

  // ---------------------------------------------------------------------------
  // Expressions: `visitExpression` and the visitors it dispatches to.

  /** `visitLiteral`. A string literal is interned and decayed to a pointer; the GEP
      type uses the string's UTF-16 length plus one. */
  function LowerLiteral(v: LitValue, g: Gen): (string, Gen) {
    match v
    case NumberValue(n) => (IntToString(n), g)
    case StringValue(s) =>
      var (global, g1) := Intern(g, s);
      var (ptr, g2) := FreshVariable(g1);
      (ptr, Emit(g2, GepLine(ptr, Utf16Length(s) + 1, global)))
    case BooleanValue(b) => (if b then "1" else "0", g)
    case OtherValue => ("0", g)
  }

  /** `visitIdentifier`. */
  function LowerIdentifier(name: string, g: Gen): (string, Gen) {
    if name in g.variables then
      var (reg, g1) := FreshVariable(g);
      (reg, Emit(g1, LoadLine(reg, g.variables[name])))
    else
      ("0", Emit(g, "  ; Undefined variable: " + name))
  }

  /** The part of `visitBinaryExpression` after both operands are lowered: the result
      register is taken before the operator is looked at. */
  function CombineOperands(op: string, left: string, right: string, g: Gen): (string, Gen) {
    var (res, g1) := FreshVariable(g);
    match BinaryOpcode(op)
    case Some(code) => (res, Emit(g1, "  " + res + " = " + code + " i32 " + left + ", " + right))
    case None => ("0", Emit(g1, "  ; Unsupported operator: " + op))
  }

  /** The store of `visitAssignmentExpression`, once the right-hand side is lowered. */
  function StoreAssigned(target: Expr, value: string, g: Gen): Gen {
    if target.Identifier? then
      if target.name in g.variables then Emit(g, StoreLine(value, g.variables[target.name]))
      else Emit(g, "  ; Undefined variable in assignment: " + target.name)
    else g
  }

  /** `visitUpdateExpression`. */
  function LowerUpdate(op: string, target: Expr, prefix: bool, g: Gen): (string, Gen) {
    if target.Identifier? && target.name in g.variables then
      var slot := g.variables[target.name];
      var (current, g1) := FreshVariable(g);
      var (result, g2) := FreshVariable(g1);
      var g3 := Emit(g2, LoadLine(current, slot));
      var g4 :=
        if op == "++" then Emit(g3, "  " + result + " = add i32 " + current + ", 1")
        else if op == "--" then Emit(g3, "  " + result + " = sub i32 " + current + ", 1")
        else g3;
      (if prefix then result else current, Emit(g4, StoreLine(result, slot)))
    else
      ("0", g)
  }

  /** `node.callee.name || 'unknown'`. */
  function CalleeName(callee: Expr): string {
    if callee.Identifier? && callee.name != "" then callee.name else "unknown"
  }

  /** `visitExpression`. */
  function LowerExpr(e: Expr, g: Gen): Option<(string, Gen)> {
    match e
    case Literal(v) => Some(LowerLiteral(v, g))
    case Identifier(name) => Some(LowerIdentifier(name, g))
    case BinaryExpression(op, l, r) =>
      (match LowerExpr(l, g)
       case None => None
       case Some((lv, g1)) =>
         match LowerExpr(r, g1)
         case None => None
         case Some((rv, g2)) => Some(CombineOperands(op, lv, rv, g2)))
    case UnaryExpression(_, _) => None
    case AssignmentExpression(_, target, r) =>
      (match LowerExpr(r, g)
       case None => None
       case Some((v, g1)) => Some((v, StoreAssigned(target, v, g1))))
    case UpdateExpression(op, target, prefix) => Some(LowerUpdate(op, target, prefix, g))
    case CallExpression(callee, _) =>
      Some(("0", Emit(g, "  ; Function call not fully implemented: " + CalleeName(callee))))
    case UnknownExpression(tag) => Some(("0", Emit(g, "  ; Unsupported expression: " + tag)))
  }

  // ---------------------------------------------------------------------------
  // Statements.

  /** One iteration of `visitVariableDeclaration`: the binding is made before the
      initializer is lowered, so the initializer already sees the new slot. */
  function LowerDeclarator(d: Declarator, g: Gen): Option<Gen> {
    var (slot, g1) := FreshVariable(g);
    var g2 := Emit(g1, AllocaLine(slot)).(variables := g1.variables[d.id := slot]);
    match d.init
    case None => Some(g2)
    case Some(e) =>
      match LowerExpr(e, g2)
      case None => None
      case Some((v, g3)) => Some(Emit(g3, StoreLine(v, slot)))
  }

  /** `visitVariableDeclaration`. */
  function LowerDeclarators(ds: seq<Declarator>, g: Gen): Option<Gen> {
    if ds == [] then Some(g)
    else
      match LowerDeclarator(ds[0], g)
      case None => None
      case Some(g1) => LowerDeclarators(ds[1..], g1)
  }

  /** `visitPrintStatement`: the argument is lowered first; then its syntax alone picks
      `puts` (string literal, interned and decayed once more) or `printf`. */
  function LowerPrint(arg: Option<Expr>, g: Gen): Option<Gen> {
    match arg
    case None => None
    case Some(e) =>
      match LowerExpr(e, g)
      case None => None
      case Some((v, g1)) =>
        if IsStringExpression(e) then
          var s := e.value.s;
          var (global, g2) := Intern(g1, s);
          var (ptr, g3) := FreshVariable(g2);
          Some(Emit(Emit(g3, GepLine(ptr, Utf16Length(s) + 1, global)),
                    "  call i32 @puts(i8* " + ptr + ")"))
        else
          var (format, g2) := Intern(g1, PrintfFormat);
          var (ptr, g3) := FreshVariable(g2);
          Some(Emit(Emit(g3, GepLine(ptr, 4, format)),
                    "  call i32 (i8*, ...) @printf(i8* " + ptr + ", i32 " + v + ")"))
  }

  /** `visitReturnStatement`. */
  function LowerReturn(arg: Option<Expr>, g: Gen): Option<Gen> {
    match arg
    case None => Some(Emit(g, "  ret i32 0"))
    case Some(e) =>
      match LowerExpr(e, g)
      case None => None
      case Some((v, g1)) => Some(Emit(g1, "  ret i32 " + v))
  }

  /** `visitStatement`. */
  function LowerStmt(s: Stmt, g: Gen): Option<Gen>
    decreases s, 1
  {
    match s
    case VariableDeclaration(ds) => LowerDeclarators(ds, g)
    case ExpressionStatement(e) =>
      (match LowerExpr(e, g)
       case None => None
       case Some((_, g1)) => Some(g1))
    case PrintStatement(arg) => LowerPrint(arg, g)
    case IfStatement(_, _, _) => LowerIf(s, g)
    case WhileStatement(_, _) => LowerWhile(s, g)
    case ForStatement => None
    case BlockStatement(ss) => LowerStmts(ss, g)
    case ReturnStatement(arg) => LowerReturn(arg, g)
    case UnknownStatement(tag) => Some(Emit(g, "  ; Unsupported statement: " + tag))
  }

  /** The part of `visitIfStatement` between the test and the consequent: the labels
      then, (else,) end are taken after the test, then the branch on the test's value. */
  function IfHead(hasElse: bool, testVar: string, g: Gen): (string, string, string, Gen) {
    var (thenLabel, g1) := FreshLabel(g);
    var (elseLabel, g2) := if hasElse then FreshLabel(g1) else ("", g1);
    var (endLabel, g3) := FreshLabel(g2);
    var (cond, g4) := FreshVariable(g3);
    var g5 := Emit(g4, IcmpLine(cond, testVar));
    var g6 := Emit(g5, CondBrLine(cond, thenLabel, if hasElse then elseLabel else endLabel));
    (thenLabel, elseLabel, endLabel, Emit(g6, LabelLine(thenLabel)))
  }

  /** `visitIfStatement`. */
  function LowerIf(s: Stmt, g: Gen): Option<Gen>
    requires s.IfStatement?
    decreases s, 0
  {
    match LowerExpr(s.test, g)
    case None => None
    case Some((testVar, g1)) =>
      var (thenLabel, elseLabel, endLabel, g2) := IfHead(s.alternate.Some?, testVar, g1);
      match LowerStmt(s.consequent, g2)
      case None => None
      case Some(g3) =>
        var g4 := Emit(g3, BrLine(endLabel));
        match s.alternate
        case None => Some(Emit(g4, LabelLine(endLabel)))
        case Some(alt) =>
          match LowerStmt(alt, Emit(g4, LabelLine(elseLabel)))
          case None => None
          case Some(g5) => Some(Emit(Emit(g5, BrLine(endLabel)), LabelLine(endLabel)))
  }

  /** The start of `visitWhileStatement`: the labels cond, body, end are taken before
      the test, and control enters the condition block. */
  function WhileHead(g: Gen): (string, string, string, Gen) {
    var (condLabel, g1) := FreshLabel(g);
    var (bodyLabel, g2) := FreshLabel(g1);
    var (endLabel, g3) := FreshLabel(g2);
    (condLabel, bodyLabel, endLabel, Emit(Emit(g3, BrLine(condLabel)), LabelLine(condLabel)))
  }

  /** The branch of a loop on its test's value, opening the body block. */
  function WhileBranch(testVar: string, bodyLabel: string, endLabel: string, g: Gen): Gen {
    var (cond, g1) := FreshVariable(g);
    Emit(Emit(Emit(g1, IcmpLine(cond, testVar)), CondBrLine(cond, bodyLabel, endLabel)),
         LabelLine(bodyLabel))
  }

  /** `visitWhileStatement`. */
  function LowerWhile(s: Stmt, g: Gen): Option<Gen>
    requires s.WhileStatement?
    decreases s, 0
  {
    var (condLabel, bodyLabel, endLabel, g1) := WhileHead(g);
    match LowerExpr(s.test, g1)
    case None => None
    case Some((testVar, g2)) =>
      match LowerStmt(s.body, WhileBranch(testVar, bodyLabel, endLabel, g2))
      case None => None
      case Some(g3) => Some(Emit(Emit(g3, BrLine(condLabel)), LabelLine(endLabel)))
  }

  /** `visitBlockStatement` and the body loop of `visitProgram`. */
  function LowerStmts(ss: seq<Stmt>, g: Gen): Option<Gen>
    decreases ss
  {
    if ss == [] then Some(g)
    else
      match LowerStmt(ss[0], g)
      case None => None
      case Some(g1) => LowerStmts(ss[1..], g1)
  }

  /** `visitProgram`. */
  function LowerProgram(p: Program, g: Gen): Option<Gen> {
    var g1 := Emit(Emit(Emit(g, ""), "define i32 @main() {"), "entry:");
    match LowerStmts(p.body, g1)
    case None => None
    case Some(g2) => Some(Emit(Emit(g2, "  ret i32 0"), "}"))
  }

  // ---------------------------------------------------------------------------
  // Assembly: `addStandardLibrary`, `addStringConstants`, `generate`.

  const StandardLibrary: seq<string> := [
    "; Standard library functions",
    "declare i32 @printf(i8*, ...)",
    "declare i32 @scanf(i8*, ...)",
    "declare i8* @malloc(i64)",
    "declare void @free(i8*)",
    "declare i32 @puts(i8*)",
    ""]

  /** The definition of one string constant: sized by `getUTF8Length` plus one for the
      terminator, escaped, and terminated by `\00`. */
  function ConstantLine(s: string, name: string): string {
    DefinitionLine(name, UnitsBytes(Utf16Units(s)) + 1, Escape(s))
  }

  /** A private byte-array constant of `size` bytes holding `text` and a terminator. */
  function DefinitionLine(name: string, size: nat, text: string): string {
    name + " = private unnamed_addr constant [" + NatToString(size) + " x i8] c\"" + text
      + "\\00\", align 1"
  }

  /** One definition per entry of the constant table, in the table's order. */
  function ConstantLines(entries: seq<(string, string)>): (lines: seq<string>)
    ensures |lines| == |entries|
  {
    if entries == [] then []
    else
      var last := entries[|entries| - 1];
      ConstantLines(entries[..|entries| - 1]) + [ConstantLine(last.0, last.1)]
  }

  lemma ConstantLinesStep(entries: seq<(string, string)>, i: nat)
    requires i < |entries|
    ensures ConstantLines(entries[..i + 1])
         == ConstantLines(entries[..i]) + [ConstantLine(entries[i].0, entries[i].1)]
  {
    assert entries[..i + 1][..i] == entries[..i];
  }

  /** What `addStringConstants` appends. */
  function ConstantSection(entries: seq<(string, string)>): seq<string> {
    if |entries| > 0 then ["\n; String constants"] + ConstantLines(entries) else []
  }

  /** The state after `generate`'s three steps, or `None` when lowering throws. */
  function Generated(p: Program): Option<Gen> {
    match LowerProgram(p, Reset.(output := StandardLibrary))
    case None => None
    case Some(g) => Some(g.(output := g.output + ConstantSection(g.stringConstants)))
  }

  /** The text `generateLLVMIR` receives: the lines joined by line feeds, or `None`
      for the failure it catches. */
  function GenerateIR(p: Program): Option<string> {
    match Generated(p)
    case None => None
    case Some(g) => Some(Join(g.output, "\n"))
  }
}
