/** `getAst` in both revisions of the front end: the parser's tree goes through
    `transformAlertToConsoleLog`, then `transformConsoleLogToPrint`, then
    `stripMetadata`. The parser is not part of this model: its result is a parameter,
    `None` when it throws. */
module FrontEnd {
  import opened Options
  import opened JsonValue
  import opened AstStrip
  import opened AstRewrite

  /** The tree `getAst` produces from a parsed program. */
  function Transformed(t: Json): Json {
    Strip(LogToPrint(AlertToLog(t)))
  }

  /** `getAst` in public/script.js: the new value of the global `ast`, given the
      generated code, the parser's result on it and the previous value. */
  function GetAst(code: string, parsed: Option<Json>, ast: Json): (r: Json)
    ensures code == "" ==> r == ast
    ensures code != "" && parsed.None? ==> r == Str("")
    ensures code != "" && parsed.Some? ==> r == Strip(LogToPrint(AlertToLog(parsed.value)))
    ensures code != "" && parsed.Some? ==>
      !HasMetadata(r) && !HasCall(r, "window", "alert") && !HasCall(r, "console", "log")
  {
    if code == "" then ast
    else if parsed.None? then Str("")
    else
      TransformedIsClean(parsed.value);
      Transformed(parsed.value)
  }

  /** `getAst` in script.js: the pair of the new value of `ast` and the tree that is
      displayed. The transforms rewrite the parsed tree itself, and that tree, still
      carrying its positions, becomes `ast`; only the display is stripped. When the
      parser throws, `ast` keeps its previous value and no tree is displayed (the
      failure message written to the display is output, left out). */
  function LegacyGetAst(parsed: Option<Json>, ast: Json): (r: (Json, Option<Json>))
    ensures parsed.None? ==> r == (ast, None)
    ensures parsed.Some? ==> r.0 == LogToPrint(AlertToLog(parsed.value))
    ensures parsed.Some? ==> r.1 == Some(Strip(r.0))
  {
    if parsed.None? then (ast, None)
    else
      var rewritten := LogToPrint(AlertToLog(parsed.value));
      (rewritten, Some(Strip(rewritten)))
  }

  /** A string field other than a position reads the same after stripping. */
  lemma StripGetStr(v: Json, k: string, s: string)
    requires !IsMetadataKey(k)
    ensures Get(Strip(v), k) == Str(s) <==> Get(v, k) == Str(s)
  {
    StripGet(v, k);
  }

  /** Stripping neither creates nor destroys a call statement at the root. */
  lemma StripMatch(v: Json, obj: string, prop: string)
    ensures IsMemberCallStatement(Strip(v), obj, prop) <==> IsMemberCallStatement(v, obj, prop)
  {
    var e := Get(v, "expression");
    var c := Get(e, "callee");
    StripGet(v, "expression");
    StripGet(e, "callee");
    StripGet(c, "object");
    StripGet(c, "property");
    StripGetStr(v, "type", "ExpressionStatement");
    StripGetStr(e, "type", "CallExpression");
    StripGetStr(Get(c, "object"), "name", obj);
    StripGetStr(Get(c, "property"), "name", prop);
  }

  /** Stripping creates no call statement. */
  lemma {:induction false} StripAddsNoCall(v: Json, obj: string, prop: string)
    requires HasCall(Strip(v), obj, prop)
    ensures HasCall(v, obj, prop)
    decreases v
  {
    StripMatch(v, obj, prop);
    if !IsMemberCallStatement(Strip(v), obj, prop) {
      match v
      case Arr(items) =>
        var i :| 0 <= i < |items| && HasCall(Strip(v).items[i], obj, prop);
        StripAddsNoCall(items[i], obj, prop);
        assert HasCall(v.items[i], obj, prop);
      case Obj(fs) =>
        var out := StripFields(fs);
        var i :| 0 <= i < |out| && HasCall(out[i].value, obj, prop);
        StripFieldsFrom(fs);
        var j :| 0 <= j < |fs| && !IsMetadataKey(fs[j].key) && out[i] == Field(fs[j].key, Strip(fs[j].value));
        StripAddsNoCall(fs[j].value, obj, prop);
        assert HasCall(v.fields[j].value, obj, prop);
    }
  }

  /** The tree `getAst` produces has no positions, no `window.alert(...)` statement and
      no `console.log(...)` statement left at any depth. */
  lemma TransformedIsClean(t: Json)
    ensures !HasMetadata(Transformed(t))
    ensures !HasCall(Transformed(t), "window", "alert")
    ensures !HasCall(Transformed(t), "console", "log")
  {
    var a := AlertToLog(t);
    var p := LogToPrint(a);
    StripRemovesMetadata(p);
    RewriteLeavesNoTarget(AlertToLogPass, t);
    RewriteLeavesNoTarget(LogToPrintPass, a);
    if HasCall(p, "window", "alert") {
      LogToPrintAddsNoCall(a, "window", "alert");
    }
    if HasCall(Strip(p), "window", "alert") {
      StripAddsNoCall(p, "window", "alert");
    }
    if HasCall(Strip(p), "console", "log") {
      StripAddsNoCall(p, "console", "log");
    }
  }

  /** A `window.alert(x)` statement ends up as a `PrintStatement` whose `argument` is
      the transformed `x`, with no `expression`. */
  lemma AlertBecomesPrint(v: Json)
    requires IsMemberCallStatement(v, "window", "alert")
    ensures Get(Transformed(v), "type") == Str("PrintStatement")
    ensures Get(Transformed(v), "argument") == Transformed(FirstItem(Get(Get(v, "expression"), "arguments")))
    ensures Get(Transformed(v), "expression") == Undefined
  {
    var a := AlertToLog(v);
    var p := LogToPrint(a);
    var args := Get(Get(v, "expression"), "arguments");
    AlertBecomesLog(v);
    LogBecomesPrint(a, "type");
    LogBecomesPrint(a, "argument");
    LogBecomesPrint(a, "expression");
    RewriteFirstItem(AlertToLogPass, args);
    StripGet(p, "type");
    StripGet(p, "argument");
    StripGet(p, "expression");
  }

  /** Why the order matters: run the other way round, a `window.alert(x)` statement
      would be left as a `console.log(x)` call instead of becoming a print. */
  lemma ReversedOrderKeepsCall(v: Json)
    requires IsMemberCallStatement(v, "window", "alert")
    ensures IsMemberCallStatement(AlertToLog(LogToPrint(v)), "console", "log")
  {
    MatchAfterRewrite(LogToPrintPass, v, "window", "alert");
    AlertBecomesLog(LogToPrint(v));
  }

  /** Both revisions display the same tree, and the current revision keeps as `ast`
      exactly what the older one displays. */
  lemma RevisionsAgree(code: string, t: Json, ast: Json)
    requires code != ""
    ensures LegacyGetAst(Some(t), ast).1 == Some(GetAst(code, Some(t), ast))
    ensures Strip(LegacyGetAst(Some(t), ast).0) == GetAst(code, Some(t), ast)
  {
  }

  /** The older revision keeps the positions the parser attached to the program root. */
  lemma LegacyKeepsRootPositions(t: Json, ast: Json, k: string)
    requires Get(t, "type") == Str("Program")
    requires IsMetadataKey(k) && !IsNode(Get(t, k))
    ensures Get(LegacyGetAst(Some(t), ast).0, k) == Get(t, k)
  {
    var a := AlertToLog(t);
    RewriteGet(AlertToLogPass, t, k);
    VisitGet(AlertToLogPass, t, k);
    RewriteGet(LogToPrintPass, a, k);
    VisitGet(LogToPrintPass, a, k);
  }
}
