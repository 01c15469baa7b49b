/** `transformAlertToConsoleLog` and `transformConsoleLogToPrint`. Both walk a tree in
    the same way: a value that is not a non-null object or array is left alone;
    otherwise the node itself is rewritten when it is an expression statement calling
    the pass's target method, and then every child, read from the node as it now is,
    is walked in turn. The two passes differ only in their target and in the local
    rewrite. The tree is modelled as a value, and each pass returns the rewritten tree. */
module AstRewrite {
  import opened JsonValue

  datatype Pass = AlertToLogPass | LogToPrintPass

  /** An expression statement whose expression is a call of the member `prop` of the
      object named `obj`; a missing link in that chain reads as `undefined` and so
      does not match. */
  predicate IsMemberCallStatement(v: Json, obj: string, prop: string) {
    var callee := Get(Get(v, "expression"), "callee");
    Get(v, "type") == Str("ExpressionStatement") &&
    Get(Get(v, "expression"), "type") == Str("CallExpression") &&
    Get(Get(callee, "object"), "name") == Str(obj) &&
    Get(Get(callee, "property"), "name") == Str(prop)
  }

  function TargetObject(p: Pass): string {
    match p
    case AlertToLogPass => "window"
    case LogToPrintPass => "console"
  }

  function TargetProperty(p: Pass): string {
    match p
    case AlertToLogPass => "alert"
    case LogToPrintPass => "log"
  }

  predicate Matches(p: Pass, v: Json) {
    IsMemberCallStatement(v, TargetObject(p), TargetProperty(p))
  }

  /** The keys of a node the local rewrite assigns or deletes. */
  predicate Touches(p: Pass, k: string) {
    match p
    case AlertToLogPass => k == "expression"
    case LogToPrintPass => k == "type" || k == "argument" || k == "expression"
  }

  /** The alert rewrite: the callee's object is renamed to `console`, then its
      property to `log`. */
  function RenameCallee(v: Json): Json {
    var e := Get(v, "expression");
    SetIn(v, "expression", SetIn(e, "callee", RenamedCallee(Get(e, "callee"))))
  }

  /** The callee `c` after the two name assignments. */
  function RenamedCallee(c: Json): Json {
    var renamed := SetIn(c, "object", SetIn(Get(c, "object"), "name", Str("console")));
    SetIn(renamed, "property", SetIn(Get(c, "property"), "name", Str("log")))
  }

  /** The log rewrite: the node becomes a print statement, takes the first argument of
      the call as its argument, and loses its expression. */
  function MakePrint(v: Json): Json {
    var e := Get(v, "expression");
    var typed := SetIn(v, "type", Str("PrintStatement"));
    var withArgument := SetIn(typed, "argument", FirstItem(Get(e, "arguments")));
    DeleteIn(withArgument, "expression")
  }

  lemma RenamedCalleeSize(c: Json)
    requires Get(Get(c, "object"), "name").Str?
    requires Get(Get(c, "property"), "name").Str?
    ensures Size(RenamedCallee(c)) == Size(c)
  {
    var o := Get(c, "object");
    var q := Get(c, "property");
    var o' := SetIn(o, "name", Str("console"));
    var q' := SetIn(q, "name", Str("log"));
    var renamed := SetIn(c, "object", o');
    assert Size(o') == Size(o) by {
      SetInSize(o, "name", Str("console"));
    }
    assert Size(q') == Size(q) by {
      SetInSize(q, "name", Str("log"));
    }
    assert Size(renamed) == Size(c) by {
      SetInSize(c, "object", o');
    }
    GetSetIn(c, "object", o', "property");
    SetInSize(renamed, "property", q');
  }

  lemma RenameCalleeSize(v: Json)
    requires IsMemberCallStatement(v, "window", "alert")
    ensures Size(RenameCallee(v)) == Size(v)
    ensures RenameCallee(v).Obj?
  {
    var e := Get(v, "expression");
    var c := Get(e, "callee");
    RenamedCalleeSize(c);
    assert Size(SetIn(e, "callee", RenamedCallee(c))) == Size(e) by {
      SetInSize(e, "callee", RenamedCallee(c));
    }
    SetInSize(v, "expression", SetIn(e, "callee", RenamedCallee(c)));
  }

  lemma MakePrintSize(v: Json)
    requires IsMemberCallStatement(v, "console", "log")
    ensures Size(MakePrint(v)) < Size(v)
    ensures MakePrint(v).Obj?
  {
    var e := Get(v, "expression");
    var first := FirstItem(Get(e, "arguments"));
    var typed := SetIn(v, "type", Str("PrintStatement"));
    var withArgument := SetIn(typed, "argument", first);
    assert Size(typed) == Size(v) by {
      SetInSize(v, "type", Str("PrintStatement"));
    }
    assert Size(first) < Size(e) by {
      if first != Undefined {
        FirstItemSize(Get(e, "arguments"));
        GetSize(e, "arguments");
      }
    }
    assert Get(withArgument, "expression") == e by {
      GetSetIn(v, "type", Str("PrintStatement"), "expression");
      GetSetIn(typed, "argument", first, "expression");
    }
    SetInSizeBound(typed, "argument", first);
    DeleteInSize(withArgument, "expression");
  }

  /** The local rewrite of one node, before its children are walked. */
  function Visit(p: Pass, v: Json): (n: Json)
    ensures Size(n) <= Size(v)
    ensures n.Obj? <==> v.Obj?
    ensures n.Arr? <==> v.Arr?
    ensures !Matches(p, v) ==> n == v
  {
    if !Matches(p, v) then v
    else match p
      case AlertToLogPass => RenameCalleeSize(v); RenameCallee(v)
      case LogToPrintPass => MakePrintSize(v); MakePrint(v)
  }

  function Rewrite(p: Pass, v: Json): (r: Json)
    ensures !IsNode(v) ==> r == v
    ensures r.Obj? <==> v.Obj?
    ensures r.Arr? <==> v.Arr?
    decreases Size(v), 1
  {
    if !IsNode(v) then v
    else
      var n := Visit(p, v);
      match n
      case Arr(items) => Arr(RewriteItems(p, items))
      case Obj(fs) => Obj(RewriteFields(p, fs))
      case _ => n
  }

  function RewriteItems(p: Pass, items: seq<Json>): (r: seq<Json>)
    ensures |r| == |items|
    decreases ItemsSize(items), 2
  {
    if items == [] then [] else [Rewrite(p, items[0])] + RewriteItems(p, items[1..])
  }

  function RewriteFields(p: Pass, fs: seq<Field>): (r: seq<Field>)
    ensures |r| == |fs|
    decreases FieldsSize(fs), 2
  {
    if fs == [] then []
    else [Field(fs[0].key, Rewrite(p, fs[0].value))] + RewriteFields(p, fs[1..])
  }

  /** `transformAlertToConsoleLog`. */
  function AlertToLog(v: Json): Json {
    Rewrite(AlertToLogPass, v)
  }

  /** `transformConsoleLogToPrint`. */
  function LogToPrint(v: Json): Json {
    Rewrite(LogToPrintPass, v)
  }

  /** Whether some node at any depth is a statement calling `obj.prop`. */
  predicate HasCall(v: Json, obj: string, prop: string) {
    IsMemberCallStatement(v, obj, prop) ||
    match v
    case Arr(items) => exists i :: 0 <= i < |items| && HasCall(items[i], obj, prop)
    case Obj(fs) => exists i :: 0 <= i < |fs| && HasCall(fs[i].value, obj, prop)
    case _ => false
  }

  // ----- The walk visits every child -----

  lemma {:induction false} RewriteItemsAt(p: Pass, items: seq<Json>, i: nat)
    requires i < |items|
    ensures RewriteItems(p, items)[i] == Rewrite(p, items[i])
    decreases i
  {
    if i > 0 {
      RewriteItemsAt(p, items[1..], i - 1);
    }
  }

  lemma {:induction false} RewriteFieldsAt(p: Pass, fs: seq<Field>, i: nat)
    requires i < |fs|
    ensures RewriteFields(p, fs)[i] == Field(fs[i].key, Rewrite(p, fs[i].value))
    decreases i
  {
    if i > 0 {
      RewriteFieldsAt(p, fs[1..], i - 1);
    }
  }

  lemma {:induction false} RewriteFieldsLookup(p: Pass, fs: seq<Field>, k: string)
    ensures Lookup(RewriteFields(p, fs), k) == Rewrite(p, Lookup(fs, k))
    decreases fs
  {
    if fs != [] {
      RewriteFieldsLookup(p, fs[1..], k);
    }
  }

  /** A property of the result is the walked property of the locally rewritten node. */
  lemma RewriteGet(p: Pass, v: Json, k: string)
    ensures Get(Rewrite(p, v), k) == Rewrite(p, Get(Visit(p, v), k))
  {
    if v.Obj? {
      RewriteFieldsLookup(p, Visit(p, v).fields, k);
    }
  }

  /** The local rewrite assigns only the keys it touches. */
  lemma VisitGet(p: Pass, v: Json, k: string)
    requires !Touches(p, k)
    ensures Get(Visit(p, v), k) == Get(v, k)
  {
    if Matches(p, v) {
      var e := Get(v, "expression");
      match p
      case AlertToLogPass =>
        GetSetIn(v, "expression", SetIn(e, "callee", RenamedCallee(Get(e, "callee"))), k);
      case LogToPrintPass =>
        var typed := SetIn(v, "type", Str("PrintStatement"));
        var withArgument := SetIn(typed, "argument", FirstItem(Get(e, "arguments")));
        GetSetIn(v, "type", Str("PrintStatement"), k);
        GetSetIn(typed, "argument", FirstItem(Get(e, "arguments")), k);
        GetDeleteIn(withArgument, "expression", k);
    }
  }

  /** Neither pass turns a call expression into something else or back. */
  lemma VisitKeepsCallType(p: Pass, e: Json)
    ensures Get(Visit(p, e), "type") == Str("CallExpression") <==> Get(e, "type") == Str("CallExpression")
  {
    if Matches(p, e) {
      match p
      case AlertToLogPass =>
        VisitGet(p, e, "type");
      case LogToPrintPass =>
        var typed := SetIn(e, "type", Str("PrintStatement"));
        var withArgument := SetIn(typed, "argument", FirstItem(Get(Get(e, "expression"), "arguments")));
        GetSetIn(e, "type", Str("PrintStatement"), "type");
        GetSetIn(typed, "argument", FirstItem(Get(Get(e, "expression"), "arguments")), "type");
        GetDeleteIn(withArgument, "expression", "type");
    }
  }

  /** A string field reads the same after the walk as after the local rewrite. */
  lemma RewriteGetStr(p: Pass, v: Json, k: string, s: string)
    ensures Get(Rewrite(p, v), k) == Str(s) <==> Get(Visit(p, v), k) == Str(s)
  {
    RewriteGet(p, v, k);
  }

  /** The walk keeps `callee.object.name` and `callee.property.name`. */
  lemma NameAfterRewrite(p: Pass, c: Json, k: string, s: string)
    requires k == "object" || k == "property"
    ensures Get(Get(Rewrite(p, c), k), "name") == Str(s) <==> Get(Get(c, k), "name") == Str(s)
  {
    var o := Get(c, k);
    assert Get(Rewrite(p, c), k) == Rewrite(p, o) by {
      RewriteGet(p, c, k);
      VisitGet(p, c, k);
    }
    assert Get(Visit(p, o), "name") == Get(o, "name") by {
      VisitGet(p, o, "name");
    }
    RewriteGetStr(p, o, "name", s);
  }

  /** The walk below a node cannot create or destroy a match at that node: whether the
      result is a call statement of `obj.prop` is decided by the local rewrite alone. */
  lemma MatchAfterRewrite(p: Pass, v: Json, obj: string, prop: string)
    ensures IsMemberCallStatement(Rewrite(p, v), obj, prop) <==> IsMemberCallStatement(Visit(p, v), obj, prop)
  {
    var r := Rewrite(p, v);
    var n := Visit(p, v);
    var e := Get(n, "expression");
    RewriteGet(p, v, "expression");
    var re := Rewrite(p, e);
    RewriteGetStr(p, v, "type", "ExpressionStatement");
    assert Get(re, "type") == Str("CallExpression") <==> Get(e, "type") == Str("CallExpression") by {
      RewriteGetStr(p, e, "type", "CallExpression");
      VisitKeepsCallType(p, e);
    }
    if Get(e, "type") == Str("CallExpression") {
      assert !Matches(p, e);
      var c := Get(e, "callee");
      assert Get(re, "callee") == Rewrite(p, c) by {
        RewriteGet(p, e, "callee");
      }
      NameAfterRewrite(p, c, "object", obj);
      NameAfterRewrite(p, c, "property", prop);
    }
  }

  /** What the local rewrite of `transformAlertToConsoleLog` leaves: a `console.log` call. */
  lemma RenameCalleeMatches(v: Json, obj: string, prop: string)
    requires IsMemberCallStatement(v, "window", "alert")
    ensures IsMemberCallStatement(RenameCallee(v), obj, prop) <==> obj == "console" && prop == "log"
  {
    var e := Get(v, "expression");
    var c := Get(e, "callee");
    var o' := SetIn(Get(c, "object"), "name", Str("console"));
    var q' := SetIn(Get(c, "property"), "name", Str("log"));
    var renamed := SetIn(c, "object", o');
    var e' := SetIn(e, "callee", RenamedCallee(c));
    GetSetIn(v, "expression", e', "type");
    GetSetIn(v, "expression", e', "expression");
    GetSetIn(e, "callee", RenamedCallee(c), "type");
    GetSetIn(e, "callee", RenamedCallee(c), "callee");
    GetSetIn(renamed, "property", q', "object");
    GetSetIn(renamed, "property", q', "property");
    GetSetIn(c, "object", o', "object");
    GetSetIn(Get(c, "object"), "name", Str("console"), "name");
    GetSetIn(Get(c, "property"), "name", Str("log"), "name");
  }

  /** What the local rewrite of `transformConsoleLogToPrint` leaves: a `PrintStatement`
      whose `argument` is the call's first argument and which has no `expression`. */
  lemma MakePrintFields(v: Json, k: string)
    requires IsMemberCallStatement(v, "console", "log")
    ensures Get(MakePrint(v), k) ==
      if k == "type" then Str("PrintStatement")
      else if k == "argument" then FirstItem(Get(Get(v, "expression"), "arguments"))
      else if k == "expression" then Undefined
      else Get(v, k)
  {
    var first := FirstItem(Get(Get(v, "expression"), "arguments"));
    var typed := SetIn(v, "type", Str("PrintStatement"));
    var withArgument := SetIn(typed, "argument", first);
    GetSetIn(v, "type", Str("PrintStatement"), k);
    GetSetIn(typed, "argument", first, k);
    GetDeleteIn(withArgument, "expression", k);
  }

  lemma VisitLeavesNoTarget(p: Pass, v: Json)
    ensures !Matches(p, Visit(p, v))
  {
    if Matches(p, v) {
      match p
      case AlertToLogPass =>
        RenameCalleeMatches(v, "window", "alert");
      case LogToPrintPass =>
        MakePrintFields(v, "type");
    }
  }

  /** After either pass no statement calling its target is left at any depth. */
  lemma {:induction false} RewriteLeavesNoTarget(p: Pass, v: Json)
    ensures !HasCall(Rewrite(p, v), TargetObject(p), TargetProperty(p))
    decreases Size(v)
  {
    var n := Visit(p, v);
    MatchAfterRewrite(p, v, TargetObject(p), TargetProperty(p));
    VisitLeavesNoTarget(p, v);
    match n
    case Arr(items) =>
      forall i | 0 <= i < |items|
        ensures !HasCall(Rewrite(p, v).items[i], TargetObject(p), TargetProperty(p))
      {
        RewriteItemsAt(p, items, i);
        ItemSizeBound(items, i);
        RewriteLeavesNoTarget(p, items[i]);
      }
    case Obj(fs) =>
      forall i | 0 <= i < |fs|
        ensures !HasCall(Rewrite(p, v).fields[i].value, TargetObject(p), TargetProperty(p))
      {
        RewriteFieldsAt(p, fs, i);
        FieldSizeBound(fs, i);
        RewriteLeavesNoTarget(p, fs[i].value);
      }
    case _ =>
  }

  /** A tree without a matching statement is left exactly as it was. */
  lemma {:induction false} RewriteUnchanged(p: Pass, v: Json)
    requires !HasCall(v, TargetObject(p), TargetProperty(p))
    ensures Rewrite(p, v) == v
    decreases v, 1
  {
    match v
    case Arr(items) =>
      RewriteItemsUnchanged(p, items);
    case Obj(fs) =>
      RewriteFieldsUnchanged(p, fs);
    case _ =>
  }

  lemma {:induction false} RewriteItemsUnchanged(p: Pass, items: seq<Json>)
    requires forall i :: 0 <= i < |items| ==> !HasCall(items[i], TargetObject(p), TargetProperty(p))
    ensures RewriteItems(p, items) == items
    decreases items, 0
  {
    if items != [] {
      RewriteUnchanged(p, items[0]);
      RewriteItemsUnchanged(p, items[1..]);
      assert items == [items[0]] + items[1..];
    }
  }

  lemma {:induction false} RewriteFieldsUnchanged(p: Pass, fs: seq<Field>)
    requires forall i :: 0 <= i < |fs| ==> !HasCall(fs[i].value, TargetObject(p), TargetProperty(p))
    ensures RewriteFields(p, fs) == fs
    decreases fs, 0
  {
    if fs != [] {
      RewriteUnchanged(p, fs[0].value);
      RewriteFieldsUnchanged(p, fs[1..]);
      assert fs == [fs[0]] + fs[1..];
    }
  }

  lemma HasCallField(fs: seq<Field>, y: Json, obj: string, prop: string)
    requires IsFieldValue(fs, y) && HasCall(y, obj, prop)
    ensures HasCall(Obj(fs), obj, prop)
  {
    var j :| 0 <= j < |fs| && fs[j].value == y;
    assert HasCall(Obj(fs).fields[j].value, obj, prop);
  }

  lemma HasCallGet(v: Json, k: string, obj: string, prop: string)
    requires HasCall(Get(v, k), obj, prop)
    ensures HasCall(v, obj, prop)
  {
    LookupIsField(v.fields, k);
    HasCallField(v.fields, Get(v, k), obj, prop);
  }

  lemma HasCallFirstItem(a: Json, obj: string, prop: string)
    requires HasCall(FirstItem(a), obj, prop)
    ensures HasCall(a, obj, prop)
  {
    assert HasCall(a.items[0], obj, prop);
  }

  /** A child of a node after `transformConsoleLogToPrint`'s local rewrite was already
      in the tree: a field of the node, the call's first argument, or the new type. */
  lemma MakePrintChildren(v: Json, i: nat, obj: string, prop: string)
    requires IsMemberCallStatement(v, "console", "log")
    requires i < |MakePrint(v).fields|
    requires HasCall(MakePrint(v).fields[i].value, obj, prop)
    ensures HasCall(v, obj, prop)
  {
    var e := Get(v, "expression");
    var first := FirstItem(Get(e, "arguments"));
    var typed := SetIn(v, "type", Str("PrintStatement"));
    var withArgument := SetIn(typed, "argument", first);
    var y := MakePrint(v).fields[i].value;
    RemoveValues(withArgument.fields, "expression");
    var j :| 0 <= j < |withArgument.fields| && withArgument.fields[j].value == y;
    PutValues(typed.fields, "argument", first);
    if y == first {
      HasCallFirstItem(Get(e, "arguments"), obj, prop);
      HasCallGet(e, "arguments", obj, prop);
      HasCallGet(v, "expression", obj, prop);
    } else {
      PutValues(v.fields, "type", Str("PrintStatement"));
      var j' :| 0 <= j' < |typed.fields| && typed.fields[j'].value == y;
      assert y != Str("PrintStatement");
      assert IsFieldValue(v.fields, y);
      HasCallField(v.fields, y, obj, prop);
    }
  }

  /** `transformConsoleLogToPrint` creates no call statement that was not already there. */
  lemma {:induction false} LogToPrintAddsNoCall(v: Json, obj: string, prop: string)
    requires HasCall(LogToPrint(v), obj, prop)
    ensures HasCall(v, obj, prop)
    decreases Size(v)
  {
    var p := LogToPrintPass;
    var n := Visit(p, v);
    MatchAfterRewrite(p, v, obj, prop);
    if Matches(p, v) {
      MakePrintFields(v, "type");
    }
    if !IsMemberCallStatement(LogToPrint(v), obj, prop) {
      match n
      case Arr(items) =>
        var i :| 0 <= i < |items| && HasCall(LogToPrint(v).items[i], obj, prop);
        RewriteItemsAt(p, items, i);
        ItemSizeBound(items, i);
        LogToPrintAddsNoCall(items[i], obj, prop);
        assert HasCall(v.items[i], obj, prop);
      case Obj(fs) =>
        var i :| 0 <= i < |fs| && HasCall(LogToPrint(v).fields[i].value, obj, prop);
        RewriteFieldsAt(p, fs, i);
        FieldSizeBound(fs, i);
        LogToPrintAddsNoCall(fs[i].value, obj, prop);
        if Matches(p, v) {
          MakePrintChildren(v, i, obj, prop);
        } else {
          assert HasCall(v.fields[i].value, obj, prop);
        }
    }
  }

  /** `transformAlertToConsoleLog` turns a `window.alert(...)` statement into a
      `console.log(...)` statement with the same (rewritten) arguments. */
  lemma AlertBecomesLog(v: Json)
    requires IsMemberCallStatement(v, "window", "alert")
    ensures IsMemberCallStatement(AlertToLog(v), "console", "log")
    ensures Get(Get(AlertToLog(v), "expression"), "arguments") ==
      AlertToLog(Get(Get(v, "expression"), "arguments"))
  {
    var p := AlertToLogPass;
    MatchAfterRewrite(p, v, "console", "log");
    RenameCalleeMatches(v, "console", "log");
    var e := Get(v, "expression");
    var e' := SetIn(e, "callee", RenamedCallee(Get(e, "callee")));
    assert Get(Visit(p, v), "expression") == e' by {
      GetSetIn(v, "expression", e', "expression");
    }
    RewriteGet(p, v, "expression");
    RewriteGet(p, e', "arguments");
    GetSetIn(e, "callee", RenamedCallee(Get(e, "callee")), "type");
    assert !Matches(p, e');
    GetSetIn(e, "callee", RenamedCallee(Get(e, "callee")), "arguments");
  }

  /** `transformConsoleLogToPrint` turns a `console.log(...)` statement into a
      `PrintStatement` whose `argument` is the rewritten first argument, without an
      `expression`; every other property is walked in place. */
  lemma LogBecomesPrint(v: Json, k: string)
    requires IsMemberCallStatement(v, "console", "log")
    ensures Get(LogToPrint(v), k) ==
      if k == "type" then Str("PrintStatement")
      else if k == "argument" then LogToPrint(FirstItem(Get(Get(v, "expression"), "arguments")))
      else if k == "expression" then Undefined
      else LogToPrint(Get(v, k))
  {
    RewriteGet(LogToPrintPass, v, k);
    MakePrintFields(v, k);
  }

  /** Arrays are walked element by element, so the first element of a walked array is
      the walked first element. */
  lemma RewriteFirstItem(p: Pass, a: Json)
    ensures FirstItem(Rewrite(p, a)) == Rewrite(p, FirstItem(a))
  {
    if a.Arr? && |a.items| > 0 {
      RewriteItemsAt(p, a.items, 0);
    }
  }
}
