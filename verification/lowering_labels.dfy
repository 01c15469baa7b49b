/** Every basic-block label is defined once: the label lines a statement adds name
    pairwise different labels, all taken by that statement from the label counter. */
module LoweringLabels {
  import opened Options
  import opened Text
  import opened LlvmAst
  import opened Lowering
  import opened LoweringProps
  import opened LoweringShape

  /** A label line `label<digits>:`. */
  predicate IsNumberedLabel(line: string) {
    && |line| > 6 && line[..5] == "label" && line[|line| - 1] == ':'
    && forall i :: 5 <= i < |line| - 1 ==> IsDigit(line[i])
  }

  /** The counter value a numbered label line was made from. */
  function LabelNumber(line: string): nat
    requires IsNumberedLabel(line)
  {
    var digits := line[5..|line| - 1];
    assert forall i :: 0 <= i < |digits| ==> IsDigit(digits[i]) by {
      forall i | 0 <= i < |digits| ensures IsDigit(digits[i]) {
        assert digits[i] == line[i + 5];
      }
    }
    ParseDigits(digits)
  }

  /** The labels numbered `lo` up to, not including, `hi`. */
  function Range(lo: nat, hi: nat): set<nat>
    decreases hi - lo
  {
    if lo >= hi then {} else {lo} + Range(lo + 1, hi)
  }

  lemma {:induction false} RangeMembers(lo: nat, hi: nat)
    ensures forall n :: n in Range(lo, hi) <==> lo <= n < hi
    decreases hi - lo
  {
    if lo < hi {
      RangeMembers(lo + 1, hi);
    }
  }

  /** Every line is an instruction or a numbered label whose number lies in `s`, and no
      two label lines carry the same number. */
  predicate LabelsFrom(lines: seq<string>, s: set<nat>) {
    && (forall i :: 0 <= i < |lines| ==>
          Indented(lines[i]) || (IsNumberedLabel(lines[i]) && LabelNumber(lines[i]) in s))
    && (forall i, j :: 0 <= i < j < |lines| && IsNumberedLabel(lines[i]) && IsNumberedLabel(lines[j]) ==>
          LabelNumber(lines[i]) != LabelNumber(lines[j]))
  }

  lemma LabelLineNumber(n: nat)
    ensures IsNumberedLabel(LabelLine(LabelName(n)))
    ensures LabelNumber(LabelLine(LabelName(n))) == n
  {
    var line := LabelLine(LabelName(n));
    var digits := NatToString(n);
    assert line == "label" + digits + ":";
    assert line[..5] == "label";
    assert line[5..|line| - 1] == digits;
    forall i | 5 <= i < |line| - 1 ensures IsDigit(line[i]) {
      assert line[i] == digits[i - 5];
    }
    ParseNatToString(n);
  }

  lemma OneLabel(n: nat)
    ensures LabelsFrom([LabelLine(LabelName(n))], {n})
  {
    LabelLineNumber(n);
  }

  lemma LabelsWeaken(lines: seq<string>, s: set<nat>, t: set<nat>)
    requires LabelsFrom(lines, s) && s <= t
    ensures LabelsFrom(lines, t)
  {
  }

  /** Two runs whose labels come from disjoint sets together define each label once. */
  lemma LabelsJoin(a: seq<string>, s: set<nat>, b: seq<string>, t: set<nat>)
    requires LabelsFrom(a, s) && LabelsFrom(b, t) && s !! t
    ensures LabelsFrom(a + b, s + t)
  {
    var ab := a + b;
    forall i | 0 <= i < |ab|
      ensures Indented(ab[i]) || (IsNumberedLabel(ab[i]) && LabelNumber(ab[i]) in s + t)
    {
      if i >= |a| {
        assert ab[i] == b[i - |a|];
      }
    }
    forall i, j | 0 <= i < j < |ab| && IsNumberedLabel(ab[i]) && IsNumberedLabel(ab[j])
      ensures LabelNumber(ab[i]) != LabelNumber(ab[j])
    {
      if j < |a| {
      } else if i >= |a| {
        assert ab[i] == b[i - |a|] && ab[j] == b[j - |a|];
      } else {
        assert ab[j] == b[j - |a|];
        assert LabelNumber(ab[i]) in s && LabelNumber(ab[j]) in t;
      }
    }
  }

  /** The lines an expression, a declaration, a print or a return adds hold no label. */
  lemma InstructionsOnly(g: Gen, h: Gen)
    requires Grows(g, h, false)
    ensures LabelsFrom(Added(g, h), {})
  {
    var added := Added(g, h);
    forall i | 0 <= i < |added| ensures Indented(added[i]) {
      assert added[i] == h.output[|g.output| + i];
    }
  }

  /** A run of statements defines each label at most once, and only labels it took
      from the counter. */
  lemma {:induction false} StmtsLabels(ss: seq<Stmt>, g: Gen)
    requires LowerStmts(ss, g).Some?
    ensures var h := LowerStmts(ss, g).value;
      LabelsFrom(Added(g, h), Range(g.labelCounter, h.labelCounter))
    decreases ss
  {
    var h := LowerStmts(ss, g).value;
    if ss == [] {
      assert Added(g, h) == [];
    } else {
      var g1 := LowerStmt(ss[0], g).value;
      StmtLabels(ss[0], g);
      StmtsLabels(ss[1..], g1);
      StmtGrows(ss[0], g);
      StmtsGrow(ss[1..], g1);
      SplitAdded(g, g1, h);
      RangesSplit(g.labelCounter, g1.labelCounter, h.labelCounter);
      LabelsJoin(Added(g, g1), Range(g.labelCounter, g1.labelCounter),
                 Added(g1, h), Range(g1.labelCounter, h.labelCounter));
    }
  }

  lemma SplitAdded(g: Gen, g1: Gen, h: Gen)
    requires Extends(g, g1) && Extends(g1, h)
    ensures Added(g, h) == Added(g, g1) + Added(g1, h)
  {
    AddedSplit(g, g1);
    AddedSplit(g1, h);
    assert h.output[..|g.output|] == h.output[..|g1.output|][..|g.output|];
  }

  lemma RangesSplit(a: nat, b: nat, c: nat)
    requires a <= b <= c
    ensures Range(a, b) !! Range(b, c)
    ensures Range(a, b) + Range(b, c) == Range(a, c)
  {
    RangeMembers(a, b);
    RangeMembers(b, c);
    RangeMembers(a, c);
  }

  /** A statement defines each label at most once, and only labels it took from the
      counter. */
  lemma {:induction false} StmtLabels(s: Stmt, g: Gen)
    requires LowerStmt(s, g).Some?
    ensures var h := LowerStmt(s, g).value;
      LabelsFrom(Added(g, h), Range(g.labelCounter, h.labelCounter))
    decreases s, 2
  {
    var h := LowerStmt(s, g).value;
    match s
    case VariableDeclaration(ds) =>
      DeclaratorsGrow(ds, g);
      InstructionsOnly(g, h);
    case ExpressionStatement(e) =>
      ExprGrows(e, g);
      InstructionsOnly(g, h);
    case PrintStatement(arg) =>
      PrintGrows(arg, g);
      InstructionsOnly(g, h);
    case IfStatement(_, _, _) => IfLabels(s, g);
    case WhileStatement(_, _) => WhileLabels(s, g);
    case ForStatement =>
    case BlockStatement(ss) => StmtsLabels(ss, g);
    case ReturnStatement(arg) =>
      ReturnGrows(arg, g);
      InstructionsOnly(g, h);
    case UnknownStatement(tag) =>
      IndentedAppend("  ; Unsupported statement: ", tag);
      EmitGrows(g, "  ; Unsupported statement: " + tag, false);
      InstructionsOnly(g, h);
  }

  /** A run of instruction lines holds no label. */
  lemma Instructions(lines: seq<string>)
    requires AllIndented(lines)
    ensures LabelsFrom(lines, {})
  {
  }

  lemma {:induction false} IfLabels(s: Stmt, g: Gen)
    requires s.IfStatement? && LowerIf(s, g).Some?
    ensures var h := LowerIf(s, g).value;
      LabelsFrom(Added(g, h), Range(g.labelCounter, h.labelCounter))
    decreases s, 1
  {
    var h := LowerIf(s, g).value;
    var (testVar, g1) := LowerExpr(s.test, g).value;
    var l := g1.labelCounter;
    var hasElse := s.alternate.Some?;
    var (thenLabel, elseLabel, endLabel, g2) := IfHead(hasElse, testVar, g1);
    var g3 := LowerStmt(s.consequent, g2).value;
    var c := g1.variableCounter;
    assert thenLabel == LabelName(l) && endLabel == LabelName(if hasElse then l + 2 else l + 1)
      && (hasElse ==> elseLabel == LabelName(l + 1))
      && g2.labelCounter == (if hasElse then l + 3 else l + 2) by {
      IfHeadShape(hasElse, testVar, g1);
    }
    assert g.labelCounter <= l && AllIndented(Added(g, g1)) by {
      ExprGrows(s.test, g);
      AddedIndented(g, g1);
    }
    var k := g2.labelCounter;
    assert k <= g3.labelCounter && LabelsFrom(Added(g2, g3), Range(k, g3.labelCounter)) by {
      StmtGrows(s.consequent, g2);
      StmtLabels(s.consequent, g2);
    }
    var g4 := Emit(Emit(g3, BrLine(endLabel)), LabelLine(elseLabel));
    var head := Added(g, g1)
      + [IcmpLine(Reg(c), testVar), CondBrLine(Reg(c), thenLabel, if hasElse then elseLabel else endLabel),
         LabelLine(thenLabel)]
      + Added(g2, g3) + [BrLine(endLabel)];
    if hasElse {
      var g5 := LowerStmt(s.alternate.value, g4).value;
      var els := [LabelLine(elseLabel)] + Added(g4, g5) + [BrLine(endLabel)];
      assert Added(g, h) == head + els + [LabelLine(endLabel)] by {
        IfShape(s, g);
        Regroup(g.output, Added(g, g1), [IcmpLine(Reg(c), testVar),
                    CondBrLine(Reg(c), thenLabel, elseLabel), LabelLine(thenLabel)],
                    Added(g2, g3), [BrLine(endLabel)], els, [LabelLine(endLabel)]);
        AddedOf(g, h, head + els + [LabelLine(endLabel)]);
      }
      assert g3.labelCounter <= g5.labelCounter && LabelsFrom(Added(g4, g5), Range(g3.labelCounter, g5.labelCounter)) by {
        StmtGrows(s.alternate.value, g4);
        StmtLabels(s.alternate.value, g4);
      }
      IfElseLayoutLabels(Added(g, h), l, g.labelCounter, Added(g, g1), Reg(c), testVar,
                         Added(g2, g3), g3.labelCounter, Added(g4, g5), g5.labelCounter);
    } else {
      assert Added(g, h) == head + [LabelLine(endLabel)] by {
        IfShape(s, g);
        Regroup(g.output, Added(g, g1), [IcmpLine(Reg(c), testVar),
                    CondBrLine(Reg(c), thenLabel, endLabel), LabelLine(thenLabel)],
                    Added(g2, g3), [BrLine(endLabel)], [], [LabelLine(endLabel)]);
        assert head + [] == head;
        AddedOf(g, h, head + [LabelLine(endLabel)]);
      }
      IfLayoutLabels(Added(g, h), l, g.labelCounter, Added(g, g1), Reg(c), testVar,
                     Added(g2, g3), g3.labelCounter);
    }
  }

  /** Output followed by six runs of lines is output followed by their concatenation. */
  lemma Regroup(o: seq<string>, test: seq<string>, branch: seq<string>, conseq: seq<string>,
                    br: seq<string>, els: seq<string>, end: seq<string>)
    ensures o + test + branch + conseq + br + els + end == o + (test + branch + conseq + br + els + end)
  {
  }

  /** What follows a prefix of the output is what was added. */
  lemma AddedOf(g: Gen, h: Gen, tail: seq<string>)
    requires h.output == g.output + tail
    ensures Added(g, h) == tail
  {
    assert h.output[|g.output|..] == tail;
  }

  predicate AllIndented(lines: seq<string>) {
    forall i :: 0 <= i < |lines| ==> Indented(lines[i])
  }

  lemma AddedIndented(g: Gen, h: Gen)
    requires Grows(g, h, false)
    ensures AllIndented(Added(g, h))
  {
    var added := Added(g, h);
    forall i | 0 <= i < |added| ensures Indented(added[i]) {
      assert added[i] == h.output[|g.output| + i];
    }
  }

  /** An instruction run after `a` adds no label. */
  lemma JoinInstructions(a: seq<string>, s: set<nat>, b: seq<string>)
    requires LabelsFrom(a, s) && AllIndented(b)
    ensures LabelsFrom(a + b, s)
  {
    Instructions(b);
    LabelsJoin(a, s, b, {});
    assert s + {} == s;
  }

  /** A label not yet defined after `a` may be defined next. */
  lemma JoinLabel(a: seq<string>, s: set<nat>, n: nat)
    requires LabelsFrom(a, s) && n !in s
    ensures LabelsFrom(a + [LabelLine(LabelName(n))], s + {n})
  {
    OneLabel(n);
    LabelsJoin(a, s, [LabelLine(LabelName(n))], {n});
  }

  /** A run labelled from `lo` up to `hi` after `a`, whose labels are all below `lo`. */
  lemma JoinRun(a: seq<string>, s: set<nat>, b: seq<string>, lo: nat, hi: nat)
    requires LabelsFrom(a, s) && LabelsFrom(b, Range(lo, hi)) && forall n :: n in s ==> n < lo
    ensures LabelsFrom(a + b, s + Range(lo, hi))
  {
    RangeMembers(lo, hi);
    LabelsJoin(a, s, b, Range(lo, hi));
  }

  /** The first block of an `if`: the test's instructions, the branch, the `then` label,
      the consequent (labelled from `lo` up to `hi`) and its closing jump. */
  lemma ThenLabels(lines: seq<string>, l: nat, test: seq<string>, branch: seq<string>,
                   conseq: seq<string>, lo: nat, hi: nat, br: string)
    requires l < lo && AllIndented(test) && AllIndented(branch) && Indented(br)
    requires LabelsFrom(conseq, Range(lo, hi))
    requires lines == test + branch + [LabelLine(LabelName(l))] + conseq + [br]
    ensures LabelsFrom(lines, {l} + Range(lo, hi))
  {
    var a1 := test + branch;
    assert LabelsFrom(a1, {}) by { Instructions(test); JoinInstructions(test, {}, branch); }
    var a2 := a1 + [LabelLine(LabelName(l))];
    assert LabelsFrom(a2, {l}) by { JoinLabel(a1, {}, l); assert {} + {l} == {l}; }
    var a3 := a2 + conseq;
    assert LabelsFrom(a3, {l} + Range(lo, hi)) by { JoinRun(a2, {l}, conseq, lo, hi); }
    JoinInstructions(a3, {l} + Range(lo, hi), [br]);
  }

  /** The labels of an `if` without an alternate, as laid out by `IfShape`. */
  lemma IfLayoutLabels(lines: seq<string>, l: nat, lo: nat, test: seq<string>, cond: string,
                       testVar: string, conseq: seq<string>, hi: nat)
    requires lo <= l && l + 2 <= hi
    requires AllIndented(test) && LabelsFrom(conseq, Range(l + 2, hi))
    requires lines == test + [IcmpLine(cond, testVar), CondBrLine(cond, LabelName(l), LabelName(l + 1)),
                              LabelLine(LabelName(l))]
                      + conseq + [BrLine(LabelName(l + 1))] + [LabelLine(LabelName(l + 1))]
    ensures LabelsFrom(lines, Range(lo, hi))
  {
    var branch := [IcmpLine(cond, testVar), CondBrLine(cond, LabelName(l), LabelName(l + 1))];
    var a := test + branch + [LabelLine(LabelName(l))] + conseq + [BrLine(LabelName(l + 1))];
    var s := {l} + Range(l + 2, hi);
    assert LabelsFrom(a, s) by { ThenLabels(a, l, test, branch, conseq, l + 2, hi, BrLine(LabelName(l + 1))); }
    assert LabelsFrom(a + [LabelLine(LabelName(l + 1))], s + {l + 1}) by {
      RangeMembers(l + 2, hi);
      JoinLabel(a, s, l + 1);
    }
    assert lines == a + [LabelLine(LabelName(l + 1))];
    assert s + {l + 1} <= Range(lo, hi) by { RangeMembers(l + 2, hi); RangeMembers(lo, hi); }
    LabelsWeaken(lines, s + {l + 1}, Range(lo, hi));
  }

  /** The labels of an `if` with an alternate, as laid out by `IfShape`. */
  lemma IfElseLayoutLabels(lines: seq<string>, l: nat, lo: nat, test: seq<string>, cond: string,
                           testVar: string, conseq: seq<string>, mid: nat, alt: seq<string>, hi: nat)
    requires lo <= l && l + 3 <= mid <= hi
    requires AllIndented(test) && LabelsFrom(conseq, Range(l + 3, mid)) && LabelsFrom(alt, Range(mid, hi))
    requires lines == test + [IcmpLine(cond, testVar), CondBrLine(cond, LabelName(l), LabelName(l + 1)),
                              LabelLine(LabelName(l))]
                      + conseq + [BrLine(LabelName(l + 2))]
                      + ([LabelLine(LabelName(l + 1))] + alt + [BrLine(LabelName(l + 2))])
                      + [LabelLine(LabelName(l + 2))]
    ensures LabelsFrom(lines, Range(lo, hi))
  {
    var branch := [IcmpLine(cond, testVar), CondBrLine(cond, LabelName(l), LabelName(l + 1))];
    var a4 := test + branch + [LabelLine(LabelName(l))] + conseq + [BrLine(LabelName(l + 2))];
    var s4 := {l} + Range(l + 3, mid);
    assert LabelsFrom(a4, s4) by { ThenLabels(a4, l, test, branch, conseq, l + 3, mid, BrLine(LabelName(l + 2))); }
    RangeMembers(l + 3, mid);
    ElseLabels(lines, a4, s4, l, alt, mid, hi);
    assert s4 + {l + 1} + Range(mid, hi) + {l + 2} <= Range(lo, hi) by {
      RangeMembers(l + 3, mid);
      RangeMembers(mid, hi);
      RangeMembers(lo, hi);
    }
    LabelsWeaken(lines, s4 + {l + 1} + Range(mid, hi) + {l + 2}, Range(lo, hi));
  }

  /** The `else` block and the end label after the first block of an `if`. */
  lemma ElseLabels(lines: seq<string>, a4: seq<string>, s4: set<nat>, l: nat, alt: seq<string>,
                   mid: nat, hi: nat)
    requires l + 3 <= mid <= hi && LabelsFrom(a4, s4) && LabelsFrom(alt, Range(mid, hi))
    requires forall n :: n in s4 ==> n == l || l + 3 <= n < mid
    requires lines == a4 + ([LabelLine(LabelName(l + 1))] + alt + [BrLine(LabelName(l + 2))])
                      + [LabelLine(LabelName(l + 2))]
    ensures LabelsFrom(lines, s4 + {l + 1} + Range(mid, hi) + {l + 2})
  {
    var a5 := a4 + [LabelLine(LabelName(l + 1))];
    var s5 := s4 + {l + 1};
    assert LabelsFrom(a5, s5) by { JoinLabel(a4, s4, l + 1); }
    var a6 := a5 + alt;
    var s6 := s5 + Range(mid, hi);
    assert LabelsFrom(a6, s6) by { JoinRun(a5, s5, alt, mid, hi); }
    var a7 := a6 + [BrLine(LabelName(l + 2))];
    assert LabelsFrom(a7, s6) by { JoinInstructions(a6, s6, [BrLine(LabelName(l + 2))]); }
    assert LabelsFrom(a7 + [LabelLine(LabelName(l + 2))], s6 + {l + 2}) by {
      RangeMembers(mid, hi);
      JoinLabel(a7, s6, l + 2);
    }
    assert lines == a7 + [LabelLine(LabelName(l + 2))];
  }

  lemma {:induction false} WhileLabels(s: Stmt, g: Gen)
    requires s.WhileStatement? && LowerWhile(s, g).Some?
    ensures var h := LowerWhile(s, g).value;
      LabelsFrom(Added(g, h), Range(g.labelCounter, h.labelCounter))
    decreases s, 1
  {
    var h := LowerWhile(s, g).value;
    var l := g.labelCounter;
    var (condLabel, bodyLabel, endLabel, g1) := WhileHead(g);
    var (testVar, g2) := LowerExpr(s.test, g1).value;
    var g3 := WhileBranch(testVar, bodyLabel, endLabel, g2);
    var g4 := LowerStmt(s.body, g3).value;
    var c := g2.variableCounter;
    var enter := [BrLine(condLabel), LabelLine(condLabel)];
    var branch := [IcmpLine(Reg(c), testVar), CondBrLine(Reg(c), bodyLabel, endLabel), LabelLine(bodyLabel)];
    var back := [BrLine(condLabel), LabelLine(endLabel)];
    assert condLabel == LabelName(l) && bodyLabel == LabelName(l + 1) && endLabel == LabelName(l + 2)
      && Added(g, h) == enter + Added(g1, g2) + branch + Added(g3, g4) + back by {
      WhileShape(s, g);
      Regroup(g.output, enter, Added(g1, g2), branch, Added(g3, g4), back, []);
      assert g.output + enter + Added(g1, g2) + branch + Added(g3, g4) + back + [] == h.output;
      assert enter + Added(g1, g2) + branch + Added(g3, g4) + back + [] == enter + Added(g1, g2) + branch + Added(g3, g4) + back;
      AddedOf(g, h, enter + Added(g1, g2) + branch + Added(g3, g4) + back);
    }
    assert g3.labelCounter == l + 3 && AllIndented(Added(g1, g2)) by {
      ExprGrows(s.test, g1);
      ExprKeepsVariables(s.test, g1);
      AddedIndented(g1, g2);
    }
    assert l + 3 <= g4.labelCounter && LabelsFrom(Added(g3, g4), Range(l + 3, g4.labelCounter)) by {
      StmtGrows(s.body, g3);
      StmtLabels(s.body, g3);
    }
    WhileLayoutLabels(Added(g, h), l, Added(g1, g2), Reg(c), testVar, Added(g3, g4), g4.labelCounter);
  }

  /** The labels of a `while`, as laid out by `WhileShape`. */
  lemma WhileLayoutLabels(lines: seq<string>, l: nat, test: seq<string>, cond: string,
                          testVar: string, body: seq<string>, hi: nat)
    requires l + 3 <= hi && AllIndented(test) && LabelsFrom(body, Range(l + 3, hi))
    requires lines == [BrLine(LabelName(l)), LabelLine(LabelName(l))] + test
                      + [IcmpLine(cond, testVar), CondBrLine(cond, LabelName(l + 1), LabelName(l + 2)),
                         LabelLine(LabelName(l + 1))]
                      + body + [BrLine(LabelName(l)), LabelLine(LabelName(l + 2))]
    ensures LabelsFrom(lines, Range(l, hi))
  {
    var enter := [BrLine(LabelName(l)), LabelLine(LabelName(l))];
    assert LabelsFrom(enter, {l}) by {
      Instructions([BrLine(LabelName(l))]);
      JoinLabel([BrLine(LabelName(l))], {}, l);
      assert {} + {l} == {l};
      assert [BrLine(LabelName(l))] + [LabelLine(LabelName(l))] == enter;
    }
    var branch := [IcmpLine(cond, testVar), CondBrLine(cond, LabelName(l + 1), LabelName(l + 2))];
    var loop := test + branch + [LabelLine(LabelName(l + 1))] + body + [BrLine(LabelName(l))];
    assert LabelsFrom(loop, {l + 1} + Range(l + 3, hi)) by {
      ThenLabels(loop, l + 1, test, branch, body, l + 3, hi, BrLine(LabelName(l)));
    }
    var s := {l} + ({l + 1} + Range(l + 3, hi));
    assert LabelsFrom(enter + loop, s) by {
      RangeMembers(l + 3, hi);
      LabelsJoin(enter, {l}, loop, {l + 1} + Range(l + 3, hi));
    }
    assert LabelsFrom(enter + loop + [LabelLine(LabelName(l + 2))], s + {l + 2}) by {
      RangeMembers(l + 3, hi);
      JoinLabel(enter + loop, s, l + 2);
    }
    assert lines == enter + loop + [LabelLine(LabelName(l + 2))];
    assert s + {l + 2} <= Range(l, hi) by { RangeMembers(l + 3, hi); RangeMembers(l, hi); }
    LabelsWeaken(lines, s + {l + 2}, Range(l, hi));
  }

  /** The body of the generated `main`, between its header and its closing `ret`,
      defines each label at most once, and only labels numbered from the counter's
      value before `visitProgram` up to its value after. */
  lemma ProgramLabels(p: Program, g: Gen)
    requires LowerProgram(p, g).Some?
    ensures var h := LowerProgram(p, g).value;
      && |g.output| + 5 <= |h.output|
      && LabelsFrom(h.output[|g.output| + 3..|h.output| - 2], Range(g.labelCounter, h.labelCounter))
  {
    var g1 := Emit(Emit(Emit(g, ""), "define i32 @main() {"), "entry:");
    var g2 := LowerStmts(p.body, g1).value;
    var h := LowerProgram(p, g).value;
    assert g1.output == g.output + ["", "define i32 @main() {", "entry:"];
    StmtsGrow(p.body, g1);
    StmtsLabels(p.body, g1);
    AddedSplit(g1, g2);
    assert h.output == g2.output + ["  ret i32 0", "}"];
    assert h.output[|g.output| + 3..|h.output| - 2] == Added(g1, g2);
  }
}
