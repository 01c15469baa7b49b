/** Undo and redo in the block editor: `saveState`, `undo` and `redo` over the globals
    `history`, `redoStack` and `currentStateIndex`. A snapshot is an opaque value;
    loading one is reported to the caller as the snapshot to load. */
module UndoHistory {
  import opened Options

  /** A serialised arrangement of blocks. */
  type Snapshot = string

  const MaxHistory: nat := 50

  datatype History = History(history: seq<Snapshot>, redoStack: seq<Snapshot>, currentStateIndex: int)

  const Initial: History := History([], [], -1)

  /** The states the three operations can reach from `Initial`: the index is -1 exactly
      when nothing was saved and otherwise points into `history`, and the redo stack,
      read from its top, holds the entries just after the current one. */
  predicate Valid(h: History) {
    -1 <= h.currentStateIndex < |h.history| &&
    (|h.history| > 0 ==> h.currentStateIndex >= 0) &&
    h.currentStateIndex + |h.redoStack| < |h.history| &&
    forall j :: 0 <= j < |h.redoStack| ==>
      h.redoStack[j] == h.history[h.currentStateIndex + |h.redoStack| - j]
  }

  /** `a` is what is left of `b` after dropping some of its first entries. */
  predicate IsSuffix<T(==)>(a: seq<T>, b: seq<T>) {
    |a| <= |b| && a == b[|b| - |a|..]
  }

  /** `saveState` with snapshot `s`. */
  function SaveStep(h: History, s: Snapshot): History
    requires h.currentStateIndex >= -1
  {
    var truncated := h.currentStateIndex < |h.history| - 1;
    var kept := if truncated then h.history[..h.currentStateIndex + 1] else h.history;
    var redo := if truncated then [] else h.redoStack;
    var pushed := kept + [s];
    if |pushed| > MaxHistory then History(pushed[1..], redo, |pushed| - 2)
    else History(pushed, redo, |pushed| - 1)
  }

  /** `undo`: the new state, and the snapshot it loads (`None` when it only logs). */
  function UndoStep(h: History): (History, Option<Snapshot>)
    requires h.currentStateIndex < |h.history|
  {
    if h.currentStateIndex > 0 then
      var i := h.currentStateIndex;
      (History(h.history, h.redoStack + [h.history[i]], i - 1), Some(h.history[i - 1]))
    else (h, None)
  }

  /** `redo`: the popped snapshot is pushed back onto `history` and loaded. */
  function RedoStep(h: History): (History, Option<Snapshot>) {
    if |h.redoStack| > 0 then
      var top := h.redoStack[|h.redoStack| - 1];
      (History(h.history + [top], h.redoStack[..|h.redoStack| - 1], h.currentStateIndex + 1), Some(top))
    else (h, None)
  }

  lemma InitialValid()
    ensures Valid(Initial)
  {
  }

  /** After a save the saved snapshot is current and last, nothing is left to redo,
      the earlier entries kept are the most recent ones up to the old current entry,
      and a history of at most 50 entries stays so. */
  lemma SaveSpec(h: History, s: Snapshot)
    requires Valid(h)
    ensures Valid(SaveStep(h, s))
    ensures SaveStep(h, s).currentStateIndex == |SaveStep(h, s).history| - 1
    ensures SaveStep(h, s).history[SaveStep(h, s).currentStateIndex] == s
    ensures SaveStep(h, s).redoStack == []
    ensures IsSuffix(SaveStep(h, s).history, h.history[..h.currentStateIndex + 1] + [s])
    ensures |h.history| <= MaxHistory ==> |SaveStep(h, s).history| <= MaxHistory
  {
    var pushed := h.history[..h.currentStateIndex + 1] + [s];
    if h.currentStateIndex == |h.history| - 1 {
      assert h.history[..h.currentStateIndex + 1] == h.history;
    }
    var r := SaveStep(h, s);
    assert r.redoStack == [];
    assert r.history == if |pushed| > MaxHistory then pushed[1..] else pushed;
    assert IsSuffix(r.history, pushed) by {
      if |pushed| > MaxHistory {
        assert pushed[1..] == pushed[|pushed| - |pushed[1..]|..];
      } else {
        assert pushed == pushed[0..];
      }
    }
  }

  /** An undo that goes back loads the entry before the current one and keeps the one
      it left on top of the redo stack; at the first entry it changes nothing. */
  lemma UndoSpec(h: History)
    requires Valid(h)
    ensures Valid(UndoStep(h).0)
    ensures UndoStep(h).0.history == h.history
    ensures h.currentStateIndex <= 0 ==> UndoStep(h) == (h, None)
    ensures h.currentStateIndex > 0 ==>
      UndoStep(h).0.currentStateIndex == h.currentStateIndex - 1 &&
      UndoStep(h).1 == Some(h.history[UndoStep(h).0.currentStateIndex]) &&
      UndoStep(h).0.redoStack == h.redoStack + [h.history[h.currentStateIndex]]
  {
    if h.currentStateIndex > 0 {
      var h' := UndoStep(h).0;
      forall j | 0 <= j < |h'.redoStack|
        ensures h'.redoStack[j] == h'.history[h'.currentStateIndex + |h'.redoStack| - j]
      {
        if j < |h.redoStack| {
          assert h'.redoStack[j] == h.redoStack[j];
        }
      }
    }
  }

  /** A redo loads the snapshot on top of the redo stack, which is the entry just after
      the current one, and leaves the index on it; but it appends that snapshot to
      `history` again rather than moving forward, so `history` grows by one. With an
      empty redo stack it changes nothing. */
  lemma RedoSpec(h: History)
    requires Valid(h)
    ensures Valid(RedoStep(h).0)
    ensures |h.redoStack| == 0 ==> RedoStep(h) == (h, None)
    ensures |h.redoStack| > 0 ==>
      RedoStep(h).1 == Some(h.history[h.currentStateIndex + 1]) &&
      RedoStep(h).0.currentStateIndex == h.currentStateIndex + 1 &&
      RedoStep(h).1 == Some(RedoStep(h).0.history[RedoStep(h).0.currentStateIndex]) &&
      RedoStep(h).0.history == h.history + [h.history[h.currentStateIndex + 1]]
  {
    if |h.redoStack| > 0 {
      var h' := RedoStep(h).0;
      var n := |h.redoStack|;
      assert h.redoStack[n - 1] == h.history[h.currentStateIndex + 1];
      forall j | 0 <= j < |h'.redoStack|
        ensures h'.redoStack[j] == h'.history[h'.currentStateIndex + |h'.redoStack| - j]
      {
        assert h'.redoStack[j] == h.redoStack[j];
      }
    }
  }

  /** Undo followed by redo comes back to the same entry with the same redo stack, but
      with that entry duplicated at the end of `history`. */
  lemma UndoRedo(h: History)
    requires Valid(h) && h.currentStateIndex > 0
    ensures RedoStep(UndoStep(h).0).1 == Some(h.history[h.currentStateIndex])
    ensures RedoStep(UndoStep(h).0).0 ==
      History(h.history + [h.history[h.currentStateIndex]], h.redoStack, h.currentStateIndex)
  {
    var h' := UndoStep(h).0;
    assert h'.redoStack[..|h'.redoStack| - 1] == h.redoStack;
  }

  /** A run of saves, one after the other. */
  function SaveAll(h: History, ss: seq<Snapshot>): (r: History)
    requires Valid(h)
    ensures Valid(r)
    decreases |ss|
  {
    if ss == [] then h
    else
      SaveSpec(h, ss[0]);
      SaveAll(SaveStep(h, ss[0]), ss[1..])
  }

  lemma {:induction false} SaveAllFills(h: History, ss: seq<Snapshot>)
    requires Valid(h) && h.currentStateIndex == |h.history| - 1
    requires |h.history| + |ss| <= MaxHistory
    ensures Valid(SaveAll(h, ss))
    ensures |SaveAll(h, ss).history| == |h.history| + |ss|
    ensures SaveAll(h, ss).currentStateIndex == |h.history| + |ss| - 1
    decreases |ss|
  {
    if ss != [] {
      SaveSpec(h, ss[0]);
      SaveAllFills(SaveStep(h, ss[0]), ss[1..]);
    }
  }

  /** The limit of 50 entries is kept only by `saveState`: fifty saves, an undo and a
      redo leave 51 entries in `history`. */
  lemma RedoExceedsLimit(ss: seq<Snapshot>)
    requires |ss| == MaxHistory
    ensures |RedoStep(UndoStep(SaveAll(Initial, ss)).0).0.history| == MaxHistory + 1
  {
    SaveAllFills(Initial, ss);
    UndoRedo(SaveAll(Initial, ss));
  }

  /** The three globals of the editor and the operations on them. */
  class Editor {
    var history: seq<Snapshot>
    var redoStack: seq<Snapshot>
    var currentStateIndex: int

    function State(): History
      reads this
    {
      History(history, redoStack, currentStateIndex)
    }

    constructor ()
      ensures State() == Initial
    {
      history := [];
      redoStack := [];
      currentStateIndex := -1;
    }

    method SaveState(state: Snapshot)
      requires currentStateIndex >= -1
      modifies this
      ensures State() == SaveStep(old(State()), state)
    {
      if currentStateIndex < |history| - 1 {
        history := history[..currentStateIndex + 1];
        redoStack := [];
      }
      history := history + [state];
      currentStateIndex := |history| - 1;
      if |history| > MaxHistory {
        history := history[1..];
        currentStateIndex := currentStateIndex - 1;
      }
    }

    /** Returns the snapshot `loadState` is given, if any. */
    method Undo() returns (loaded: Option<Snapshot>)
      requires currentStateIndex < |history|
      modifies this
      ensures (State(), loaded) == UndoStep(old(State()))
    {
      if currentStateIndex > 0 {
        redoStack := redoStack + [history[currentStateIndex]];
        currentStateIndex := currentStateIndex - 1;
        loaded := Some(history[currentStateIndex]);
      } else {
        loaded := None;
      }
    }

    method Redo() returns (loaded: Option<Snapshot>)
      modifies this
      ensures (State(), loaded) == RedoStep(old(State()))
    {
      if |redoStack| > 0 {
        var stateToRestore := redoStack[|redoStack| - 1];
        redoStack := redoStack[..|redoStack| - 1];
        history := history + [stateToRestore];
        currentStateIndex := currentStateIndex + 1;
        loaded := Some(stateToRestore);
      } else {
        loaded := None;
      }
    }
  }
}
