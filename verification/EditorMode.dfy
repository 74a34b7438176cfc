/** The editor's selection and undo stack, updated in place. */
module EditorMode {
  import opened EditorEffects
  import opened EditorHistory

  /** Some lines of a document are changed by f, all others are as they were. */
  ghost predicate ChangedAt(was: seq<Line>, now: seq<Line>, at: set<int>, f: Line -> Line) {
    && |now| == |was|
    && forall i :: 0 <= i < |was| ==> now[i] == if i in at then f(was[i]) else was[i]
  }

  lemma {:induction false} HasMember(s: set<int>)
    ensures s != {} ==> exists i :: i in s
  {
    assert (forall i :: i !in s) ==> s == {};
  }

  class Editor {
    var lines: seq<Line>
    var selected: set<int>
    var commands: seq<Command>
    var commandIndex: nat
    const stackLimit: int

    ghost function State(): Stack
      reads this
    {
      Stack(Doc(lines, selected), commands, commandIndex, stackLimit)
    }

    /** The selected lines exist. */
    ghost predicate InRange(s: set<int>)
      reads `lines
    {
      forall i :: i in s ==> 0 <= i < |lines|
    }

    constructor (lines: seq<Line>, limit: int)
      requires forall i :: 0 <= i < |lines| ==> !lines[i].selected
      ensures State() == Stack(Doc(lines, {}), [], 0, limit)
      ensures IsHistory(Doc(lines, {}), State())
    {
      this.lines, selected, commands, commandIndex, stackLimit := lines, {}, [], 0, limit;
      new;
      assert commands[..0] == [];
    }

    // ---------- Selection ----------

    method SetSelected(idx: nat, select: bool) returns (r: bool)
      requires idx < |lines|
      modifies `lines
      ensures lines == old(lines)[idx := old(lines)[idx].(selected := select)] && r == select
    {
      lines := lines[idx := lines[idx].(selected := select)];
      r := select;
    }

    method Select(idx: nat, select: bool)
      requires idx < |lines|
      modifies `lines, `selected
      ensures Doc(lines, selected) == old(Doc(lines, selected)).Select(idx, select)
      ensures old(Doc(lines, selected)).Agrees() ==>
          && SamePlaces(old(Doc(lines, selected)), Doc(lines, selected))
          && SelectedAre(Doc(lines, selected), if select then old(selected) + {idx} else old(selected) - {idx})
    {
      var on := SetSelected(idx, select);
      if on {
        selected := selected + {idx};
      } else {
        selected := selected - {idx};
      }
    }

    method Clear() returns (cleared: set<int>)
      requires InRange(selected)
      modifies `lines, `selected
      ensures cleared == old(selected)
      ensures Doc(lines, selected) == old(Doc(lines, selected)).Clear()
      ensures old(Doc(lines, selected)).Agrees() ==>
          && SamePlaces(old(Doc(lines, selected)), Doc(lines, selected))
          && SelectedAre(Doc(lines, selected), {})
    {
      var todo := selected;
      ghost var off := (l: Line) => l.(selected := false);
      while todo != {}
        invariant todo <= selected == old(selected)
        invariant ChangedAt(old(lines), lines, selected - todo, off)
      {
        HasMember(todo);
        var idx :| idx in todo;
        var _ := SetSelected(idx, false);
        todo := todo - {idx};
      }
      assert lines == old(Doc(lines, selected)).Clear().lines;
      cleared, selected := selected, {};
    }

    // ---------- commands ----------

    method SelectAll(indices: set<int>)
      requires InRange(indices)
      modifies `lines, `selected
      ensures Doc(lines, selected) == old(Doc(lines, selected)).SelectAll(indices)
      ensures old(Doc(lines, selected)).Agrees() ==>
          && SamePlaces(old(Doc(lines, selected)), Doc(lines, selected))
          && SelectedAre(Doc(lines, selected), old(selected) + indices)
    {
      var todo := indices;
      ghost var on := (l: Line) => l.(selected := true);
      while todo != {}
        invariant todo <= indices
        invariant selected == old(selected) + (indices - todo)
        invariant ChangedAt(old(lines), lines, indices - todo, on)
      {
        HasMember(todo);
        var idx :| idx in todo;
        Select(idx, true);
        todo := todo - {idx};
      }
      assert selected == old(selected) + indices;
      assert lines == old(Doc(lines, selected)).SelectAll(indices).lines;
    }

    method MoveSelected(delta: Vec)
      requires InRange(selected)
      modifies `lines
      ensures Doc(lines, selected) == old(Doc(lines, selected)).Move(delta)
      ensures MovedBy(old(Doc(lines, selected)), Doc(lines, selected), delta.x, delta.y)
    {
      var todo := selected;
      ghost var move := (l: Line) => l.(p1 := l.p1.Plus(delta), p2 := l.p2.Plus(delta));
      while todo != {}
        invariant todo <= selected
        invariant ChangedAt(old(lines), lines, selected - todo, move)
      {
        HasMember(todo);
        var idx :| idx in todo;
        lines := lines[idx := lines[idx].(p1 := lines[idx].p1.Plus(delta))];
        lines := lines[idx := lines[idx].(p2 := lines[idx].p2.Plus(delta))];
        todo := todo - {idx};
      }
      assert lines == old(Doc(lines, selected)).Move(delta).lines;
    }

    method MoveSelectedBack(delta: Vec)
      requires InRange(selected)
      modifies `lines
      ensures Doc(lines, selected) == old(Doc(lines, selected)).MoveBack(delta)
      ensures MovedBy(old(Doc(lines, selected)), Doc(lines, selected), -delta.x, -delta.y)
    {
      var todo := selected;
      ghost var move := (l: Line) => l.(p1 := l.p1.Minus(delta), p2 := l.p2.Minus(delta));
      while todo != {}
        invariant todo <= selected
        invariant ChangedAt(old(lines), lines, selected - todo, move)
      {
        HasMember(todo);
        var idx :| idx in todo;
        lines := lines[idx := lines[idx].(p1 := lines[idx].p1.Minus(delta))];
        lines := lines[idx := lines[idx].(p2 := lines[idx].p2.Minus(delta))];
        todo := todo - {idx};
      }
      assert lines == old(Doc(lines, selected)).MoveBack(delta).lines;
    }

    /** Point() of the first selected line is assigned. */
    method SetPoint(first: bool, v: Vec)
      requires Doc(lines, selected).HasSelection()
      modifies `lines
      ensures Doc(lines, selected) == old(Doc(lines, selected)).SetPoint(first, v)
      ensures exists f ::
          && IsFirst(old(Doc(lines, selected)), f)
          && EndMovedTo(old(Doc(lines, selected)), Doc(lines, selected), f, first, v)
    {
      var begin := Doc(lines, selected).First();
      if first {
        lines := lines[begin := lines[begin].(p1 := v)];
      } else {
        lines := lines[begin := lines[begin].(p2 := v)];
      }
      assert IsFirst(old(Doc(lines, selected)), begin);
    }

    /** Redo of the command at a place of the stack. */
    method RedoCommand(at: nat)
      requires at < |commands| && InRange(selected)
      requires commands[at].Defined(Doc(lines, selected))
      modifies `lines, `selected, `commands
      ensures Doc(lines, selected) == old(commands[at].Redo(Doc(lines, selected)))
      ensures commands == old(commands[at := commands[at].AfterRedo(Doc(lines, selected))])
    {
      match commands[at]
      case SelectLine(idx, select) =>
        Select(idx, select);
      case ClearSelection(_) =>
        var cleared := Clear();
        commands := commands[at := ClearSelection(cleared)];
      case MovePoint(_, newPos, applyToP1) =>
        SetPoint(applyToP1, newPos);
      case MoveSelection(delta) =>
        MoveSelected(delta);
    }

    /** Undo of the command at a place of the stack. */
    method UndoCommand(at: nat)
      requires at < |commands| && InRange(selected)
      requires commands[at].Defined(Doc(lines, selected))
      requires commands[at].ClearSelection? ==> InRange(commands[at].oldSelection)
      modifies `lines, `selected
      ensures Doc(lines, selected) == old(commands[at].Undo(Doc(lines, selected)))
    {
      match commands[at]
      case SelectLine(idx, select) =>
        Select(idx, !select);
      case ClearSelection(oldSelection) =>
        SelectAll(oldSelection);
      case MovePoint(oldPos, _, applyToP1) =>
        SetPoint(applyToP1, oldPos);
      case MoveSelection(delta) =>
        MoveSelectedBack(delta);
    }

    // ---------- UndoStack ----------

    method Push(m: Make)
      requires InRange(selected) && commandIndex <= |commands| && m.Defined(Doc(lines, selected))
      modifies `lines, `selected, `commands, `commandIndex
      ensures State() == old(PushStep(State(), m))
      ensures old(Doc(lines, selected)).Agrees() ==> Makes(m, old(Doc(lines, selected)), Doc(lines, selected))
    {
      hide InRange, Makes, Step;
      if commandIndex != |commands| {
        commands := commands[..commandIndex];
      }
      var cmd := m.Command(Doc(lines, selected));
      commands := commands + [cmd];
      RedoCommand(|commands| - 1);
      assert commands == old(Pushed(State(), m));
      if stackLimit != -1 && |commands| > stackLimit {
        commands := commands[1..];
      } else {
        commandIndex := commandIndex + 1;
      }
      if old(Doc(lines, selected)).Agrees() {
        PushDoes(old(State()), m);
      }
    }

    method PushMerge(shouldMerge: bool, m: Make)
      requires InRange(selected) && commandIndex <= |commands|
      requires if Merges(State(), shouldMerge, m) then MergeDefined(State(), m) else m.Defined(Doc(lines, selected))
      modifies `lines, `selected, `commands, `commandIndex
      ensures State() == old(if Merges(State(), shouldMerge, m) then MergeStep(State(), m) else PushStep(State(), m))
    {
      if shouldMerge && commands != [] && m.SameKind(commands[|commands| - 1]) && commands[|commands| - 1].CanMerge() {
        var back := |commands| - 1;
        MovesKeepSelection(commands[back], Doc(lines, selected));
        UndoCommand(back);
        commands := commands[back := m.Merged(commands[back])];
        RedoCommand(back);
        assert commands == old(MergeStep(State(), m)).commands;
      } else {
        Push(m);
      }
    }

    method Undo()
      requires Legal(State(), Op.Undo) && InRange(selected) && commandIndex <= |commands|
      requires forall k :: 0 <= k < |commands| && commands[k].ClearSelection? ==> InRange(commands[k].oldSelection)
      modifies `lines, `selected, `commandIndex
      ensures State() == old(UndoStep(State()))
    {
      if |commands| > 0 && commandIndex >= 1 {
        UndoCommand(commandIndex - 1);
        commandIndex := commandIndex - 1;
      }
    }

    method Redo()
      requires Legal(State(), Op.Redo) && InRange(selected)
      modifies `lines, `selected, `commands, `commandIndex
      ensures State() == old(RedoStep(State()))
    {
      if commandIndex + 1 <= |commands| {
        RedoCommand(commandIndex);
        commandIndex := commandIndex + 1;
      }
    }

    /** One step of the editor, on a stack that is a history of the document. */
    method Perform(op: Op, ghost base: Doc) returns (ghost base': Doc)
      requires IsHistory(base, State()) && Legal(State(), op)
      modifies `lines, `selected, `commands, `commandIndex
      ensures State() == old(Step(State(), op))
      ensures IsHistory(base', State())
      ensures base' == base || (stackLimit != -1 && old(commandIndex) + 1 > stackLimit)
    {
      HistoryInRange(base, State());
      base' := StepKeeps(base, State(), op);
      match op
      case Push(m) => Push(m);
      case PushMerge(shouldMerge, m) => PushMerge(shouldMerge, m);
      case Undo => Undo();
      case Redo => Redo();
    }
  }

  /** In a history the selected lines, and those that a cleared selection remembers, exist. */
  lemma {:induction false} HistoryInRange(base: Doc, s: Stack)
    requires IsHistory(base, s)
    ensures forall i :: i in s.doc.selection ==> 0 <= i < |s.doc.lines|
    ensures forall k, i :: 0 <= k < |s.commands| && s.commands[k].ClearSelection? && i in s.commands[k].oldSelection ==>
      0 <= i < |s.doc.lines|
  {
    ChainPrefix(base, s.commands, s.index);
    forall k, i | 0 <= k < |s.commands| && s.commands[k].ClearSelection? && i in s.commands[k].oldSelection
      ensures 0 <= i < |s.doc.lines|
    {
      ChainPrefix(base, s.commands, k);
    }
  }
}
