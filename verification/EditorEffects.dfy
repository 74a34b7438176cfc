/** What the editor's commands do to each line, and what its steps do to the stack of commands. */
module EditorEffects {
  import opened EditorHistory

  // ---------- lines ----------

  /** The same lines in number, and the same selection. */
  predicate SameSelection(d: Doc, e: Doc) {
    && e.selection == d.selection && |e.lines| == |d.lines|
    && forall i :: 0 <= i < |d.lines| ==> e.lines[i].selected == d.lines[i].selected
  }

  /** Every line is where it was. */
  predicate SamePlaces(d: Doc, e: Doc) {
    && |e.lines| == |d.lines|
    && forall i :: 0 <= i < |d.lines| ==> e.lines[i].p1 == d.lines[i].p1 && e.lines[i].p2 == d.lines[i].p2
  }

  /** Exactly the lines of the set s are selected, in the set and by their flags. */
  predicate SelectedAre(e: Doc, s: set<int>) {
    e.selection == s && forall i :: 0 <= i < |e.lines| ==> (e.lines[i].selected <==> i in s)
  }

  /** Both ends of the selected lines are moved by (dx, dy), and no other line is. */
  predicate MovedBy(d: Doc, e: Doc, dx: real, dy: real) {
    && SameSelection(d, e)
    && forall i :: 0 <= i < |d.lines| ==>
      var k := if i in d.selection then 1.0 else 0.0;
      && e.lines[i].p1 == Vec(d.lines[i].p1.x + k * dx, d.lines[i].p1.y + k * dy)
      && e.lines[i].p2 == Vec(d.lines[i].p2.x + k * dx, d.lines[i].p2.y + k * dy)
  }

  /** Line f is the selected line with the smallest number. */
  predicate IsFirst(d: Doc, f: int) {
    0 <= f < |d.lines| && f in d.selection && forall i :: 0 <= i < f ==> i !in d.selection
  }

  /** One end of line f is at v, and nothing else is moved. */
  predicate EndMovedTo(d: Doc, e: Doc, f: int, first: bool, v: Vec) {
    && SameSelection(d, e)
    && forall i :: 0 <= i < |d.lines| ==>
      && e.lines[i].p1 == (if i == f && first then v else d.lines[i].p1)
      && e.lines[i].p2 == (if i == f && !first then v else d.lines[i].p2)
  }

  /** A command when it is done: what becomes of each line and of the selection. */
  lemma {:induction false} RedoDoes(c: Command, d: Doc)
    requires d.Agrees() && c.Defined(d)
    ensures match c
      case SelectLine(idx, select) =>
        && SamePlaces(d, c.Redo(d))
        && SelectedAre(c.Redo(d), if select then d.selection + {idx} else d.selection - {idx})
      case ClearSelection(_) => SamePlaces(d, c.Redo(d)) && SelectedAre(c.Redo(d), {})
      case MovePoint(_, newPos, applyToP1) =>
        exists f :: IsFirst(d, f) && EndMovedTo(d, c.Redo(d), f, applyToP1, newPos)
      case MoveSelection(delta) => MovedBy(d, c.Redo(d), delta.x, delta.y)
  {
    match c
    case SelectLine(_, _) =>
    case ClearSelection(_) =>
    case MovePoint(_, newPos, applyToP1) =>
      assert IsFirst(d, d.First()) && EndMovedTo(d, c.Redo(d), d.First(), applyToP1, newPos);
    case MoveSelection(_) =>
  }

  /** A command when it is undone: the selection that it remembers is added, or the lines are moved back. */
  lemma {:induction false} UndoDoes(c: Command, d: Doc)
    requires d.Agrees() && c.Defined(d)
    ensures match c
      case SelectLine(idx, select) =>
        && SamePlaces(d, c.Undo(d))
        && SelectedAre(c.Undo(d), if select then d.selection - {idx} else d.selection + {idx})
      case ClearSelection(oldSelection) =>
        SamePlaces(d, c.Undo(d)) && SelectedAre(c.Undo(d), d.selection + oldSelection)
      case MovePoint(oldPos, _, applyToP1) =>
        exists f :: IsFirst(d, f) && EndMovedTo(d, c.Undo(d), f, applyToP1, oldPos)
      case MoveSelection(delta) => MovedBy(d, c.Undo(d), -delta.x, -delta.y)
  {
    match c
    case SelectLine(_, _) =>
    case ClearSelection(_) =>
    case MovePoint(oldPos, _, applyToP1) =>
      assert IsFirst(d, d.First()) && EndMovedTo(d, c.Undo(d), d.First(), applyToP1, oldPos);
    case MoveSelection(_) =>
  }

  // ---------- the stack ----------

  /** What a click or a drag makes of the document. */
  ghost predicate Makes(m: Make, d: Doc, e: Doc) {
    match m
    case MakeSelect(idx, select) =>
      SamePlaces(d, e) && SelectedAre(e, if select then d.selection + {idx} else d.selection - {idx})
    case MakeClear => SamePlaces(d, e) && SelectedAre(e, {})
    case MakeMovePoint(newPos, p1) => exists f :: IsFirst(d, f) && EndMovedTo(d, e, f, p1, newPos)
    case MakeMove(delta) => MovedBy(d, e, delta.x, delta.y)
  }

  /** What a new command remembers: the selection that was cleared, or where the end of the line was. */
  ghost predicate Remembers(c: Command, m: Make, d: Doc) {
    match m
    case MakeSelect(idx, select) => c == SelectLine(idx, select)
    case MakeClear => c == ClearSelection(d.selection)
    case MakeMovePoint(newPos, p1) =>
      exists f :: IsFirst(d, f) && c == MovePoint(if p1 then d.lines[f].p1 else d.lines[f].p2, newPos, p1)
    case MakeMove(delta) => c == MoveSelection(delta)
  }

  /** A command after some others, the oldest of which is forgotten when there are as many as the limit allows. */
  function After(commands: seq<Command>, c: Command, full: bool): seq<Command> {
    if full then (commands + [c])[1..] else commands + [c]
  }

  /**
   A push does to the document what was asked for, forgets the commands that were undone and puts the new
   command after the others; when that makes more than the limit allows, the oldest one is forgotten.
   */
  lemma {:induction false} PushDoes(s: Stack, m: Make)
    requires s.index <= |s.commands| && s.doc.Agrees() && m.Defined(s.doc)
    ensures Makes(m, s.doc, PushStep(s, m).doc)
    ensures var t := PushStep(s, m); var full := s.limit != -1 && s.index >= s.limit;
      && t.limit == s.limit && t.index == |t.commands| == (if full then s.index else s.index + 1)
      && exists c :: Remembers(c, m, s.doc) && t.commands == After(s.commands[..s.index], c, full)
  {
    hide Makes, Remembers;
    MakeDoes(s.doc, m);
    var c := m.Command(s.doc).AfterRedo(s.doc);
    assert Pushed(s, m) == s.commands[..s.index] + [c];
  }

  lemma {:induction false} MakeDoes(d: Doc, m: Make)
    requires d.Agrees() && m.Defined(d)
    ensures Makes(m, d, m.Command(d).Redo(d)) && Remembers(m.Command(d).AfterRedo(d), m, d)
  {
    RedoDoes(m.Command(d), d);
    if m.MakeMovePoint? {
      assert IsFirst(d, d.First());
    }
  }

  /**
   A merge does to the document what was asked for, and leaves one command: the move by the sum of both, or
   the move of the end from where it was first to where it is now.
   */
  lemma {:induction false} MergeDoes(s: Stack, m: Make)
    requires s.doc.Agrees() && Merges(s, true, m) && MergeDefined(s, m)
    ensures var t, n := MergeStep(s, m), |s.commands| - 1;
      && t.limit == s.limit && t.index == s.index && |t.commands| == n + 1 && t.commands[..n] == s.commands[..n]
      && MergedInto(s.commands[n], m, t.commands[n]) && MergeMakes(s.commands[n], m, s.doc, t.doc)
  {
    hide MergedInto, MergeMakes;
    var n := |s.commands| - 1;
    MovesKeepSelection(s.commands[n], s.doc);
    MergedDoes(s.commands[n], m, s.doc);
  }

  /** A drag merges into the last command when that is a drag of the same kind: both of a selection, or of an end. */
  lemma {:induction false} MergesIff(s: Stack, shouldMerge: bool, m: Make)
    ensures Merges(s, shouldMerge, m) <==>
      && shouldMerge && s.commands != []
      && var last := s.commands[|s.commands| - 1];
        (m.MakeMove? && last.MoveSelection?) || (m.MakeMovePoint? && last.MovePoint?)
  {
  }

  ghost predicate MergedInto(c: Command, m: Make, merged: Command) {
    match (c, m)
    case (MoveSelection(first), MakeMove(delta)) => merged == MoveSelection(Vec(first.x + delta.x, first.y + delta.y))
    case (MovePoint(oldPos, _, p1), MakeMovePoint(newPos, _)) => merged == MovePoint(oldPos, newPos, p1)
    case _ => false
  }

  ghost predicate MergeMakes(c: Command, m: Make, d: Doc, e: Doc) {
    match (c, m)
    case (MoveSelection(_), MakeMove(delta)) => MovedBy(d, e, delta.x, delta.y)
    case (MovePoint(_, _, p1), MakeMovePoint(newPos, _)) =>
      exists f :: IsFirst(d, f) && EndMovedTo(d, e, f, p1, newPos)
    case _ => false
  }

  lemma {:induction false} MergedDoes(c: Command, m: Make, d: Doc)
    requires d.Agrees() && c.CanMerge() && m.SameKind(c) && c.Defined(d)
    ensures m.Merged(c).Defined(c.Undo(d)) && MergedInto(c, m, m.Merged(c))
    ensures MergeMakes(c, m, d, m.Merged(c).Redo(c.Undo(d)))
  {
    MovesKeepSelection(c, d);
    SameSelectionSameFirst(d, c.Undo(d), 0);
    if m.MakeMovePoint? {
      assert IsFirst(d, d.First());
      assert EndMovedTo(d, m.Merged(c).Redo(c.Undo(d)), d.First(), c.applyToP1, m.newPos);
    }
  }

  /** As many undos as there are done commands, or fewer, go back as many commands in the history. */
  lemma {:induction false} UndosGoBack(base: Doc, s: Stack, n: nat)
    requires IsHistory(base, s) && n <= s.index
    ensures LegalRun(s, seq(n, _ => Undo))
    ensures Run(s, seq(n, _ => Undo)) == Stack(Fold(base, s.commands[..s.index - n]), s.commands, s.index - n, s.limit)
    decreases n
  {
    hide Chain, Fold, MergeDefined, Merges;
    var ops := seq(n, _ => Undo);
    if n > 0 {
      UndoKeeps(base, s);
      UndosGoBack(base, UndoStep(s), n - 1);
      assert ops[1..] == seq(n - 1, _ => Undo);
    }
  }
}
