/** The editor's document, its commands, and the undo stack as a history of the document. */
module EditorHistory {

  datatype Vec = Vec(x: real, y: real) {
    function Plus(v: Vec): Vec {
      Vec(x + v.x, y + v.y)
    }

    function Minus(v: Vec): Vec {
      Vec(x - v.x, y - v.y)
    }
  }

  datatype Line = Line(p1: Vec, p2: Vec, selected: bool)

  /** The collision lines and the set of the selected ones. */
  datatype Doc = Doc(lines: seq<Line>, selection: set<int>) {
    /** The flags of the lines agree with the set. */
    predicate Agrees() {
      && (forall i :: i in selection ==> 0 <= i < |lines|)
      && forall i :: 0 <= i < |lines| ==> (lines[i].selected <==> i in selection)
    }

    /** Selection::Select. */
    function Select(i: nat, select: bool): Doc
      requires i < |lines|
    {
      Doc(lines[i := lines[i].(selected := select)], if select then selection + {i} else selection - {i})
    }

    /** Selection::Clear. */
    function Clear(): Doc {
      Doc(seq(|lines|, i requires 0 <= i < |lines| =>
        if i in selection then lines[i].(selected := false) else lines[i]), {})
    }

    /** The lines of a set are selected. */
    function SelectAll(s: set<int>): Doc {
      Doc(seq(|lines|, i requires 0 <= i < |lines| =>
        if i in s then lines[i].(selected := true) else lines[i]), selection + s)
    }

    /** The selected lines are moved. */
    function Move(delta: Vec): Doc {
      Doc(seq(|lines|, i requires 0 <= i < |lines| =>
        if i in selection then lines[i].(p1 := lines[i].p1.Plus(delta), p2 := lines[i].p2.Plus(delta))
        else lines[i]), selection)
    }

    /** The selected lines are moved back. */
    function MoveBack(delta: Vec): Doc {
      Doc(seq(|lines|, i requires 0 <= i < |lines| =>
        if i in selection then lines[i].(p1 := lines[i].p1.Minus(delta), p2 := lines[i].p2.Minus(delta))
        else lines[i]), selection)
    }

    /** The first selected line from place i on; the number of lines when there is none. */
    function FirstFrom(i: nat): (f: nat)
      requires i <= |lines|
      ensures i <= f <= |lines|
      ensures f < |lines| ==> f in selection
      ensures forall j :: i <= j < f ==> j !in selection
      decreases |lines| - i
    {
      if i == |lines| || i in selection then i else FirstFrom(i + 1)
    }

    function First(): nat {
      FirstFrom(0)
    }

    predicate HasSelection() {
      First() < |lines|
    }

    /** An end point of the first selected line. */
    function Point(first: bool): Vec
      requires HasSelection()
    {
      if first then lines[First()].p1 else lines[First()].p2
    }

    function SetPoint(first: bool, v: Vec): Doc
      requires HasSelection()
    {
      Doc(lines[First() := if first then lines[First()].(p1 := v) else lines[First()].(p2 := v)], selection)
    }
  }

  // ---------- commands ----------

  datatype Command =
    | SelectLine(idx: int, select: bool)
    | ClearSelection(oldSelection: set<int>)
    | MovePoint(oldPos: Vec, newPos: Vec, applyToP1: bool)
    | MoveSelection(delta: Vec)
  {
    /** What a command needs of the document to be done or undone without going out of bounds. */
    predicate Defined(d: Doc) {
      match this
      case SelectLine(idx, _) => 0 <= idx < |d.lines|
      case ClearSelection(_) => true
      case MovePoint(_, _, _) => d.HasSelection()
      case MoveSelection(_) => true
    }

    function Redo(d: Doc): Doc
      requires Defined(d)
    {
      match this
      case SelectLine(idx, select) => d.Select(idx, select)
      case ClearSelection(_) => d.Clear()
      case MovePoint(_, newPos, applyToP1) => d.SetPoint(applyToP1, newPos)
      case MoveSelection(delta) => d.Move(delta)
    }

    /** The command object after it was done: clearing the selection remembers it. */
    function AfterRedo(d: Doc): Command {
      if ClearSelection? then ClearSelection(d.selection) else this
    }

    function Undo(d: Doc): Doc
      requires Defined(d)
    {
      match this
      case SelectLine(idx, select) => d.Select(idx, !select)
      case ClearSelection(oldSelection) => d.SelectAll(oldSelection)
      case MovePoint(oldPos, _, applyToP1) => d.SetPoint(applyToP1, oldPos)
      case MoveSelection(delta) => d.MoveBack(delta)
    }

    /** The command was made for this document: what it remembers is what the document held. */
    predicate MadeFor(d: Doc) {
      && Defined(d)
      && match this
         case SelectLine(idx, select) => d.lines[idx].selected != select
         case ClearSelection(oldSelection) => oldSelection == d.selection
         case MovePoint(oldPos, _, applyToP1) => oldPos == d.Point(applyToP1)
         case MoveSelection(_) => true
    }

    predicate CanMerge() {
      MovePoint? || MoveSelection?
    }
  }

  /** The arguments that a command is made from. */
  datatype Make =
    | MakeSelect(idx: int, select: bool)
    | MakeClear
    | MakeMovePoint(newPos: Vec, p1: bool)
    | MakeMove(delta: Vec)
  {
    predicate Defined(d: Doc) {
      match this
      case MakeSelect(idx, _) => 0 <= idx < |d.lines|
      case MakeMovePoint(_, _) => d.HasSelection()
      case _ => true
    }

    /** The constructors: moving a point remembers where it is. */
    function Command(d: Doc): (c: Command)
      requires Defined(d)
      ensures c.Defined(d)
    {
      match this
      case MakeSelect(idx, select) => SelectLine(idx, select)
      case MakeClear => ClearSelection({})
      case MakeMovePoint(newPos, p1) => MovePoint(d.Point(p1), newPos, p1)
      case MakeMove(delta) => MoveSelection(delta)
    }

    predicate SameKind(c: Command) {
      match this
      case MakeSelect(_, _) => c.SelectLine?
      case MakeClear => c.ClearSelection?
      case MakeMovePoint(_, _) => c.MovePoint?
      case MakeMove(_) => c.MoveSelection?
    }

    /** The command with the new data merged in. */
    function Merged(c: Command): Command
      requires SameKind(c) && c.CanMerge()
    {
      match this
      case MakeMovePoint(newPos, _) => c.(newPos := newPos)
      case MakeMove(delta) => c.(delta := c.delta.Plus(delta))
    }

    /** A selection is only ever toggled. */
    predicate Toggles(d: Doc) {
      MakeSelect? && 0 <= idx < |d.lines| ==> d.lines[idx].selected != select
    }
  }

  // ---------- what commands do to a document ----------

  lemma {:induction false} SameSelectionSameFirst(d: Doc, e: Doc, i: nat)
    requires |d.lines| == |e.lines| && d.selection == e.selection && i <= |d.lines|
    ensures d.FirstFrom(i) == e.FirstFrom(i)
    decreases |d.lines| - i
  {
    if i < |d.lines| && i !in d.selection {
      SameSelectionSameFirst(d, e, i + 1);
    }
  }

  /** Every command keeps the flags and the set in agreement, done or undone. */
  lemma {:induction false} CommandsAgree(c: Command, d: Doc)
    requires d.Agrees() && c.Defined(d)
    requires c.ClearSelection? ==> forall i :: i in c.oldSelection ==> 0 <= i < |d.lines|
    ensures c.Redo(d).Agrees() && |c.Redo(d).lines| == |d.lines|
    ensures c.Undo(d).Agrees() && |c.Undo(d).lines| == |d.lines|
  {
  }

  /** Undoing a command that was made for the document gives the document back. */
  lemma {:induction false} UndoRedo(c: Command, d: Doc)
    requires d.Agrees() && c.MadeFor(d)
    ensures c.Defined(c.Redo(d)) && c.Undo(c.Redo(d)) == d
    ensures c.AfterRedo(d) == c
  {
    var e := c.Redo(d);
    match c
    case SelectLine(idx, select) =>
      assert c.Undo(e).lines == d.lines;
    case ClearSelection(oldSelection) =>
      assert c.Undo(e).lines == d.lines;
    case MovePoint(oldPos, newPos, applyToP1) =>
      SameSelectionSameFirst(d, e, 0);
      assert c.Undo(e).lines == d.lines;
    case MoveSelection(delta) =>
      assert c.Undo(e).lines == d.lines;
  }

  /** Undoing a selection gives the document back exactly when the selection had been a toggle. */
  lemma {:induction false} SelectUndoneIffToggle(d: Doc, idx: nat, select: bool)
    requires d.Agrees() && idx < |d.lines|
    ensures var c := SelectLine(idx, select);
      (c.Undo(c.Redo(d)) == d) <==> d.lines[idx].selected != select
  {
    var c := SelectLine(idx, select);
    if d.lines[idx].selected != select {
      UndoRedo(c, d);
    } else {
      assert c.Undo(c.Redo(d)).lines[idx].selected != d.lines[idx].selected;
    }
  }

  /** A new command is made for its document, once it is done. */
  lemma {:induction false} NewIsMadeFor(m: Make, d: Doc)
    requires d.Agrees() && m.Defined(d) && m.Toggles(d)
    ensures m.Command(d).AfterRedo(d).MadeFor(d)
    ensures m.Command(d).AfterRedo(d).Redo(d) == m.Command(d).Redo(d)
  {
  }

  /** A merged move is one move by the sum of the deltas, or to the last target. */
  lemma {:induction false} MergedIsOneMove(c: Command, m: Make, d: Doc)
    requires d.Agrees() && c.MadeFor(d) && c.CanMerge() && m.SameKind(c)
    ensures m.Merged(c).MadeFor(d)
    ensures m.MakeMove? ==> m.Merged(c).Redo(d) == d.Move(c.delta.Plus(m.delta)) == d.Move(c.delta).Move(m.delta)
    ensures m.MakeMovePoint? ==> m.Merged(c).Redo(d) == d.SetPoint(c.applyToP1, m.newPos)
  {
    if m.MakeMove? {
      var once, twice := d.Move(c.delta.Plus(m.delta)), d.Move(c.delta).Move(m.delta);
      assert once.lines == twice.lines;
    }
  }

  // ---------- the undo stack ----------

  /** The document with the stack of commands, of which the first `index` are done. */
  datatype Stack = Stack(doc: Doc, commands: seq<Command>, index: nat, limit: int)

  /** A document after a command, when it can be done. */
  function DoneOn(c: Command, d: Doc): Doc {
    if c.Defined(d) then c.Redo(d) else d
  }

  /** A document after some commands. */
  function Fold(base: Doc, commands: seq<Command>): Doc {
    if commands == [] then base
    else DoneOn(commands[|commands| - 1], Fold(base, commands[..|commands| - 1]))
  }

  /** Every command was made for the document that the commands before it leave. */
  predicate Chain(base: Doc, commands: seq<Command>) {
    if commands == [] then base.Agrees()
    else
      var before := commands[..|commands| - 1];
      Chain(base, before) && commands[|commands| - 1].MadeFor(Fold(base, before))
  }

  /** The stack is a history: the document is the base with the done commands applied. */
  predicate IsHistory(base: Doc, s: Stack) {
    s.index <= |s.commands| && Chain(base, s.commands) && s.doc == Fold(base, s.commands[..s.index])
  }

  function UndoStep(s: Stack): Stack
    requires s.index <= |s.commands| && (s.index > 0 ==> s.commands[s.index - 1].Defined(s.doc))
  {
    if s.index > 0 then s.(doc := s.commands[s.index - 1].Undo(s.doc), index := s.index - 1) else s
  }

  function RedoStep(s: Stack): Stack
    requires s.index < |s.commands| ==> s.commands[s.index].Defined(s.doc)
  {
    if s.index < |s.commands| then
      var c := s.commands[s.index];
      s.(doc := c.Redo(s.doc), commands := s.commands[s.index := c.AfterRedo(s.doc)], index := s.index + 1)
    else s
  }

  /** The commands after a push, before the limit is applied: the tail that could be redone is gone. */
  function Pushed(s: Stack, m: Make): seq<Command>
    requires s.index <= |s.commands| && m.Defined(s.doc)
  {
    s.commands[..s.index] + [m.Command(s.doc).AfterRedo(s.doc)]
  }

  predicate OverLimit(s: Stack) {
    s.limit != -1 && s.index + 1 > s.limit
  }

  function PushStep(s: Stack, m: Make): Stack
    requires s.index <= |s.commands| && m.Defined(s.doc)
  {
    var doc := m.Command(s.doc).Redo(s.doc);
    if OverLimit(s) then Stack(doc, Pushed(s, m)[1..], s.index, s.limit)
    else Stack(doc, Pushed(s, m), s.index + 1, s.limit)
  }

  /** The last command takes in a new one of its kind. */
  predicate Merges(s: Stack, shouldMerge: bool, m: Make) {
    && shouldMerge && s.commands != []
    && m.SameKind(s.commands[|s.commands| - 1]) && s.commands[|s.commands| - 1].CanMerge()
  }

  predicate MergeDefined(s: Stack, m: Make)
    requires Merges(s, true, m)
  {
    s.commands[|s.commands| - 1].MovePoint? ==> s.doc.HasSelection()
  }

  lemma {:induction false} MovesKeepSelection(c: Command, d: Doc)
    requires c.CanMerge() && c.Defined(d)
    ensures c.Undo(d).First() == d.First() && |c.Undo(d).lines| == |d.lines|
  {
    SameSelectionSameFirst(d, c.Undo(d), 0);
  }

  function MergeStep(s: Stack, m: Make): Stack
    requires Merges(s, true, m) && MergeDefined(s, m)
  {
    var n := |s.commands| - 1;
    MovesKeepSelection(s.commands[n], s.doc);
    var merged := m.Merged(s.commands[n]);
    s.(doc := merged.Redo(s.commands[n].Undo(s.doc)), commands := s.commands[n := merged])
  }

  // ---------- what the steps keep ----------

  lemma {:induction false} ChainPrefix(base: Doc, commands: seq<Command>, i: nat)
    requires Chain(base, commands) && i <= |commands|
    ensures Chain(base, commands[..i]) && Fold(base, commands[..i]).Agrees()
    ensures |Fold(base, commands[..i]).lines| == |base.lines|
    ensures i < |commands| ==> commands[i].MadeFor(Fold(base, commands[..i]))
    decreases |commands|
  {
    if i < |commands| {
      ChainPrefix(base, commands[..|commands| - 1], i);
      assert commands[..|commands| - 1][..i] == commands[..i];
    } else if i > 0 {
      assert commands[..i] == commands;
      ChainPrefix(base, commands[..i - 1], i - 1);
      assert commands[..i - 1][..i - 1] == commands[..i - 1];
      CommandsAgree(commands[i - 1], Fold(base, commands[..i - 1]));
    } else {
      assert commands[..i] == [];
    }
  }

  lemma {:induction false} FoldNext(base: Doc, commands: seq<Command>, i: nat)
    requires Chain(base, commands) && i < |commands|
    ensures commands[i].Defined(Fold(base, commands[..i]))
    ensures Fold(base, commands[..i + 1]) == commands[i].Redo(Fold(base, commands[..i]))
  {
    ChainPrefix(base, commands, i);
    assert commands[..i + 1][..i] == commands[..i];
  }

  /** Undoing goes one command back in the history; redoing that command gives the same state again. */
  lemma {:induction false} UndoKeeps(base: Doc, s: Stack)
    requires IsHistory(base, s)
    ensures s.index > 0 ==> s.commands[s.index - 1].Defined(s.doc)
    ensures IsHistory(base, UndoStep(s))
    ensures s.index > 0 ==> UndoStep(s).doc == Fold(base, s.commands[..s.index - 1])
  {
    if s.index > 0 {
      var i := s.index - 1;
      ChainPrefix(base, s.commands, i);
      FoldNext(base, s.commands, i);
      UndoRedo(s.commands[i], Fold(base, s.commands[..i]));
    }
  }

  lemma {:induction false} RedoKeeps(base: Doc, s: Stack)
    requires IsHistory(base, s)
    ensures s.index < |s.commands| ==> s.commands[s.index].Defined(s.doc)
    ensures IsHistory(base, RedoStep(s)) && RedoStep(s).commands == s.commands
  {
    if s.index < |s.commands| {
      ChainPrefix(base, s.commands, s.index);
      FoldNext(base, s.commands, s.index);
      UndoRedo(s.commands[s.index], s.doc);
      assert s.commands[s.index := s.commands[s.index]] == s.commands;
      assert RedoStep(s) == Stack(s.commands[s.index].Redo(s.doc), s.commands, s.index + 1, s.limit);
    }
  }

  /** Undo and then redo is the identity, and so is redo and then undo. */
  lemma {:induction false} UndoAndRedoInvert(base: Doc, s: Stack)
    requires IsHistory(base, s)
    ensures s.index > 0 ==>
      && s.commands[s.index - 1].Defined(s.doc) && s.commands[s.index - 1].Defined(UndoStep(s).doc)
      && RedoStep(UndoStep(s)) == s
    ensures s.index < |s.commands| ==>
      s.commands[s.index].Defined(s.doc) && s.commands[s.index].Defined(RedoStep(s).doc) && UndoStep(RedoStep(s)) == s
  {
    UndoKeeps(base, s);
    RedoKeeps(base, s);
    if s.index > 0 {
      RedoKeeps(base, UndoStep(s));
      FoldNext(base, s.commands, s.index - 1);
    }
    if s.index < |s.commands| {
      UndoKeeps(base, RedoStep(s));
    }
  }

  /** The first command can be done for good: the base moves forward. */
  lemma {:induction false} BaseMoves(base: Doc, commands: seq<Command>)
    requires Chain(base, commands) && commands != []
    ensures Chain(DoneOn(commands[0], base), commands[1..])
    ensures Fold(DoneOn(commands[0], base), commands[1..]) == Fold(base, commands)
    decreases |commands|
  {
    var n := |commands| - 1;
    if n == 0 {
      ChainPrefix(base, commands, 1);
      FoldNext(base, commands, 0);
      assert commands[..1] == commands && commands[..0] == [];
    } else {
      BaseMoves(base, commands[..n]);
      assert commands[..n][1..] == commands[1..][..n - 1] && commands[..n][0] == commands[0];
    }
  }

  /** The base after a push: it moves only when the limit is reached. */
  function BaseAfterPush(base: Doc, s: Stack, m: Make): Doc
    requires s.index <= |s.commands| && m.Defined(s.doc)
  {
    if OverLimit(s) then DoneOn(Pushed(s, m)[0], base) else base
  }

  lemma {:induction false} PushedChain(base: Doc, s: Stack, m: Make)
    requires IsHistory(base, s) && m.Defined(s.doc) && m.Toggles(s.doc)
    ensures Chain(base, Pushed(s, m)) && Fold(base, Pushed(s, m)) == PushStep(s, m).doc
  {
    var commands := Pushed(s, m);
    assert commands[..|commands| - 1] == s.commands[..s.index];
    ChainPrefix(base, s.commands, s.index);
    NewIsMadeFor(m, s.doc);
  }

  /** A push keeps the history: exactly the tail that could be redone is lost. */
  lemma {:induction false} PushKeeps(base: Doc, s: Stack, m: Make)
    requires IsHistory(base, s) && m.Defined(s.doc) && m.Toggles(s.doc)
    ensures IsHistory(BaseAfterPush(base, s, m), PushStep(s, m))
    ensures PushStep(s, m).index == |PushStep(s, m).commands|
  {
    var commands := Pushed(s, m);
    PushedChain(base, s, m);
    if OverLimit(s) {
      BaseMoves(base, commands);
      assert commands[1..][..s.index] == commands[1..];
    } else {
      assert commands[..s.index + 1] == commands;
    }
  }

  /** A merge at the top of the stack keeps the history. */
  lemma {:induction false} MergeKeeps(base: Doc, s: Stack, m: Make)
    requires IsHistory(base, s) && Merges(s, true, m) && s.index == |s.commands|
    ensures MergeDefined(s, m) && IsHistory(base, MergeStep(s, m))
  {
    var n := |s.commands| - 1;
    var c, d := s.commands[n], Fold(base, s.commands[..n]);
    assert s.commands[..s.index] == s.commands;
    ChainPrefix(base, s.commands, n);
    FoldNext(base, s.commands, n);
    UndoRedo(c, d);
    MergedIsOneMove(c, m, d);
    var merged := MergeStep(s, m).commands;
    assert merged[..n] == s.commands[..n] && merged[..s.index] == merged;
  }

  /** A merge that would leave the document as it is. */
  predicate MergeHasNoEffect(s: Stack, m: Make)
    requires Merges(s, true, m) && MergeDefined(s, m)
  {
    match m
    case MakeMove(delta) => delta == Vec(0.0, 0.0) || !s.doc.HasSelection()
    case MakeMovePoint(newPos, _) => s.doc.Point(s.commands[|s.commands| - 1].applyToP1) == newPos
    case _ => true
  }

  /** What a merge does to the document, when its command is not the one done last. */
  lemma {:induction false} MergeMovesDocument(s: Stack, m: Make)
    requires Merges(s, true, m) && MergeDefined(s, m) && s.doc.Agrees()
    ensures MergeStep(s, m).doc == s.doc <==> MergeHasNoEffect(s, m)
  {
    var c, d, e := s.commands[|s.commands| - 1], s.doc, MergeStep(s, m).doc;
    MovesKeepSelection(c, d);
    SameSelectionSameFirst(d, c.Undo(d), 0);
    if m.MakeMove? {
      if d.HasSelection() {
        var f := d.First();
        assert e.lines[f].p1 == d.lines[f].p1.Minus(c.delta).Plus(c.delta.Plus(m.delta)) == d.lines[f].p1.Plus(m.delta);
      } else {
        assert forall i :: i in d.selection ==> 0 <= i < |d.lines|;
      }
      if MergeHasNoEffect(s, m) {
        assert e.lines == d.lines;
      }
    } else {
      var f := d.First();
      assert e.Point(c.applyToP1) == m.newPos by {
        SameSelectionSameFirst(d, e, 0);
      }
      if MergeHasNoEffect(s, m) {
        assert e.lines == d.lines;
      }
    }
  }

  /**
   A merge keeps the document equal to the history exactly when the last command on the stack is also
   the last one done, or the merge changes nothing.
   */
  lemma {:induction false} MergeKeepsExactly(base: Doc, s: Stack, m: Make)
    requires IsHistory(base, s) && Merges(s, true, m) && MergeDefined(s, m)
    ensures MergeStep(s, m).doc == Fold(base, MergeStep(s, m).commands[..s.index])
       <==> s.index == |s.commands| || MergeHasNoEffect(s, m)
  {
    if s.index == |s.commands| {
      MergeKeeps(base, s, m);
    } else {
      ChainPrefix(base, s.commands, s.index);
      assert MergeStep(s, m).commands[..s.index] == s.commands[..s.index];
      MergeMovesDocument(s, m);
    }
  }

  // ---------- runs ----------

  datatype Op = Push(m: Make) | PushMerge(shouldMerge: bool, m: Make) | Undo | Redo

  /** What the editor sees to: selections are toggles, and merges are at the top of the stack. */
  predicate Legal(s: Stack, op: Op) {
    s.index <= |s.commands| &&
    match op
    case Push(m) => m.Defined(s.doc) && m.Toggles(s.doc)
    case PushMerge(shouldMerge, m) =>
      if Merges(s, shouldMerge, m) then s.index == |s.commands| && MergeDefined(s, m)
      else m.Defined(s.doc) && m.Toggles(s.doc)
    case Undo => s.index > 0 ==> s.commands[s.index - 1].Defined(s.doc)
    case Redo => s.index < |s.commands| ==> s.commands[s.index].Defined(s.doc)
  }

  function Step(s: Stack, op: Op): Stack
    requires Legal(s, op)
  {
    match op
    case Push(m) => PushStep(s, m)
    case PushMerge(shouldMerge, m) => if Merges(s, shouldMerge, m) then MergeStep(s, m) else PushStep(s, m)
    case Undo => UndoStep(s)
    case Redo => RedoStep(s)
  }

  predicate LegalRun(s: Stack, ops: seq<Op>)
    decreases |ops|
  {
    ops == [] || (Legal(s, ops[0]) && LegalRun(Step(s, ops[0]), ops[1..]))
  }

  function Run(s: Stack, ops: seq<Op>): Stack
    requires LegalRun(s, ops)
    decreases |ops|
  {
    if ops == [] then s else Run(Step(s, ops[0]), ops[1..])
  }

  predicate WithinLimit(s: Stack) {
    s.limit == -1 || |s.commands| <= s.limit
  }

  lemma {:induction false} StepKeeps(base: Doc, s: Stack, op: Op) returns (base': Doc)
    requires IsHistory(base, s) && Legal(s, op)
    ensures IsHistory(base', Step(s, op))
    ensures WithinLimit(s) ==> WithinLimit(Step(s, op))
    ensures base' == base || (s.limit != -1 && s.index + 1 > s.limit)
  {
    base' := base;
    match op
    case Push(m) =>
      PushKeeps(base, s, m);
      base' := BaseAfterPush(base, s, m);
    case PushMerge(shouldMerge, m) =>
      if Merges(s, shouldMerge, m) {
        MergeKeeps(base, s, m);
      } else {
        PushKeeps(base, s, m);
        base' := BaseAfterPush(base, s, m);
      }
    case Undo => UndoKeeps(base, s);
    case Redo => RedoKeeps(base, s);
  }

  /**
   In every run the stack stays a history of its document and within its limit, and the flags agree with the
   selection.
   */
  lemma {:induction false} RunKeeps(base: Doc, s: Stack, ops: seq<Op>) returns (base': Doc)
    requires IsHistory(base, s) && LegalRun(s, ops) && WithinLimit(s)
    ensures IsHistory(base', Run(s, ops)) && Run(s, ops).doc.Agrees() && WithinLimit(Run(s, ops))
    ensures s.limit == -1 ==> base' == base
    decreases |ops|
  {
    if ops == [] {
      base' := base;
      ChainPrefix(base, s.commands, s.index);
    } else {
      var next := StepKeeps(base, s, ops[0]);
      base' := RunKeeps(next, Step(s, ops[0]), ops[1..]);
    }
  }

  // ---------- a merge that breaks the history ----------

  lemma {:induction false} RunOn(s: Stack, op: Op, rest: seq<Op>)
    requires Legal(s, op) && LegalRun(Step(s, op), rest)
    ensures LegalRun(s, [op] + rest) && Run(s, [op] + rest) == Run(Step(s, op), rest)
  {
    assert ([op] + rest)[1..] == rest;
  }

  /** A document of which no line is selected, as a new editor has it. */
  predicate Unselected(base: Doc) {
    base.selection == {} && forall i :: 0 <= i < |base.lines| ==> !base.lines[i].selected
  }

  /** The stack after line idx was selected. */
  function AfterSelect(base: Doc, idx: nat): Stack
    requires idx < |base.lines|
  {
    Stack(base.Select(idx, true), [SelectLine(idx, true)], 1, -1)
  }

  /** The stack after line idx was selected and dragged, and the drag was undone. */
  function AfterUndo(base: Doc, idx: nat, v: Vec): Stack
    requires idx < |base.lines|
  {
    Stack(base.Select(idx, true), [SelectLine(idx, true), MoveSelection(v)], 1, -1)
  }

  /** In a new editor a line is clicked and dragged, and the drag is undone. */
  function ClickDragUndo(idx: nat, v: Vec): seq<Op> {
    [Push(MakeSelect(idx, true))] + ([PushMerge(false, MakeMove(v))] + [Undo])
  }

  lemma {:induction false} SelectIsPushed(base: Doc, idx: nat)
    requires Unselected(base) && idx < |base.lines|
    ensures Legal(Stack(base, [], 0, -1), Push(MakeSelect(idx, true)))
    ensures Step(Stack(base, [], 0, -1), Push(MakeSelect(idx, true))) == AfterSelect(base, idx)
  {
  }

  lemma {:induction false} DragAndUndo(base: Doc, idx: nat, v: Vec)
    requires Unselected(base) && idx < |base.lines|
    ensures LegalRun(AfterSelect(base, idx), [PushMerge(false, MakeMove(v))] + [Undo])
    ensures Run(AfterSelect(base, idx), [PushMerge(false, MakeMove(v))] + [Undo]) == AfterUndo(base, idx, v)
  {
    var s, op := AfterSelect(base, idx), PushMerge(false, MakeMove(v));
    CommandsAgree(SelectLine(idx, true), base);
    UndoRedo(MoveSelection(v), s.doc);
    assert s.commands[..1] == s.commands;
    assert Step(s, op) == Stack(s.doc.Move(v), [SelectLine(idx, true), MoveSelection(v)], 2, -1);
    RunOn(Step(s, op), Undo, []);
    RunOn(s, op, [Undo]);
  }

  lemma {:induction false} UndoneIsReached(base: Doc, idx: nat, v: Vec)
    requires Unselected(base) && idx < |base.lines|
    ensures IsHistory(base, Stack(base, [], 0, -1)) && LegalRun(Stack(base, [], 0, -1), ClickDragUndo(idx, v))
    ensures Run(Stack(base, [], 0, -1), ClickDragUndo(idx, v)) == AfterUndo(base, idx, v)
    ensures IsHistory(base, AfterUndo(base, idx, v))
  {
    var start := Stack(base, [], 0, -1);
    SelectIsPushed(base, idx);
    DragAndUndo(base, idx, v);
    RunOn(start, Push(MakeSelect(idx, true)), [PushMerge(false, MakeMove(v))] + [Undo]);
    assert start.commands[..0] == [];
    var kept := RunKeeps(base, start, ClickDragUndo(idx, v));
  }

  /**
   In a new editor a line is clicked and dragged by v, the drag is undone, and the mouse drags on by w: the document is
   what the history says exactly when the mouse does not move; any other drag breaks the history.
   */
  lemma {:induction false} MergeAfterUndoBreaks(base: Doc, idx: nat, v: Vec, w: Vec)
    requires Unselected(base) && idx < |base.lines|
    ensures LegalRun(Stack(base, [], 0, -1), ClickDragUndo(idx, v))
    ensures var s := Run(Stack(base, [], 0, -1), ClickDragUndo(idx, v));
      && IsHistory(base, s) && Merges(s, true, MakeMove(w)) && MergeDefined(s, MakeMove(w))
      && (IsHistory(base, MergeStep(s, MakeMove(w))) <==> w == Vec(0.0, 0.0))
  {
    UndoneIsReached(base, idx, v);
    var s := AfterUndo(base, idx, v);
    MergeKeepsExactly(base, s, MakeMove(w));
    assert idx in s.doc.selection && s.doc.HasSelection();
    if w == Vec(0.0, 0.0) {
      assert v.Plus(w) == v && MergeStep(s, MakeMove(w)).commands == s.commands;
    }
  }
}
