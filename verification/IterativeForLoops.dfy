/** For-loops that do one turn per call, and what nested ones do over all calls. */
module IterativeForLoops {
  import opened Options
  import opened Sequences

  /** mEndRange, mCurrentIndex and mIsFirstIteration. */
  datatype Loop = Loop(end: nat, index: nat, first: bool) {
    predicate Done() {
      index >= end
    }

    predicate Fresh() {
      first && index == 0
    }

    /** The loop is over a range of this size. */
    predicate Over(bound: nat) {
      if first then index == 0 else end == bound && index <= end
    }

    /** What a call does before the body of the loop, and whether the body runs. */
    function Begin(bound: nat): (Loop, Turn) {
      if first || !Done() then
        var l := if first then Loop(bound, index, false) else this;
        (l, if l.Done() then Wait else Run)
      else (Loop(end, 0, true), Finished)
    }

    function Increment(): Loop {
      if Done() then this else this.(index := index + 1)
    }
  }

  /** The body runs; or the range was found empty; or the loop is over and starts afresh. */
  datatype Turn = Run | Wait | Finished

  // ---------- one loop ----------

  /** One call of Iterate: the loop after it, the index that the body ran for, and whether the loop is over. */
  function Iterate(l: Loop, bound: nat): (Loop, Option<nat>, bool) {
    var (m, turn) := l.Begin(bound);
    if turn == Run then (m.Increment(), Some(m.index), false) else (m, None, turn == Finished)
  }

  function From(a: nat, b: nat): (s: seq<nat>)
    ensures |s| == if a < b then b - a else 0
    ensures forall k :: 0 <= k < |s| ==> s[k] == a + k
  {
    seq(if a < b then b - a else 0, k requires 0 <= k => a + k)
  }

  /** The indices that the body has still to run for. */
  function Rest(l: Loop, bound: nat): seq<nat> {
    if l.first then From(0, bound) else From(l.index, bound)
  }

  /** The calls of a loop from its start; finding an empty range takes one too. */
  function Calls(bound: nat): nat {
    if bound == 0 then 2 else bound + 1
  }

  /** The calls still to be made until the loop is over. */
  function CallsLeft(l: Loop, bound: nat): nat
    requires l.Over(bound)
  {
    if l.first then Calls(bound) else bound - l.index + 1
  }

  lemma {:induction false} IterateStep(l: Loop, bound: nat)
    requires l.Over(bound)
    ensures var (m, body, over) := Iterate(l, bound);
      && m.Over(bound)
      && Rest(l, bound) == body.List() + (if over then [] else Rest(m, bound))
      && (over <==> CallsLeft(l, bound) == 1)
      && (if over then m.Fresh() else !m.first && CallsLeft(m, bound) == CallsLeft(l, bound) - 1)
  {
  }

  // ---------- a loop in a loop ----------

  /** A loop and the loop that its body is. */
  datatype Pair = Pair(outer: Loop, inner: Loop) {
    predicate Fresh() {
      outer.Fresh() && inner.Fresh()
    }

    /** The loops are over ranges of these sizes, one inner range for each outer index. */
    predicate Over(counts: seq<nat>) {
      && outer.Over(|counts|)
      && if outer.first || outer.index >= |counts| then inner.Fresh() else inner.Over(counts[outer.index])
    }
  }

  type Cell = (nat, nat)

  function Tag(y: nat, s: seq<nat>): (r: seq<Cell>)
    ensures |r| == |s| && forall k :: 0 <= k < |s| ==> r[k] == (y, s[k])
  {
    seq(|s|, k requires 0 <= k < |s| => (y, s[k]))
  }

  function InRow(y: nat, i: Option<nat>): Option<Cell> {
    if i.None? then None else Some((y, i.value))
  }

  /** One call of IterateIf around Iterate: the outer index moves on when the inner loop is over. */
  function IteratePair(p: Pair, counts: seq<nat>): (Pair, Option<Cell>, bool)
    requires p.Over(counts)
  {
    var (outer, turn) := p.outer.Begin(|counts|);
    if turn == Run then
      var (inner, body, over) := Iterate(p.inner, counts[outer.index]);
      (Pair(if over then outer.Increment() else outer, inner), InRow(outer.index, body), false)
    else (Pair(outer, p.inner), None, turn == Finished)
  }

  /** The cells of the rows from y on, row by row. */
  function Rows(counts: seq<nat>, y: nat): seq<Cell>
    requires y <= |counts|
    decreases |counts| - y
  {
    if y == |counts| then [] else Tag(y, From(0, counts[y])) + Rows(counts, y + 1)
  }

  function RestOfPair(p: Pair, counts: seq<nat>): seq<Cell>
    requires p.Over(counts)
  {
    if p.outer.first then Rows(counts, 0)
    else if p.outer.index == |counts| then []
    else Tag(p.outer.index, Rest(p.inner, counts[p.outer.index])) + Rows(counts, p.outer.index + 1)
  }

  function RowsCalls(counts: seq<nat>, y: nat): nat
    requires y <= |counts|
    decreases |counts| - y
  {
    if y == |counts| then 0 else Calls(counts[y]) + RowsCalls(counts, y + 1)
  }

  function PairCalls(counts: seq<nat>): nat {
    if counts == [] then 2 else RowsCalls(counts, 0) + 1
  }

  function PairCallsLeft(p: Pair, counts: seq<nat>): nat
    requires p.Over(counts)
  {
    if p.outer.first then PairCalls(counts)
    else if p.outer.index == |counts| then 1
    else CallsLeft(p.inner, counts[p.outer.index]) + RowsCalls(counts, p.outer.index + 1) + 1
  }

  /** When the inner loop starts afresh, all its row is to come. */
  lemma {:induction false} FreshRow(outer: Loop, inner: Loop, counts: seq<nat>)
    requires !outer.first && outer.Over(|counts|) && inner.Fresh()
    ensures var p := Pair(outer, inner);
      && p.Over(counts)
      && RestOfPair(p, counts) == Rows(counts, outer.index)
      && PairCallsLeft(p, counts) == RowsCalls(counts, outer.index) + 1
  {
  }

  lemma {:induction false} TagList(y: nat, i: Option<nat>, s: seq<nat>, rows: seq<Cell>)
    ensures Tag(y, i.List() + s) + rows == InRow(y, i).List() + (Tag(y, s) + rows)
  {
    assert Tag(y, i.List() + s) == InRow(y, i).List() + Tag(y, s);
    AppendAssociates(InRow(y, i).List(), Tag(y, s), rows);
  }

  lemma {:induction false} RestAfter(y: nat, all: seq<nat>, i: Option<nat>, rest: seq<nat>, rows: seq<Cell>)
    requires all == i.List() + rest
    ensures Tag(y, all) + rows == InRow(y, i).List() + (Tag(y, rest) + rows)
    ensures rest == [] ==> Tag(y, rest) + rows == rows
  {
    TagList(y, i, rest, rows);
  }

  /** A call inside a row: the next cell of the row, if there is one, and then the rest. */
  lemma {:induction false} RunInRow(outer: Loop, inner: Loop, counts: seq<nat>)
    requires !outer.first && outer.Over(|counts|) && outer.index < |counts| && inner.Over(counts[outer.index])
    ensures var p := Pair(outer, inner);
      var (q, body, over) := IteratePair(p, counts);
      && !over && q.Over(counts) && !q.outer.first
      && RestOfPair(p, counts) == body.List() + RestOfPair(q, counts)
      && PairCallsLeft(q, counts) == PairCallsLeft(p, counts) - 1
  {
    hide Rest, Rows, Tag;
    var y := outer.index;
    var (inner', i, done) := Iterate(inner, counts[y]);
    IterateStep(inner, counts[y]);
    assert IteratePair(Pair(outer, inner), counts)
        == (Pair(if done then outer.Increment() else outer, inner'), InRow(y, i), false);
    if done {
      RestAfter(y, Rest(inner, counts[y]), i, [], Rows(counts, y + 1));
      FreshRow(outer.Increment(), inner', counts);
    } else {
      RestAfter(y, Rest(inner, counts[y]), i, Rest(inner', counts[y]), Rows(counts, y + 1));
    }
  }

  /** A call runs the body for the next cell of the two loops, or for none, and they are over after the last. */
  lemma {:induction false} IteratePairStep(p: Pair, counts: seq<nat>)
    requires p.Over(counts)
    ensures var (q, body, over) := IteratePair(p, counts);
      && q.Over(counts)
      && RestOfPair(p, counts) == body.List() + (if over then [] else RestOfPair(q, counts))
      && (over <==> PairCallsLeft(p, counts) == 1)
      && (if over then q.Fresh() else !q.outer.first && PairCallsLeft(q, counts) == PairCallsLeft(p, counts) - 1)
  {
    var (outer, turn) := p.outer.Begin(|counts|);
    if p.outer.first {
      FreshRow(outer, p.inner, counts);
    }
    if turn == Run {
      RunInRow(outer, p.inner, counts);
    }
  }
}
