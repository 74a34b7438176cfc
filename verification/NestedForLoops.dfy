/** Three resumable loops, one inside the other, are the nested loops over the same ranges. */
module NestedForLoops {
  import opened Options
  import opened IterativeForLoops
  import opened Sequences

  datatype Triple = Triple(outer: Loop, pair: Pair) {
    predicate Fresh() {
      outer.Fresh() && pair.Fresh()
    }

    predicate Over(grid: seq<seq<nat>>) {
      && outer.Over(|grid|)
      && if outer.first || outer.index >= |grid| then pair.Fresh() else pair.Over(grid[outer.index])
    }
  }

  /** An outer index with the indices of the two loops inside. */
  type Place = (nat, Cell)

  function TagCells(x: nat, s: seq<Cell>): (r: seq<Place>)
    ensures |r| == |s| && forall k :: 0 <= k < |s| ==> r[k] == (x, s[k])
  {
    seq(|s|, k requires 0 <= k < |s| => (x, s[k]))
  }

  function Placed(x: nat, cell: Option<Cell>): Option<Place> {
    if cell.None? then None else Some((x, cell.value))
  }

  /** One call of IterateIf around IterateIf around Iterate. */
  function IterateTriple(t: Triple, grid: seq<seq<nat>>): (Triple, Option<Place>, bool)
    requires t.Over(grid)
  {
    var (outer, turn) := t.outer.Begin(|grid|);
    if turn == Run then
      FreshPair(t.pair, grid[outer.index]);
      var (pair, body, over) := IteratePair(t.pair, grid[outer.index]);
      (Triple(if over then outer.Increment() else outer, pair), Placed(outer.index, body), false)
    else (Triple(outer, t.pair), None, turn == Finished)
  }

  lemma {:induction false} FreshPair(p: Pair, counts: seq<nat>)
    ensures p.Fresh() ==> p.Over(counts)
  {
  }

  /** The places of the columns from x on, in the order of the nested loops. */
  function Columns(grid: seq<seq<nat>>, x: nat): seq<Place>
    requires x <= |grid|
    decreases |grid| - x
  {
    if x == |grid| then [] else TagCells(x, Rows(grid[x], 0)) + Columns(grid, x + 1)
  }

  function RestOfTriple(t: Triple, grid: seq<seq<nat>>): seq<Place>
    requires t.Over(grid)
  {
    if t.outer.first then Columns(grid, 0)
    else if t.outer.index == |grid| then []
    else TagCells(t.outer.index, RestOfPair(t.pair, grid[t.outer.index])) + Columns(grid, t.outer.index + 1)
  }

  function ColumnsCalls(grid: seq<seq<nat>>, x: nat): nat
    requires x <= |grid|
    decreases |grid| - x
  {
    if x == |grid| then 0 else PairCalls(grid[x]) + ColumnsCalls(grid, x + 1)
  }

  /** The calls that three loops take in all. */
  function TripleCalls(grid: seq<seq<nat>>): nat {
    if grid == [] then 2 else ColumnsCalls(grid, 0) + 1
  }

  function TripleCallsLeft(t: Triple, grid: seq<seq<nat>>): nat
    requires t.Over(grid)
  {
    if t.outer.first then TripleCalls(grid)
    else if t.outer.index == |grid| then 1
    else PairCallsLeft(t.pair, grid[t.outer.index]) + ColumnsCalls(grid, t.outer.index + 1) + 1
  }

  lemma {:induction false} FreshColumn(outer: Loop, pair: Pair, grid: seq<seq<nat>>)
    requires !outer.first && outer.Over(|grid|) && pair.Fresh()
    ensures var t := Triple(outer, pair);
      && t.Over(grid)
      && RestOfTriple(t, grid) == Columns(grid, outer.index)
      && TripleCallsLeft(t, grid) == ColumnsCalls(grid, outer.index) + 1
  {
    if outer.index < |grid| {
      FreshPair(pair, grid[outer.index]);
    }
  }

  lemma {:induction false} TagCellsList(x: nat, cell: Option<Cell>, s: seq<Cell>, columns: seq<Place>)
    ensures TagCells(x, cell.List() + s) + columns == Placed(x, cell).List() + (TagCells(x, s) + columns)
  {
    assert TagCells(x, cell.List() + s) == Placed(x, cell).List() + TagCells(x, s);
    AppendAssociates(Placed(x, cell).List(), TagCells(x, s), columns);
  }

  lemma {:induction false} RestAfter(x: nat, all: seq<Cell>, cell: Option<Cell>, rest: seq<Cell>, columns: seq<Place>)
    requires all == cell.List() + rest
    ensures TagCells(x, all) + columns == Placed(x, cell).List() + (TagCells(x, rest) + columns)
    ensures rest == [] ==> TagCells(x, rest) + columns == columns
  {
    TagCellsList(x, cell, rest, columns);
  }

  /** The loops go on in the same column. */
  lemma {:induction false} InColumn(outer: Loop, pair: Pair, next: Pair, cell: Option<Cell>, grid: seq<seq<nat>>)
    requires !outer.first && outer.Over(|grid|) && outer.index < |grid|
    requires pair.Over(grid[outer.index]) && next.Over(grid[outer.index])
    requires RestOfPair(pair, grid[outer.index]) == cell.List() + RestOfPair(next, grid[outer.index])
    requires PairCallsLeft(next, grid[outer.index]) == PairCallsLeft(pair, grid[outer.index]) - 1
    ensures var t, u := Triple(outer, pair), Triple(outer, next);
      && u.Over(grid)
      && RestOfTriple(t, grid) == Placed(outer.index, cell).List() + RestOfTriple(u, grid)
      && TripleCallsLeft(u, grid) == TripleCallsLeft(t, grid) - 1
  {
    hide RestOfPair, PairCallsLeft, Columns, ColumnsCalls, TagCells, Placed;
    var x, counts := outer.index, grid[outer.index];
    RestAfter(x, RestOfPair(pair, counts), cell, RestOfPair(next, counts), Columns(grid, x + 1));
  }

  /** The column is done, and the next one is to come. */
  lemma {:induction false} EndOfColumn(outer: Loop, pair: Pair, next: Pair, cell: Option<Cell>, grid: seq<seq<nat>>)
    requires !outer.first && outer.Over(|grid|) && outer.index < |grid| && pair.Over(grid[outer.index]) && next.Fresh()
    requires RestOfPair(pair, grid[outer.index]) == cell.List() && PairCallsLeft(pair, grid[outer.index]) == 1
    ensures var t, u := Triple(outer, pair), Triple(outer.Increment(), next);
      && u.Over(grid)
      && RestOfTriple(t, grid) == Placed(outer.index, cell).List() + RestOfTriple(u, grid)
      && TripleCallsLeft(u, grid) == TripleCallsLeft(t, grid) - 1
  {
    hide RestOfPair, PairCallsLeft, Columns, ColumnsCalls, TagCells, Placed;
    var x, counts := outer.index, grid[outer.index];
    assert cell.List() + [] == cell.List();
    RestAfter(x, RestOfPair(pair, counts), cell, [], Columns(grid, x + 1));
    FreshColumn(outer.Increment(), next, grid);
  }

  lemma {:induction false} RunInColumn(outer: Loop, pair: Pair, grid: seq<seq<nat>>)
    requires !outer.first && outer.Over(|grid|) && outer.index < |grid| && pair.Over(grid[outer.index])
    ensures var t := Triple(outer, pair);
      var (u, body, over) := IterateTriple(t, grid);
      && !over && u.Over(grid) && !u.outer.first
      && RestOfTriple(t, grid) == body.List() + RestOfTriple(u, grid)
      && TripleCallsLeft(u, grid) == TripleCallsLeft(t, grid) - 1
  {
    hide RestOfTriple, RestOfPair, TripleCallsLeft, PairCallsLeft, IteratePair, Placed;
    var t, x := Triple(outer, pair), outer.index;
    var (next, cell, done) := IteratePair(pair, grid[x]);
    IteratePairStep(pair, grid[x]);
    assert IterateTriple(t, grid) == (Triple(if done then outer.Increment() else outer, next), Placed(x, cell), false);
    if done {
      assert cell.List() + [] == cell.List();
      EndOfColumn(outer, pair, next, cell, grid);
    } else {
      InColumn(outer, pair, next, cell, grid);
    }
  }

  /**
   A call runs the body for the next place of the nested loops, or for none; after the last place all three
   loops are as they were at first, and the call says so. The number of calls left goes down by one.
   */
  lemma {:induction false} IterateTripleStep(t: Triple, grid: seq<seq<nat>>)
    requires t.Over(grid)
    ensures var (u, body, over) := IterateTriple(t, grid);
      && u.Over(grid)
      && RestOfTriple(t, grid) == body.List() + (if over then [] else RestOfTriple(u, grid))
      && (over <==> TripleCallsLeft(t, grid) == 1)
      && (if over then u.Fresh() else TripleCallsLeft(u, grid) == TripleCallsLeft(t, grid) - 1)
  {
    var (outer, turn) := t.outer.Begin(|grid|);
    if t.outer.first {
      FreshColumn(outer, t.pair, grid);
    }
    if turn == Run {
      RunInColumn(outer, t.pair, grid);
    }
  }

  // ---------- all calls ----------

  /** The places that the body runs for when the loops are called until they are over. */
  function RunOut(t: Triple, grid: seq<seq<nat>>): seq<Place>
    requires t.Over(grid)
    decreases TripleCallsLeft(t, grid)
  {
    IterateTripleStep(t, grid);
    var (u, body, over) := IterateTriple(t, grid);
    body.List() + if over then [] else RunOut(u, grid)
  }

  lemma {:induction false} RunOutIsRest(t: Triple, grid: seq<seq<nat>>)
    requires t.Over(grid)
    ensures RunOut(t, grid) == RestOfTriple(t, grid)
    decreases TripleCallsLeft(t, grid)
  {
    IterateTripleStep(t, grid);
    var (u, body, over) := IterateTriple(t, grid);
    if !over {
      RunOutIsRest(u, grid);
    }
  }

  // ---------- the order of the nested loops ----------

  predicate InRange(grid: seq<seq<nat>>, p: Place) {
    p.0 < |grid| && p.1.0 < |grid[p.0]| && p.1.1 < grid[p.0][p.1.0]
  }

  predicate CellBefore(a: Cell, b: Cell) {
    a.0 < b.0 || (a.0 == b.0 && a.1 < b.1)
  }

  predicate Before(a: Place, b: Place) {
    a.0 < b.0 || (a.0 == b.0 && CellBefore(a.1, b.1))
  }

  lemma {:induction false} RowsOrdered(counts: seq<nat>, y: nat)
    requires y <= |counts|
    ensures forall c: Cell :: c in Rows(counts, y) <==> y <= c.0 < |counts| && c.1 < counts[c.0]
    ensures forall k, l :: 0 <= k < l < |Rows(counts, y)| ==> CellBefore(Rows(counts, y)[k], Rows(counts, y)[l])
    decreases |counts| - y
  {
    if y < |counts| {
      RowsOrdered(counts, y + 1);
      var first, rest := Tag(y, From(0, counts[y])), Rows(counts, y + 1);
      forall c: Cell
        ensures c in first <==> c.0 == y && c.1 < counts[y]
      {
        if c.0 == y && c.1 < counts[y] {
          assert first[c.1] == c;
        }
      }
    }
  }

  lemma {:induction false} ColumnsOrdered(grid: seq<seq<nat>>, x: nat)
    requires x <= |grid|
    ensures forall p: Place :: p in Columns(grid, x) <==> x <= p.0 && InRange(grid, p)
    ensures forall k, l :: 0 <= k < l < |Columns(grid, x)| ==> Before(Columns(grid, x)[k], Columns(grid, x)[l])
    decreases |grid| - x
  {
    if x < |grid| {
      ColumnsOrdered(grid, x + 1);
      RowsOrdered(grid[x], 0);
      var cells := Rows(grid[x], 0);
      var first, rest := TagCells(x, cells), Columns(grid, x + 1);
      forall p: Place
        ensures p in first <==> p.0 == x && InRange(grid, p)
      {
        if p.0 == x && InRange(grid, p) {
          var k :| 0 <= k < |cells| && cells[k] == p.1;
          assert first[k] == p;
        }
      }
    }
  }

  /**
   Called until they are over, the loops run the body for every place in range, each once, in the order of the
   nested loops.
   */
  lemma {:induction false} NestedLoopsRun(t: Triple, grid: seq<seq<nat>>)
    requires t.Fresh()
    ensures t.Over(grid)
    ensures forall p: Place :: p in RunOut(t, grid) <==> InRange(grid, p)
    ensures forall k, l :: 0 <= k < l < |RunOut(t, grid)| ==> Before(RunOut(t, grid)[k], RunOut(t, grid)[l])
  {
    RunOutIsRest(t, grid);
    ColumnsOrdered(grid, 0);
  }
}
