/** The objects of a map: which of them a load has to make, and in which order. */
module MapObjects {
  import opened Options
  import opened IterativeForLoops
  import opened NestedForLoops
  import opened Sequences

  /** The number of objects of every screen. */
  function Sizes<T>(column: seq<seq<T>>): (r: seq<nat>)
    ensures |r| == |column| && forall y :: 0 <= y < |r| ==> r[y] == |column[y]|
  {
    seq(|column|, y requires 0 <= y < |column| => |column[y]|)
  }

  function Grid<T>(screens: seq<seq<seq<T>>>): (r: seq<seq<nat>>)
    ensures |r| == |screens| && forall x :: 0 <= x < |r| ==> r[x] == Sizes(screens[x])
  {
    seq(|screens|, x requires 0 <= x < |screens| => Sizes(screens[x]))
  }

  /** The object at a place, when the object factory accepts it. */
  function Made<T>(screens: seq<seq<seq<T>>>, accepts: T -> bool, place: Option<Place>): Option<T> {
    if place.Some? && InRange(Grid(screens), place.value) then
      var obj := screens[place.value.0][place.value.1.0][place.value.1.1];
      if accepts(obj) then Some(obj) else None
    else None
  }

  /** The objects at some places that the object factory accepts. */
  function Accepted<T>(screens: seq<seq<seq<T>>>, accepts: T -> bool, places: seq<Place>): seq<T> {
    if places == [] then []
    else Made(screens, accepts, Some(places[0])).List() + Accepted(screens, accepts, places[1..])
  }

  lemma {:induction false} AcceptedNext<T>(screens: seq<seq<seq<T>>>, accepts: T -> bool, place: Option<Place>,
      rest: seq<Place>)
    ensures Accepted(screens, accepts, place.List() + rest)
         == Made(screens, accepts, place).List() + Accepted(screens, accepts, rest)
  {
    if place.Some? {
      assert (place.List() + rest)[1..] == rest;
    } else {
      assert place.List() + rest == rest;
    }
  }

  /** All objects of a map that the object factory accepts, in the order of the nested loops. */
  function AllAccepted<T>(screens: seq<seq<seq<T>>>, accepts: T -> bool): seq<T> {
    Accepted(screens, accepts, Columns(Grid(screens), 0))
  }

  lemma {:induction false} DueStep<T>(screens: seq<seq<seq<T>>>, accepts: T -> bool, objs: seq<T>, t: Triple)
    requires t.Over(Grid(screens))
    ensures var (u, place, over) := IterateTriple(t, Grid(screens));
      && u.Over(Grid(screens))
      && objs + Accepted(screens, accepts, RestOfTriple(t, Grid(screens)))
         == objs + Made(screens, accepts, place).List()
            + Accepted(screens, accepts, if over then [] else RestOfTriple(u, Grid(screens)))
  {
    var grid := Grid(screens);
    IterateTripleStep(t, grid);
    var step := IterateTriple(t, grid);
    var rest := if step.2 then [] else RestOfTriple(step.0, grid);
    DueNext(screens, accepts, objs, step.1, rest, RestOfTriple(t, grid));
  }

  lemma {:induction false} DueNext<T>(screens: seq<seq<seq<T>>>, accepts: T -> bool, objs: seq<T>,
      place: Option<Place>, rest: seq<Place>, all: seq<Place>)
    requires all == place.List() + rest
    ensures objs + Accepted(screens, accepts, all)
         == objs + Made(screens, accepts, place).List() + Accepted(screens, accepts, rest)
  {
    AcceptedNext(screens, accepts, place, rest);
    AppendAssociates(objs, Made(screens, accepts, place).List(), Accepted(screens, accepts, rest));
  }

  // ---------- the objects, read screen by screen ----------

  /** The objects of all screens: column by column, in a column screen by screen, in a screen as they are listed. */
  function Objects<T>(screens: seq<seq<seq<T>>>): seq<T> {
    if screens == [] then [] else Flatten(screens[0]) + Objects(screens[1..])
  }

  /** Those of a list that are accepted, in the order of the list. */
  function Filter<T>(accepts: T -> bool, s: seq<T>): seq<T> {
    if s == [] then []
    else if accepts(s[0]) then [s[0]] + Filter(accepts, s[1..])
    else Filter(accepts, s[1..])
  }

  lemma {:induction false} FilterConcat<T>(accepts: T -> bool, a: seq<T>, b: seq<T>)
    ensures Filter(accepts, a + b) == Filter(accepts, a) + Filter(accepts, b)
  {
    if a == [] {
      assert a + b == b;
    } else {
      assert (a + b)[1..] == a[1..] + b;
      FilterConcat(accepts, a[1..], b);
    }
  }

  lemma {:induction false} AcceptedConcat<T>(screens: seq<seq<seq<T>>>, accepts: T -> bool, a: seq<Place>,
      b: seq<Place>)
    ensures Accepted(screens, accepts, a + b) == Accepted(screens, accepts, a) + Accepted(screens, accepts, b)
  {
    if a == [] {
      assert a + b == b;
    } else {
      assert (a + b)[1..] == a[1..] + b;
      AcceptedConcat(screens, accepts, a[1..], b);
      AppendAssociates(Made(screens, accepts, Some(a[0])).List(), Accepted(screens, accepts, a[1..]),
                       Accepted(screens, accepts, b));
    }
  }

  lemma {:induction false} ScreenAccepted<T>(screens: seq<seq<seq<T>>>, accepts: T -> bool, x: nat, y: nat, i: nat)
    requires x < |screens| && y < |screens[x]| && i <= |screens[x][y]|
    ensures Accepted(screens, accepts, TagCells(x, Tag(y, From(i, |screens[x][y]|))))
         == Filter(accepts, screens[x][y][i..])
    decreases |screens[x][y]| - i
  {
    hide From, Tag, TagCells;
    var objects := screens[x][y];
    var places := TagCells(x, Tag(y, From(i, |objects|)));
    if i < |objects| {
      ScreenAccepted(screens, accepts, x, y, i + 1);
      assert places[0] == (x, (y, i)) && places[1..] == TagCells(x, Tag(y, From(i + 1, |objects|)));
      assert objects[i..][1..] == objects[i + 1..];
    }
  }

  lemma {:induction false} TagCellsConcat(x: nat, a: seq<Cell>, b: seq<Cell>)
    ensures TagCells(x, a + b) == TagCells(x, a) + TagCells(x, b)
  {
  }

  lemma {:induction false} ColumnAccepted<T>(screens: seq<seq<seq<T>>>, accepts: T -> bool, x: nat, y: nat)
    requires x < |screens| && y <= |screens[x]|
    ensures Accepted(screens, accepts, TagCells(x, Rows(Sizes(screens[x]), y)))
         == Filter(accepts, Flatten(screens[x][y..]))
    decreases |screens[x]| - y
  {
    hide TagCells, Tag, From, Made;
    var column, counts := screens[x], Sizes(screens[x]);
    if y < |column| {
      ColumnAccepted(screens, accepts, x, y + 1);
      ScreenAccepted(screens, accepts, x, y, 0);
      var first, rest := Tag(y, From(0, counts[y])), Rows(counts, y + 1);
      TagCellsConcat(x, first, rest);
      AcceptedConcat(screens, accepts, TagCells(x, first), TagCells(x, rest));
      assert column[y][0..] == column[y] && column[y..][1..] == column[y + 1..];
      FilterConcat(accepts, column[y], Flatten(column[y + 1..]));
    }
  }

  lemma {:induction false} ColumnsAccepted<T>(screens: seq<seq<seq<T>>>, accepts: T -> bool, x: nat)
    requires x <= |screens|
    ensures Accepted(screens, accepts, Columns(Grid(screens), x)) == Filter(accepts, Objects(screens[x..]))
    decreases |screens| - x
  {
    if x < |screens| {
      ColumnsAccepted(screens, accepts, x + 1);
      ColumnAccepted(screens, accepts, x, 0);
      assert screens[x][0..] == screens[x] && screens[x..][1..] == screens[x + 1..];
      AcceptedConcat(screens, accepts, TagCells(x, Rows(Grid(screens)[x], 0)), Columns(Grid(screens), x + 1));
      FilterConcat(accepts, Flatten(screens[x]), Objects(screens[x + 1..]));
    }
  }

  /** What a load has to make: the accepted ones of the objects, read screen by screen. */
  lemma {:induction false} AllAcceptedIs<T>(screens: seq<seq<seq<T>>>, accepts: T -> bool)
    ensures AllAccepted(screens, accepts) == Filter(accepts, Objects(screens))
  {
    ColumnsAccepted(screens, accepts, 0);
    assert screens[0..] == screens;
  }

  /** Each accepted object is there as often as it is on the screens, and no other object. */
  lemma {:induction false} FilterCounts<T>(accepts: T -> bool, s: seq<T>, o: T)
    ensures multiset(Filter(accepts, s))[o] == if accepts(o) then multiset(s)[o] else 0
  {
    if s != [] {
      FilterCounts(accepts, s[1..], o);
      assert s == [s[0]] + s[1..];
    }
  }

  /** The places of the accepted objects of a list, from place i on. */
  function Places<T>(accepts: T -> bool, s: seq<T>, i: nat): (at: seq<nat>)
    requires i <= |s|
    ensures forall k :: 0 <= k < |at| ==> i <= at[k] < |s| && accepts(s[at[k]])
    ensures forall k, l :: 0 <= k < l < |at| ==> at[k] < at[l]
    decreases |s| - i
  {
    if i == |s| then [] else (if accepts(s[i]) then [i] else []) + Places(accepts, s, i + 1)
  }

  /** The objects that are kept are what stands at those places, in the order in which it stands there. */
  lemma {:induction false} FilterOrder<T>(accepts: T -> bool, s: seq<T>, i: nat)
    requires i <= |s|
    ensures |Filter(accepts, s[i..])| == |Places(accepts, s, i)|
    ensures forall k :: 0 <= k < |Places(accepts, s, i)| ==>
      Filter(accepts, s[i..])[k] == s[Places(accepts, s, i)[k]]
    decreases |s| - i
  {
    if i < |s| {
      assert s[i..][1..] == s[i + 1..];
      FilterOrder(accepts, s, i + 1);
    }
  }

  /** All objects are kept when every one is accepted, and none when none is. */
  lemma {:induction false} FilterAllOrNone<T>(accepts: T -> bool, s: seq<T>)
    ensures (forall o :: o in s ==> accepts(o)) ==> Filter(accepts, s) == s
    ensures (forall o :: o in s ==> !accepts(o)) ==> Filter(accepts, s) == []
  {
    if s != [] {
      FilterAllOrNone(accepts, s[1..]);
    }
  }

  lemma {:induction false} InFlatten<T>(xs: seq<seq<T>>, o: T)
    ensures o in Flatten(xs) <==> exists y :: 0 <= y < |xs| && o in xs[y]
  {
    if xs != [] {
      InFlatten(xs[1..], o);
      assert forall y :: 0 <= y < |xs| - 1 ==> xs[1..][y] == xs[y + 1];
      assert forall y :: 1 <= y < |xs| ==> xs[1..][y - 1] == xs[y];
    }
  }

  /** The objects are those of the screens. */
  lemma {:induction false} InObjects<T>(screens: seq<seq<seq<T>>>, o: T)
    ensures o in Objects(screens) <==>
      exists x, y :: 0 <= x < |screens| && 0 <= y < |screens[x]| && o in screens[x][y]
  {
    if screens != [] {
      InObjects(screens[1..], o);
      InFlatten(screens[0], o);
      assert forall x :: 0 <= x < |screens| - 1 ==> screens[1..][x] == screens[x + 1];
      assert forall x :: 1 <= x < |screens| ==> screens[1..][x - 1] == screens[x];
    }
  }

  /** An object is made exactly when it is on a screen and accepted. */
  lemma {:induction false} InAllAccepted<T>(screens: seq<seq<seq<T>>>, accepts: T -> bool, o: T)
    ensures o in AllAccepted(screens, accepts) <==>
      accepts(o) && exists x, y :: 0 <= x < |screens| && 0 <= y < |screens[x]| && o in screens[x][y]
  {
    AllAcceptedIs(screens, accepts);
    FilterCounts(accepts, Objects(screens), o);
    InObjects(screens, o);
  }
}
