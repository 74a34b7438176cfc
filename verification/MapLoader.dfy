/** The map loader, which loads cameras and objects a little per frame with resumable loops. */
module MapLoader {
  import opened Options
  import opened IterativeForLoops
  import opened MapObjects
  import opened NestedForLoops
  import opened Sequences

  class ForLoop {
    var endRange: nat
    var currentIndex: nat
    var isFirstIteration: bool

    ghost function State(): Loop
      reads this
    {
      Loop(endRange, currentIndex, isFirstIteration)
    }

    constructor ()
      ensures State() == Loop(0, 0, true)
    {
      endRange, currentIndex, isFirstIteration := 0, 0, true;
    }

    /** The part of IterateCommon before the body of the loop. */
    method Begin(bound: nat) returns (turn: Turn)
      modifies this
      ensures (State(), turn) == old(State()).Begin(bound)
    {
      if isFirstIteration || currentIndex < endRange {
        if isFirstIteration {
          endRange := bound;
          isFirstIteration := false;
        }
        turn := if currentIndex < endRange then Run else Wait;
      } else {
        currentIndex := 0;
        isFirstIteration := true;
        turn := Finished;
      }
    }

    method Increment()
      modifies this
      ensures State() == old(State()).Increment()
    {
      if currentIndex < endRange {
        currentIndex := currentIndex + 1;
      }
    }
  }

  /** A frame: the turns that its time allows for cameras, and for objects, with the answers of their initialisation. */
  datatype Frame = Frame(turns: nat, inits: seq<bool>) {
    predicate Runs() {
      turns > 0 && inits != []
    }

    /** Whatever is made in this frame is initialised at once. */
    predicate Smooth() {
      forall k :: 0 <= k < |inits| ==> inits[k]
    }
  }

  function SmoothFrames(frames: seq<Frame>): nat {
    if frames == [] then 0
    else SmoothFrames(frames[..|frames| - 1]) + if frames[|frames| - 1].Smooth() then 1 else 0
  }

  lemma {:induction false} PairCallsPositive(p: Pair, counts: seq<nat>)
    requires p.Over(counts)
    ensures PairCallsLeft(p, counts) > 0
  {
    IteratePairStep(p, counts);
  }

  lemma {:induction false} TripleCallsPositive(t: Triple, grid: seq<seq<nat>>)
    requires t.Over(grid)
    ensures TripleCallsLeft(t, grid) > 0
  {
    IterateTripleStep(t, grid);
  }

  datatype LoaderState = LoadCameras | ObjectLoaderScripts | LoadObjects | PlaceAbe

  /** A map of xSize by ySize screens. */
  class Loader<T> {
    const xLoop: ForLoop
    const yLoop: ForLoop
    const iLoop: ForLoop
    const screens: seq<seq<seq<T>>>
    const ySize: nat
    const accepts: T -> bool
    var state: LoaderState
    var being: Option<T>
    var objs: seq<T>
    var loaded: seq<Cell>

    ghost predicate Valid()
      reads this
    {
      && xLoop != yLoop && xLoop != iLoop && yLoop != iLoop
      && forall x :: 0 <= x < |screens| ==> |screens[x]| == ySize
    }

    ghost function Loops(): Triple
      reads this, xLoop, yLoop, iLoop
    {
      Triple(xLoop.State(), Pair(yLoop.State(), iLoop.State()))
    }

    /** The loops are at a place of the map. */
    ghost predicate AtPlace()
      reads this, xLoop, yLoop, iLoop
    {
      Valid() && Loops().Over(Grid(screens))
    }

    /** All that is loaded, being loaded, or still to be loaded. */
    ghost function Due(): seq<T>
      reads this, xLoop, yLoop, iLoop
      requires AtPlace()
    {
      objs + being.List() + Accepted(screens, accepts, RestOfTriple(Loops(), Grid(screens)))
    }

    /** The calls still to be made, when every object is initialised in one call. */
    ghost function Left(): nat
      reads this, xLoop, yLoop, iLoop
      requires AtPlace()
    {
      2 * TripleCallsLeft(Loops(), Grid(screens)) + |being.List()|
    }

    constructor (screens: seq<seq<seq<T>>>, ySize: nat, accepts: T -> bool)
      requires forall x :: 0 <= x < |screens| ==> |screens[x]| == ySize
      ensures fresh(xLoop) && fresh(yLoop) && fresh(iLoop) && AtScreen() && Loops().Fresh()
      ensures ScreensDue() == Rows(seq(|screens|, _ => ySize), 0)
      ensures this.screens == screens && this.ySize == ySize && this.accepts == accepts
      ensures state == LoadCameras && being == None && objs == [] && loaded == [] && Loading()
    {
      this.screens, this.ySize, this.accepts := screens, ySize, accepts;
      state, being, objs, loaded := LoadCameras, None, [], [];
      xLoop := new ForLoop();
      yLoop := new ForLoop();
      iLoop := new ForLoop();
    }

    // ---------- cameras ----------

    /** The loops over columns and rows are at a screen of the map, and the third has not been used. */
    ghost predicate AtScreen()
      reads this, xLoop, yLoop, iLoop
    {
      Valid() && iLoop.State().Fresh() && Pair(xLoop.State(), yLoop.State()).Over(seq(|screens|, _ => ySize))
    }

    ghost function ScreensDue(): seq<Cell>
      reads this, xLoop, yLoop, iLoop
      requires AtScreen()
    {
      loaded + RestOfPair(Pair(xLoop.State(), yLoop.State()), seq(|screens|, _ => ySize))
    }

    ghost function ScreenCallsLeft(): nat
      reads this, xLoop, yLoop, iLoop
      requires AtScreen()
    {
      PairCallsLeft(Pair(xLoop.State(), yLoop.State()), seq(|screens|, _ => ySize))
    }

    /** The loop over the screens of a column; its body makes the screen with its camera. */
    method IterateScreens(x: nat) returns (over: bool, ghost y: Option<nat>)
      modifies yLoop, `loaded
      ensures (yLoop.State(), y, over) == Iterate(old(yLoop.State()), ySize)
      ensures loaded == old(loaded) + if y.None? then [] else [(x, y.value)]
    {
      var turn := yLoop.Begin(ySize);
      y := None;
      if turn == Run {
        y := Some(yLoop.currentIndex);
        loaded := loaded + [(x, yLoop.currentIndex)];
        yLoop.Increment();
      }
      over := turn == Finished;
    }

    /** One turn of the loop over the columns. */
    method NextScreen() returns (over: bool)
      requires AtScreen()
      modifies xLoop, yLoop, `loaded
      ensures AtScreen()
      ensures !over ==> ScreensDue() == old(ScreensDue()) && ScreenCallsLeft() < old(ScreenCallsLeft())
      ensures over ==> loaded == old(ScreensDue()) && Loops().Fresh()
    {
      hide Iterate, PairCallsLeft, RestOfPair;
      ghost var p, counts := Pair(xLoop.State(), yLoop.State()), seq(|screens|, _ => ySize);
      ghost var step := IteratePair(p, counts);
      IteratePairStep(p, counts);
      AppendAssociates(loaded, step.1.List(), if step.2 then [] else RestOfPair(step.0, counts));
      var turn := xLoop.Begin(|screens|);
      if turn == Run {
        assert counts[xLoop.currentIndex] == ySize;
        ghost var y;
        var done;
        done, y := IterateScreens(xLoop.currentIndex);
        if done {
          xLoop.Increment();
        }
      }
      over := turn == Finished;
      assert Pair(xLoop.State(), yLoop.State()) == step.0 && over == step.2;
      assert loaded == old(loaded) + step.1.List();
    }

    /** Cameras are loaded for at least one turn, and for as many as the time allows. */
    method HandleLoadCameras(turns: nat)
      requires AtScreen() && state == LoadCameras && turns > 0
      modifies this`loaded, this`state, xLoop, yLoop
      ensures AtScreen() && (state == LoadCameras || state == ObjectLoaderScripts)
      ensures state == LoadCameras ==>
        ScreensDue() == old(ScreensDue()) && ScreenCallsLeft() + turns <= old(ScreenCallsLeft())
      ensures state == ObjectLoaderScripts ==> loaded == old(ScreensDue()) && Loops().Fresh()
    {
      var turn := 0;
      while turn < turns
        invariant turn <= turns && AtScreen() && state == LoadCameras
        invariant ScreensDue() == old(ScreensDue()) && ScreenCallsLeft() + turn <= old(ScreenCallsLeft())
      {
        var over := NextScreen();
        if over {
          state := ObjectLoaderScripts;
          return;
        }
        turn := turn + 1;
      }
    }

    /** After the scripts the loops start again, for the objects. */
    method HandleObjectLoaderScripts()
      requires Valid() && state == ObjectLoaderScripts && Loops().Fresh() && being == None
      modifies `state
      ensures AtPlace() && state == LoadObjects && Due() == objs + AllAccepted(screens, accepts)
    {
      state := LoadObjects;
      assert objs + being.List() == objs;
    }

    // ---------- objects ----------

    /** The inner loop over the objects of a screen. */
    method IterateObjects(x: nat, y: nat) returns (over: bool, ghost i: Option<nat>)
      requires x < |screens| && y < |screens[x]| && being == None && iLoop.State().Over(|screens[x][y]|)
      modifies iLoop, `being
      ensures (iLoop.State(), i, over) == Iterate(old(iLoop.State()), |screens[x][y]|)
      ensures being == Made(screens, accepts, Placed(x, if i.None? then None else Some((y, i.value))))
      ensures being == if i.Some? && accepts(screens[x][y][i.value]) then Some(screens[x][y][i.value]) else None
    {
      var turn := iLoop.Begin(|screens[x][y]|);
      i := None;
      if turn == Run {
        i := Some(iLoop.currentIndex);
        var obj := screens[x][y][iLoop.currentIndex];
        if accepts(obj) {
          being := Some(obj);
        }
        iLoop.Increment();
      }
      over := turn == Finished;
    }

    /** The loop over the screens of a column. */
    method IterateColumn(x: nat) returns (over: bool, ghost cell: Option<Cell>)
      requires Valid() && x < |screens| && being == None
      requires Pair(yLoop.State(), iLoop.State()).Over(Sizes(screens[x]))
      modifies yLoop, iLoop, `being
      ensures (Pair(yLoop.State(), iLoop.State()), cell, over)
           == IteratePair(old(Pair(yLoop.State(), iLoop.State())), Sizes(screens[x]))
      ensures being == Made(screens, accepts, Placed(x, cell))
    {
      var turn := yLoop.Begin(ySize);
      cell := None;
      if turn == Run {
        ghost var i;
        var done;
        done, i := IterateObjects(x, yLoop.currentIndex);
        cell := if i.None? then None else Some((yLoop.currentIndex, i.value));
        if done {
          yLoop.Increment();
        }
      }
      over := turn == Finished;
    }

    /** The loop over the columns of the map. */
    method IterateMap() returns (over: bool, ghost place: Option<Place>)
      requires AtPlace() && being == None
      modifies xLoop, yLoop, iLoop, `being
      ensures (Loops(), place, over) == IterateTriple(old(Loops()), Grid(screens))
      ensures being == Made(screens, accepts, place) && (being != None ==> accepts(being.value))
    {
      var turn := xLoop.Begin(|screens|);
      place := None;
      if turn == Run {
        FreshPair(Loops().pair, Grid(screens)[xLoop.currentIndex]);
        ghost var cell;
        var done;
        done, cell := IterateColumn(xLoop.currentIndex);
        place := Placed(xLoop.currentIndex, cell);
        if done {
          xLoop.Increment();
        }
      }
      over := turn == Finished;
    }

    /** The object that is being made is initialised, and kept when that is done. */
    method InitObject(init: bool)
      requires AtPlace() && being != None
      modifies `being, `objs
      ensures Due() == old(Due()) && Left() == old(Left()) - if init then 1 else 0
      ensures being == if init then None else old(being)
      ensures objs == old(objs) + if init then old(being).List() else []
    {
      if init {
        objs := objs + [being.value];
        being := None;
        assert objs + being.List() == old(objs + being.List());
      }
    }

    /** The loops go on. */
    method NextObject() returns (over: bool)
      requires AtPlace() && being == None
      modifies xLoop, yLoop, iLoop, `being
      ensures AtPlace()
      ensures !over ==> Due() == old(Due()) && Left() < old(Left())
      ensures over ==> objs == old(Due()) && being == None && Loops().Fresh()
      ensures being != None ==> accepts(being.value)
    {
      hide IteratePair, Made, Placed, RestOfTriple, Sizes, TripleCallsLeft;
      ghost var grid, t := Grid(screens), Loops();
      assert objs + being.List() == objs;
      DueStep(screens, accepts, objs, t);
      IterateTripleStep(t, grid);
      ghost var place;
      over, place := IterateMap();
      assert over ==> place.None? && objs + being.List() + [] == objs;
    }

    /**
     One turn of loading objects: an object that is being made is initialised, and kept when that is done
     (which init says); else the loops go on. Nothing is lost, repeated or put out of order, and the state
     changes only when everything is loaded and the loops are as they were at first.
     */
    method HandleLoadObjects(init: bool)
      requires AtPlace() && state == LoadObjects
      modifies this`being, this`objs, this`state, xLoop, yLoop, iLoop
      ensures AtPlace() && (state == LoadObjects || state == PlaceAbe)
      ensures state == LoadObjects ==> Due() == old(Due())
      ensures state == LoadObjects ==> Left() < old(Left()) || (old(being) != None && !init && Left() == old(Left()))
      ensures state == PlaceAbe ==> objs == old(Due()) && being == None && Loops().Fresh()
      ensures objs == old(objs) + if init then old(being).List() else []
      ensures if old(being) != None then being == (if init then None else old(being)) && state == LoadObjects
              else being != None ==> accepts(being.value)
    {
      if being != None {
        InitObject(init);
        return;
      }
      var over := NextObject();
      if over {
        state := PlaceAbe;
      }
    }

    /** The turns of one frame: at least one, and as many as the time allows. */
    method LoadObjectsFrame(inits: seq<bool>)
      requires AtPlace() && state == LoadObjects && inits != []
      modifies this`being, this`objs, this`state, xLoop, yLoop, iLoop
      ensures AtPlace() && (state == LoadObjects || state == PlaceAbe)
      ensures state == LoadObjects ==> Due() == old(Due())
      ensures state == LoadObjects ==> Left() <= old(Left())
      ensures state == LoadObjects && (forall k :: 0 <= k < |inits| ==> inits[k]) ==> Left() + |inits| <= old(Left())
      ensures state == PlaceAbe ==> objs == old(Due()) && being == None && Loops().Fresh()
    {
      for k := 0 to |inits|
        invariant AtPlace() && (state == LoadObjects || state == PlaceAbe)
        invariant state == LoadObjects ==> Due() == old(Due())
        invariant state == LoadObjects ==> Left() <= old(Left())
        invariant state == LoadObjects && (forall l :: 0 <= l < k ==> inits[l]) ==> Left() + k <= old(Left())
        invariant state == PlaceAbe ==> objs == old(Due()) && being == None && Loops().Fresh()
      {
        if state == LoadObjects {
          HandleLoadObjects(inits[k]);
        }
      }
    }

    // ---------- a whole load ----------

    /** All screens of the map, column by column. */
    ghost function AllScreens(): seq<Cell> {
      Rows(seq(|screens|, _ => ySize), 0)
    }

    /** What holds between two frames. */
    ghost predicate Loading()
      reads this, xLoop, yLoop, iLoop
    {
      match state
      case LoadCameras => AtScreen() && being == None && objs == [] && ScreensDue() == AllScreens()
      case ObjectLoaderScripts =>
        Valid() && Loops().Fresh() && being == None && objs == [] && loaded == AllScreens()
      case LoadObjects => AtPlace() && loaded == AllScreens() && Due() == AllAccepted(screens, accepts)
      case PlaceAbe =>
        && Valid() && Loops().Fresh() && being == None
        && loaded == AllScreens() && objs == AllAccepted(screens, accepts)
    }

    /** The most frames that the load still takes, when every object is initialised in one turn. */
    ghost function FramesLeft(): nat
      reads this, xLoop, yLoop, iLoop
      requires Loading()
    {
      match state
      case LoadCameras => ScreenCallsLeft() + 1 + 2 * TripleCalls(Grid(screens))
      case ObjectLoaderScripts => 1 + 2 * TripleCalls(Grid(screens))
      case LoadObjects => Left()
      case PlaceAbe => 0
    }

    /** Load: what one frame does, in the states from the cameras on. */
    method Load(frame: Frame)
      requires Loading() && frame.Runs()
      modifies this`state, this`being, this`objs, this`loaded, xLoop, yLoop, iLoop
      ensures Loading() && FramesLeft() <= old(FramesLeft())
      ensures frame.Smooth() && old(state) != PlaceAbe ==> FramesLeft() < old(FramesLeft())
    {
      match state
      case LoadCameras =>
        PairCallsPositive(Pair(xLoop.State(), yLoop.State()), seq(|screens|, _ => ySize));
        HandleLoadCameras(frame.turns);
      case ObjectLoaderScripts => HandleObjectLoaderScripts();
      case LoadObjects =>
        TripleCallsPositive(Loops(), Grid(screens));
        LoadObjectsFrame(frame.inits);
      case PlaceAbe =>
    }

    /**
     A whole load, over any frames: in the end exactly the accepted ones of the objects are there, in the order in which
     the screens are read, and every screen once; the load ends when enough frames initialise what they make.
     */
    method LoadMap(frames: seq<Frame>)
      requires Loading() && forall i :: 0 <= i < |frames| ==> frames[i].Runs()
      modifies this`state, this`being, this`objs, this`loaded, xLoop, yLoop, iLoop
      ensures Loading()
      ensures SmoothFrames(frames) >= old(FramesLeft()) ==> state == PlaceAbe
      ensures state == PlaceAbe ==> objs == Filter(accepts, Objects(screens)) && loaded == AllScreens()
      ensures state == PlaceAbe ==> forall c: Cell :: c in loaded <==> c.0 < |screens| && c.1 < ySize
      ensures state == PlaceAbe ==> forall k, l :: 0 <= k < l < |loaded| ==> CellBefore(loaded[k], loaded[l])
    {
      hide AllAccepted, AtScreen, CellBefore, ColumnsCalls, Due, Filter, Grid, Loops, Objects, PairCallsLeft, Rows;
      hide ScreensDue, Sizes;
      for i := 0 to |frames|
        invariant Loading()
        invariant state == PlaceAbe || FramesLeft() + SmoothFrames(frames[..i]) <= old(FramesLeft())
      {
        assert frames[..i + 1][..i] == frames[..i];
        Load(frames[i]);
      }
      assert frames[..|frames|] == frames;
      if state == LoadObjects {
        TripleCallsPositive(Loops(), Grid(screens));
      }
      AllAcceptedIs(screens, accepts);
      RowsOrdered(seq(|screens|, _ => ySize), 0);
    }
  }
}
