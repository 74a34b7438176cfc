/** The pair tables of the PSX sprite decoder as a grammar: a symbol stands for itself, or for a pair of symbols. */
module BytePairGrammar {
  import opened Bytes

  /**
   The tables as they are loaded, with the symbols that may be expanded, and a rank for these that falls along
   the grammar. What the tables hold for the other symbols does not matter.
   */
  datatype Grammar = Grammar(left: seq<byte>, right: seq<byte>, used: set<nat>, rank: seq<nat>) {
    predicate Terminal(s: nat)
      requires s < |left|
    {
      left[s] == s
    }

    /** Every pair that may be expanded is made of such symbols, of lower rank. */
    predicate Acyclic() {
      && |left| == |right| == |rank| <= 256
      && forall s :: s in used ==>
           && s < |left|
           && (!Terminal(s) ==>
             left[s] in used && right[s] in used && Below(left[s], s) && Below(right[s], s))
    }

    /** A symbol of the table, of lower rank than another. */
    predicate Below(t: nat, s: nat)
      requires s < |rank|
    {
      t < |rank| && rank[t] < rank[s]
    }

    /** The terminals that a symbol stands for. */
    function Yield(s: nat): (y: seq<byte>)
      requires Acyclic() && s in used
      ensures |y| >= 1
      decreases rank[s]
    {
      if Terminal(s) then [s as byte] else Yield(left[s]) + Yield(right[s])
    }

    /** What a list of symbols stands for. */
    function Yields(symbols: seq<nat>): seq<byte>
      requires Acyclic() && forall i :: 0 <= i < |symbols| ==> symbols[i] in used
    {
      if symbols == [] then [] else Yield(symbols[0]) + Yields(symbols[1..])
    }

    /** What is pending on a stack, top first. */
    function StackYield(stack: seq<byte>): (y: seq<byte>)
      requires Acyclic() && forall i :: 0 <= i < |stack| ==> stack[i] in used
      ensures |y| >= |stack|
    {
      if stack == [] then [] else Yield(stack[|stack| - 1]) + StackYield(stack[..|stack| - 1])
    }

    /** Symbols whose rank falls from each to the next. */
    predicate Falling(path: seq<nat>)
      requires |rank| == |left|
    {
      && (forall i :: 0 <= i < |path| ==> path[i] < |left|)
      && forall i, j :: 0 <= i < j < |path| ==> rank[path[j]] < rank[path[i]]
    }

    /** There are no more of them than there are symbols. */
    lemma {:induction false} FallingIsShort(path: seq<nat>)
      requires |rank| == |left| && Falling(path)
      ensures |path| <= |left|
    {
      DistinctIsShort(path, |left|);
    }
  }

  // ---------- different numbers ----------

  predicate Distinct(path: seq<nat>) {
    forall i, j :: 0 <= i < j < |path| ==> path[i] != path[j]
  }

  /** The numbers below n. */
  function NumbersBelow(n: nat): (s: set<nat>)
    ensures |s| == n && forall i: nat :: i in s <==> i < n
  {
    if n == 0 then {} else
      var t := NumbersBelow(n - 1);
      assert n - 1 !in t;
      t + {n - 1}
  }

  lemma {:induction false} DistinctIn(path: seq<nat>, symbols: set<nat>)
    requires Distinct(path) && forall i :: 0 <= i < |path| ==> path[i] in symbols
    ensures |path| <= |symbols|
  {
    if path != [] {
      var last, before := path[|path| - 1], path[..|path| - 1];
      DistinctIn(before, symbols - {last});
    }
  }

  /** There are at most n different numbers below n. */
  lemma {:induction false} DistinctIsShort(path: seq<nat>, n: nat)
    requires Distinct(path) && forall i :: 0 <= i < |path| ==> path[i] < n
    ensures |path| <= n
  {
    DistinctIn(path, NumbersBelow(n));
  }

  // ---------- tables without cycles ----------

  /** Two tables, of which every pair is made of symbols of the table. */
  datatype Table = Table(left: seq<byte>, right: seq<byte>) {
    predicate Closed() {
      && |left| == |right| <= 256
      && forall s :: 0 <= s < |left| && left[s] != s ==> left[s] < |left| && right[s] < |left|
    }

    /** The grammar has these pairs. */
    predicate IsOf(g: Grammar) {
      && g.left == left && |g.right| == |right| == |left|
      && forall s :: 0 <= s < |left| && left[s] != s ==> g.right[s] == right[s]
    }

    /** One symbol is half of another. */
    predicate HalfOf(t: nat, s: nat) {
      s < |left| == |right| && left[s] != s && (t == left[s] || t == right[s])
    }

    /** Symbols each of which is half of the one before. */
    predicate Path(path: seq<nat>) {
      && path != [] && (forall i :: 0 <= i < |path| ==> path[i] < |left|)
      && forall i :: 0 <= i < |path| - 1 ==> HalfOf(path[i + 1], path[i])
    }

    /** Expanding these symbols never comes to a symbol again that is being expanded. */
    ghost predicate NoCycle(starts: set<nat>) {
      forall path :: Path(path) && path[0] in starts ==> Distinct(path)
    }

    ghost predicate Reaches(starts: set<nat>, s: nat) {
      exists path :: Path(path) && path[0] in starts && path[|path| - 1] == s
    }

    /** How deep a symbol is expanded, as far as the fuel goes. */
    function Depth(s: nat, fuel: nat): (d: nat)
      requires Closed() && s < |left|
      ensures d <= fuel
      decreases fuel
    {
      if fuel == 0 || left[s] == s then 0
      else
        var l, r := Depth(left[s], fuel - 1), Depth(right[s], fuel - 1);
        1 + if l < r then r else l
    }

    lemma {:induction false} PathJoins(a: seq<nat>, b: seq<nat>)
      requires Path(a) && Path(b) && HalfOf(b[0], a[|a| - 1])
      ensures Path(a + b)
    {
      forall i | 0 <= i < |a + b| - 1
        ensures HalfOf((a + b)[i + 1], (a + b)[i])
      {
        if i >= |a| {
          assert HalfOf(b[i - |a| + 1], b[i - |a|]);
        } else if i < |a| - 1 {
          assert HalfOf(a[i + 1], a[i]);
        }
      }
    }

    /** There is a path as long as the symbol is deep. */
    lemma {:induction false} DeepPath(s: nat, fuel: nat) returns (path: seq<nat>)
      requires Closed() && s < |left|
      ensures Path(path) && path[0] == s && |path| == Depth(s, fuel) + 1
      decreases fuel
    {
      path := [s];
      if fuel > 0 && left[s] != s {
        var half := if Depth(left[s], fuel - 1) < Depth(right[s], fuel - 1) then right[s] else left[s];
        var rest := DeepPath(half, fuel - 1);
        PathJoins([s], rest);
        path := [s] + rest;
      }
    }

    /** More fuel changes nothing once it was not used up. */
    lemma {:induction false} DepthIsStable(s: nat, fuel: nat)
      requires Closed() && s < |left| && Depth(s, fuel) < fuel
      ensures Depth(s, fuel + 1) == Depth(s, fuel)
      decreases fuel
    {
      if left[s] != s {
        DepthIsStable(left[s], fuel - 1);
        DepthIsStable(right[s], fuel - 1);
      }
    }

    /** From a symbol that is reached no path repeats a symbol. */
    lemma {:induction false} NoCycleFrom(starts: set<nat>, s: nat, path: seq<nat>)
      requires NoCycle(starts) && Reaches(starts, s) && Path(path) && path[0] == s
      ensures Distinct(path)
    {
      var first: seq<nat> :| Path(first) && first[0] in starts && first[|first| - 1] == s;
      if |path| > 1 {
        var rest := path[1..];
        forall i | 0 <= i < |rest| - 1
          ensures HalfOf(rest[i + 1], rest[i])
        {
          assert HalfOf(path[i + 1 + 1], path[i + 1]);
        }
        assert HalfOf(path[0 + 1], path[0]);
        PathJoins(first, rest);
        var whole := first + rest;
        assert whole[0] == first[0];
        forall i, j | 0 <= i < j < |path|
          ensures path[i] != path[j]
        {
          assert path[i] == whole[|first| - 1 + i] && path[j] == whole[|first| - 1 + j];
        }
      }
    }

    /** Half of a symbol that is reached is reached. */
    lemma {:induction false} ReachesHalf(starts: set<nat>, s: nat, t: nat)
      requires Reaches(starts, s) && HalfOf(t, s) && t < |left|
      ensures Reaches(starts, t)
    {
      var path: seq<nat> :| Path(path) && path[0] in starts && path[|path| - 1] == s;
      PathJoins(path, [t]);
      var longer := path + [t];
      assert longer[0] == path[0] && longer[|longer| - 1] == t;
    }

    /** Without cycles, both halves of a pair that is reached are less deep than the pair. */
    lemma {:induction false} HalvesAreLessDeep(starts: set<nat>, s: nat)
      requires Closed() && NoCycle(starts) && Reaches(starts, s) && s < |left| && left[s] != s
      ensures Depth(left[s], |left|) < Depth(s, |left|) && Depth(right[s], |left|) < Depth(s, |left|)
    {
      var path := DeepPath(s, |left|);
      NoCycleFrom(starts, s, path);
      DistinctIsShort(path, |left|);
      DepthIsStable(s, |left|);
    }

    /** The grammar of the symbols that are reached, ranked by how deep they are expanded. */
    ghost function ReachedGrammar(starts: set<nat>): Grammar
      requires Closed()
    {
      Grammar(left, right, set s | s in NumbersBelow(|left|) && Reaches(starts, s),
              seq(|left|, s requires 0 <= s < |left| => Depth(s, |left|)))
    }

    lemma {:induction false} ReachedIsAcyclic(starts: set<nat>)
      requires Closed() && NoCycle(starts) && forall s :: s in starts ==> s < |left|
      ensures ReachedGrammar(starts).Acyclic() && starts <= ReachedGrammar(starts).used
    {
      var g := ReachedGrammar(starts);
      forall s | s in g.used && left[s] != s
        ensures left[s] in g.used && right[s] in g.used && g.Below(left[s], s) && g.Below(right[s], s)
      {
        ReachesHalf(starts, s, left[s]);
        ReachesHalf(starts, s, right[s]);
        HalvesAreLessDeep(starts, s);
      }
      forall s | s in starts
        ensures s in g.used
      {
        assert Path([s]) && [s][0] == s && [s][|[s]| - 1] == s;
      }
    }

    /** Along an acyclic grammar the rank falls from each symbol of a path to the next. */
    lemma {:induction false} PathFalls(g: Grammar, path: seq<nat>)
      requires IsOf(g) && g.Acyclic() && Path(path) && path[0] in g.used
      ensures g.Falling(path) && path[|path| - 1] in g.used
    {
      if |path| > 1 {
        var before, n := path[..|path| - 1], |path| - 1;
        forall i | 0 <= i < |before| - 1
          ensures HalfOf(before[i + 1], before[i])
        {
          assert HalfOf(path[i + 1], path[i]);
        }
        PathFalls(g, before);
        assert HalfOf(path[n - 1 + 1], path[n - 1]);
      }
    }

    /** Some symbols can be ranked along the grammar exactly when expanding them meets no cycle. */
    lemma {:induction false} RankedIffNoCycle(starts: set<nat>)
      requires Closed() && forall s :: s in starts ==> s < |left|
      ensures NoCycle(starts) <==>
        exists g: Grammar :: IsOf(g) && starts <= g.used && g.Acyclic()
    {
      if NoCycle(starts) {
        ReachedIsAcyclic(starts);
        assert IsOf(ReachedGrammar(starts));
      }
      forall g: Grammar, path | IsOf(g) && starts <= g.used && g.Acyclic() && Path(path) && path[0] in starts
        ensures Distinct(path)
      {
        PathFalls(g, path);
      }
    }
  }
}
