/** Which data sets a game definition needs: a depth-first walk over definitions that require each other by name. */
module GameDependencies {
  import opened Options

  datatype Definition = Definition(name: string, required: seq<string>)

  /** The definitions found so far, in order, and the names that no definition has. */
  datatype Result = Result(found: seq<Definition>, missing: set<string>)

  function Names(defs: seq<Definition>): (names: set<string>)
    ensures forall n :: n in names <==> exists i :: 0 <= i < |defs| && defs[i].name == n
  {
    set d | d in defs :: d.name
  }

  /** The first definition of a name. */
  function Find(gds: seq<Definition>, name: string): (r: Option<Definition>)
    ensures r.Some? <==> name in Names(gds)
    ensures r.Some? ==> r.value in gds && r.value.name == name
  {
    if gds == [] then None
    else if gds[0].name == name then Some(gds[0])
    else
      assert forall n :: n in Names(gds[1..]) ==> n in Names(gds);
      Find(gds[1..], name)
  }

  /** Definition i is the one found for a name exactly when it has the name and none before it has. */
  lemma {:induction false} FindIsFirst(gds: seq<Definition>, name: string)
    ensures match Find(gds, name)
      case None => forall i :: 0 <= i < |gds| ==> gds[i].name != name
      case Some(d) => exists i :: FirstOf(gds, name, i) && gds[i] == d
  {
    if gds != [] && gds[0].name == name {
      assert FirstOf(gds, name, 0);
    } else if gds != [] {
      FindIsFirst(gds[1..], name);
      assert forall i :: 0 < i < |gds| ==> gds[1..][i - 1] == gds[i];
      if Find(gds, name).Some? {
        var i :| FirstOf(gds[1..], name, i) && gds[1..][i] == Find(gds, name).value;
        assert FirstOf(gds, name, i + 1);
      }
    }
  }

  /** Definition i is the first one with the name. */
  predicate FirstOf(gds: seq<Definition>, name: string, i: int) {
    0 <= i < |gds| && gds[i].name == name && forall j :: 0 <= j < i ==> gds[j].name != name
  }

  /** The names with a definition that are not found yet. */
  function Unfound(gds: seq<Definition>, found: seq<Definition>): nat {
    |Names(gds) - Names(found)|
  }

  lemma {:induction false} SubsetSmaller(a: set<string>, b: set<string>)
    requires a <= b
    ensures |a| <= |b| && (a != b ==> |a| < |b|)
  {
    assert b == a + (b - a) && a !! (b - a);
    assert |b| == |a| + |b - a|;
  }

  lemma {:induction false} FoundMore(gds: seq<Definition>, found: seq<Definition>, more: seq<Definition>)
    requires found <= more
    ensures Names(found) <= Names(more) && Unfound(gds, more) <= Unfound(gds, found)
    ensures forall n :: n in Names(gds) && n !in Names(found) && n in Names(more) ==>
      Unfound(gds, more) < Unfound(gds, found)
  {
    assert forall i :: 0 <= i < |found| ==> found[i] == more[i];
    SubsetSmaller(Names(gds) - Names(more), Names(gds) - Names(found));
  }

  /** The walk from one definition. */
  function Walk(gds: seq<Definition>, d: Definition, r: Result): (t: Result)
    ensures r.found + [d] <= t.found
    decreases Unfound(gds, r.found + [d]), |d.required| + 1
  {
    WalkAll(gds, d.required, r.(found := r.found + [d]))
  }

  /** The walk over some required names. */
  function WalkAll(gds: seq<Definition>, names: seq<string>, r: Result): (t: Result)
    ensures r.found <= t.found
    decreases Unfound(gds, r.found), |names|
  {
    if names == [] then r
    else
      var s := WalkName(gds, names[0], r);
      FoundMore(gds, r.found, s.found);
      WalkAll(gds, names[1..], s)
  }

  /** The walk over one required name. */
  function WalkName(gds: seq<Definition>, name: string, r: Result): (t: Result)
    ensures r.found <= t.found
    decreases Unfound(gds, r.found), 0
  {
    if name in Names(r.found) then r
    else
      var d := Find(gds, name);
      if d.None? then r.(missing := r.missing + {name})
      else
        assert (r.found + [d.value])[|r.found|] == d.value;
        FoundMore(gds, r.found, r.found + [d.value]);
        Walk(gds, d.value, r)
  }

  /** The first of some required names that has a definition and is not found yet is the next to be found. */
  lemma {:induction false} NextFound(gds: seq<Definition>, names: seq<string>, r: Result, i: nat)
    requires i < |names| && Find(gds, names[i]).Some? && names[i] !in Names(r.found)
    requires forall j :: 0 <= j < i ==> names[j] in Names(r.found) || Find(gds, names[j]).None?
    ensures r.found + [Find(gds, names[i]).value] <= WalkAll(gds, names, r).found
    decreases i
  {
    if i > 0 {
      NextFound(gds, names[1..], WalkName(gds, names[0], r), i - 1);
    }
  }

  /** A definition is found before all that it needs, and what it needs in the order in which it names it. */
  lemma {:induction false} FoundInOrder(gds: seq<Definition>, d: Definition, r: Result, i: nat)
    requires i < |d.required| && Find(gds, d.required[i]).Some? && d.required[i] !in Names(r.found + [d])
    requires forall j :: 0 <= j < i ==> d.required[j] in Names(r.found + [d]) || Find(gds, d.required[j]).None?
    ensures r.found + [d] + [Find(gds, d.required[i]).value] <= Walk(gds, d, r).found
  {
    NextFound(gds, d.required, r.(found := r.found + [d]), i);
  }

  // ---------- what the walk finds ----------

  /** What the walk from r to t found. */
  function New(r: Result, t: Result): seq<Definition>
    requires r.found <= t.found
  {
    t.found[|r.found|..]
  }

  /** Definitions that require one another in turn, none of which has a name to avoid. */
  ghost predicate White(gds: seq<Definition>, avoid: set<string>, path: seq<Definition>) {
    && path != []
    && (forall i :: 0 <= i < |path| ==> path[i].name !in avoid && Find(gds, path[i].name) == Some(path[i]))
    && (forall i :: 0 <= i < |path| - 1 ==> path[i + 1].name in path[i].required)
  }

  /** A definition is reached from some names by a path that avoids others. */
  ghost predicate Reached(gds: seq<Definition>, names: seq<string>, avoid: set<string>, d: Definition) {
    exists path: seq<Definition> :: White(gds, avoid, path) && path[0].name in names && path[|path| - 1] == d
  }

  predicate Distinct(defs: seq<Definition>) {
    forall i, j :: 0 <= i < j < |defs| ==> defs[i].name != defs[j].name
  }

  /** What is new are definitions of new names, each once. */
  ghost predicate NewAreFound(gds: seq<Definition>, r: Result, t: Result) {
    && r.found <= t.found
    && Distinct(New(r, t))
    && forall d :: d in New(r, t) ==> Find(gds, d.name) == Some(d) && d.name !in Names(r.found)
  }

  /** All that the names require, directly or not, is found. */
  ghost predicate Closed(gds: seq<Definition>, names: seq<string>, r: Result, t: Result)
    requires r.found <= t.found
  {
    && (forall n :: n in names && n in Names(gds) ==> n in Names(t.found))
    && (forall d, n :: d in New(r, t) && n in d.required && n in Names(gds) ==> n in Names(t.found))
  }

  ghost predicate AllReached(gds: seq<Definition>, names: seq<string>, r: Result, t: Result)
    requires r.found <= t.found
  {
    forall d :: d in New(r, t) ==> Reached(gds, names, Names(r.found), d)
  }

  /** A name is asked for, by the given names or by a new definition. */
  ghost predicate Asked(names: seq<string>, defs: seq<Definition>, n: string) {
    n in names || exists d :: d in defs && n in d.required
  }

  /** Missing are the names asked for that have no definition, and were not found before. */
  ghost predicate MissingExactly(gds: seq<Definition>, names: seq<string>, r: Result, t: Result)
    requires r.found <= t.found
  {
    forall n :: n in t.missing <==>
      n in r.missing || (Asked(names, New(r, t), n) && n !in Names(gds) && n !in Names(r.found))
  }

  ghost predicate Good(gds: seq<Definition>, names: seq<string>, r: Result, t: Result) {
    && NewAreFound(gds, r, t) && Closed(gds, names, r, t)
    && AllReached(gds, names, r, t) && MissingExactly(gds, names, r, t)
  }

  lemma {:induction false} NamesAppend(a: seq<Definition>, b: seq<Definition>)
    ensures Names(a + b) == Names(a) + Names(b)
  {
    forall n
      ensures n in Names(a + b) <==> n in Names(a) + Names(b)
    {
      if n in Names(a) {
        var i :| 0 <= i < |a| && a[i].name == n;
        assert (a + b)[i].name == n;
      } else if n in Names(b) {
        var i :| 0 <= i < |b| && b[i].name == n;
        assert (a + b)[|a| + i].name == n;
      }
    }
  }

  lemma {:induction false} NewAppend(r: Result, s: Result, t: Result)
    requires r.found <= s.found <= t.found
    ensures New(r, t) == New(r, s) + New(s, t)
    ensures Names(s.found) == Names(r.found) + Names(New(r, s))
    ensures forall d :: d in New(r, s) ==> d.name in Names(s.found)
  {
    assert s.found == r.found + New(r, s);
    NamesAppend(r.found, New(r, s));
  }

  lemma {:induction false} ReachedMore(gds: seq<Definition>, names: seq<string>, names': seq<string>,
      avoid: set<string>, avoid': set<string>, d: Definition)
    requires Reached(gds, names, avoid, d) && avoid' <= avoid && (forall n :: n in names ==> n in names')
    ensures Reached(gds, names', avoid', d)
  {
    var path: seq<Definition> :| White(gds, avoid, path) && path[0].name in names && path[|path| - 1] == d;
    assert White(gds, avoid', path);
  }

  lemma {:induction false} ComposeFound(gds: seq<Definition>, r: Result, s: Result, t: Result)
    requires NewAreFound(gds, r, s) && NewAreFound(gds, s, t)
    ensures NewAreFound(gds, r, t)
  {
    NewAppend(r, s, t);
    var a, b := New(r, s), New(s, t);
    var c: seq<Definition> := New(r, t);
    assert c == a + b;
    forall i, j | 0 <= i < j < |c|
      ensures c[i].name != c[j].name
    {
      if i < |a| <= j {
        assert c[i] in a && c[j] in b;
      }
    }
    forall d: Definition | d in c
      ensures Find(gds, d.name) == Some(d) && d.name !in Names(r.found)
    {
      assert d in a || d in b;
    }
  }

  lemma {:induction false} ComposeClosed(gds: seq<Definition>, a: seq<string>, b: seq<string>, r: Result, s: Result,
      t: Result)
    requires r.found <= s.found <= t.found && Closed(gds, a, r, s) && Closed(gds, b, s, t)
    ensures Closed(gds, a + b, r, t)
  {
    NewAppend(r, s, t);
    FoundMore(gds, s.found, t.found);
  }

  lemma {:induction false} ComposeReached(gds: seq<Definition>, a: seq<string>, b: seq<string>, r: Result, s: Result,
      t: Result)
    requires r.found <= s.found <= t.found && AllReached(gds, a, r, s) && AllReached(gds, b, s, t)
    ensures AllReached(gds, a + b, r, t)
  {
    NewAppend(r, s, t);
    forall d | d in New(r, t)
      ensures Reached(gds, a + b, Names(r.found), d)
    {
      if d in New(r, s) {
        ReachedMore(gds, a, a + b, Names(r.found), Names(r.found), d);
      } else {
        ReachedMore(gds, b, a + b, Names(s.found), Names(r.found), d);
      }
    }
  }

  lemma {:induction false} AskedEither(a: seq<string>, b: seq<string>, x: seq<Definition>, y: seq<Definition>,
      n: string)
    ensures Asked(a + b, x + y, n) <==> Asked(a, x, n) || Asked(b, y, n)
  {
  }

  lemma {:induction false} NewHaveDefinitions(gds: seq<Definition>, r: Result, s: Result)
    requires NewAreFound(gds, r, s)
    ensures Names(New(r, s)) <= Names(gds)
  {
  }

  lemma {:induction false} ComposeMissing(gds: seq<Definition>, a: seq<string>, b: seq<string>, r: Result, s: Result,
      t: Result)
    requires NewAreFound(gds, r, s) && s.found <= t.found
    requires MissingExactly(gds, a, r, s) && MissingExactly(gds, b, s, t)
    ensures MissingExactly(gds, a + b, r, t)
  {
    NewAppend(r, s, t);
    NewHaveDefinitions(gds, r, s);
    forall n
      ensures n in t.missing <==>
        n in r.missing || (Asked(a + b, New(r, t), n) && n !in Names(gds) && n !in Names(r.found))
    {
      AskedEither(a, b, New(r, s), New(s, t), n);
    }
  }

  /** Two walks, one after the other. */
  lemma {:induction false} Compose(gds: seq<Definition>, a: seq<string>, b: seq<string>, r: Result, s: Result,
      t: Result)
    requires Good(gds, a, r, s) && Good(gds, b, s, t)
    ensures Good(gds, a + b, r, t)
  {
    ComposeFound(gds, r, s, t);
    ComposeClosed(gds, a, b, r, s, t);
    ComposeReached(gds, a, b, r, s, t);
    ComposeMissing(gds, a, b, r, s, t);
  }

  lemma {:induction false} PathFrom(gds: seq<Definition>, d: Definition, avoid: set<string>, more: set<string>,
      path: seq<Definition>)
    requires White(gds, more, path) && avoid <= more && path[0].name in d.required
    requires Find(gds, d.name) == Some(d) && d.name !in avoid
    ensures White(gds, avoid, [d] + path)
  {
    var whole := [d] + path;
    forall i | 0 <= i < |whole| - 1
      ensures whole[i + 1].name in whole[i].required
    {
      if i > 0 {
        assert path[i - 1 + 1].name in path[i - 1].required;
      }
    }
  }

  lemma {:induction false} ReachedThrough(gds: seq<Definition>, d: Definition, avoid: set<string>, more: set<string>,
      e: Definition)
    requires Find(gds, d.name) == Some(d) && d.name !in avoid && avoid <= more
    requires e == d || Reached(gds, d.required, more, e)
    ensures Reached(gds, [d.name], avoid, e)
  {
    if e == d {
      assert White(gds, avoid, [d]) && [d][|[d]| - 1] == e;
    } else {
      var path: seq<Definition> :| White(gds, more, path) && path[0].name in d.required && path[|path| - 1] == e;
      PathFrom(gds, d, avoid, more, path);
      var whole := [d] + path;
      assert whole[0] == d && whole[|whole| - 1] == e;
    }
  }

  lemma {:induction false} EnterReached(gds: seq<Definition>, d: Definition, r: Result, t: Result)
    requires Find(gds, d.name) == Some(d) && d.name !in Names(r.found)
    requires r.found + [d] <= t.found && AllReached(gds, d.required, r.(found := r.found + [d]), t)
    ensures AllReached(gds, [d.name], r, t)
  {
    var s := r.(found := r.found + [d]);
    NewAppend(r, s, t);
    assert New(r, s) == [d];
    forall e | e in New(r, t)
      ensures Reached(gds, [d.name], Names(r.found), e)
    {
      assert e == d || e in New(s, t);
      ReachedThrough(gds, d, Names(r.found), Names(s.found), e);
    }
  }

  lemma {:induction false} EnterMissing(gds: seq<Definition>, d: Definition, r: Result, t: Result)
    requires d.name in Names(gds) && r.found + [d] <= t.found
    requires MissingExactly(gds, d.required, r.(found := r.found + [d]), t)
    ensures MissingExactly(gds, [d.name], r, t)
  {
    var s := r.(found := r.found + [d]);
    NewAppend(r, s, t);
    assert New(r, s) == [d];
    forall n
      ensures n in t.missing <==>
        n in r.missing || (Asked([d.name], New(r, t), n) && n !in Names(gds) && n !in Names(r.found))
    {
      assert Asked([d.name], [d] + New(s, t), n) <==> n == d.name || Asked(d.required, New(s, t), n) by {
        assert ([d] + New(s, t))[0] == d;
      }
      assert n in Names(s.found) <==> n in Names(r.found) || n == d.name;
    }
  }

  /** A definition and then the walk over what it requires. */
  lemma {:induction false} Enter(gds: seq<Definition>, d: Definition, r: Result, t: Result)
    requires Find(gds, d.name) == Some(d) && d.name !in Names(r.found)
    requires Good(gds, d.required, r.(found := r.found + [d]), t)
    ensures Good(gds, [d.name], r, t)
  {
    var s := r.(found := r.found + [d]);
    assert New(r, s) == [d];
    NewAppend(r, s, t);
    ComposeFound(gds, r, s, t);
    EnterReached(gds, d, r, t);
    EnterMissing(gds, d, r, t);
  }

  // ---------- the theorems ----------

  lemma {:induction false} ComposeFirst(gds: seq<Definition>, names: seq<string>, r: Result, s: Result, t: Result)
    requires names != [] && Good(gds, [names[0]], r, s) && Good(gds, names[1..], s, t)
    ensures Good(gds, names, r, t)
  {
    assert [names[0]] + names[1..] == names;
    Compose(gds, [names[0]], names[1..], r, s, t);
  }

  /** A name that is found already, or has no definition. */
  lemma {:induction false} NoDefinition(gds: seq<Definition>, name: string, r: Result)
    requires name in Names(r.found) || name !in Names(gds)
    ensures Good(gds, [name], r, if name in Names(r.found) then r else r.(missing := r.missing + {name}))
  {
    var t := if name in Names(r.found) then r else r.(missing := r.missing + {name});
    assert New(r, t) == [];
    assert forall n :: Asked([name], [], n) <==> n == name;
  }

  lemma {:induction false} WalkNameGood(gds: seq<Definition>, name: string, r: Result)
    ensures Good(gds, [name], r, WalkName(gds, name, r))
    decreases Unfound(gds, r.found), 0
  {
    if name !in Names(r.found) && Find(gds, name).Some? {
      var d := Find(gds, name).value;
      assert (r.found + [d])[|r.found|] == d;
      FoundMore(gds, r.found, r.found + [d]);
      WalkAllGood(gds, d.required, r.(found := r.found + [d]));
      Enter(gds, d, r, Walk(gds, d, r));
    } else {
      NoDefinition(gds, name, r);
    }
  }

  /** What a walk finds is new, reached, closed, and misses exactly the names without a definition. */
  lemma {:induction false} WalkAllGood(gds: seq<Definition>, names: seq<string>, r: Result)
    ensures Good(gds, names, r, WalkAll(gds, names, r))
    decreases Unfound(gds, r.found), |names|
  {
    if names == [] {
      assert New(r, r) == [];
    } else {
      var s := WalkName(gds, names[0], r);
      var t := WalkAll(gds, names[1..], s);
      assert t == WalkAll(gds, names, r);
      FoundMore(gds, r.found, s.found);
      WalkNameGood(gds, names[0], r);
      WalkAllGood(gds, names[1..], s);
      ComposeFirst(gds, names, r, s, t);
    }
  }

  lemma {:induction false} WhitePrefix(gds: seq<Definition>, avoid: set<string>, path: seq<Definition>, n: nat)
    requires White(gds, avoid, path) && 0 < n <= |path|
    ensures White(gds, avoid, path[..n])
  {
    forall i | 0 <= i < n - 1
      ensures path[..n][i + 1].name in path[..n][i].required
    {
      assert path[i + 1].name in path[i].required;
    }
  }

  /** A name that is found and was not found before belongs to a new definition. */
  lemma {:induction false} FoundIsNew(gds: seq<Definition>, r: Result, t: Result, d: Definition)
    requires NewAreFound(gds, r, t) && Find(gds, d.name) == Some(d)
    requires d.name in Names(t.found) && d.name !in Names(r.found)
    ensures d in New(r, t)
  {
    NamesAppend(r.found, New(r, t));
    assert t.found == r.found + New(r, t);
  }

  /** The walk leaves out nothing that a path reaches. */
  lemma {:induction false} PathIsFound(gds: seq<Definition>, names: seq<string>, r: Result, t: Result,
      path: seq<Definition>)
    requires NewAreFound(gds, r, t) && Closed(gds, names, r, t)
    requires White(gds, Names(r.found), path) && path[0].name in names
    ensures path[|path| - 1] in New(r, t)
    decreases |path|
  {
    var n := |path| - 1;
    if n > 0 {
      WhitePrefix(gds, Names(r.found), path, n);
      PathIsFound(gds, names, r, t, path[..n]);
      assert path[n - 1 + 1].name in path[n - 1].required;
    }
    FoundIsNew(gds, r, t, path[n]);
  }

  /**
   The walk finds, as one stretch, exactly the definitions that a path from the names reaches around what was
   found before; each name once. The same holds of every walk inside it, which makes the order depth-first.
   */
  lemma {:induction false} WhitePaths(gds: seq<Definition>, names: seq<string>, r: Result)
    ensures var t := WalkAll(gds, names, r);
      && Distinct(New(r, t))
      && (forall d :: d in New(r, t) <==> Reached(gds, names, Names(r.found), d))
  {
    var t := WalkAll(gds, names, r);
    WalkAllGood(gds, names, r);
    forall d | Reached(gds, names, Names(r.found), d)
      ensures d in New(r, t)
    {
      var path: seq<Definition> :| White(gds, Names(r.found), path) && path[0].name in names && path[|path| - 1] == d;
      PathIsFound(gds, names, r, t, path);
    }
  }

  /** What a game needs: itself first, and then what the walk over its requirements finds. */
  function GetDependencies(gds: seq<Definition>, root: Definition): Result {
    Walk(gds, root, Result([], {}))
  }

  /** A definition that the game needs: the game, or one that it requires, directly or not, around its own name. */
  ghost predicate Needed(gds: seq<Definition>, root: Definition, d: Definition) {
    d == root || Reached(gds, root.required, {root.name}, d)
  }

  /**
   The game comes first; found are exactly the definitions that it needs, no name twice; missing are exactly the
   names that a needed definition requires, that no definition has, and that are not the game's own name.
   */
  lemma {:induction false} DependenciesAreExact(gds: seq<Definition>, root: Definition)
    ensures var t := GetDependencies(gds, root);
      && t.found != [] && t.found[0] == root && Distinct(t.found)
      && (forall d :: d in t.found <==> Needed(gds, root, d))
      && (forall n :: n in t.missing <==>
        (exists d :: d in t.found && n in d.required) && n !in Names(gds) && n != root.name)
  {
    var r, t := Result([root], {}), GetDependencies(gds, root);
    assert [] + [root] == [root];
    assert t == WalkAll(gds, root.required, r);
    assert Names(r.found) == {root.name};
    WalkAllGood(gds, root.required, r);
    WhitePaths(gds, root.required, r);
    assert t.found == [root] + New(r, t);
    forall n
      ensures Asked(root.required, New(r, t), n) <==> exists d :: d in t.found && n in d.required
    {
      assert t.found[0] == root;
    }
  }

  /** A walk added to an earlier one repeats no name exactly when its own start was not found by then. */
  lemma {:induction false} StartMustBeNew(gds: seq<Definition>, d: Definition, r: Result)
    requires Distinct(r.found)
    ensures Distinct(Walk(gds, d, r).found) <==> d.name !in Names(r.found)
  {
    hide MissingExactly, Names, WalkAll;
    var s, t := r.(found := r.found + [d]), Walk(gds, d, r);
    NamesAppend(r.found, [d]);
    WalkAllGood(gds, d.required, s);
    var found := New(s, t);
    assert t.found == s.found + found;
    if d.name in Names(r.found) {
      var i :| 0 <= i < |r.found| && r.found[i].name == d.name;
      assert t.found[i].name == t.found[|r.found|].name;
    } else {
      assert Distinct(s.found);
      forall i, j | 0 <= i < j < |t.found|
        ensures t.found[i].name != t.found[j].name
      {
        if i < |s.found| <= j {
          assert t.found[j] in found && t.found[i] == s.found[i];
        }
      }
    }
  }

  // ---------- the walk, step by step ----------

  method Exists(name: string, found: seq<Definition>) returns (r: bool)
    ensures r <==> name in Names(found)
  {
    for i := 0 to |found|
      invariant forall j :: 0 <= j < i ==> found[j].name != name
    {
      if found[i].name == name {
        return true;
      }
    }
    return false;
  }

  method FindFirst(name: string, gds: seq<Definition>) returns (r: Option<Definition>)
    ensures r == Find(gds, name)
    ensures r.None? ==> forall i :: 0 <= i < |gds| ==> gds[i].name != name
    ensures r.Some? ==> exists i :: FirstOf(gds, name, i) && gds[i] == r.value
  {
    hide FirstOf, Names;
    FindIsFirst(gds, name);
    for i := 0 to |gds|
      invariant Find(gds, name) == Find(gds[i..], name)
    {
      if gds[i].name == name {
        return Some(gds[i]);
      }
      assert gds[i..][1..] == gds[i + 1..];
    }
    return None;
  }

  /** Adds a definition, and all that it needs and is not there yet, to what was found. */
  method AddDependencies(gds: seq<Definition>, d: Definition, found: seq<Definition>, missing: set<string>)
    returns (found': seq<Definition>, missing': set<string>)
    ensures Result(found', missing') == Walk(gds, d, Result(found, missing))
    decreases Unfound(gds, found + [d])
  {
    found', missing' := found + [d], missing;
    for i := 0 to |d.required|
      invariant found + [d] <= found'
      invariant WalkAll(gds, d.required[i..], Result(found', missing')) == Walk(gds, d, Result(found, missing))
    {
      var name := d.required[i];
      assert d.required[i..][0] == name && d.required[i..][1..] == d.required[i + 1..];
      FoundMore(gds, found + [d], found');
      var isFound := Exists(name, found');
      if !isFound {
        var required := FindFirst(name, gds);
        if required.Some? {
          assert (found' + [required.value])[|found'|] == required.value;
          FoundMore(gds, found', found' + [required.value]);
          found', missing' := AddDependencies(gds, required.value, found', missing');
        } else {
          missing' := missing' + {name};
        }
      }
    }
  }
}
