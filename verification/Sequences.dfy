/** General facts about sequences. */
module Sequences {

  lemma {:induction false} AppendAssociates<T>(x: seq<T>, y: seq<T>, z: seq<T>)
    ensures x + (y + z) == (x + y) + z
  {
  }

  /** A slice, cut in two. */
  lemma {:induction false} SliceCut<T>(s: seq<T>, lo: nat, hi: nat, n: nat)
    requires lo <= hi <= |s| && n <= hi - lo
    ensures s[lo..hi][..n] == s[lo..lo + n]
    ensures s[lo..hi][n..] == s[lo + n..hi]
    ensures s[lo..hi] == s[lo..lo + n] + s[lo + n..hi]
  {
  }

  /** The elements of a list of lists, in order. */
  function Flatten<T>(xs: seq<seq<T>>): seq<T> {
    if xs == [] then [] else xs[0] + Flatten(xs[1..])
  }

  lemma {:induction false} FlattenConcat<T>(a: seq<seq<T>>, b: seq<seq<T>>)
    ensures Flatten(a + b) == Flatten(a) + Flatten(b)
  {
    if a == [] {
      assert a + b == b;
    } else {
      assert (a + b)[1..] == a[1..] + b;
      FlattenConcat(a[1..], b);
      AppendAssociates(a[0], Flatten(a[1..]), Flatten(b));
    }
  }

  lemma {:induction false} FlattenAppend<T>(a: seq<seq<T>>, x: seq<T>)
    ensures Flatten(a + [x]) == Flatten(a) + x
  {
    FlattenConcat(a, [x]);
    assert Flatten([x]) == x + Flatten([x][1..]);
  }

  /** Where list k of a list of lists starts in the flattened list. */
  function Start<T>(xs: seq<seq<T>>, k: nat): nat
    requires k <= |xs|
  {
    |Flatten(xs[..k])|
  }

  /** List k of a list of lists is the stretch of the flattened list between its start and the next. */
  lemma {:induction false} FlattenSlice<T>(xs: seq<seq<T>>, k: nat)
    requires k < |xs|
    ensures Start(xs, k + 1) == Start(xs, k) + |xs[k]| <= |Flatten(xs)|
    ensures Flatten(xs)[Start(xs, k)..Start(xs, k + 1)] == xs[k]
  {
    var before, after := xs[..k], xs[k + 1..];
    assert xs[..k + 1] == before + [xs[k]];
    assert xs == xs[..k + 1] + after;
    FlattenAppend(before, xs[k]);
    FlattenConcat(xs[..k + 1], after);
  }

  lemma {:induction false} StartMonotone<T>(xs: seq<seq<T>>, k: nat, l: nat)
    requires k <= l <= |xs|
    ensures Start(xs, k) <= Start(xs, l) <= |Flatten(xs)|
    ensures k < l && (forall i :: k <= i < l ==> xs[i] != []) ==> Start(xs, k) < Start(xs, l)
    decreases l - k
  {
    if k < l {
      FlattenSlice(xs, l - 1);
      StartMonotone(xs, k, l - 1);
    } else {
      assert xs == xs[..k] + xs[k..];
      FlattenConcat(xs[..k], xs[k..]);
    }
  }
}
