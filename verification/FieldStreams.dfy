/** Streams that hold a given list of fields. */
module FieldStreams {
  import opened Bytes
  import opened BitFields

  /** A stream holds some fields of n bits, one after the other. */
  predicate Stored(data: seq<byte>, start: nat, n: nat, fields: seq<nat>) {
    fields == [] || (
      var last := |fields| - 1;
      Field(data, 8 * start + n * last, n) == fields[last] && Stored(data, start, n, fields[..last]))
  }

  lemma {:induction false} StoredAt(data: seq<byte>, start: nat, n: nat, fields: seq<nat>, i: nat)
    requires Stored(data, start, n, fields) && i < |fields|
    ensures Field(data, 8 * start + n * i, n) == fields[i]
  {
    if i < |fields| - 1 {
      StoredAt(data, start, n, fields[..|fields| - 1], i);
    }
  }

  /** The fields from k on begin with these. */
  predicate Ahead(fields: seq<nat>, k: nat, next: seq<nat>) {
    k + |next| <= |fields| && forall i :: 0 <= i < |next| ==> fields[k + i] == next[i]
  }

  lemma {:induction false} AheadAt(fields: seq<nat>, k: nat, next: seq<nat>, i: nat)
    requires Ahead(fields, k, next) && i < |next|
    ensures k + i < |fields| && fields[k + i] == next[i]
  {
  }

  lemma {:induction false} AheadSplits(fields: seq<nat>, k: nat, a: seq<nat>, b: seq<nat>)
    requires Ahead(fields, k, a + b)
    ensures Ahead(fields, k, a) && Ahead(fields, k + |a|, b)
  {
    forall i | 0 <= i < |a|
      ensures fields[k + i] == a[i]
    {
      assert fields[k + i] == (a + b)[i];
    }
    forall i | 0 <= i < |b|
      ensures fields[(k + |a|) + i] == b[i]
    {
      assert fields[k + (|a| + i)] == (a + b)[|a| + i];
    }
  }
}
