/** Facts about sequences that several parts of the model need. */
module Sequences {
  lemma Associative<T>(a: seq<T>, b: seq<T>, c: seq<T>)
    ensures (a + b) + c == a + (b + c)
  {
  }

  lemma Associative4<T>(a: seq<T>, b: seq<T>, c: seq<T>, d: seq<T>)
    ensures ((a + b) + c) + d == a + (b + (c + d))
  {
  }

  /** Different sequences of one length differ somewhere for the first time. */
  lemma FirstMismatch<T>(a: seq<T>, b: seq<T>) returns (i: nat)
    requires |a| == |b| && a != b
    ensures i < |a| && a[..i] == b[..i] && a[i] != b[i]
  {
    i := 0;
    while i < |a| && a[i] == b[i]
      invariant i <= |a| && a[..i] == b[..i]
    {
      i := i + 1;
    }
    assert a[..|a|] == a && b[..|a|] == b;
  }

  /** The parts put together. */
  function Flat<T>(parts: seq<seq<T>>): seq<T> {
    if parts == [] then [] else Flat(parts[..|parts| - 1]) + parts[|parts| - 1]
  }

  lemma {:induction false} FlatJoin<T>(a: seq<seq<T>>, b: seq<seq<T>>)
    ensures Flat(a + b) == Flat(a) + Flat(b)
  {
    if b == [] {
      assert a + b == a;
    } else {
      var n := |b| - 1;
      FlatJoin(a, b[..n]);
      assert (a + b)[..|a + b| - 1] == a + b[..n];
      Associative(Flat(a), Flat(b[..n]), b[n]);
    }
  }

  lemma FlatOne<T>(a: seq<seq<T>>, part: seq<T>)
    ensures Flat(a + [part]) == Flat(a) + part
  {
    assert (a + [part])[..|a|] == a;
  }

  lemma {:induction false} FlatMember<T>(parts: seq<seq<T>>, x: T)
    ensures x in Flat(parts) <==> exists i :: 0 <= i < |parts| && x in parts[i]
  {
    if parts != [] {
      var n := |parts| - 1;
      FlatMember(parts[..n], x);
      assert forall i :: 0 <= i < n ==> parts[..n][i] == parts[i];
    }
  }
}
