/** Small helpers that several models share. */
module Sequences {

  datatype Option<T> = None | Some(value: T)

  function Min(a: int, b: int): int { if a < b then a else b }

  function Max(a: int, b: int): int { if a < b then b else a }

  lemma Regroup<T>(a: seq<T>, b: seq<T>, c: seq<T>)
    ensures (a + b) + c == a + (b + c)
  {
  }

  /** Some sequences one after the other. */
  function Concat<T>(parts: seq<seq<T>>): seq<T> {
    if parts == [] then [] else Concat(parts[..|parts| - 1]) + parts[|parts| - 1]
  }

  lemma ConcatOne<T>(part: seq<T>)
    ensures Concat([part]) == part
  {
    assert [part][..0] == [];
  }

  lemma {:induction false} ConcatBoth<T>(a: seq<seq<T>>, b: seq<seq<T>>)
    ensures Concat(a + b) == Concat(a) + Concat(b)
  {
    if b == [] {
      assert a + b == a;
    } else {
      var n := |b| - 1;
      ConcatBoth(a, b[..n]);
      assert (a + b)[..|a + b| - 1] == a + b[..n];
      Regroup(Concat(a), Concat(b[..n]), b[n]);
    }
  }

  function Indices(first: nat, n: nat): seq<nat> {
    seq(n, k requires 0 <= k < n => first + k)
  }

  function Elements(s: seq<nat>): set<nat> { set x | x in s }

  lemma {:induction false} IndicesSize(first: nat, n: nat)
    ensures |Elements(Indices(first, n))| == n
  {
    if n == 0 {
      assert Elements(Indices(first, n)) == {};
    } else {
      IndicesSize(first, n - 1);
      assert Indices(first, n) == Indices(first, n - 1) + [first + n - 1];
      assert Elements(Indices(first, n)) == Elements(Indices(first, n - 1)) + {first + n - 1};
    }
  }

  lemma IndicesIn(first: nat, n: nat, d: nat)
    ensures d in Elements(Indices(first, n)) <==> first <= d < first + n
  {
    if first <= d < first + n {
      assert Indices(first, n)[d - first] == d;
    }
  }
}
