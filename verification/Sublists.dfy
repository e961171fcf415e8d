/** Order-preserving sub-lists. */
module Sublists {

  /** `a` is `b` with some elements left out. */
  ghost predicate Sublist<T>(a: seq<T>, b: seq<T>)
    decreases |b|
  {
    if a == [] then true
    else if b == [] then false
    else
      || Sublist(a, b[..|b| - 1])
      || (a[|a| - 1] == b[|b| - 1] && Sublist(a[..|a| - 1], b[..|b| - 1]))
  }

  lemma {:induction false} SublistOfItself<T>(a: seq<T>)
    ensures Sublist(a, a)
  {
    if a != [] {
      SublistOfItself(a[..|a| - 1]);
    }
  }

  lemma {:induction false} SublistExtends<T>(a: seq<T>, b: seq<T>, x: T)
    requires Sublist(a, b)
    ensures Sublist(a, b + [x]) && Sublist(a + [x], b + [x])
  {
    assert (b + [x])[..|b|] == b;
    assert (a + [x])[..|a|] == a;
  }

  lemma {:induction false} SublistTransitive<T>(a: seq<T>, b: seq<T>, c: seq<T>)
    requires Sublist(a, b) && Sublist(b, c)
    ensures Sublist(a, c)
    decreases |c|, |b|
  {
    if a != [] {
      assert b != [];
      var c' := c[..|c| - 1];
      if Sublist(b, c') {
        SublistTransitive(a, b, c');
      } else {
        var b' := b[..|b| - 1];
        if Sublist(a, b') {
          SublistTransitive(a, b', c');
        } else {
          SublistTransitive(a[..|a| - 1], b', c');
        }
      }
    }
  }

  /** Each element of a sub-list stands at its own, increasing, position of the list. */
  lemma {:induction false} SublistPositions<T>(a: seq<T>, b: seq<T>) returns (at: seq<nat>)
    requires Sublist(a, b)
    ensures |at| == |a|
    ensures forall i | 0 <= i < |a| :: at[i] < |b| && b[at[i]] == a[i]
    ensures forall i, j | 0 <= i < j < |a| :: at[i] < at[j]
    decreases |b|
  {
    if a == [] {
      at := [];
    } else {
      var b' := b[..|b| - 1];
      if Sublist(a, b') {
        at := SublistPositions(a, b');
      } else {
        at := SublistPositions(a[..|a| - 1], b');
        at := at + [|b| - 1];
      }
    }
  }
}
