/** Shared definitions, and facts about sequences that are cheaper to cite than to find again. */
module SeqFacts {
  datatype Option<T> = None | Some(value: T)

  predicate NoDup<T(==)>(s: seq<T>) { forall i, j :: 0 <= i < j < |s| ==> s[i] != s[j] }

  lemma ConcatAssoc<T>(a: seq<T>, b: seq<T>, c: seq<T>)
    ensures a + b + c == a + (b + c)
  {
  }

  /** One more element of b behind a. */
  lemma TakeNext<T>(a: seq<T>, b: seq<T>, k: nat)
    requires k < |b|
    ensures b[..k + 1] == b[..k] + [b[k]]
    ensures a + b[..k + 1] == a + b[..k] + [b[k]]
  {
    assert b[..k + 1] == b[..k] + [b[k]];
  }
}
