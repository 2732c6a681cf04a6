/**
 The bottom-up merge sort behind LL_SORT and DL_SORT, on sequences: what one merge, one pass and the
 whole loop compute, and that it is a stable sort for every total preorder.
 */
module MergeSort {
  import opened SeqFacts

  /** Two adjacent runs merged, the left one first among equals. */
  function Merge<X>(le: (X, X) -> bool, a: seq<X>, b: seq<X>): (m: seq<X>)
    ensures |m| == |a| + |b|
  {
    if a == [] then b
    else if b == [] then a
    else if le(a[0], b[0]) then [a[0]] + Merge(le, a[1..], b)
    else [b[0]] + Merge(le, a, b[1..])
  }

  function Take<X>(s: seq<X>, n: nat): seq<X> { if n < |s| then s[..n] else s }

  function Drop<X>(s: seq<X>, n: nat): seq<X> { if n < |s| then s[n..] else [] }

  /** One pass: runs of n merged two by two. */
  function Pass<X>(le: (X, X) -> bool, s: seq<X>, n: nat): (t: seq<X>)
    requires n > 0
    ensures |t| == |s|
    decreases |s|
  {
    if s == [] then []
    else
      var rest := Drop(s, n);
      Merge(le, Take(s, n), Take(rest, n)) + Pass(le, Drop(rest, n), n)
  }

  /** Passes with runs of n, 2n, 4n, ... until a pass merges at most once. */
  function SortFrom<X>(le: (X, X) -> bool, s: seq<X>, n: nat): (t: seq<X>)
    requires n > 0
    decreases |s| - n
  {
    if |s| <= 2 * n then Pass(le, s, n) else SortFrom(le, Pass(le, s, n), 2 * n)
  }

  // ----- permutation

  lemma {:induction false} MergeMultiset<X>(le: (X, X) -> bool, a: seq<X>, b: seq<X>)
    ensures multiset(Merge(le, a, b)) == multiset(a) + multiset(b)
    decreases |a| + |b|
  {
    if a != [] && b != [] {
      assert a == [a[0]] + a[1..] && b == [b[0]] + b[1..];
      if le(a[0], b[0]) { MergeMultiset(le, a[1..], b); } else { MergeMultiset(le, a, b[1..]); }
    }
  }

  lemma SplitMultiset<X>(s: seq<X>, n: nat)
    ensures Take(s, n) + Drop(s, n) == s
    ensures multiset(Take(s, n)) + multiset(Drop(s, n)) == multiset(s)
  {
    assert Take(s, n) + Drop(s, n) == s;
  }

  lemma {:induction false} PassMultiset<X>(le: (X, X) -> bool, s: seq<X>, n: nat)
    requires n > 0
    ensures multiset(Pass(le, s, n)) == multiset(s)
    decreases |s|
  {
    if s != [] {
      var rest := Drop(s, n);
      SplitMultiset(s, n);
      SplitMultiset(rest, n);
      MergeMultiset(le, Take(s, n), Take(rest, n));
      PassMultiset(le, Drop(rest, n), n);
    }
  }

  // ----- order

  /** le is a total preorder on the elements of s. */
  ghost predicate TotalPreorder<X>(le: (X, X) -> bool, s: set<X>) {
    && (forall a, b {:trigger le(a, b)} :: a in s && b in s ==> le(a, b) || le(b, a))
    && (forall a, b, c {:trigger le(a, b), le(b, c)} ::
          a in s && b in s && c in s && le(a, b) && le(b, c) ==> le(a, c))
  }

  /** The index of x in s. */
  function Pos<X(==)>(s: seq<X>, x: X): (i: int)
    ensures x in s ==> 0 <= i < |s| && s[i] == x
  {
    if s == [] || s[0] == x then 0 else 1 + Pos(s[1..], x)
  }

  /** The order a stable sort works by: a comparison on a domain, and where each element stood. */
  datatype Order<!X> = Order(le: (X, X) -> bool, pos: X -> int, dom: set<X>) {
    ghost predicate Valid() { TotalPreorder(le, dom) }
  }

  /** Strictly before: by the comparison, and among equals by where they stood. */
  predicate Lt<X>(o: Order<X>, a: X, b: X) {
    o.le(a, b) && (!o.le(b, a) || o.pos(a) < o.pos(b))
  }

  predicate Within<X>(o: Order<X>, t: seq<X>) { forall i :: 0 <= i < |t| ==> t[i] in o.dom }

  predicate Sorted<X>(o: Order<X>, t: seq<X>) {
    forall i, j {:trigger Lt(o, t[i], t[j])} :: 0 <= i < j < |t| ==> Lt(o, t[i], t[j])
  }

  /** The elements of t stood at lo or later. */
  predicate From<X>(o: Order<X>, t: seq<X>, lo: int) { forall i :: 0 <= i < |t| ==> lo <= o.pos(t[i]) }

  predicate Below<X>(o: Order<X>, t: seq<X>, hi: int) { forall i :: 0 <= i < |t| ==> o.pos(t[i]) < hi }

  lemma LtTrans<X>(o: Order<X>, a: X, b: X, c: X)
    requires o.Valid() && a in o.dom && b in o.dom && c in o.dom
    requires Lt(o, a, b) && Lt(o, b, c)
    ensures Lt(o, a, c)
  {
  }

  /** x before everything in a sorted t, if it is before its first element. */
  lemma LtAll<X>(o: Order<X>, x: X, t: seq<X>)
    requires o.Valid() && Within(o, t) && x in o.dom && Sorted(o, t)
    requires t != [] ==> Lt(o, x, t[0])
    ensures forall i :: 0 <= i < |t| ==> Lt(o, x, t[i])
  {
    forall i | 0 <= i < |t| ensures Lt(o, x, t[i]) {
      if i > 0 { LtTrans(o, x, t[0], t[i]); }
    }
  }

  lemma SortedCons<X>(o: Order<X>, x: X, t: seq<X>)
    requires Within(o, t) && x in o.dom && Sorted(o, t)
    requires forall i :: 0 <= i < |t| ==> Lt(o, x, t[i])
    ensures Within(o, [x] + t) && Sorted(o, [x] + t)
  {
  }

  /** Across two adjacent runs, the comparison the code makes decides the strict order. */
  lemma CrossLt<X>(o: Order<X>, a: X, b: X)
    requires o.Valid() && a in o.dom && b in o.dom && o.pos(a) < o.pos(b)
    ensures if o.le(a, b) then Lt(o, a, b) else Lt(o, b, a)
  {
  }

  lemma {:induction false} MergeWithin<X>(o: Order<X>, a: seq<X>, b: seq<X>)
    requires Within(o, a) && Within(o, b)
    ensures Within(o, Merge(o.le, a, b))
    decreases |a| + |b|
  {
    if a != [] && b != [] {
      if o.le(a[0], b[0]) { MergeWithin(o, a[1..], b); } else { MergeWithin(o, a, b[1..]); }
    }
  }

  /** Whatever is before all of a and all of b is before all of their merge. */
  lemma {:induction false} LtMerge<X>(o: Order<X>, x: X, a: seq<X>, b: seq<X>)
    requires Within(o, a) && Within(o, b) && x in o.dom
    requires forall i :: 0 <= i < |a| ==> Lt(o, x, a[i])
    requires forall i :: 0 <= i < |b| ==> Lt(o, x, b[i])
    ensures Within(o, Merge(o.le, a, b))
    ensures forall i :: 0 <= i < |a| + |b| ==> Lt(o, x, Merge(o.le, a, b)[i])
    decreases |a| + |b|
  {
    MergeWithin(o, a, b);
    if a != [] && b != [] {
      if o.le(a[0], b[0]) { LtMerge(o, x, a[1..], b); } else { LtMerge(o, x, a, b[1..]); }
    }
  }

  lemma {:induction false} MergeSorted<X>(o: Order<X>, a: seq<X>, b: seq<X>, mid: nat)
    requires o.Valid() && Within(o, a) && Within(o, b) && Sorted(o, a) && Sorted(o, b)
    requires Below(o, a, mid) && From(o, b, mid)
    ensures Within(o, Merge(o.le, a, b)) && Sorted(o, Merge(o.le, a, b))
    decreases |a| + |b|
  {
    MergeWithin(o, a, b);
    if a != [] && b != [] {
      CrossLt(o, a[0], b[0]);
      if o.le(a[0], b[0]) {
        MergeSorted(o, a[1..], b, mid);
        LtAll(o, a[0], b);
        LtMerge(o, a[0], a[1..], b);
        SortedCons(o, a[0], Merge(o.le, a[1..], b));
      } else {
        MergeSorted(o, a, b[1..], mid);
        LtAll(o, b[0], a);
        LtMerge(o, b[0], a, b[1..]);
        SortedCons(o, b[0], Merge(o.le, a, b[1..]));
      }
    }
  }

  lemma {:induction false} MergeBounds<X>(o: Order<X>, a: seq<X>, b: seq<X>, lo: nat, hi: nat)
    requires Within(o, a) && Within(o, b)
    requires From(o, a, lo) && From(o, b, lo) && Below(o, a, hi) && Below(o, b, hi)
    ensures Within(o, Merge(o.le, a, b)) && From(o, Merge(o.le, a, b), lo) && Below(o, Merge(o.le, a, b), hi)
    decreases |a| + |b|
  {
    MergeWithin(o, a, b);
    if a != [] && b != [] {
      if o.le(a[0], b[0]) { MergeBounds(o, a[1..], b, lo, hi); } else { MergeBounds(o, a, b[1..], lo, hi); }
    }
  }

  /** t is sorted and drawn from positions lo to lo + n of s. */
  predicate Block<X>(o: Order<X>, t: seq<X>, n: nat, lo: nat) {
    Within(o, t) && Sorted(o, t) && From(o, t, lo) && Below(o, t, lo + n)
  }

  /** t falls into blocks of n, each a sorted run drawn from the same stretch of s. */
  predicate Blocks<X>(o: Order<X>, t: seq<X>, n: nat, lo: nat)
    requires n > 0
    decreases |t|
  {
    t == [] || (Block(o, Take(t, n), n, lo) && Blocks(o, Drop(t, n), n, lo + n))
  }

  lemma MergeBlocks<X>(o: Order<X>, a: seq<X>, b: seq<X>, n: nat, lo: nat)
    requires o.Valid() && Block(o, a, n, lo) && Block(o, b, n, lo + n)
    ensures Block(o, Merge(o.le, a, b), 2 * n, lo)
  {
    MergeSorted(o, a, b, lo + n);
    MergeBounds(o, a, b, lo, lo + 2 * n);
  }

  lemma BlocksConcat<X>(o: Order<X>, a: seq<X>, b: seq<X>, n: nat, lo: nat)
    requires n > 0 && (|a| == n || (|a| < n && b == []))
    requires Block(o, a, n, lo) && Blocks(o, b, n, lo + n)
    ensures Blocks(o, a + b, n, lo)
  {
    assert Take(a + b, n) == a && Drop(a + b, n) == b;
  }

  lemma {:induction false} FirstBlock<X>(o: Order<X>, t: seq<X>, n: nat, lo: nat, hi: nat)
    requires n > 0 && hi == lo + n && Blocks(o, t, n, lo)
    ensures Block(o, Take(t, n), n, lo)
    ensures Blocks(o, Drop(t, n), n, hi)
  {
  }

  lemma {:induction false} TwoBlocks<X>(o: Order<X>, t: seq<X>, n: nat, lo: nat)
    requires n > 0 && Blocks(o, t, n, lo)
    ensures Block(o, Take(t, n), n, lo) && Block(o, Take(Drop(t, n), n), n, lo + n)
    ensures Blocks(o, Drop(Drop(t, n), n), n, lo + 2 * n)
  {
    FirstBlock(o, t, n, lo, lo + n);
    FirstBlock(o, Drop(t, n), n, lo + n, lo + 2 * n);
  }

  /** Two runs merged in front of longer runs. */
  lemma ConsMerged<X>(o: Order<X>, a: seq<X>, b: seq<X>, tail: seq<X>, n: nat, lo: nat)
    requires n > 0 && o.Valid() && Block(o, a, n, lo) && Block(o, b, n, lo + n) && Blocks(o, tail, 2 * n, lo + 2 * n)
    requires |a| + |b| == 2 * n || (|a| + |b| < 2 * n && tail == [])
    ensures Blocks(o, Merge(o.le, a, b) + tail, 2 * n, lo)
  {
    MergeBlocks(o, a, b, n, lo);
    BlocksConcat(o, Merge(o.le, a, b), tail, 2 * n, lo);
  }

  /** A pass doubles the run length. */
  lemma {:induction false} PassDoubles<X>(o: Order<X>, t: seq<X>, n: nat, lo: nat)
    requires n > 0 && o.Valid() && Blocks(o, t, n, lo)
    ensures Blocks(o, Pass(o.le, t, n), 2 * n, lo)
    decreases |t|
  {
    if t != [] {
      var rest := Drop(Drop(t, n), n);
      TwoBlocks(o, t, n, lo);
      PassDoubles(o, rest, n, lo + 2 * n);
      ConsMerged(o, Take(t, n), Take(Drop(t, n), n), Pass(o.le, rest, n), n, lo);
    }
  }

  /** Single elements are sorted runs. */
  lemma {:induction false} Singles<X>(o: Order<X>, s: seq<X>, lo: nat)
    requires lo <= |s|
    requires forall i :: 0 <= i < |s| ==> s[i] in o.dom && o.pos(s[i]) == i
    ensures Blocks(o, s[lo..], 1, lo)
    decreases |s| - lo
  {
    if lo < |s| {
      Singles(o, s, lo + 1);
      assert Take(s[lo..], 1) == [s[lo]] && Drop(s[lo..], 1) == s[lo + 1..];
    }
  }

  lemma {:induction false} SortFromSorts<X>(o: Order<X>, t: seq<X>, n: nat)
    requires n > 0 && o.Valid() && Blocks(o, t, n, 0)
    ensures Sorted(o, SortFrom(o.le, t, n))
    decreases |t| - n
  {
    PassDoubles(o, t, n, 0);
    if |t| > 2 * n {
      SortFromSorts(o, Pass(o.le, t, n), 2 * n);
    } else {
      FirstBlock(o, Pass(o.le, t, n), 2 * n, 0, 2 * n);
      assert Take(Pass(o.le, t, n), 2 * n) == Pass(o.le, t, n);
    }
  }

  lemma {:induction false} SortFromMultiset<X>(le: (X, X) -> bool, t: seq<X>, n: nat)
    requires n > 0
    ensures multiset(SortFrom(le, t, n)) == multiset(t)
    decreases |t| - n
  {
    PassMultiset(le, t, n);
    if |t| > 2 * n { SortFromMultiset(le, Pass(le, t, n), 2 * n); }
  }

  lemma {:induction false} NoDupCount<X>(s: seq<X>, x: X)
    requires NoDup(s)
    ensures multiset(s)[x] <= 1
  {
    if s != [] {
      assert s == [s[0]] + s[1..];
      if s[0] != x { NoDupCount(s[1..], x); }
    }
  }

  lemma DupCount<X>(t: seq<X>, i: nat, j: nat)
    requires i < j < |t| && t[i] == t[j]
    ensures multiset(t)[t[i]] >= 2
  {
    assert t == t[..i + 1] + t[i + 1..];
    assert t[i] in t[..i + 1] && t[j] in t[i + 1..];
  }

  lemma MultisetKeepsNoDup<X>(s: seq<X>, t: seq<X>)
    requires NoDup(s) && multiset(s) == multiset(t)
    ensures NoDup(t)
  {
    forall i, j | 0 <= i < j < |t| ensures t[i] != t[j] {
      if t[i] == t[j] {
        DupCount(t, i, j);
        NoDupCount(s, t[i]);
      }
    }
  }

  lemma PosIs<X>(s: seq<X>, i: nat)
    requires NoDup(s) && i < |s|
    ensures Pos(s, s[i]) == i
  {
    var p := Pos(s, s[i]);
    assert s[i] in s;
    assert s[p] == s[i];
  }

  /** t is ordered by le, and among equals keeps the order of s. */
  predicate StablySorted<X(==)>(le: (X, X) -> bool, s: seq<X>, t: seq<X>) {
    forall i, j :: 0 <= i < j < |t| ==> le(t[i], t[j]) && (le(t[j], t[i]) ==> Pos(s, t[i]) < Pos(s, t[j]))
  }

  /** The sort is a permutation, ordered by le, and among equals keeps the order they had. */
  lemma StableSort<X>(le: (X, X) -> bool, s: seq<X>)
    requires NoDup(s) && TotalPreorder(le, set x | x in s)
    ensures multiset(SortFrom(le, s, 1)) == multiset(s) && NoDup(SortFrom(le, s, 1))
    ensures StablySorted(le, s, SortFrom(le, s, 1))
  {
    var o := Order(le, x => Pos(s, x), set x | x in s);
    forall i | 0 <= i < |s| ensures s[i] in o.dom && o.pos(s[i]) == i { PosIs(s, i); }
    Singles(o, s, 0);
    assert s[0..] == s;
    SortFromSorts(o, s, 1);
    SortFromMultiset(le, s, 1);
    var t := SortFrom(le, s, 1);
    MultisetKeepsNoDup(s, t);
    forall i, j | 0 <= i < j < |t|
      ensures le(t[i], t[j]) && (le(t[j], t[i]) ==> Pos(s, t[i]) < Pos(s, t[j]))
    {
      assert Lt(o, t[i], t[j]);
    }
  }
}
