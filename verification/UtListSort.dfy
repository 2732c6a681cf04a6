/**
 LL_SORT and DL_SORT in place: both relink the same nodes by the same bottom-up merges; DL_SORT also
 writes prev. Each loop of the macro is a method proved against MergeSort.
 */
module UtListSort {
  import opened MergeSort
  import opened UtList
  import opened SeqFacts

  ghost predicate LinksTo<T>(done: seq<Node<T>>)
    reads done`next
  {
    forall k {:trigger done[k].next} :: 0 <= k < |done| - 1 ==> done[k].next == At(done, k + 1)
  }

  ghost predicate LinksBack<T>(done: seq<Node<T>>)
    reads done`prev
  {
    forall k {:trigger done[k].prev} :: 0 <= k < |done| ==> done[k].prev == if k == 0 then null else At(done, k - 1)
  }

  /** The list built so far by the pass: its last node's next is not written yet. */
  ghost predicate Built<T>(list: Node?<T>, tail: Node?<T>, dl: bool, done: seq<Node<T>>)
    reads done
  {
    && NoDup(done) && list == At(done, 0) && tail == Last(done)
    && LinksTo(done) && (dl ==> LinksBack(done))
  }

  /** Hooks e behind tail. */
  method Emit<T>(list: Node?<T>, tail: Node?<T>, e: Node<T>, dl: bool, ghost done: seq<Node<T>>)
    returns (list': Node?<T>)
    requires Built(list, tail, dl, done) && e !in done
    modifies Nodes(done), e
    ensures Built(list', e, dl, done + [e])
    ensures e.next == old(e.next)
  {
    list' := list;
    if tail != null {
      tail.next := e;
    } else {
      list' := e;
    }
    if dl { e.prev := tail; }
  }

  /** The nodes of l from lo to hi are not relinked yet. */
  ghost predicate Pending<T>(l: seq<Node<T>>, lo: nat, hi: nat, done: seq<Node<T>>)
    requires hi <= |l|
    reads l`next
  {
    Nexts(l, lo, hi) && forall k :: lo <= k < hi ==> l[k] !in done
  }

  /** The first loop of a merge: steps q over the run that starts at p. */
  method StepOver<T>(p: Node<T>, insize: nat, ghost l: seq<Node<T>>, ghost i: nat)
    returns (q: Node?<T>, psize: nat)
    requires i < |l| && p == l[i] && Nexts(l, i, |l|) && insize > 0
    ensures psize == (if insize < |l| - i then insize else |l| - i) && q == At(l, i + psize)
  {
    q, psize := p, 0;
    var k := 0;
    while k < insize
      invariant k == psize <= insize && i + psize < |l| && q == l[i + psize]
    {
      psize := psize + 1;
      q := q.next;
      if q == null { break; }
      k := k + 1;
    }
  }

  /** What remains of two runs of l while they are merged: ps nodes from i, and those from j to je. */
  ghost predicate Merging<T>(l: seq<Node<T>>, i: nat, ps: nat, j: nat, je: nat, done: seq<Node<T>>)
    reads l`next
  {
    && i + ps <= j <= je <= |l|
    && Pending(l, i, i + ps, done) && Pending(l, j, |l|, done)
    && (forall x :: x in done ==> x in l)
  }

  lemma TookLeft<T>(l: seq<Node<T>>, i: nat, ps: nat, j: nat, je: nat, done: seq<Node<T>>)
    requires NoDup(l) && Merging(l, i, ps, j, je, done) && ps > 0
    ensures Merging(l, i + 1, ps - 1, j, je, done + [l[i]])
  {
  }

  lemma TookRight<T>(l: seq<Node<T>>, i: nat, ps: nat, j: nat, je: nat, done: seq<Node<T>>)
    requires NoDup(l) && Merging(l, i, ps, j, je, done) && j < je
    ensures Merging(l, i, ps, j + 1, je, done + [l[j]])
  {
  }

  /** Two runs merged, each given by where it starts and ends in l. */
  ghost function Rest<T>(le: (Node<T>, Node<T>) -> bool, l: seq<Node<T>>, i: nat, ps: nat, j: nat, je: nat)
    : seq<Node<T>>
    requires i + ps <= j <= je <= |l|
  {
    Merge(le, l[i..i + ps], l[j..je])
  }

  lemma LeftFirst<T>(le: (Node<T>, Node<T>) -> bool, l: seq<Node<T>>, i: nat, ps: nat, j: nat, je: nat,
                     done: seq<Node<T>>)
    requires i + ps <= j <= je <= |l| && ps > 0 && (j == je || le(l[i], l[j]))
    ensures done + Rest(le, l, i, ps, j, je) == done + [l[i]] + Rest(le, l, i + 1, ps - 1, j, je)
  {
    var a, b := l[i..i + ps], l[j..je];
    assert a[1..] == l[i + 1..i + ps];
    if j == je {
      assert Merge(le, a, b) == a && Merge(le, a[1..], b) == a[1..];
    }
  }

  lemma RightFirst<T>(le: (Node<T>, Node<T>) -> bool, l: seq<Node<T>>, i: nat, ps: nat, j: nat, je: nat,
                      done: seq<Node<T>>)
    requires i + ps <= j < je <= |l| && (ps == 0 || !le(l[i], l[j]))
    ensures done + Rest(le, l, i, ps, j, je) == done + [l[j]] + Rest(le, l, i, ps, j + 1, je)
  {
    var a, b := l[i..i + ps], l[j..je];
    assert b[1..] == l[j + 1..je];
    if ps == 0 {
      assert Merge(le, a, b) == b && Merge(le, a, b[1..]) == b[1..];
    }
  }

  /** The pointers and counts of the inner loop agree with the positions they stand for. */
  ghost predicate Cursors<T>(l: seq<Node<T>>, p: Node?<T>, ps: nat, q: Node?<T>, qs: nat, i: nat, j: nat, je: nat) {
    && i + ps <= j <= je && je == (if qs < |l| - j then j + qs else |l|)
    && (ps > 0 ==> p == At(l, i)) && q == At(l, j)
  }

  /** Chooses the next node of the merge and steps past it. */
  method Choose<T>(le: (Node<T>, Node<T>) -> bool, p: Node?<T>, ps: nat, q: Node?<T>, qs: nat,
                   ghost l: seq<Node<T>>, ghost i: nat, ghost j: nat, ghost je: nat, ghost done: seq<Node<T>>)
    returns (e: Node<T>, p': Node?<T>, ps': nat, q': Node?<T>, qs': nat, ghost i': nat, ghost j': nat)
    requires NoDup(l) && Merging(l, i, ps, j, je, done) && Cursors(l, p, ps, q, qs, i, j, je)
    requires ps > 0 || (qs > 0 && q != null)
    ensures Merging(l, i', ps', j', je, done + [e]) && Cursors(l, p', ps', q', qs', i', j', je)
    ensures e in l && e !in done && ps' + qs' < ps + qs
    ensures done + Rest(le, l, i, ps, j, je) == done + [e] + Rest(le, l, i', ps', j', je)
  {
    p', ps', q', qs', i', j' := p, ps, q, qs, i, j;
    if ps == 0 {
      e, q', qs', j' := q, q.next, qs - 1, j + 1;
      RightFirst(le, l, i, ps, j, je, done);
      TookRight(l, i, ps, j, je, done);
    } else if qs == 0 || q == null {
      e, p', ps', i' := p, p.next, ps - 1, i + 1;
      LeftFirst(le, l, i, ps, j, je, done);
      TookLeft(l, i, ps, j, je, done);
    } else if le(p, q) {
      e, p', ps', i' := p, p.next, ps - 1, i + 1;
      LeftFirst(le, l, i, ps, j, je, done);
      TookLeft(l, i, ps, j, je, done);
    } else {
      e, q', qs', j' := q, q.next, qs - 1, j + 1;
      RightFirst(le, l, i, ps, j, je, done);
      TookRight(l, i, ps, j, je, done);
    }
  }

  /** Hooking a node behind tail does not touch the nodes still to be merged. */
  method EmitFrom<T>(list: Node?<T>, tail: Node?<T>, e: Node<T>, dl: bool, ghost done: seq<Node<T>>,
                     ghost l: seq<Node<T>>, ghost i: nat, ghost ps: nat, ghost j: nat, ghost je: nat)
    returns (list': Node?<T>)
    requires Built(list, tail, dl, done) && e !in done && Merging(l, i, ps, j, je, done + [e])
    modifies Nodes(done), e
    ensures Built(list', e, dl, done + [e]) && Merging(l, i, ps, j, je, done + [e])
  {
    list' := Emit(list, tail, e, dl, done);
  }

  lemma NothingLeft<T>(le: (Node<T>, Node<T>) -> bool, l: seq<Node<T>>, i: nat, j: nat, done: seq<Node<T>>)
    requires i <= j <= |l|
    ensures done + Rest(le, l, i, 0, j, j) == done
  {
    assert l[i..i + 0] == [] && l[j..j] == [];
  }

  /** The inner loop: merges the run of psize nodes at p with the one of at most qsize nodes at q. */
  method MergeRuns<T>(le: (Node<T>, Node<T>) -> bool, list: Node?<T>, tail: Node?<T>,
                      p0: Node<T>, psize0: nat, q0: Node?<T>, qsize0: nat, dl: bool,
                      ghost l: seq<Node<T>>, ghost i0: nat, ghost je: nat, ghost done0: seq<Node<T>>)
    returns (list': Node?<T>, tail': Node?<T>, q: Node?<T>, ghost done: seq<Node<T>>)
    requires NoDup(l) && Merging(l, i0, psize0, i0 + psize0, je, done0) && psize0 > 0
    requires Cursors(l, p0, psize0, q0, qsize0, i0, i0 + psize0, je) && Built(list, tail, dl, done0)
    modifies Nodes(l)
    ensures done == done0 + Rest(le, l, i0, psize0, i0 + psize0, je)
    ensures Built(list', tail', dl, done) && q == At(l, je) && Merging(l, je, 0, je, je, done)
  {
    var p: Node?<T>, psize: nat, qsize: nat := p0, psize0, qsize0;
    list', tail', q, done := list, tail, q0, done0;
    ghost var i: nat, j: nat := i0, i0 + psize0;
    ghost var goal := done0 + Rest(le, l, i0, psize0, i0 + psize0, je);
    while psize > 0 || (qsize > 0 && q != null)
      invariant Merging(l, i, psize, j, je, done) && Built(list', tail', dl, done)
      invariant Cursors(l, p, psize, q, qsize, i, j, je)
      invariant goal == done + Rest(le, l, i, psize, j, je)
      decreases psize + qsize
    {
      var e;
      e, p, psize, q, qsize, i, j := Choose(le, p, psize, q, qsize, l, i, j, je, done);
      list' := EmitFrom(list', tail', e, dl, done, l, i, psize, j, je);
      tail', done := e, done + [e];
    }
    NothingLeft(le, l, i, je, done);
  }

  /** Where the run at i ends. */
  ghost function RunEnd(i: nat, n: nat, len: nat): (j: nat)
    ensures i < len && n > 0 ==> i < j <= len
  {
    if i + n < len then i + n else len
  }

  /** Where the two runs at i end. */
  ghost function RunsEnd(i: nat, n: nat, len: nat): (je: nat)
    ensures i < len && n > 0 ==> i < je <= len
  {
    if i + 2 * n < len then i + 2 * n else len
  }

  /** The pass from position i on, by positions: the two runs there merged, and then the rest. */
  ghost function PassFrom<T>(le: (Node<T>, Node<T>) -> bool, l: seq<Node<T>>, i: nat, n: nat): seq<Node<T>>
    requires n > 0
    decreases |l| - i
  {
    if i >= |l| then []
    else
      var j, je := RunEnd(i, n, |l|), RunsEnd(i, n, |l|);
      Merge(le, l[i..j], l[j..je]) + PassFrom(le, l, je, n)
  }

  lemma SplitRuns<T>(l: seq<T>, i: nat, n: nat)
    requires i < |l| && n > 0
    ensures var j, je := RunEnd(i, n, |l|), RunsEnd(i, n, |l|);
      && j <= je && Take(l[i..], n) == l[i..j] && Take(Drop(l[i..], n), n) == l[j..je]
      && Drop(Drop(l[i..], n), n) == l[je..]
  {
    assert Drop(l[i..], n) == l[RunEnd(i, n, |l|)..];
  }

  lemma PassUnfolds<T>(le: (Node<T>, Node<T>) -> bool, s: seq<Node<T>>, n: nat,
                       a: seq<Node<T>>, b: seq<Node<T>>, rest: seq<Node<T>>)
    requires s != [] && n > 0 && a == Take(s, n) && b == Take(Drop(s, n), n) && rest == Drop(Drop(s, n), n)
    ensures Pass(le, s, n) == Merge(le, a, b) + Pass(le, rest, n)
  {
  }

  lemma {:induction false} PassFromIs<T>(le: (Node<T>, Node<T>) -> bool, l: seq<Node<T>>, i: nat, n: nat)
    requires n > 0 && i <= |l|
    ensures PassFrom(le, l, i, n) == Pass(le, l[i..], n)
    decreases |l| - i
  {
    if i < |l| {
      var j, je := RunEnd(i, n, |l|), RunsEnd(i, n, |l|);
      PassFromIs(le, l, je, n);
      SplitRuns(l, i, n);
      PassUnfolds(le, l[i..], n, l[i..j], l[j..je], l[je..]);
    }
  }

  /** One merge of the pass done. */
  lemma PassStep<T>(le: (Node<T>, Node<T>) -> bool, l: seq<Node<T>>, i: nat, ps: nat, je: nat, n: nat,
                    done: seq<Node<T>>)
    requires i < |l| && n > 0 && i + ps == RunEnd(i, n, |l|) && je == RunsEnd(i, n, |l|)
    ensures done + PassFrom(le, l, i, n) == done + Rest(le, l, i, ps, i + ps, je) + PassFrom(le, l, je, n)
  {
    ConcatAssoc(done, Rest(le, l, i, ps, i + ps, je), PassFrom(le, l, je, n));
  }

  /** Closes the list at its new tail. */
  method Finish<T>(list: Node<T>, tail: Node<T>, dl: bool, ghost done: seq<Node<T>>)
    requires Built(list, tail, dl, done) && done != []
    modifies Nodes(done)
    ensures Chain(list, done) && (dl ==> Prevs(done))
  {
    if dl { list.prev := tail; }
    tail.next := null;
  }

  /** Finds the next two runs and merges them. */
  method MergeNext<T>(le: (Node<T>, Node<T>) -> bool, list: Node?<T>, tail: Node?<T>, p: Node<T>, insize: nat,
                      dl: bool, ghost l: seq<Node<T>>, ghost i: nat, ghost done0: seq<Node<T>>)
    returns (list': Node?<T>, tail': Node?<T>, q: Node?<T>, ghost done: seq<Node<T>>)
    requires NoDup(l) && Merging(l, i, 0, i, i, done0) && Built(list, tail, dl, done0) && p == At(l, i) && insize > 0
    modifies Nodes(l)
    ensures var je := RunsEnd(i, insize, |l|);
      && q == At(l, je) && Merging(l, je, 0, je, je, done) && Built(list', tail', dl, done) && done != []
      && done0 + PassFrom(le, l, i, insize) == done + PassFrom(le, l, je, insize)
  {
    var psize;
    q, psize := StepOver(p, insize, l, i);
    ghost var je := RunsEnd(i, insize, |l|);
    PassStep(le, l, i, psize, je, insize, done0);
    list', tail', q, done := MergeRuns(le, list, tail, p, psize, q, insize, dl, l, i, je, done0);
  }

  lemma WholePass<T>(le: (Node<T>, Node<T>) -> bool, l: seq<Node<T>>, n: nat)
    requires n > 0
    ensures PassFrom(le, l, 0, n) == Pass(le, l, n) && PassFrom(le, l, |l|, n) == []
  {
    PassFromIs(le, l, 0, n);
    assert l[0..] == l;
  }

  /** One round of the outer loop. */
  method OnePass<T>(le: (Node<T>, Node<T>) -> bool, list: Node<T>, insize: nat, dl: bool, ghost l: seq<Node<T>>)
    returns (list': Node<T>, nmerges: nat, ghost done: seq<Node<T>>)
    requires Chain(list, l) && l != [] && insize > 0
    modifies Nodes(l)
    ensures done == Pass(le, l, insize)
    ensures Chain(list', done) && (dl ==> Prevs(done))
    ensures nmerges <= 1 <==> |l| <= 2 * insize
  {
    var p: Node?<T>, head: Node?<T>, tail: Node?<T> := list, null, null;
    nmerges, done := 0, [];
    ghost var i: nat := 0;
    while p != null
      invariant Merging(l, i, 0, i, i, done) && Built(head, tail, dl, done) && p == At(l, i)
      invariant done + PassFrom(le, l, i, insize) == PassFrom(le, l, 0, insize)
      invariant i > 0 ==> done != []
      invariant i == if nmerges == 0 then 0 else if nmerges == 1 then RunsEnd(0, insize, |l|) else i
      invariant nmerges > 1 ==> |l| > 2 * insize
      decreases |l| - i
    {
      nmerges := nmerges + 1;
      head, tail, p, done := MergeNext(le, head, tail, p, insize, dl, l, i, done);
      i := RunsEnd(i, insize, |l|);
    }
    WholePass(le, l, insize);
    list' := head;
    Finish(list', tail, dl, done);
  }

  lemma AfterPass<T>(le: (Node<T>, Node<T>) -> bool, s: seq<Node<T>>, n: nat)
    requires n > 0
    ensures var t := Pass(le, s, n);
      && Nodes(t) == Nodes(s) && |t| == |s|
      && SortFrom(le, s, n) == if |s| <= 2 * n then t else SortFrom(le, t, n * 2)
  {
    PassMultiset(le, s, n);
    SameNodes(Pass(le, s, n), s);
    assert n * 2 == 2 * n;
  }

  /** The outer loop: runs of 1, 2, 4, ... until one merge makes up a pass. */
  method Passes<T>(le: (Node<T>, Node<T>) -> bool, list: Node<T>, dl: bool, ghost s: seq<Node<T>>)
    returns (list': Node<T>, ghost t: seq<Node<T>>)
    requires Chain(list, s) && s != []
    modifies Nodes(s)
    ensures Chain(list', t) && (dl ==> Prevs(t)) && t == SortFrom(le, s, 1)
  {
    list', t := list, s;
    var insize: nat, looping := 1, true;
    ghost var goal := SortFrom(le, s, 1);
    while looping
      invariant Chain(list', t) && (!looping && dl ==> Prevs(t)) && t != [] && insize > 0
      invariant Nodes(t) == Nodes(s)
      invariant goal == if looping then SortFrom(le, t, insize) else t
      decreases looping, |t| - insize
    {
      ghost var was := t;
      var nmerges;
      list', nmerges, t := OnePass(le, list', insize, dl, t);
      AfterPass(le, was, insize);
      if nmerges <= 1 { looping := false; }
      insize := insize * 2;
    }
  }

  /**
   LL_SORT (dl false) and DL_SORT (dl true): the same nodes, relinked in the order of a stable sort;
   the doubly linked list is whole again. Only the sign of the comparison is used, as le.
   */
  method Sort<T>(le: (Node<T>, Node<T>) -> bool, list: Node?<T>, dl: bool, ghost s: seq<Node<T>>)
    returns (list': Node?<T>, ghost t: seq<Node<T>>)
    requires Chain(list, s)
    modifies Nodes(s)
    ensures Chain(list', t) && (dl ==> DList(list', t))
    ensures multiset(t) == multiset(s)
    ensures TotalPreorder(le, Nodes(s)) ==> StablySorted(le, s, t)
  {
    list', t := list, s;
    if list != null {
      list', t := Passes(le, list, dl, s);
      SortFromMultiset(le, s, 1);
      if TotalPreorder(le, Nodes(s)) { StableSort(le, s); }
    }
  }

  lemma SameNodes<T>(t: seq<Node<T>>, s: seq<Node<T>>)
    requires multiset(t) == multiset(s)
    ensures Nodes(t) == Nodes(s)
  {
    forall x ensures x in t <==> x in s {
      assert x in t <==> x in multiset(t);
    }
  }
}
