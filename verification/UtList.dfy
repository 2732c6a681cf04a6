/**
 The utlist macros on the heap: insertion, removal and safe iteration of a doubly linked list whose
 head's prev is its tail, and the in-place merge sort of singly and doubly linked lists.
 The ghost sequence s lists the nodes in order; each operation says what it does to that sequence.
 */
module UtList {
  import opened SeqFacts

  class Node<T> {
    const value: T
    var prev: Node?<T>
    var next: Node?<T>

    constructor (value: T)
      ensures this.value == value
    {
      this.value := value;
    }
  }

  ghost function Nodes<T>(s: seq<Node<T>>): set<Node<T>> { set x | x in s }

  ghost function At<T>(s: seq<Node<T>>, k: nat): Node?<T> { if k < |s| then s[k] else null }

  ghost function Last<T>(s: seq<Node<T>>): Node?<T> { if s == [] then null else s[|s| - 1] }

  ghost function Before<T>(s: seq<Node<T>>, k: nat): Node?<T> {
    if k == 0 then Last(s) else At(s, k - 1)
  }

  /** The next pointers of s from lo to hi are those of the list s. */
  ghost predicate Nexts<T>(s: seq<Node<T>>, lo: nat, hi: nat)
    requires hi <= |s|
    reads s`next
  {
    forall k {:trigger s[k].next} :: lo <= k < hi ==> s[k].next == At(s, k + 1)
  }

  /** A singly linked list. */
  ghost predicate Chain<T>(head: Node?<T>, s: seq<Node<T>>)
    reads s`next
  {
    NoDup(s) && head == At(s, 0) && Nexts(s, 0, |s|)
  }

  /** Each prev is the node before, and the head's prev is the tail. */
  ghost predicate Prevs<T>(s: seq<Node<T>>)
    reads s`prev
  {
    forall k {:trigger s[k].prev} :: 0 <= k < |s| ==> s[k].prev == Before(s, k)
  }

  /** A doubly linked list. */
  ghost predicate DList<T>(head: Node?<T>, s: seq<Node<T>>)
    reads s
  {
    Chain(head, s) && Prevs(s)
  }

  /** Every next pointer is that of the list s, except perhaps at position e. */
  ghost predicate NextsBut<T>(s: seq<Node<T>>, e: int)
    reads s`next
  {
    forall k {:trigger s[k].next} :: 0 <= k < |s| && k != e ==> s[k].next == At(s, k + 1)
  }

  ghost predicate PrevsBut<T>(s: seq<Node<T>>, e: int)
    reads s`prev
  {
    forall k {:trigger s[k].prev} :: 0 <= k < |s| && k != e ==> s[k].prev == Before(s, k)
  }

  method Prepend<T>(head: Node?<T>, add: Node<T>, ghost s: seq<Node<T>>) returns (head': Node<T>)
    requires DList(head, s) && add !in s
    modifies Nodes(s), add
    ensures DList(head', [add] + s)
  {
    assert s != [] ==> head == s[0] && s[0].prev == s[|s| - 1];
    add.next := head;
    if head != null {
      add.prev := head.prev;
      head.prev := add;
    } else {
      add.prev := add;
    }
    head' := add;
    PrependLinks(s, add);
  }

  lemma PrependLinks<T>(s: seq<Node<T>>, add: Node<T>)
    requires NoDup(s) && add !in s && NextsBut(s, -1) && PrevsBut(s, 0)
    requires add.next == At(s, 0) && (s == [] ==> add.prev == add)
    requires s != [] ==> s[0].prev == add && add.prev == s[|s| - 1]
    ensures DList(add, [add] + s)
  {
    var t := [add] + s;
    assert NoDup(t) by {
      forall i, j | 0 <= i < j < |t| ensures t[i] != t[j] { assert t[j] == s[j - 1]; }
    }
    forall k | 0 <= k < |t| ensures t[k].next == At(t, k + 1) {
      if k > 0 { assert t[k] == s[k - 1]; }
    }
    forall k | 0 <= k < |t| ensures t[k].prev == Before(t, k) {
      if k > 0 { assert t[k] == s[k - 1]; }
    }
  }

  method Append<T>(head: Node?<T>, add: Node<T>, ghost s: seq<Node<T>>) returns (head': Node<T>)
    requires DList(head, s) && add !in s
    modifies Nodes(s), add
    ensures DList(head', s + [add])
  {
    assert s != [] ==> head == s[0] && s[0].prev == s[|s| - 1];
    if head != null {
      add.prev := head.prev;
      head.prev.next := add;
      head.prev := add;
      add.next := null;
      head' := head;
    } else {
      head' := add;
      head'.prev := head';
      head'.next := null;
    }
    AppendLinks(s, add);
  }

  lemma AppendLinks<T>(s: seq<Node<T>>, add: Node<T>)
    requires NoDup(s) && add !in s && NextsBut(s, |s| - 1) && PrevsBut(s, 0)
    requires add.next == null && (s == [] ==> add.prev == add)
    requires s != [] ==> s[|s| - 1].next == add && add.prev == s[|s| - 1] && s[0].prev == add
    ensures DList((s + [add])[0], s + [add])
  {
    var t := s + [add];
    assert forall k :: 0 <= k < |s| ==> t[k] == s[k];
  }

  ghost function Without<T>(s: seq<Node<T>>, i: nat): seq<Node<T>>
    requires i < |s|
  {
    s[..i] + s[i + 1..]
  }

  method Delete<T>(head: Node?<T>, del: Node<T>, ghost s: seq<Node<T>>, ghost i: nat) returns (head': Node?<T>)
    requires DList(head, s) && i < |s| && del == s[i]
    modifies Nodes(s)
    ensures DList(head', Without(s, i))
    ensures del.next == old(del.next) && del.prev == old(del.prev)
  {
    assert head == s[0] && s[0].prev == s[|s| - 1];
    if del.prev == del {
      assert |s| == 1;
      head' := null;
      DeleteLinks(s, i);
    } else if del == head {
      assert i == 0 && del.next == s[1];
      del.next.prev := del.prev;
      head' := del.next;
      DeleteLinks(s, i);
    } else {
      head' := head;
      Unlink(head, del, s, i);
      DeleteLinks(s, i);
    }
  }

  lemma Others<T>(s: seq<Node<T>>, i: nat)
    requires NoDup(s) && i < |s|
    ensures forall k :: 0 <= k < |s| && k != i ==> s[k] != s[i]
  {
  }

  /** The case of DL_DELETE for a node behind the head. */
  method Unlink<T>(head: Node<T>, del: Node<T>, ghost s: seq<Node<T>>, ghost i: nat)
    requires DList(head, s) && 0 < i < |s| && del == s[i]
    modifies Nodes(s)
    ensures del.next == old(del.next) && del.prev == old(del.prev)
    ensures NextsBut(s, i - 1) && s[i - 1].next == s[i].next
    ensures i + 1 < |s| ==> PrevsBut(s, i + 1) && s[i + 1].prev == s[i].prev
    ensures i + 1 == |s| ==> PrevsBut(s, 0) && s[0].prev == s[i].prev
  {
    ghost var before := s[i - 1];
    assert del.prev == before;
    Others(s, i - 1);
    del.prev.next := del.next;
    assert NextsBut(s, i - 1) && PrevsBut(s, -1);
    if del.next != null {
      assert del.next == s[i + 1];
      Others(s, i + 1);
      del.next.prev := del.prev;
      assert PrevsBut(s, i + 1);
    } else {
      assert head == s[0] && i + 1 == |s|;
      Others(s, 0);
      head.prev := del.prev;
      assert PrevsBut(s, 0);
    }
  }

  lemma DeleteLinks<T>(s: seq<Node<T>>, i: nat)
    requires NoDup(s) && i < |s| && NextsBut(s, i - 1) && PrevsBut(s, if i + 1 < |s| then i + 1 else 0)
    requires i > 0 ==> s[i - 1].next == s[i].next
    requires |s| > 1 ==> (if i + 1 < |s| then s[i + 1] else s[0]).prev == s[i].prev
    ensures DList(At(Without(s, i), 0), Without(s, i))
  {
    var t := Without(s, i);
    assert forall k :: 0 <= k < i ==> t[k] == s[k];
    assert forall k :: i <= k < |t| ==> t[k] == s[k + 1];
  }

  /** Takes the first node off the list and gives its memory back. */
  method Discard<T>(head: Node<T>, el: Node<T>, ghost s: seq<Node<T>>) returns (head': Node?<T>)
    requires DList(head, s) && s != [] && el == s[0]
    modifies Nodes(s)
    ensures DList(head', s[1..])
    ensures el.next == null && el.prev == null
  {
    head' := Delete(head, el, s, 0);
    assert Without(s, 0) == s[1..];
    Others(s, 0);
    assert el !in s[1..];
    el.next, el.prev := null, null;
  }

  /**
   DL_FOREACH_SAFE with a body that removes the node it is at and gives it back: the pointer to the
   next node is read before the body runs, so every node is visited once, in order, and the list ends
   empty although no visited node keeps its links.
   */
  method Drain<T>(head: Node?<T>, ghost s: seq<Node<T>>) returns (head': Node?<T>, visited: seq<Node<T>>)
    requires DList(head, s)
    modifies Nodes(s)
    ensures head' == null && visited == s
  {
    head', visited := head, [];
    var el := head;
    ghost var rest := s;
    while el != null
      invariant s == visited + rest
      invariant Nodes(rest) <= Nodes(s)
      invariant el == At(rest, 0) && DList(head', rest)
      decreases |rest|
    {
      var cur: Node<T>, tmp := el, el.next;
      ConsOf(visited, rest);
      head' := Discard(head', cur, rest);
      visited := visited + [cur];
      el, rest := tmp, rest[1..];
    }
  }

  lemma ConsOf<T>(a: seq<Node<T>>, b: seq<Node<T>>)
    requires b != []
    ensures a + b == a + [b[0]] + b[1..]
    ensures Nodes(b) == Nodes(b[1..]) + {b[0]}
  {
  }
}
