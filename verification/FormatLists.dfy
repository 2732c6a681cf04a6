/**
 The descriptor lists of a streaming interface on the heap: format descriptors linked by DL_APPEND, each
 with its own linked list of frame descriptors.  The last format is the prev of the head.
 */
module FormatLists {
  import opened Descriptors
  import opened Scan
  import opened SeqFacts
  import opened UtList

  predicate Carry<T(==)>(nodes: seq<Node<T>>, values: seq<T>) {
    |nodes| == |values| && forall i :: 0 <= i < |nodes| ==> nodes[i].value == values[i]
  }

  /** A doubly linked list and what it holds. */
  class DL<T(==)> {
    var head: Node?<T>
    ghost var nodes: seq<Node<T>>
    ghost var values: seq<T>
    ghost var repr: set<object>

    ghost predicate Valid()
      reads this, repr
    {
      this !in repr && Nodes(nodes) <= repr && DList(head, nodes) && Carry(nodes, values)
    }

    constructor ()
      ensures Valid() && values == [] && repr == {}
    {
      head, nodes, values, repr := null, [], [], {};
    }

    /** A new node with v, and DL_APPEND. */
    method Add(v: T)
      requires Valid()
      modifies this, repr
      ensures Valid() && values == old(values) + [v] && old(repr) <= repr && fresh(repr - old(repr))
    {
      var node := new Node<T>(v);
      head := Append(head, node, nodes);
      nodes, values, repr := nodes + [node], values + [v], repr + {node};
    }

    /** The value of head->prev. */
    method Last() returns (v: T)
      requires Valid() && values != []
      ensures v == values[|values| - 1]
    {
      assert head == nodes[0] && nodes[0].prev == nodes[|nodes| - 1];
      v := head.prev.value;
    }
  }

  /** A format descriptor: its own fields, and the list of its frames. */
  datatype FormatDesc = FormatDesc(format: Format, frames: DL<Frame>)

  ghost function ViewOf(d: FormatDesc): Format
    reads d.frames
  {
    d.format.(frames := d.frames.values)
  }

  /** The formats with their frames, as values. */
  ghost function Views(ds: seq<FormatDesc>): seq<Format>
    reads set d | d in ds :: d.frames
  {
    if ds == [] then [] else Views(ds[..|ds| - 1]) + [ViewOf(ds[|ds| - 1])]
  }

  lemma ViewsLast(ds: seq<FormatDesc>, d: FormatDesc)
    ensures Views(ds + [d]) == Views(ds) + [ViewOf(d)]
  {
    assert (ds + [d])[..|ds|] == ds;
  }

  lemma ViewsEmpty(ds: seq<FormatDesc>)
    ensures Views(ds) == [] <==> ds == []
  {
  }

  lemma AddFrameLast(fs: seq<Format>, last: Format, f: ParsedFrame)
    ensures AddFrame(fs + [last], f) == fs + [last.(frames := last.frames + [Repair(last.bitsPerPixel, f)])]
  {
    assert (fs + [last])[..|fs|] == fs;
  }

  /** The list of d is whole and inside r. */
  ghost predicate Within(d: FormatDesc, r: set<object>)
    reads d.frames, r
  {
    d.frames in r && d.frames.repr <= r && d.frames.Valid()
  }

  ghost predicate Apart(a: FormatDesc, b: FormatDesc)
    reads a.frames, b.frames
  {
    a.frames != b.frames && a.frames !in b.frames.repr && b.frames !in a.frames.repr && a.frames.repr !! b.frames.repr
  }

  /** Every format has its own list of frames inside r. */
  ghost predicate Separate(ds: seq<FormatDesc>, r: set<object>)
    reads r, set d | d in ds :: d.frames
  {
    && (forall i {:trigger Within(ds[i], r)} :: 0 <= i < |ds| ==> Within(ds[i], r))
    && (forall i, j {:trigger Apart(ds[i], ds[j])} :: 0 <= i < j < |ds| ==> Apart(ds[i], ds[j]))
  }

  lemma SeparateAdd(ds: seq<FormatDesc>, r: set<object>, d: FormatDesc)
    requires Separate(ds, r) && d.frames !in r && d.frames.Valid() && d.frames.repr == {} && d.frames.values == []
    requires d.format.frames == []
    ensures Separate(ds + [d], r + {d.frames}) && Views(ds + [d]) == Views(ds) + [d.format]
  {
    var es, q := ds + [d], r + {d.frames};
    assert es[..|ds|] == ds;
    forall i | 0 <= i < |es| ensures Within(es[i], q) {
      if i < |ds| { assert Within(ds[i], r); }
    }
    forall i, j | 0 <= i < j < |es| ensures Apart(es[i], es[j]) {
      assert Within(ds[i], r);
      if j < |ds| { assert Apart(ds[i], ds[j]); }
    }
  }

  ghost predicate AllApart(ds: seq<FormatDesc>, d: FormatDesc)
    reads d.frames, set x | x in ds :: x.frames
  {
    forall i {:trigger Apart(ds[i], d)} :: 0 <= i < |ds| ==> Apart(ds[i], d)
  }

  lemma SeparateLast(ds: seq<FormatDesc>, d: FormatDesc, r: set<object>)
    requires Separate(ds + [d], r)
    ensures Separate(ds, r) && Within(d, r) && AllApart(ds, d)
  {
    var es := ds + [d];
    assert Within(es[|ds|], r);
    forall i | 0 <= i < |ds| ensures Within(ds[i], r) && Apart(ds[i], d) {
      assert Within(es[i], r) && Apart(es[i], es[|ds|]);
    }
    forall i, j | 0 <= i < j < |ds| ensures Apart(ds[i], ds[j]) { assert Apart(es[i], es[j]); }
  }

  lemma SeparateRejoin(ds: seq<FormatDesc>, d: FormatDesc, r: set<object>, q: set<object>)
    requires Separate(ds, r) && AllApart(ds, d) && r <= q && Within(d, q)
    ensures Separate(ds + [d], q)
  {
    var es := ds + [d];
    forall i | 0 <= i < |es| ensures Within(es[i], q) {
      if i < |ds| { assert Within(ds[i], r); }
    }
    forall i, j | 0 <= i < j < |es| ensures Apart(es[i], es[j]) {
      if j < |ds| { assert Apart(ds[i], ds[j]); } else { assert Apart(ds[i], d); }
    }
  }

  class FormatList {
    const formats: DL<FormatDesc>          // format_descs
    ghost var frameRepr: set<object>       // the lists of frames and their nodes

    /** The list of formats is whole and apart from the frames. */
    ghost predicate FormatsApart()
      reads this, formats, formats.repr
    {
      && formats.Valid() && formats !in frameRepr && formats.repr !! frameRepr
      && this !in formats.repr && this !in frameRepr
    }

    ghost predicate Valid()
      reads this, formats, formats.repr, frameRepr
    {
      && FormatsApart()
      && (forall d :: d in formats.values ==> d.frames in frameRepr)
      && Separate(formats.values, frameRepr)
    }

    ghost function View(): seq<Format>
      requires Valid()
      reads this, formats, formats.repr, frameRepr
    {
      Views(formats.values)
    }

    constructor ()
      ensures Valid() && View() == [] && fresh(formats) && formats.repr == {} && frameRepr == {}
    {
      formats := new DL<FormatDesc>();
      frameRepr := {};
    }

    /** DL_APPEND of d, which leaves the frames of all formats alone. */
    method AddDesc(d: FormatDesc)
      requires Valid()
      modifies formats, formats.repr
      ensures FormatsApart() && formats.values == old(formats.values) + [d]
      ensures Separate(old(formats.values), frameRepr) && Views(old(formats.values)) == old(View())
      ensures old(formats.repr) <= formats.repr && fresh(formats.repr - old(formats.repr))
    {
      formats.Add(d);
    }

    /** calloc of a format and DL_APPEND to format_descs. */
    method AppendFormat(f: Format)
      requires Valid() && f.frames == []
      modifies this, formats, formats.repr
      ensures Valid() && View() == old(View()) + [f]
      ensures old(formats.repr) <= formats.repr && fresh(formats.repr - old(formats.repr))
      ensures old(frameRepr) <= frameRepr && fresh(frameRepr - old(frameRepr))
    {
      var frames := new DL<Frame>();
      AddNew(FormatDesc(f, frames));
    }

    method AddNew(d: FormatDesc)
      requires Valid() && d.frames !in frameRepr + {formats} + formats.repr
      requires d.frames.Valid() && d.frames.repr == {} && d.frames.values == [] && d.format.frames == []
      modifies this`frameRepr, formats, formats.repr
      ensures Valid() && View() == old(View()) + [d.format] && frameRepr == old(frameRepr) + {d.frames}
      ensures old(formats.repr) <= formats.repr && fresh(formats.repr - old(formats.repr))
    {
      ghost var ds := formats.values;
      AddDesc(d);
      Adopt(ds, d);
    }

    /** The frame list of a new format becomes one of the handle's. */
    ghost method Adopt(ds: seq<FormatDesc>, d: FormatDesc)
      requires FormatsApart() && formats.values == ds + [d] && Separate(ds, frameRepr)
      requires d.frames !in frameRepr + {formats} + formats.repr
      requires d.frames.Valid() && d.frames.repr == {} && d.frames.values == [] && d.format.frames == []
      modifies this`frameRepr
      ensures Valid() && frameRepr == old(frameRepr) + {d.frames} && View() == old(Views(ds)) + [d.format]
    {
      SeparateAdd(ds, frameRepr, d);
      frameRepr := frameRepr + {d.frames};
      assert forall x :: x in ds ==> x.frames in frameRepr by {
        forall x | x in ds ensures x.frames in frameRepr {
          var i :| 0 <= i < |ds| && ds[i] == x;
          assert Within((ds + [d])[i], frameRepr);
        }
      }
    }

    /** DL_APPEND of a frame to the last format, which leaves the other formats alone. */
    method LinkFrame(d: FormatDesc, frame: Frame, ghost rest: seq<FormatDesc>)
      requires Valid() && formats.values == rest + [d] && Within(d, frameRepr)
      modifies d.frames, d.frames.repr
      ensures FormatsApart() && formats.values == rest + [d]
      ensures d.frames.Valid() && d.frames.values == old(d.frames.values) + [frame]
      ensures old(d.frames.repr) <= d.frames.repr && fresh(d.frames.repr - old(d.frames.repr))
      ensures Separate(rest, frameRepr) && Views(rest) == old(Views(rest)) && AllApart(rest, d)
    {
      SeparateLast(rest, d, frameRepr);
      d.frames.Add(frame);
      forall i | 0 <= i < |rest| ensures Within(rest[i], frameRepr) && Apart(rest[i], d) && unchanged(rest[i].frames) {
        assert old(Within(rest[i], frameRepr)) && old(Apart(rest[i], d));
      }
      forall i, j | 0 <= i < j < |rest| ensures Apart(rest[i], rest[j]) {
        assert old(Apart(rest[i], rest[j]));
      }
    }

    /** calloc of a frame, repaired for the last format, and DL_APPEND to its frame_descs. */
    method AppendFrame(f: ParsedFrame)
      requires Valid() && formats.values != []
      modifies this, frameRepr
      ensures Valid() && View() == AddFrame(old(View()), f)
      ensures formats.repr == old(formats.repr)
      ensures old(frameRepr) <= frameRepr && fresh(frameRepr - old(frameRepr))
    {
      var d := formats.Last();
      ghost var rest := formats.values[..|formats.values| - 1];
      assert formats.values == rest + [d];
      ViewsLast(rest, d);
      SeparateLast(rest, d, frameRepr);
      AddFrameLast(Views(rest), ViewOf(d), f);
      AddToLast(d, Repair(d.format.bitsPerPixel, f), rest);
    }

    method AddToLast(d: FormatDesc, frame: Frame, ghost rest: seq<FormatDesc>)
      requires Valid() && formats.values == rest + [d] && Within(d, frameRepr)
      modifies this`frameRepr, d.frames, d.frames.repr
      ensures Valid() && formats.repr == old(formats.repr)
      ensures View() == old(Views(rest)) + [old(ViewOf(d)).(frames := old(d.frames.values) + [frame])]
      ensures old(frameRepr) <= frameRepr && fresh(frameRepr - old(frameRepr))
    {
      LinkFrame(d, frame, rest);
      Absorb(rest, d);
    }

    /** The new node of the last format becomes one of the handle's. */
    ghost method Absorb(rest: seq<FormatDesc>, d: FormatDesc)
      requires FormatsApart() && formats.values == rest + [d] && Separate(rest, frameRepr) && AllApart(rest, d)
      requires forall x :: x in rest + [d] ==> x.frames in frameRepr
      requires d.frames.Valid() && formats !in d.frames.repr && this !in d.frames.repr
      requires formats.repr !! d.frames.repr
      modifies this`frameRepr
      ensures Valid() && frameRepr == old(frameRepr) + d.frames.repr
      ensures View() == old(Views(rest)) + [ViewOf(d)]
    {
      SeparateRejoin(rest, d, frameRepr, frameRepr + d.frames.repr);
      frameRepr := frameRepr + d.frames.repr;
      ViewsLast(rest, d);
    }

    /** Whether format_descs is NULL. */
    method IsEmpty() returns (empty: bool)
      requires Valid()
      ensures empty <==> View() == []
      ensures empty <==> formats.values == []
    {
      empty := formats.head == null;
      ViewsEmpty(formats.values);
    }
  }
}
