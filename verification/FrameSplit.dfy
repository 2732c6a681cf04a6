/**
 What is in a frame: every published frame told from the payloads that make it up and nothing else.  The
 payloads fall into groups, a group ends with its last payload or in front of one with the other frame ID,
 and the frame of a group is its image data and its metadata, each cut to its buffer, and its last time
 stamps.
 */
module FrameSplit {
  import opened ByteOrder
  import opened SeqFacts
  import P = Payload

  /** What a payload contributes. */
  datatype Part = Part(headed: bool, fid: bool, eof: bool, pts: P.Stamp, scr: P.Stamp, meta: seq<byte>, body: seq<byte>)

  /** Payloads that are empty, bad or marked in error contribute nothing. */
  function PartOf(isight: bool, e: P.Event): Option<Part> {
    if e.BadPacket? then None
    else
      match P.Parse(isight, e.bytes)
      case Ignored | Errored => None
      case Bare(body) => Some(Part(false, false, false, P.Absent, P.Absent, [], body))
      case Headed(fid, eof, pts, scr, meta, body) => Some(Part(true, fid, eof, pts, scr, meta, body))
  }

  function Parts(isight: bool, es: seq<P.Event>): seq<Part> {
    if es == [] then []
    else
      var q := PartOf(isight, es[|es| - 1]);
      Parts(isight, es[..|es| - 1]) + if q.Some? then [q.value] else []
  }

  // ----- the frame of a group

  function Prefix(b: seq<byte>, n: nat): seq<byte> { if |b| <= n then b else b[..n] }

  function Bodies(g: seq<Part>): seq<byte> { if g == [] then [] else Bodies(g[..|g| - 1]) + g[|g| - 1].body }

  function Metas(g: seq<Part>): seq<byte> { if g == [] then [] else Metas(g[..|g| - 1]) + g[|g| - 1].meta }

  /** The last stamp any of them carries, or 0. */
  function LastPts(g: seq<Part>): u32 {
    if g == [] then 0 else if g[|g| - 1].pts.Present? then g[|g| - 1].pts.value else LastPts(g[..|g| - 1])
  }

  function LastScr(g: seq<Part>): u32 {
    if g == [] then 0 else if g[|g| - 1].scr.Present? then g[|g| - 1].scr.value else LastScr(g[..|g| - 1])
  }

  function Image(max: nat, g: seq<Part>): seq<byte> { Prefix(Bodies(g), max) }

  function Meta(g: seq<Part>): seq<byte> { Prefix(Metas(g), P.META_MAX) }

  /** Frame f is that of the group g. */
  predicate IsFrameOf(max: nat, f: P.Frame, g: seq<Part>) {
    f.data == Image(max, g) && f.meta == Meta(g) && f.pts == LastPts(g) && f.scr == LastScr(g)
  }

  // ----- the groups

  datatype Split = Split(groups: seq<seq<Part>>, pending: seq<Part>, fid: bool)

  /** The other frame ID, with image data of the last one waiting. */
  predicate Flips(max: nat, pending: seq<Part>, fid: bool, q: Part) {
    q.headed && q.fid != fid && Image(max, pending) != []
  }

  /** The last payload brought image data and ends the frame, or the buffer is full. */
  predicate Complete(max: nat, g: seq<Part>) {
    g != [] && g[|g| - 1].body != [] && (g[|g| - 1].eof || |Image(max, g)| == max)
  }

  function Flush(sp: Split): Split { sp.(groups := sp.groups + [sp.pending], pending := []) }

  function Appended(sp: Split, q: Part): Split {
    sp.(pending := sp.pending + [q], fid := if q.headed then q.fid else sp.fid)
  }

  function Joined(max: nat, sp: Split, q: Part): Split {
    var t := if Flips(max, sp.pending, sp.fid, q) then Flush(sp) else sp;
    var u := Appended(t, q);
    if Complete(max, u.pending) then Flush(u) else u
  }

  function Grouped(max: nat, qs: seq<Part>): Split {
    if qs == [] then Split([], [], false) else Joined(max, Grouped(max, qs[..|qs| - 1]), qs[|qs| - 1])
  }

  // ----- the reassembly makes the frames of the groups

  predicate Tracks(max: nat, s: P.State, sp: Split) {
    && |s.published| == |sp.groups| && s.fid == sp.fid
    && (forall k :: 0 <= k < |sp.groups| ==> IsFrameOf(max, s.published[k], sp.groups[k]))
    && s.got == Image(max, sp.pending) && s.meta == Meta(sp.pending)
    && s.pts == LastPts(sp.pending) && s.scr == LastScr(sp.pending)
  }

  lemma PrefixAdd(a: seq<byte>, b: seq<byte>, n: nat)
    ensures |Prefix(a, n)| <= n && Prefix(a, n) + P.Clip(|Prefix(a, n)|, b, n) == Prefix(a + b, n)
  {
  }

  lemma GroupAdd(g: seq<Part>, q: Part)
    ensures Bodies(g + [q]) == Bodies(g) + q.body && Metas(g + [q]) == Metas(g) + q.meta
    ensures LastPts(g + [q]) == P.Stamped(LastPts(g), q.pts) && LastScr(g + [q]) == P.Stamped(LastScr(g), q.scr)
  {
    assert (g + [q])[..|g|] == g;
  }

  lemma SwapTracks(max: nat, s: P.State, sp: Split, at: nat)
    requires Tracks(max, s, sp)
    ensures Tracks(max, P.Swap(s, at), Flush(sp))
  {
  }

  /** The header fields of q applied. */
  function Headered(s: P.State, q: Part): P.State
    requires |s.meta| <= P.META_MAX
  {
    s.(fid := if q.headed then q.fid else s.fid, pts := P.Stamped(s.pts, q.pts), scr := P.Stamped(s.scr, q.scr),
       meta := s.meta + P.Clip(|s.meta|, q.meta, P.META_MAX))
  }

  /** The state with the part's header and image data, before it may be published. */
  function Filled(max: nat, s: P.State, q: Part): P.State
    requires |s.meta| <= P.META_MAX && |s.got| <= max
  {
    Headered(s, q).(got := s.got + P.Clip(|s.got|, q.body, max))
  }

  lemma FilledTracks(max: nat, s: P.State, sp: Split, q: Part)
    requires Tracks(max, s, sp) && |s.meta| <= P.META_MAX && |s.got| <= max
    ensures Tracks(max, Filled(max, s, q), Appended(sp, q))
  {
    GroupAdd(sp.pending, q);
    PrefixAdd(Bodies(sp.pending), q.body, max);
    PrefixAdd(Metas(sp.pending), q.meta, P.META_MAX);
  }

  /** One part joins the pending group, which may complete it. */
  lemma JoinTracks(max: nat, s: P.State, sp: Split, q: Part, at: nat)
    requires Tracks(max, s, sp) && |s.meta| <= P.META_MAX && |s.got| <= max
    ensures var u := Appended(sp, q);
      Tracks(max, P.AddBody(max, Headered(s, q), q.body, q.eof, at), if Complete(max, u.pending) then Flush(u) else u)
  {
    var f, u := Filled(max, s, q), Appended(sp, q);
    FilledTracks(max, s, sp, q);
    SwapTracks(max, f, u, at);
    if q.body == [] { assert s.got + P.Clip(|s.got|, q.body, max) == s.got; }
  }

  lemma StepTracks(c: P.Config, s: P.State, sp: Split, e: P.Event, at: nat)
    requires P.Bounded(c.max, s) && Tracks(c.max, s, sp)
    ensures var q := PartOf(c.isight, e);
      Tracks(c.max, P.Step(c, s, e, at), if q.Some? then Joined(c.max, sp, q.value) else sp)
  {
    var o := PartOf(c.isight, e);
    if o.Some? {
      var q, h := o.value, P.Parse(c.isight, e.bytes);
      if q.headed {
        SwapTracks(c.max, s, sp, at);
        var t := if Flips(c.max, sp.pending, sp.fid, q) then Flush(sp) else sp;
        var f := P.Flipped(s, h.fid, at);
        JoinTracks(c.max, f, t, q, at);
        assert P.AddHeader(f, h) == Headered(f, q);
      } else {
        JoinTracks(c.max, s, sp, q, at);
        assert Headered(s, q) == s by { assert s.meta + P.Clip(|s.meta|, [], P.META_MAX) == s.meta; }
      }
    }
  }

  /**
   For every input, malformed ones included: the published frames are the frames of the groups its payloads
   fall into, and what is pending is that of the last, unfinished group.
   */
  lemma {:induction false} FramesAreGroups(c: P.Config, es: seq<P.Event>)
    ensures Tracks(c.max, P.Run(c, P.Start, es), Grouped(c.max, Parts(c.isight, es)))
  {
    if es != [] {
      var n := |es| - 1;
      FramesAreGroups(c, es[..n]);
      OneMoreTracks(c, es[..n], es[n]);
      assert es[..n] + [es[n]] == es;
    }
  }

  lemma OneMoreTracks(c: P.Config, es: seq<P.Event>, e: P.Event)
    requires Tracks(c.max, P.Run(c, P.Start, es), Grouped(c.max, Parts(c.isight, es)))
    ensures Tracks(c.max, P.Run(c, P.Start, es + [e]), Grouped(c.max, Parts(c.isight, es + [e])))
  {
    P.RunSnoc(c, P.Start, es, e);
    StepTracks(c, P.Run(c, P.Start, es), Grouped(c.max, Parts(c.isight, es)), e, |es|);
    GroupedAdd(c, es, e);
  }

  lemma GroupedAdd(c: P.Config, es: seq<P.Event>, e: P.Event)
    ensures var sp, q := Grouped(c.max, Parts(c.isight, es)), PartOf(c.isight, e);
      Grouped(c.max, Parts(c.isight, es + [e])) == if q.Some? then Joined(c.max, sp, q.value) else sp
  {
    var qs, q := Parts(c.isight, es), PartOf(c.isight, e);
    assert (es + [e])[..|es|] == es;
    if q.Some? {
      assert Parts(c.isight, es + [e]) == qs + [q.value];
      assert (qs + [q.value])[..|qs|] == qs;
    } else {
      assert qs + [] == qs;
    }
  }

  // ----- what the groups are

  function Concat(gs: seq<seq<Part>>): seq<Part> { if gs == [] then [] else Concat(gs[..|gs| - 1]) + gs[|gs| - 1] }

  lemma ConcatAdd(gs: seq<seq<Part>>, g: seq<Part>)
    ensures Concat(gs + [g]) == Concat(gs) + g
  {
    assert (gs + [g])[..|gs|] == gs;
  }

  function All(sp: Split): seq<Part> { Concat(sp.groups) + sp.pending }

  lemma FlushAll(sp: Split)
    ensures All(Flush(sp)) == All(sp)
  {
    ConcatAdd(sp.groups, sp.pending);
  }

  lemma AppendedAll(sp: Split, q: Part)
    ensures All(Appended(sp, q)) == All(sp) + [q]
  {
    ConcatAssoc(Concat(sp.groups), sp.pending, [q]);
  }

  lemma JoinedAll(max: nat, sp: Split, q: Part)
    ensures All(Joined(max, sp, q)) == All(sp) + [q]
  {
    var t := if Flips(max, sp.pending, sp.fid, q) then Flush(sp) else sp;
    FlushAll(sp);
    AppendedAll(t, q);
    FlushAll(Appended(t, q));
  }

  /** The parts of all groups and of what is pending are the parts of the input, in order, none twice. */
  lemma {:induction false} GroupsPartition(max: nat, qs: seq<Part>)
    ensures All(Grouped(max, qs)) == qs
  {
    if qs != [] {
      var n := |qs| - 1;
      GroupsPartition(max, qs[..n]);
      JoinedAll(max, Grouped(max, qs[..n]), qs[n]);
      assert qs == qs[..n] + [qs[n]];
    }
  }

  /** Nothing in g is behind a payload that completes the frame. */
  predicate Unbroken(max: nat, g: seq<Part>) { forall i :: 0 <= i < |g| ==> !Complete(max, g[..i]) }

  /** Why group g is over: it is complete, or has image data and the next payload has a header. */
  predicate Over(max: nat, g: seq<Part>, next: seq<Part>) {
    Complete(max, g) || (Image(max, g) != [] && next != [] && next[0].headed)
  }

  /** The k-th group, or what is pending behind the last. */
  function GroupAt(sp: Split, k: nat): seq<Part> { if k < |sp.groups| then sp.groups[k] else sp.pending }

  predicate WellSplit(max: nat, sp: Split) {
    && (forall k {:trigger Unbroken(max, GroupAt(sp, k))} :: 0 <= k <= |sp.groups| ==> Unbroken(max, GroupAt(sp, k)))
    && (forall k {:trigger sp.groups[k]} :: 0 <= k < |sp.groups| ==> Over(max, sp.groups[k], GroupAt(sp, k + 1)))
  }

  lemma UnbrokenAdd(max: nat, g: seq<Part>, q: Part)
    requires Unbroken(max, g) && !Complete(max, g)
    ensures Unbroken(max, g + [q])
  {
    forall i | 0 <= i < |g + [q]| ensures !Complete(max, (g + [q])[..i]) {
      if i < |g| { assert (g + [q])[..i] == g[..i]; } else { assert (g + [q])[..i] == g; }
    }
  }

  /** q goes on with the pending group. */
  lemma AppendedWell(max: nat, sp: Split, q: Part)
    requires WellSplit(max, sp) && !Complete(max, sp.pending)
    ensures WellSplit(max, Appended(sp, q))
  {
    var u, n := Appended(sp, q), |sp.groups|;
    forall k | 0 <= k <= n ensures Unbroken(max, GroupAt(u, k)) {
      assert Unbroken(max, GroupAt(sp, k));
      if k == n { UnbrokenAdd(max, sp.pending, q); }
    }
    forall k | 0 <= k < n ensures Over(max, u.groups[k], GroupAt(u, k + 1)) {
      assert Over(max, sp.groups[k], GroupAt(sp, k + 1));
    }
  }

  /** The pending group is over, and q begins the next. */
  lemma FlushedWell(max: nat, sp: Split, q: Part)
    requires WellSplit(max, sp) && Image(max, sp.pending) != [] && q.headed
    ensures WellSplit(max, Appended(Flush(sp), q))
  {
    var u, n := Appended(Flush(sp), q), |sp.groups|;
    forall k | 0 <= k <= n + 1 ensures Unbroken(max, GroupAt(u, k)) {
      if k <= n {
        assert Unbroken(max, GroupAt(sp, k));
        assert GroupAt(u, k) == GroupAt(sp, k);
      } else {
        assert GroupAt(u, k) == [q] && [q][..0] == [];
      }
    }
    forall k | 0 <= k <= n ensures Over(max, u.groups[k], GroupAt(u, k + 1)) {
      if k < n {
        assert Over(max, sp.groups[k], GroupAt(sp, k + 1));
        assert GroupAt(u, k + 1) == GroupAt(sp, k + 1);
      }
    }
  }

  lemma CompletedWell(max: nat, sp: Split)
    requires WellSplit(max, sp) && Complete(max, sp.pending)
    ensures WellSplit(max, Flush(sp))
  {
    var u, n := Flush(sp), |sp.groups|;
    forall k | 0 <= k <= n + 1 ensures Unbroken(max, GroupAt(u, k)) {
      if k <= n {
        assert Unbroken(max, GroupAt(sp, k));
        assert GroupAt(u, k) == GroupAt(sp, k);
      }
    }
    forall k | 0 <= k <= n ensures Over(max, u.groups[k], GroupAt(u, k + 1)) {
      if k < n {
        assert Over(max, sp.groups[k], GroupAt(sp, k + 1));
        assert GroupAt(u, k + 1) == GroupAt(sp, k + 1);
      }
    }
  }

  /**
   A group goes on up to the payload that completes the frame or to the next frame ID, and no further: none
   is over without a reason, and none goes on behind its end.
   */
  lemma {:induction false} GroupsAreFrames(max: nat, qs: seq<Part>)
    ensures WellSplit(max, Grouped(max, qs)) && !Complete(max, Grouped(max, qs).pending)
  {
    if qs != [] {
      var n := |qs| - 1;
      var sp, q := Grouped(max, qs[..n]), qs[n];
      GroupsAreFrames(max, qs[..n]);
      var t := if Flips(max, sp.pending, sp.fid, q) then Flush(sp) else sp;
      if Flips(max, sp.pending, sp.fid, q) { FlushedWell(max, sp, q); } else { AppendedWell(max, sp, q); }
      if Complete(max, Appended(t, q).pending) { CompletedWell(max, Appended(t, q)); }
    }
  }
}
