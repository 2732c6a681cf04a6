/**
 The buffers of a stream handle: two image and two metadata buffers that swap roles when a frame is
 published.  Every method is proved against the function of the module `Payload`, whose state the
 ghost field `abs` carries.
 */
module StreamBuffers {
  import opened ByteOrder
  import opened SeqFacts
  import P = Payload

  /** memcpy into an array. */
  method Copy(dst: array<byte>, at: nat, src: seq<byte>)
    requires at + |src| <= dst.Length
    modifies dst
    ensures dst[..at + |src|] == old(dst[..at]) + src
    ensures dst[at + |src|..] == old(dst[at + |src|..])
  {
    forall i | 0 <= i < |src| { dst[at + i] := src[i]; }
  }

  /**
   One half of the double buffer: outbuf, got_bytes, meta_outbuf, meta_got_bytes, pts, last_scr and seq,
   or the seven hold fields that mirror them.
   */
  datatype Side = Side(image: array<byte>, bytes: nat, meta: array<byte>, metaBytes: nat,
                       pts: u32, scr: u32, sequence: u32)

  /** realloc: a larger or smaller block with the common prefix kept and the rest unspecified. */
  method Realloc(a: array<byte>, n: nat) returns (b: array<byte>)
    ensures fresh(b) && b.Length == n
  {
    b := new byte[n];
    var keep := if a.Length < n then a.Length else n;
    forall i | 0 <= i < keep { b[i] := a[i]; }
  }

  /** The frame handed to the user: allocations, and how much of them is said to be in use. */
  class UserFrame {
    var data: array<byte>
    var dataBytes: nat
    var metadata: array<byte>
    var metadataBytes: nat
    var sequence: u32

    ghost predicate Fits()
      reads this
    {
      dataBytes <= data.Length && metadataBytes <= metadata.Length && data != metadata
    }

    constructor ()
      ensures Fits() && dataBytes == 0 && metadataBytes == 0 && fresh(data) && fresh(metadata)
    {
      data, metadata := new byte[0], new byte[0];
      dataBytes, metadataBytes, sequence := 0, 0, 0;
      new;
    }
  }

  function Zeros(n: nat): (z: seq<byte>)
    ensures |z| == n && forall i :: 0 <= i < n ==> z[i] == 0
  {
    seq(n, _ => 0)
  }

  /** data_bytes after a frame of `held` bytes whose format wants `full`, if it was `before`. */
  function DataBytes(before: nat, held: nat, full: nat): nat {
    if before < held || before < full then (if held >= full then held else full) else held
  }

  /**
   The comment in _uvc_populate_frame says a shortfall below height*step is zero-filled.  It is exactly
   when the previous data_bytes was short too.
   */
  lemma PaddedIff(before: nat, held: nat, full: nat)
    ensures DataBytes(before, held, full) >= full <==> held >= full || before < full
  {
  }

  /** The size is that of the held frame, or the full size: never that of an earlier frame. */
  lemma DataBytesIs(before: nat, held: nat, full: nat)
    ensures held >= full ==> DataBytes(before, held, full) == held
    ensures held < full && before < full ==> DataBytes(before, held, full) == full
    ensures held < full <= before ==> DataBytes(before, held, full) == held
  {
  }

  /** So of two equally short frames after a full one, only the second is padded. */
  lemma ShortFramesAlternate(held: nat, full: nat)
    requires held < full
    ensures DataBytes(full, held, full) == held && DataBytes(held, held, full) == full
  {
  }

  /** What a header without error bit says, field by field. */
  predicate HeaderIs(h: P.Parsed, payload: seq<byte>, headerLen: nat, info: byte)
    requires headerLen <= |payload|
  {
    var scrAt := if Bit(info, 2) then 6 else 2;
    var metaAt := if Bit(info, 3) then scrAt + 6 else scrAt;
    && h.Headed? && h.fid == Bit(info, 0) && h.eof == Bit(info, 1)
    && h.pts == P.StampAt(Bit(info, 2), payload, 2, headerLen)
    && h.scr == P.StampAt(Bit(info, 3), payload, scrAt, headerLen)
    && h.meta == if headerLen > metaAt then payload[metaAt..headerLen] else []
  }

  class StreamHandle {
    const cfg: P.Config             // cur_ctrl.dwMaxVideoFrameSize and devh->is_isight
    const bufA: array<byte>         // the image buffers allocated at open
    const bufB: array<byte>
    const metaA: array<byte>        // the metadata buffers
    const metaB: array<byte>

    var out: Side
    var hold: Side
    var fid: bool
    var frameHadErrors: bool

    ghost var abs: P.State
    ghost var log: seq<P.Event>     // every payload and bad packet so far

    /** Both sides always use the original buffers, and never the same one. */
    ghost predicate Buffers()
      reads this`out, this`hold
    {
      && bufA != bufB && metaA != metaB && {bufA, bufB} !! {metaA, metaB}
      && bufA.Length >= cfg.max && bufB.Length >= cfg.max
      && metaA.Length == P.META_MAX && metaB.Length == P.META_MAX
      && ((out.image == bufA && hold.image == bufB) || (out.image == bufB && hold.image == bufA))
      && ((out.meta == metaA && hold.meta == metaB) || (out.meta == metaB && hold.meta == metaA))
      && out.bytes <= cfg.max && out.metaBytes <= P.META_MAX
      && hold.bytes <= cfg.max && hold.metaBytes <= P.META_MAX
    }

    ghost predicate OutMatches()
      requires Buffers()
      reads this`out, this`hold, this`fid, this`frameHadErrors, this`abs, out.image, out.meta
    {
      && abs.got == out.image[..out.bytes] && abs.meta == out.meta[..out.metaBytes]
      && abs.pts == out.pts && abs.scr == out.scr && abs.sequence == out.sequence
      && abs.fid == fid && abs.errors == frameHadErrors
    }

    /** The hold side is the last published frame. */
    ghost predicate HoldMatches()
      requires Buffers()
      reads this`out, this`hold, this`abs, hold.image, hold.meta
    {
      if abs.published == [] then hold.sequence == 0
      else
        var f := abs.published[|abs.published| - 1];
        && f.data == hold.image[..hold.bytes] && f.meta == hold.meta[..hold.metaBytes]
        && f.sequence == hold.sequence && f.pts == hold.pts && f.scr == hold.scr
    }

    ghost predicate Matches()
      reads this`out, this`hold, this`fid, this`frameHadErrors, this`abs, bufA, bufB, metaA, metaB
    {
      Buffers() && OutMatches() && HoldMatches()
    }

    ghost predicate Valid()
      reads this, bufA, bufB, metaA, metaB
    {
      Matches() && abs == P.Run(cfg, P.Start, log)
    }

    /** uvc_stream_open_ctrl and uvc_stream_start on a fresh handle. */
    constructor (cfg: P.Config)
      ensures Valid() && log == [] && this.cfg == cfg
      ensures fresh(bufA) && fresh(bufB) && fresh(metaA) && fresh(metaB)
    {
      this.cfg := cfg;
      var a := new byte[cfg.max];
      var b := new byte[cfg.max];
      var m := new byte[P.META_MAX];
      var n := new byte[P.META_MAX];
      bufA, bufB, metaA, metaB := a, b, m, n;
      out, hold := Side(a, 0, m, 0, 0, 0, 1), Side(b, 0, n, 0, 0, 0, 0);
      fid, frameHadErrors := false, false;
      abs, log := P.Start, [];
    }

    method SwapBuffers() returns (broadcast: bool)
      requires Matches()
      modifies this`out, this`hold, this`frameHadErrors, this`abs
      ensures Matches() && abs == P.Swap(old(abs), |log|) && broadcast == !old(frameHadErrors)
      ensures out.image == old(hold.image) && hold.image == old(out.image)
    {
      hold, out := out, Side(hold.image, 0, hold.meta, 0, 0, 0, (out.sequence + 1) % TWO32);
      broadcast := !frameHadErrors;
      frameHadErrors := false;
      abs := P.Swap(abs, |log|);
    }

    /** The end of _uvc_process_payload: image data, clipped to the frame size. */
    method AddData(body: seq<byte>, eof: bool)
      requires Matches()
      modifies this`out, this`hold, this`frameHadErrors, this`abs, bufA, bufB
      ensures Matches() && abs == P.AddBody(cfg.max, old(abs), body, eof, |log|)
    {
      if |body| > 0 {
        var len := |body|;
        if out.bytes + len > cfg.max { len := cfg.max - out.bytes; }
        assert body[..len] == P.Clip(|abs.got|, body, cfg.max);
        Copy(out.image, out.bytes, body[..len]);
        out := out.(bytes := out.bytes + len);
        abs := abs.(got := abs.got + body[..len]);
        if eof || out.bytes == cfg.max {
          var _ := SwapBuffers();
        }
      }
    }

    /** The metadata that follows the fixed header fields, clipped to its buffer. */
    method AddMeta(meta: seq<byte>)
      requires Matches()
      modifies this`out, this`abs, metaA, metaB
      ensures Matches()
      ensures abs == old(abs).(meta := old(abs).meta + P.Clip(|old(abs).meta|, meta, P.META_MAX))
    {
      var len := |meta|;
      if out.metaBytes + len > P.META_MAX { len := P.META_MAX - out.metaBytes; }
      assert meta[..len] == P.Clip(|abs.meta|, meta, P.META_MAX);
      Copy(out.meta, out.metaBytes, meta[..len]);
      out := out.(metaBytes := out.metaBytes + len);
      abs := abs.(meta := abs.meta + meta[..len]);
    }

    /** A FID change while image data is waiting: the camera sent no EOF for the previous frame. */
    method TakeFid(newFid: bool)
      requires Matches()
      modifies this`out, this`hold, this`frameHadErrors, this`abs, this`fid
      ensures Matches() && abs == P.Flipped(old(abs), newFid, |log|).(fid := newFid)
    {
      if fid != newFid && out.bytes != 0 {
        var _ := SwapBuffers();
      }
      fid := newFid;
      abs := abs.(fid := newFid);
    }

    /** The optional time stamps, each 0 if its flag is set but the header is too short for it. */
    method TakeStamps(payload: seq<byte>, headerLen: nat, info: byte) returns (offset: nat)
      requires Matches() && headerLen <= |payload|
      modifies this`out, this`abs
      ensures Matches() && offset == 2 + (if Bit(info, 2) then 4 else 0) + (if Bit(info, 3) then 6 else 0)
      ensures var scrAt := if Bit(info, 2) then 6 else 2;
        abs == old(abs).(pts := P.Stamped(old(abs).pts, P.StampAt(Bit(info, 2), payload, 2, headerLen)),
                         scr := P.Stamped(old(abs).scr, P.StampAt(Bit(info, 3), payload, scrAt, headerLen)))
    {
      offset := 2;
      if Bit(info, 2) {
        out := out.(pts := if offset + 4 <= headerLen then Int(payload, offset) else 0);
        offset := offset + 4;
      }
      if Bit(info, 3) {
        out := out.(scr := if offset + 4 <= headerLen then Int(payload, offset) else 0);
        offset := offset + 6;
      }
      abs := abs.(pts := out.pts, scr := out.scr);
    }

    /** All of the header, once its error bit is known to be clear. */
    method TakeHeader(payload: seq<byte>, headerLen: nat, info: byte, ghost h: P.Parsed)
      requires Matches() && 2 <= headerLen <= |payload|
      requires HeaderIs(h, payload, headerLen, info)
      modifies this`out, this`hold, this`frameHadErrors, this`abs, this`fid, metaA, metaB
      ensures Matches() && abs == P.AddHeader(P.Flipped(old(abs), h.fid, |log|), h)
    {
      TakeFid(Bit(info, 0));
      var offset := TakeStamps(payload, headerLen, info);
      TakeMeta(payload, headerLen, offset);
    }

    method TakeMeta(payload: seq<byte>, headerLen: nat, offset: nat)
      requires Matches() && headerLen <= |payload|
      modifies this`out, this`abs, metaA, metaB
      ensures Matches()
      ensures var meta := if headerLen > offset then payload[offset..headerLen] else [];
        abs == old(abs).(meta := old(abs).meta + P.Clip(|old(abs).meta|, meta, P.META_MAX))
    {
      if headerLen > offset {
        AddMeta(payload[offset..headerLen]);
      } else {
        assert abs.meta + [] == abs.meta;
      }
    }

    /** _uvc_process_payload */
    method ProcessPayload(payload: seq<byte>)
      requires Valid()
      modifies this, bufA, bufB, metaA, metaB
      ensures Valid() && log == old(log) + [P.Packet(payload)]
    {
      P.RunSnoc(cfg, P.Start, log, P.Packet(payload));
      Process(payload);
      log := log + [P.Packet(payload)];
    }

    /** Where the header of a payload ends and what image data follows it. */
    method Divide(payload: seq<byte>) returns (ok: bool, headerLen: nat, body: seq<byte>)
      ensures headerLen <= |payload| && (ok <==> !P.Parse(cfg.isight, payload).Ignored?)
      ensures ok && headerLen < 2 ==> P.Parse(cfg.isight, payload) == P.Bare(body)
      ensures ok && headerLen >= 2 ==>
                var h := P.Parse(cfg.isight, payload);
                if Bit(payload[1], 6) then h.Errored? else HeaderIs(h, payload, headerLen, payload[1]) && h.body == body
    {
      ok, headerLen, body := false, 0, [];
      if |payload| == 0 { return; }
      if cfg.isight && !P.TagAt(payload, 2) && !P.TagAt(payload, 3) {
        return true, 0, payload;
      }
      if payload[0] > |payload| { return; }
      ok, headerLen := true, payload[0];
      body := if cfg.isight then [] else payload[headerLen..];
    }

    method Process(payload: seq<byte>)
      requires Matches()
      modifies this`out, this`hold, this`frameHadErrors, this`abs, this`fid, bufA, bufB, metaA, metaB
      ensures Matches()
      ensures abs == P.Step(cfg, old(abs), P.Packet(payload), |log|)
    {
      var ok, headerLen, body := Divide(payload);
      if !ok { return; }
      if headerLen < 2 {
        AddData(body, false);
        return;
      }
      var info := payload[1];
      if Bit(info, 6) {
        frameHadErrors := true;
        abs := abs.(errors := true);
        return;
      }
      TakeHeader(payload, headerLen, info, P.Parse(cfg.isight, payload));
      AddData(body, Bit(info, 1));
    }

    /** An isochronous packet with a bad status. */
    method SkipBadPacket()
      requires Valid()
      modifies this`frameHadErrors, this`abs, this`log
      ensures Valid() && log == old(log) + [P.BadPacket]
    {
      frameHadErrors := true;
      abs := abs.(errors := true);
      P.RunSnoc(cfg, P.Start, log, P.BadPacket);
      log := log + [P.BadPacket];
    }

    /** The COMPLETED case of _uvc_stream_callback for an isochronous transfer. */
    method ProcessPackets(packets: seq<P.Event>)
      requires Valid()
      modifies this, bufA, bufB, metaA, metaB
      ensures Valid() && log == old(log) + packets
    {
      for n := 0 to |packets|
        invariant Valid() && log == old(log) + packets[..n]
      {
        if packets[n].BadPacket? {
          SkipBadPacket();
        } else {
          ProcessPayload(packets[n].bytes);
        }
        TakeNext(old(log), packets, n);
      }
    }

    /** The allocation step: room for the held frame, and zero bytes behind it up to data_bytes. */
    method Resize(f: UserFrame, full: nat)
      requires Buffers() && f.Fits() && f.data != hold.image
      modifies f`data, f`dataBytes
      ensures f.Fits() && (f.data == old(f.data) || fresh(f.data))
      ensures f.dataBytes == DataBytes(old(f.dataBytes), hold.bytes, full) && hold.bytes <= f.dataBytes
      ensures f.data[hold.bytes..f.dataBytes] == Zeros(f.dataBytes - hold.bytes)
    {
      if f.dataBytes < hold.bytes || f.dataBytes < full {
        if hold.bytes >= full {
          f.data := Realloc(f.data, hold.bytes);
          f.dataBytes := hold.bytes;
        } else {
          var data := Realloc(f.data, full);
          forall i | hold.bytes <= i < full { data[i] := 0; }
          f.data := data;
          f.dataBytes := full;
        }
      } else {
        f.dataBytes := hold.bytes;
      }
    }

    /** _uvc_populate_frame's image part: the held frame, whole, then nothing but zero bytes. */
    method PopulateData(f: UserFrame, full: nat)
      requires Buffers() && f.Fits() && f.data != hold.image
      modifies f`data, f`dataBytes, f.data
      ensures f.Fits() && (f.data == old(f.data) || fresh(f.data))
      ensures f.dataBytes == DataBytes(old(f.dataBytes), hold.bytes, full) && hold.bytes <= f.dataBytes
      ensures f.data[..f.dataBytes] == hold.image[..hold.bytes] + Zeros(f.dataBytes - hold.bytes)
    {
      Resize(f, full);
      ghost var image, tail := hold.image[..hold.bytes], f.data[hold.bytes..f.dataBytes];
      Copy(f.data, 0, hold.image[..hold.bytes]);
      assert f.data[..hold.bytes] == image;
      assert f.data[hold.bytes..f.dataBytes] == tail;
      assert f.data[..f.dataBytes] == f.data[..hold.bytes] + f.data[hold.bytes..f.dataBytes];
    }

    /** Its metadata part: a frame without metadata leaves the previous frame's in place. */
    method PopulateMeta(f: UserFrame)
      requires Buffers() && f.Fits() && f.metadata != hold.meta
      modifies f`metadata, f`metadataBytes, f.metadata
      ensures f.Fits() && (f.metadata == old(f.metadata) || fresh(f.metadata))
      ensures hold.metaBytes > 0 ==> f.metadata[..f.metadataBytes] == hold.meta[..hold.metaBytes]
      ensures hold.metaBytes == 0 ==> f.metadata[..f.metadataBytes] == old(f.metadata[..f.metadataBytes])
    {
      if hold.metaBytes > 0 {
        if f.metadataBytes < hold.metaBytes {
          f.metadata := Realloc(f.metadata, hold.metaBytes);
        }
        f.metadataBytes := hold.metaBytes;
        Copy(f.metadata, 0, hold.meta[..hold.metaBytes]);
      }
    }

    /**
     What _uvc_user_caller and a poller hand out: the last published frame, whole and untorn, followed
     only by zero bytes, with its own sequence number, in an allocation at least data_bytes long.
     */
    method Populate(f: UserFrame, height: nat, step: nat)
      requires Valid() && f.Fits() && abs.published != []
      requires {f.data, f.metadata} !! {bufA, bufB, metaA, metaB}
      modifies f, f.data, f.metadata
      ensures Valid() && f.Fits()
      ensures (f.data == old(f.data) || fresh(f.data)) && (f.metadata == old(f.metadata) || fresh(f.metadata))
      ensures var p := abs.published[|abs.published| - 1];
        && f.dataBytes == DataBytes(old(f.dataBytes), |p.data|, height * step) && |p.data| <= f.dataBytes
        && f.data[..f.dataBytes] == p.data + Zeros(f.dataBytes - |p.data|)
        && f.sequence == p.sequence
        && f.metadata[..f.metadataBytes] ==
             if p.meta != [] then p.meta else old(f.metadata[..f.metadataBytes])
    {
      f.sequence := hold.sequence;
      ghost var p := abs.published[|abs.published| - 1];
      PopulateData(f, height * step);
      assert f.data[..f.dataBytes] == p.data + Zeros(f.dataBytes - |p.data|);
      assert hold.meta[..hold.metaBytes] == p.meta;
      ghost var data := f.data[..f.dataBytes];
      PopulateMeta(f);
      assert f.data[..f.dataBytes] == data;
    }
  }
}
