/**
 The probe and commit block of a stream: its 26- and 34-byte layouts, the query that writes or reads it,
 and the probe that negotiates with the device.
 */
module Probe {
  import opened ByteOrder
  import opened Descriptors
  import opened Catalog

  datatype Ctrl = Ctrl(
    hint: u16, formatIndex: byte, frameIndex: byte, frameInterval: u32, keyFrameRate: u16, pFrameRate: u16,
    compQuality: u16, compWindowSize: u16, delay: u16, maxVideoFrameSize: u32, maxPayloadTransferSize: u32,
    clockFrequency: u32, framingInfo: byte, preferredVersion: byte, minVersion: byte, maxVersion: byte,
    interfaceNumber: byte)

  /** What the query needs of the device: its protocol version, clock and descriptors. */
  datatype Device = Device(bcdUVC: u16, clockFrequency: u32, ifs: seq<Interface>)

  predicate Long(dev: Device) { dev.bcdUVC >= 0x0110 }

  function BlockLength(dev: Device): nat { if Long(dev) then 34 else 26 }

  const ZERO8: seq<byte> := [0, 0, 0, 0, 0, 0, 0, 0]

  /** The fields both layouts have. */
  function Common(c: Ctrl): (buf: seq<byte>)
    ensures |buf| == 26
  {
    FromShort(c.hint) + [c.formatIndex, c.frameIndex] + FromInt(c.frameInterval)
    + FromShort(c.keyFrameRate) + FromShort(c.pFrameRate) + FromShort(c.compQuality) + FromShort(c.compWindowSize)
    + FromShort(c.delay) + FromInt(c.maxVideoFrameSize) + FromInt(c.maxPayloadTransferSize)
  }

  function Extension(c: Ctrl): (buf: seq<byte>)
    ensures |buf| == 8
  {
    FromInt(c.clockFrequency) + [c.framingInfo, c.preferredVersion, c.minVersion, c.maxVersion]
  }

  /** The buffer a SET_CUR sends, of which the first BlockLength(dev) bytes go out. */
  function Encode(dev: Device, c: Ctrl): (buf: seq<byte>)
    ensures |buf| == 34
  {
    Common(c) + if Long(dev) then Extension(c) else ZERO8
  }

  /** The fields as they stand in the buffer. */
  function DecodeFields(dev: Device, c: Ctrl, buf: seq<byte>): Ctrl
    requires |buf| == 34
  {
    var d := c.(hint := Short(buf, 0), formatIndex := buf[2], frameIndex := buf[3], frameInterval := Int(buf, 4),
                keyFrameRate := Short(buf, 8), pFrameRate := Short(buf, 10), compQuality := Short(buf, 12),
                compWindowSize := Short(buf, 14), delay := Short(buf, 16), maxVideoFrameSize := Int(buf, 18),
                maxPayloadTransferSize := Int(buf, 22), clockFrequency := dev.clockFrequency);
    if Long(dev)
    then d.(framingInfo := buf[30], preferredVersion := buf[31], minVersion := buf[32], maxVersion := buf[33])
    else d
  }

  /** Maxima the camera left 0 are taken from the frame descriptor it names. */
  function FixMaxima(dev: Device, c: Ctrl): Ctrl {
    var f := FindDesc(dev.ifs, c.formatIndex, c.frameIndex);
    var d := if c.maxVideoFrameSize == 0 && f.Some? then c.(maxVideoFrameSize := f.value.maxSize) else c;
    if d.maxPayloadTransferSize == 0 && f.Some? then d.(maxPayloadTransferSize := f.value.maxBitRate) else d
  }

  function Decode(dev: Device, c: Ctrl, buf: seq<byte>): Ctrl
    requires |buf| == 34
  {
    FixMaxima(dev, DecodeFields(dev, c, buf))
  }

  /** A control transfer: what libusb returns, and the data stage of a GET. */
  datatype Transfer = Transfer(result: int, data: seq<byte>)

  /** The zeroed buffer after a GET wrote the data over its first len bytes. */
  function Received(dev: Device, data: seq<byte>): (buf: seq<byte>)
    ensures |buf| == 34
    ensures forall i :: 0 <= i < 34 ==> buf[i] == if i < |data| && i < BlockLength(dev) then data[i] else 0
  {
    seq(34, i requires 0 <= i < 34 => if i < |data| && i < BlockLength(dev) then data[i] else 0)
  }

  const SUCCESS := 0
  const INVALID_MODE := -51

  datatype Outcome = Outcome(status: int, ctrl: Ctrl)

  /** uvc_query_stream_ctrl with SET_CUR */
  function Set(c: Ctrl, t: Transfer): Outcome { Outcome(if t.result <= 0 then t.result else SUCCESS, c) }

  /** uvc_query_stream_ctrl with a GET request: a transfer of no bytes succeeds and leaves the block alone. */
  function Get(dev: Device, c: Ctrl, t: Transfer): Outcome {
    if t.result <= 0 then Outcome(t.result, c) else Outcome(SUCCESS, Decode(dev, c, Received(dev, t.data)))
  }

  predicate Negotiated(required: Ctrl, actual: Ctrl) {
    && required.formatIndex == actual.formatIndex && required.frameIndex == actual.frameIndex
    && required.maxPayloadTransferSize >= actual.maxPayloadTransferSize
  }

  /** uvc_probe_stream_ctrl */
  function ProbeCtrl(dev: Device, c: Ctrl, set_: Transfer, get: Transfer): Outcome {
    var s := Set(c, set_);
    if s.status != SUCCESS then s
    else
      var g := Get(dev, c, get);
      if g.status != SUCCESS then g
      else if !Negotiated(c, g.ctrl) then Outcome(INVALID_MODE, g.ctrl)
      else g
  }

  // ----- round trips

  /** What goes out is the whole of the layout of the device's version, and nothing behind it. */
  lemma SentBlock(dev: Device, c: Ctrl)
    ensures var sent := Encode(dev, c)[..BlockLength(dev)];
      if dev.bcdUVC < 0x0110 then |sent| == 26 && sent == Common(c)
      else |sent| == 34 && sent == Common(c) + Extension(c)
  {
  }

  /** Each field is found in the buffer where the layout puts it. */
  lemma FieldsOf(dev: Device, c: Ctrl)
    ensures var buf := Encode(dev, c);
      && Short(buf, 0) == c.hint && buf[2] == c.formatIndex && buf[3] == c.frameIndex
      && Int(buf, 4) == c.frameInterval && Short(buf, 8) == c.keyFrameRate && Short(buf, 10) == c.pFrameRate
      && Short(buf, 12) == c.compQuality && Short(buf, 14) == c.compWindowSize && Short(buf, 16) == c.delay
      && Int(buf, 18) == c.maxVideoFrameSize && Int(buf, 22) == c.maxPayloadTransferSize
      && (Long(dev) ==> buf[30..] == [c.framingInfo, c.preferredVersion, c.minVersion, c.maxVersion])
  {
    var buf := Encode(dev, c);
    assert buf[0..2] == FromShort(c.hint);
    assert buf[4..8] == FromInt(c.frameInterval);
    assert buf[8..10] == FromShort(c.keyFrameRate);
    assert buf[10..12] == FromShort(c.pFrameRate);
    assert buf[12..14] == FromShort(c.compQuality);
    assert buf[14..16] == FromShort(c.compWindowSize);
    assert buf[16..18] == FromShort(c.delay);
    assert buf[18..22] == FromInt(c.maxVideoFrameSize);
    assert buf[22..26] == FromInt(c.maxPayloadTransferSize);
  }

  /** The block as the device's echo of it is decoded, before zero maxima are filled in. */
  lemma DecodeEncode(dev: Device, old_: Ctrl, c: Ctrl)
    ensures DecodeFields(dev, old_, Encode(dev, c)) ==
      (if Long(dev) then c
       else c.(framingInfo := old_.framingInfo, preferredVersion := old_.preferredVersion,
               minVersion := old_.minVersion, maxVersion := old_.maxVersion))
      .(clockFrequency := dev.clockFrequency, interfaceNumber := old_.interfaceNumber)
  {
    FieldsOf(dev, c);
    var buf := Encode(dev, c);
    assert Long(dev) ==> buf[30] == buf[30..][0] && buf[31] == buf[30..][1]
                         && buf[32] == buf[30..][2] && buf[33] == buf[30..][3];
  }

  lemma FromShortOf(b: seq<byte>, at: nat)
    requires at + 2 <= |b|
    ensures FromShort(Short(b, at)) == b[at..at + 2]
  {
  }

  lemma FromIntOf(b: seq<byte>, at: nat)
    requires at + 4 <= |b|
    ensures FromInt(Int(b, at)) == b[at..at + 4]
  {
    var v := Int(b, at);
    assert v / TWO8 == b[at + 1] + b[at + 2] * TWO8 + b[at + 3] * TWO16;
    assert v / TWO8 / TWO8 == b[at + 2] + b[at + 3] * TWO8;
    assert v / TWO8 / TWO8 / TWO8 == b[at + 3];
  }

  /** Every buffer is the encoding of what is decoded from it, but for the clock, which is not read back. */
  lemma EncodeDecode(dev: Device, c: Ctrl, buf: seq<byte>)
    requires |buf| == 34
    ensures Encode(dev, DecodeFields(dev, c, buf)) ==
      buf[..26] + if Long(dev) then FromInt(dev.clockFrequency) + buf[30..] else ZERO8
  {
    var d := DecodeFields(dev, c, buf);
    FromShortOf(buf, 0);
    FromIntOf(buf, 4);
    FromShortOf(buf, 8);
    FromShortOf(buf, 10);
    FromShortOf(buf, 12);
    FromShortOf(buf, 14);
    FromShortOf(buf, 16);
    FromIntOf(buf, 18);
    FromIntOf(buf, 22);
    assert Common(d) == buf[..26];
    assert Long(dev) ==> Extension(d) == FromInt(dev.clockFrequency) + buf[30..];
  }

  /** Setting a block and reading it back from a device that keeps it restores it. */
  lemma EchoRoundTrip(dev: Device, c: Ctrl)
    ensures var sent := Encode(dev, c)[..BlockLength(dev)];
      Get(dev, c, Transfer(BlockLength(dev), sent)) ==
        Outcome(SUCCESS, FixMaxima(dev, c.(clockFrequency := dev.clockFrequency)))
    ensures c.clockFrequency == dev.clockFrequency && c.maxVideoFrameSize != 0 && c.maxPayloadTransferSize != 0 ==>
      FixMaxima(dev, c.(clockFrequency := dev.clockFrequency)) == c
  {
    var buf := Encode(dev, c);
    assert Received(dev, buf[..BlockLength(dev)]) == buf;
    DecodeEncode(dev, c, c);
  }

  /** Maxima that were not 0 are kept; a 0 becomes that of the first frame with these indices, if there is one. */
  lemma FixedMaxima(dev: Device, c: Ctrl)
    ensures var d, f := FixMaxima(dev, c), FirstNamed(Entries(dev.ifs), c.formatIndex, c.frameIndex);
      && d == c.(maxVideoFrameSize := d.maxVideoFrameSize, maxPayloadTransferSize := d.maxPayloadTransferSize)
      && (d.maxVideoFrameSize == if c.maxVideoFrameSize != 0 || f.None? then c.maxVideoFrameSize else f.value.maxSize)
      && (d.maxPayloadTransferSize ==
          if c.maxPayloadTransferSize != 0 || f.None? then c.maxPayloadTransferSize else f.value.maxBitRate)
  {
    FindDescIsFirst(dev.ifs, c.formatIndex, c.frameIndex);
  }

  /** Every wire field of c is the one at its place in buf, zero maxima as FixedMaxima says, the clock the device's. */
  predicate Answers(dev: Device, buf: seq<byte>, c: Ctrl)
    requires |buf| >= BlockLength(dev)
  {
    var f := FirstNamed(Entries(dev.ifs), buf[2], buf[3]);
    && c.hint == Short(buf, 0) && c.formatIndex == buf[2] && c.frameIndex == buf[3] && c.frameInterval == Int(buf, 4)
    && c.keyFrameRate == Short(buf, 8) && c.pFrameRate == Short(buf, 10) && c.compQuality == Short(buf, 12)
    && c.compWindowSize == Short(buf, 14) && c.delay == Short(buf, 16)
    && c.maxVideoFrameSize == (if Int(buf, 18) != 0 || f.None? then Int(buf, 18) else f.value.maxSize)
    && c.maxPayloadTransferSize == (if Int(buf, 22) != 0 || f.None? then Int(buf, 22) else f.value.maxBitRate)
    && c.clockFrequency == dev.clockFrequency
    && (Long(dev) ==> [c.framingInfo, c.preferredVersion, c.minVersion, c.maxVersion] == buf[30..34])
  }

  lemma DecodeAnswers(dev: Device, c: Ctrl, buf: seq<byte>)
    requires |buf| == 34
    ensures Answers(dev, buf, Decode(dev, c, buf))
  {
    FixedMaxima(dev, DecodeFields(dev, c, buf));
  }

  /** A full data stage is what is decoded. */
  lemma FullAnswer(dev: Device, data: seq<byte>, c: Ctrl)
    requires |data| >= BlockLength(dev)
    ensures Answers(dev, Received(dev, data), c) <==> Answers(dev, data, c)
  {
    var buf := Received(dev, data);
    assert forall i :: 0 <= i < BlockLength(dev) ==> buf[i] == data[i];
    assert Long(dev) ==> buf[30..34] == data[30..34];
  }

  /**
   What a GET leaves: the device's answer if there is one, the block as it was if the transfer failed or
   brought nothing, and the transfer's own code in that case.
   */
  predicate GetSays(dev: Device, c: Ctrl, t: Transfer, status: int, r: Ctrl) {
    if t.result <= 0 then status == t.result && r == c
    else status == SUCCESS && Answers(dev, Received(dev, t.data), r) && r.interfaceNumber == c.interfaceNumber
  }

  lemma GetMeets(dev: Device, c: Ctrl, t: Transfer)
    ensures GetSays(dev, c, t, Get(dev, c, t).status, Get(dev, c, t).ctrl)
  {
    DecodeAnswers(dev, c, Received(dev, t.data));
  }

  /**
   What a probe leaves: the code of the transfer that failed and the block as it was; otherwise the
   device's answer, if it sent one, refused if it is not what was asked for.
   */
  predicate ProbeSays(dev: Device, c: Ctrl, set_: Transfer, get: Transfer, status: int, r: Ctrl) {
    if set_.result < 0 then status == set_.result && r == c
    else if get.result < 0 then status == get.result && r == c
    else
      && (if get.result == 0 then r == c else Answers(dev, Received(dev, get.data), r))
      && r.interfaceNumber == c.interfaceNumber
      && status == if Negotiated(c, r) then SUCCESS else INVALID_MODE
  }

  /**
   A probe succeeds with the requested format and frame and a payload no larger than requested; what it
   leaves in every other field is the device's answer.
   */
  lemma ProbeMeets(dev: Device, c: Ctrl, set_: Transfer, get: Transfer)
    ensures var r := ProbeCtrl(dev, c, set_, get);
      && ProbeSays(dev, c, set_, get, r.status, r.ctrl)
      && (r.status == SUCCESS ==>
            && r.ctrl.formatIndex == c.formatIndex && r.ctrl.frameIndex == c.frameIndex
            && r.ctrl.maxPayloadTransferSize <= c.maxPayloadTransferSize)
      && (r.status == SUCCESS <==>
          (set_.result >= 0 && get.result >= 0
           && (get.result > 0 ==> Negotiated(c, Decode(dev, c, Received(dev, get.data))))))
  {
    DecodeAnswers(dev, c, Received(dev, get.data));
  }

  /**
   A device that echoes the block is refused in one case: the block asks for a payload of 0, and the
   descriptor filled in for it is larger than that.
   */
  lemma EchoProbeSucceedsIff(dev: Device, c: Ctrl, set_: Transfer)
    requires set_.result >= 0
    ensures var f := FirstNamed(Entries(dev.ifs), c.formatIndex, c.frameIndex);
      var r := ProbeCtrl(dev, c, set_, Transfer(BlockLength(dev), Encode(dev, c)[..BlockLength(dev)]));
      && r.ctrl == FixMaxima(dev, c.(clockFrequency := dev.clockFrequency))
      && r.status == (if c.maxPayloadTransferSize == 0 && f.Some? && f.value.maxBitRate != 0
                      then INVALID_MODE else SUCCESS)
  {
    EchoRoundTrip(dev, c);
    FixedMaxima(dev, c.(clockFrequency := dev.clockFrequency));
  }
}
