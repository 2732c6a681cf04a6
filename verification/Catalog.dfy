/** The descriptors of an open device as the stream code searches them: interfaces, formats, frames, in list order. */
module Catalog {
  import opened ByteOrder
  import opened Descriptors
  import opened SeqFacts

  datatype Interface = Interface(number: byte, formats: seq<Format>)

  /** One frame with what the search needs of the lists around it. */
  datatype Entry = Entry(number: byte, format: Format, frame: Frame)

  function OfFrames(number: byte, format: Format, frames: seq<Frame>): seq<Entry> {
    if frames == [] then [] else [Entry(number, format, frames[0])] + OfFrames(number, format, frames[1..])
  }

  function OfFormats(number: byte, formats: seq<Format>): seq<Entry> {
    if formats == [] then [] else OfFrames(number, formats[0], formats[0].frames) + OfFormats(number, formats[1..])
  }

  /** All frames of all formats of all interfaces, in the order of the nested loops. */
  function Entries(ifs: seq<Interface>): seq<Entry> {
    if ifs == [] then [] else OfFormats(ifs[0].number, ifs[0].formats) + Entries(ifs[1..])
  }

  predicate Names(e: Entry, formatId: int, frameId: int) { e.format.index == formatId && e.frame.index == frameId }

  function FindFrame(frames: seq<Frame>, frameId: int): Option<Frame> {
    if frames == [] then None
    else if frames[0].index == frameId then Some(frames[0])
    else FindFrame(frames[1..], frameId)
  }

  /** _uvc_find_frame_desc_stream_if */
  function FindInFormats(formats: seq<Format>, formatId: int, frameId: int): Option<Frame> {
    if formats == [] then None
    else if formats[0].index == formatId && FindFrame(formats[0].frames, frameId).Some?
    then FindFrame(formats[0].frames, frameId)
    else FindInFormats(formats[1..], formatId, frameId)
  }

  /** uvc_find_frame_desc */
  function FindDesc(ifs: seq<Interface>, formatId: int, frameId: int): Option<Frame> {
    if ifs == [] then None
    else if FindInFormats(ifs[0].formats, formatId, frameId).Some?
    then FindInFormats(ifs[0].formats, formatId, frameId)
    else FindDesc(ifs[1..], formatId, frameId)
  }

  predicate FirstAt(es: seq<Entry>, formatId: int, frameId: int, n: nat)
    requires n < |es|
  {
    Names(es[n], formatId, frameId) && forall i :: 0 <= i < n ==> !Names(es[i], formatId, frameId)
  }

  /** The frame of the first entry with these indices. */
  function FirstNamed(es: seq<Entry>, formatId: int, frameId: int): Option<Frame> {
    if es == [] then None
    else if Names(es[0], formatId, frameId) then Some(es[0].frame)
    else FirstNamed(es[1..], formatId, frameId)
  }

  lemma {:induction false} FirstNamedMeets(es: seq<Entry>, formatId: int, frameId: int)
    ensures FirstNamed(es, formatId, frameId).None? <==> forall i :: 0 <= i < |es| ==> !Names(es[i], formatId, frameId)
    ensures forall n :: 0 <= n < |es| && FirstAt(es, formatId, frameId, n) ==>
      FirstNamed(es, formatId, frameId) == Some(es[n].frame)
  {
    if es != [] && !Names(es[0], formatId, frameId) {
      var tail := es[1..];
      assert forall i :: 1 <= i < |es| ==> es[i] == tail[i - 1];
      FirstNamedMeets(tail, formatId, frameId);
      assert forall n :: 0 <= n < |tail| ==> tail[n] == es[n + 1];
      forall n | 0 <= n < |es| && FirstAt(es, formatId, frameId, n)
        ensures FirstNamed(es, formatId, frameId) == Some(es[n].frame)
      {
        assert FirstAt(tail, formatId, frameId, n - 1);
      }
    }
  }

  lemma {:induction false} FirstNamedConcat(a: seq<Entry>, b: seq<Entry>, formatId: int, frameId: int)
    ensures FirstNamed(a + b, formatId, frameId) ==
      if FirstNamed(a, formatId, frameId).Some? then FirstNamed(a, formatId, frameId)
      else FirstNamed(b, formatId, frameId)
  {
    if a == [] {
      assert a + b == b;
    } else {
      assert (a + b)[1..] == a[1..] + b;
      FirstNamedConcat(a[1..], b, formatId, frameId);
    }
  }

  lemma {:induction false} FindFrameIsFirst(number: byte, format: Format, frames: seq<Frame>,
                                            formatId: int, frameId: int)
    ensures FirstNamed(OfFrames(number, format, frames), formatId, frameId) ==
      if format.index == formatId then FindFrame(frames, frameId) else None
  {
    if frames != [] {
      var es := OfFrames(number, format, frames);
      assert es[1..] == OfFrames(number, format, frames[1..]);
      FindFrameIsFirst(number, format, frames[1..], formatId, frameId);
    }
  }

  lemma {:induction false} FindInFormatsIsFirst(number: byte, formats: seq<Format>, formatId: int, frameId: int)
    ensures FindInFormats(formats, formatId, frameId) == FirstNamed(OfFormats(number, formats), formatId, frameId)
  {
    if formats != [] {
      var f := formats[0];
      FindFrameIsFirst(number, f, f.frames, formatId, frameId);
      FindInFormatsIsFirst(number, formats[1..], formatId, frameId);
      FirstNamedConcat(OfFrames(number, f, f.frames), OfFormats(number, formats[1..]), formatId, frameId);
    }
  }

  /** The nested lookup finds the first frame of the device with these indices. */
  lemma {:induction false} FindDescIsFirst(ifs: seq<Interface>, formatId: int, frameId: int)
    ensures FindDesc(ifs, formatId, frameId) == FirstNamed(Entries(ifs), formatId, frameId)
  {
    if ifs != [] {
      FindInFormatsIsFirst(ifs[0].number, ifs[0].formats, formatId, frameId);
      FindDescIsFirst(ifs[1..], formatId, frameId);
      FirstNamedConcat(OfFormats(ifs[0].number, ifs[0].formats), Entries(ifs[1..]), formatId, frameId);
    }
  }
}
