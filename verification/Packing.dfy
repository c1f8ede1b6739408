/**
  Packets: composing one from the frames that are waiting, writing its payload, and taking a payload
  apart into frames again.
 */
module Packing {
  import opened Basics
  import opened ByteOrder
  import opened AckWire
  import opened Frames
  import opened StreamFraming
  import Flow = FlowControl

  // ----- a payload and its frames

  ghost predicate AllEncodable(fs: seq<Frame>) {
    forall i :: 0 <= i < |fs| ==> Encodable(fs[i])
  }

  // all frames can be sent, and only the last one may leave out its length
  ghost predicate Packable(h: Header, fs: seq<Frame>) {
    h.numberLength in {1, 2, 4, 6} && (forall i :: 0 <= i < |fs| ==> Transmittable(h, fs[i])) &&
    forall i :: 0 <= i < |fs| - 1 ==> fs[i].Stream? ==> fs[i].stream.hasLength
  }

  ghost function EncodeAll(o: Order, h: Header, fs: seq<Frame>): (bytes: seq<Byte>)
    requires AllEncodable(fs)
  {
    if fs == [] then [] else EncodeFrame(o, h, fs[0]) + EncodeAll(o, h, fs[1..])
  }

  ghost function PayloadLength(h: Header, fs: seq<Frame>): (n: nat)
    requires AllEncodable(fs)
  {
    if fs == [] then 0 else FrameLength(h, fs[0]) + PayloadLength(h, fs[1..])
  }

  ghost function Arrivals(fs: seq<Frame>): (gs: seq<Frame>)
    requires AllEncodable(fs)
  {
    if fs == [] then [] else assert Encodable(fs[0]); [Arriving(fs[0])] + Arrivals(fs[1..])
  }

  // frame by frame; zero bytes are padding
  function UnpackFrames(o: Order, h: Header, encrypted: bool, input: seq<Byte>): (r: Result<seq<Frame>>)
    requires h.numberLength in {1, 2, 4, 6}
    decreases |input|
  {
    if input == [] then Ok([])
    else if input[0] == 0 then UnpackFrames(o, h, encrypted, input[1..])
    else
      var (f, rest) :- ParseFrame(o, h, encrypted, input);
      var fs :- UnpackFrames(o, h, encrypted, rest);
      Ok([f] + fs)
  }

  function Unpack(o: Order, h: Header, encrypted: bool, input: seq<Byte>): (r: Result<seq<Frame>>)
    requires h.numberLength in {1, 2, 4, 6}
  {
    if input == [] then Err(MissingPayload) else UnpackFrames(o, h, encrypted, input)
  }

  lemma NotPadding(o: Order, h: Header, f: Frame)
    requires Encodable(f)
    ensures EncodeFrame(o, h, f) != [] && EncodeFrame(o, h, f)[0] != 0
  {
    hide EncodeStream, Encode, Write;
    if f.Ack? { AckTypeByte(o, f.ack, f.delay); }
  }

  // the first frame of a payload, or its padding, and the rest
  lemma UnpackFirst(o: Order, h: Header, encrypted: bool, input: seq<Byte>)
    requires h.numberLength in {1, 2, 4, 6} && input != []
    ensures
      var r, first := UnpackFrames(o, h, encrypted, input), ParseFrame(o, h, encrypted, input);
      if input[0] == 0 then r == UnpackFrames(o, h, encrypted, input[1..])
      else if first.Err? then r == Err(first.error)
      else
        var fs := UnpackFrames(o, h, encrypted, first.value.1);
        r == if fs.Ok? then Ok([first.value.0] + fs.value) else fs
  {
    hide ParseFrame;
  }

  lemma {:induction false} FramesArrive(o: Order, h: Header, fs: seq<Frame>)
    requires Packable(h, fs)
    ensures UnpackFrames(o, h, true, EncodeAll(o, h, fs)) == Ok(Arrivals(fs))
    decreases |fs|
  {
    hide EncodeFrame, ParseFrame, Transmittable, Arriving;
    if fs != [] {
      CanEncode(h, fs);
      var rest := EncodeAll(o, h, fs[1..]);
      assert |fs| == 1 ==> rest == [];
      FrameRoundTrip(o, h, fs[0], rest);
      NotPadding(o, h, fs[0]);
      hide UnpackFrames;
      UnpackFirst(o, h, true, EncodeFrame(o, h, fs[0]) + rest);
      FramesArrive(o, h, fs[1..]);
    }
  }

  lemma CanEncode(h: Header, fs: seq<Frame>)
    requires Packable(h, fs)
    ensures AllEncodable(fs)
    ensures fs != [] ==> Packable(h, fs[1..])
  {
  }

  // The payload of a packet comes apart into the frames that were put into it.
  lemma PacketRoundTrip(o: Order, h: Header, fs: seq<Frame>)
    requires Packable(h, fs) && fs != []
    ensures Unpack(o, h, true, EncodeAll(o, h, fs)) == Ok(Arrivals(fs))
  {
    hide EncodeFrame, UnpackFrames;
    CanEncode(h, fs);
    NotPadding(o, h, fs[0]);
    FramesArrive(o, h, fs);
  }

  lemma {:induction false} PayloadLengthIsExact(o: Order, h: Header, fs: seq<Frame>)
    requires AllEncodable(fs)
    ensures |EncodeAll(o, h, fs)| == PayloadLength(h, fs)
  {
    hide EncodeFrame, FrameLength;
    if fs != [] {
      FrameLengthIsExact(o, h, fs[0]);
      PayloadLengthIsExact(o, h, fs[1..]);
    }
  }

  // Padding in front of a payload is ignored.
  lemma {:induction false} PaddingIsIgnored(o: Order, h: Header, encrypted: bool, n: nat, input: seq<Byte>)
    requires h.numberLength in {1, 2, 4, 6}
    ensures UnpackFrames(o, h, encrypted, seq(n, _ => 0) + input) == UnpackFrames(o, h, encrypted, input)
  {
    var padded := seq(n, _ => 0) + input;
    if n == 0 {
      assert padded == input;
    } else {
      assert padded[1..] == seq(n - 1, _ => 0) + input;
      PaddingIsIgnored(o, h, encrypted, n - 1, input);
    }
  }

  // Padding after the frames is ignored too, if the last frame has a length.
  lemma PaddedRoundTrip(o: Order, h: Header, fs: seq<Frame>, n: nat)
    requires Packable(h, fs) && fs != [] && (fs[|fs| - 1].Stream? ==> fs[|fs| - 1].stream.hasLength)
    ensures Unpack(o, h, true, EncodeAll(o, h, fs) + seq(n, _ => 0)) == Ok(Arrivals(fs))
  {
    hide EncodeFrame, UnpackFrames;
    CanEncode(h, fs);
    NotPadding(o, h, fs[0]);
    PaddedFramesArrive(o, h, fs, n);
  }

  lemma {:induction false} PaddedFramesArrive(o: Order, h: Header, fs: seq<Frame>, n: nat)
    requires Packable(h, fs) && (fs != [] && fs[|fs| - 1].Stream? ==> fs[|fs| - 1].stream.hasLength)
    ensures UnpackFrames(o, h, true, EncodeAll(o, h, fs) + seq(n, _ => 0)) == Ok(Arrivals(fs))
    decreases |fs|
  {
    hide EncodeFrame, ParseFrame, Transmittable, Arriving;
    if fs == [] {
      PaddingIsIgnored(o, h, true, n, []);
      assert EncodeAll(o, h, fs) + seq(n, _ => 0) == seq(n, _ => 0) + [];
    } else {
      CanEncode(h, fs);
      var first, rest := EncodeFrame(o, h, fs[0]), EncodeAll(o, h, fs[1..]) + seq(n, _ => 0);
      assert EncodeAll(o, h, fs) + seq(n, _ => 0) == first + rest;
      FrameRoundTrip(o, h, fs[0], rest);
      NotPadding(o, h, fs[0]);
      hide UnpackFrames;
      UnpackFirst(o, h, true, first + rest);
      PaddedFramesArrive(o, h, fs[1..], n);
    }
  }

  // a STREAM frame that needs encryption
  ghost predicate NeedsEncryption(fs: seq<Frame>) {
    exists i :: 0 <= i < |fs| && fs[i].Stream? && fs[i].stream.id != 1
  }

  // Without encryption, a payload is rejected if it has data of any stream but the crypto stream, and read as
  // with encryption if it has none.
  lemma {:induction false} UnencryptedPayload(o: Order, h: Header, input: seq<Byte>)
    requires h.numberLength in {1, 2, 4, 6}
    ensures
      var r, open := UnpackFrames(o, h, true, input), UnpackFrames(o, h, false, input);
      if r.Err? then open.Err? else if NeedsEncryption(r.value) then open == Err(UnencryptedStreamData) else open == r
    decreases |input|
  {
    hide ParseFrame, UnpackFrames, NeedsEncryption;
    if input == [] {
      NothingToUnpack(o, h, true);
      NothingToUnpack(o, h, false);
      NeedsMore(Ping, []);
    } else {
      UnpackFirst(o, h, true, input);
      UnpackFirst(o, h, false, input);
      EncryptionMatters(o, h, input);
      if input[0] == 0 {
        UnencryptedPayload(o, h, input[1..]);
      } else {
        var first := ParseFrame(o, h, true, input);
        if first.Ok? {
          ParseTakes(o, h, input);
          UnencryptedPayload(o, h, first.value.1);
          var rest := UnpackFrames(o, h, true, first.value.1);
          if rest.Ok? { NeedsMore(first.value.0, rest.value); }
        }
      }
    }
  }

  lemma ParseTakes(o: Order, h: Header, input: seq<Byte>)
    requires h.numberLength in {1, 2, 4, 6} && input != []
    ensures ParseFrame(o, h, true, input).Ok? ==> |ParseFrame(o, h, true, input).value.1| < |input|
  {
  }

  lemma NeedsMore(f: Frame, fs: seq<Frame>)
    ensures NeedsEncryption([f] + fs) <==> (f.Stream? && f.stream.id != 1) || NeedsEncryption(fs)
    ensures !NeedsEncryption([])
  {
    var all := [f] + fs;
    if NeedsEncryption(all) {
      var i :| 0 <= i < |all| && all[i].Stream? && all[i].stream.id != 1;
      if i > 0 { assert all[i] == fs[i - 1]; }
    }
    if NeedsEncryption(fs) {
      var i :| 0 <= i < |fs| && fs[i].Stream? && fs[i].stream.id != 1;
      assert all[i + 1].Stream? && all[i + 1].stream.id != 1;
    }
    assert all[0] == f;
  }

  method UnpackPacket(o: Order, h: Header, encrypted: bool, payload: seq<Byte>) returns (r: Result<seq<Frame>>)
    requires h.numberLength in {1, 2, 4, 6}
    ensures r == Unpack(o, h, encrypted, payload)
  {
    hide ParseFrame, UnpackFrames;
    if |payload| == 0 { return Err(MissingPayload); }
    var fs, rest := [], payload;
    ghost var all := UnpackFrames(o, h, encrypted, payload);
    assert all.Ok? ==> fs + all.value == all.value;
    while |rest| > 0
      invariant UnpackFrames(o, h, encrypted, payload) ==
                var more := UnpackFrames(o, h, encrypted, rest); if more.Ok? then Ok(fs + more.value) else more
      decreases |rest|
    {
      UnpackFirst(o, h, encrypted, rest);
      if rest[0] == 0 {
        rest := rest[1..];
      } else {
        var frame := ParseFrame(o, h, encrypted, rest);
        if frame.Err? { return Err(frame.error); }
        ghost var more := UnpackFrames(o, h, encrypted, frame.value.1);
        assert more.Ok? ==> fs + ([frame.value.0] + more.value) == fs + [frame.value.0] + more.value;
        fs, rest := fs + [frame.value.0], frame.value.1;
      }
    }
    assert UnpackFrames(o, h, encrypted, []) == Ok([]) by { NothingToUnpack(o, h, encrypted); }
    assert fs + [] == fs;
    return Ok(fs);
  }

  lemma NothingToUnpack(o: Order, h: Header, encrypted: bool)
    requires h.numberLength in {1, 2, 4, 6}
    ensures UnpackFrames(o, h, encrypted, []) == Ok([])
  {
  }

  // ----- composing a packet

  // the control frames that wait in the packer
  ghost predicate IsControl(f: Frame) {
    match f
    case WindowUpdate(id, offset) => id < 0x1_0000_0000 && offset < TWO_64
    case Blocked(id) => id < 0x1_0000_0000
    case RstStream(id, offset, code) => id < 0x1_0000_0000 && offset < TWO_64 && code < 0x1_0000_0000
    case Ping => true
    case _ => false
  }

  ghost predicate AllControl(fs: seq<Frame>) {
    forall i :: 0 <= i < |fs| ==> IsControl(fs[i])
  }

  function Reverse(fs: seq<Frame>): (r: seq<Frame>)
    ensures |r| == |fs| && forall i :: 0 <= i < |fs| ==> r[i] == fs[|fs| - 1 - i]
  {
    seq(|fs|, i requires 0 <= i < |fs| => fs[|fs| - 1 - i])
  }

  lemma {:induction false} PayloadConcat(h: Header, x: seq<Frame>, y: seq<Frame>)
    requires AllEncodable(x) && AllEncodable(y)
    ensures AllEncodable(x + y) && PayloadLength(h, x + y) == PayloadLength(h, x) + PayloadLength(h, y)
    decreases |x|
  {
    hide FrameLength, Encodable;
    if x == [] {
      assert x + y == y;
    } else {
      assert (x + y)[0] == x[0] && (x + y)[1..] == x[1..] + y;
      PayloadConcat(h, x[1..], y);
    }
  }

  lemma PayloadOne(h: Header, f: Frame)
    requires Encodable(f)
    ensures AllEncodable([f]) && PayloadLength(h, [f]) == FrameLength(h, f) && PayloadLength(h, []) == 0
  {
    hide FrameLength, Encodable;
    assert [f][1..] == [];
  }

  // Control frames are taken from the end, as long as they fit.
  method TakeControl(h: Header, control: seq<Frame>, used: nat, max: nat)
    returns (taken: seq<Frame>, left: seq<Frame>, length: nat)
    requires AllControl(control)
    ensures left + Reverse(taken) == control && AllControl(left) && AllControl(taken) && AllEncodable(taken)
    ensures length == used + PayloadLength(h, taken) && (used <= max ==> length <= max) && (used > max ==> taken == [])
    ensures left != [] ==>
            IsControl(left[|left| - 1]) && Encodable(left[|left| - 1]) &&
            length + FrameLength(h, left[|left| - 1]) > max
  {
    hide FrameLength, Encodable, IsControl, PayloadLength;
    NoShorter(h, []);
    taken, left, length := [], control, used;
    while |left| > 0
      invariant left + Reverse(taken) == control && AllControl(left) && AllControl(taken) && AllEncodable(taken)
      invariant length == used + PayloadLength(h, taken) && (used <= max ==> length <= max) &&
                (used > max ==> taken == [])
      decreases |left|
    {
      var frame := left[|left| - 1];
      ControlEncodes(h, frame);
      if length + FrameLength(h, frame) > max { return; }
      PayloadOne(h, frame);
      PayloadConcat(h, taken, [frame]);
      assert left[..|left| - 1] + Reverse(taken + [frame]) == left + Reverse(taken);
      taken, length, left := taken + [frame], length + FrameLength(h, frame), left[..|left| - 1];
    }
  }

  lemma ControlEncodes(h: Header, f: Frame)
    requires IsControl(f)
    ensures Encodable(f) && Transmittable(h, f) && !f.Stream?
  {
  }

  // ----- the STREAM frames of a packet

  function Streams(fs: seq<StreamFrame>): (r: seq<Frame>)
    ensures |r| == |fs| && forall i :: 0 <= i < |fs| ==> r[i] == Stream(fs[i])
  {
    seq(|fs|, i requires 0 <= i < |fs| => Stream(fs[i]))
  }

  // the last frame leaves out its length
  function Shorten(fs: seq<StreamFrame>): (r: seq<StreamFrame>) {
    if fs == [] then [] else fs[..|fs| - 1] + [fs[|fs| - 1].(hasLength := false)]
  }

  lemma {:induction false} StreamsLength(h: Header, fs: seq<StreamFrame>)
    ensures AllEncodable(Streams(fs)) && PayloadLength(h, Streams(fs)) == TotalLength(fs)
  {
    if fs != [] {
      var front, last := fs[..|fs| - 1], fs[|fs| - 1];
      StreamsLength(h, front);
      PayloadOne(h, Stream(last));
      assert Streams(fs) == Streams(front) + [Stream(last)];
      hide PayloadLength;
      PayloadConcat(h, Streams(front), [Stream(last)]);
    }
  }

  // The two bytes that are saved make up for the two bytes that were lent.
  lemma ShortenSavesTwo(fs: seq<StreamFrame>)
    requires AllLong(fs)
    ensures TotalLength(Shorten(fs)) == TotalLength(fs) - (if fs == [] then 0 else 2)
    ensures ContentsOf(Shorten(fs)) == ContentsOf(fs)
  {
    hide Octets, ContentsOf, TotalLength, IdLength, OffsetLength;
    if fs != [] {
      var front, last := fs[..|fs| - 1], fs[|fs| - 1];
      assert last in fs && fs == front + [last];
      AppendOne(front, last);
      AppendOne(front, last.(hasLength := false));
    }
  }

  lemma ShortenFits(h: Header, fs: seq<StreamFrame>)
    requires h.numberLength in {1, 2, 4, 6} && Fit(fs) && AllLong(fs)
    ensures Packable(h, Streams(Shorten(fs)))
  {
    hide IdLength, OffsetLength;
    var s := Shorten(fs);
    forall i | 0 <= i < |fs| ensures FitsWire(s[i]) && (i < |fs| - 1 ==> s[i].hasLength) {
      assert fs[i] in fs && FitsWire(Long(fs[i]));
    }
  }

  lemma PackableConcat(h: Header, x: seq<Frame>, y: seq<Frame>)
    requires Packable(h, x) && Packable(h, y) && forall i :: 0 <= i < |x| ==> !x[i].Stream?
    ensures Packable(h, x + y)
  {
    hide Transmittable;
  }

  // ----- the packer

  datatype PackResult = Nothing | Packed(frames: seq<Frame>, payload: seq<Byte>) | PayloadTooLarge | WriteFailed

  class PacketPacker {
    const framer: StreamFramer
    var controlFrames: seq<Frame>
    var stopWaiting: map<Byte, nat>
    var ackFrame: map<Byte, (AckFrame, nat)>

    constructor (f: StreamFramer)
      requires f.Valid()
      ensures Valid() && framer == f && controlFrames == [] && stopWaiting == map[] && ackFrame == map[]
    {
      framer, controlFrames, stopWaiting, ackFrame := f, [], map[], map[];
    }

    ghost predicate Valid()
      reads this, framer
    {
      framer.Valid() && AllControl(controlFrames) && AcksValid(ackFrame)
    }

    // STOP_WAITING and ACK of a path, which go first
    function Lead(pathID: Byte): (fs: seq<Frame>)
      reads this
      ensures |fs| == (if pathID in stopWaiting then 1 else 0) + (if pathID in ackFrame then 1 else 0)
      ensures pathID in stopWaiting ==> fs[0] == StopWaiting(stopWaiting[pathID])
      ensures pathID in ackFrame ==> fs[|fs| - 1] == Ack(ackFrame[pathID].0, ackFrame[pathID].1)
    {
      (if pathID in stopWaiting then [StopWaiting(stopWaiting[pathID])] else []) +
      (if pathID in ackFrame then [Ack(ackFrame[pathID].0, ackFrame[pathID].1)] else [])
    }

    // The framer's BLOCKED frames wait with the other control frames.
    method DrainBlocked()
      requires Valid()
      modifies `controlFrames, framer`blockedFrameQueue
      ensures Valid() && framer.blockedFrameQueue == []
      ensures controlFrames == old(controlFrames) + BlockedFrames(old(framer.blockedFrameQueue))
    {
      hide Fit, ContentsOf, AllToSend, StreamFramer.Valid;
      PartsAreValid();
      ghost var all := old(controlFrames) + BlockedFrames(framer.blockedFrameQueue);
      var b := framer.PopBlockedFrame();
      NextBlocked(old(controlFrames), b, framer.blockedFrameQueue, old(framer.blockedFrameQueue));
      while b.Some?
        invariant Valid() && (b.Some? ==> b.value < 0x1_0000_0000) && (b.None? ==> framer.blockedFrameQueue == [])
        invariant all == controlFrames + BlockedFrames(Waiting(b, framer.blockedFrameQueue))
        decreases if b.Some? then |framer.blockedFrameQueue| + 1 else 0
      {
        ghost var before, queue := controlFrames, framer.blockedFrameQueue;
        controlFrames := controlFrames + [Blocked(b.value)];
        FirstBlocked(before, b.value, queue);
        b := framer.PopBlockedFrame();
        NextBlocked(controlFrames, b, framer.blockedFrameQueue, queue);
      }
    }

    lemma PartsAreValid()
      requires Valid()
      ensures framer.Valid() && AllControl(controlFrames)
    {
    }

    // What goes into the next packet: STOP_WAITING and ACK, control frames from the end as long as they
    // fit, then STREAM frames as long as they fit. It never takes more than max bytes, and nothing is lost:
    // what is not taken stays in the packer or the framer. It fails exactly if STOP_WAITING and ACK do not fit.
    method Compose(h: Header, lead: seq<Frame>, max: nat, canSendStreamFrames: bool, path: Option<set<nat>>,
                   turns: Turns)
      returns (r: Option<seq<Frame>>, ghost p: Picked)
      requires Valid() && AllEncodable(lead) && max <= MAX_PACKET_SIZE && TurnsOf(turns, |framer.streams|)
      modifies `controlFrames, framer
      ensures Valid() && Fit(p.fs) && AllLong(p.fs) && AllControl(p.taken)
      ensures Keeps(old(controlFrames), controlFrames, p.taken, p.blocked)
      ensures r.None? <==> PayloadLength(h, lead) > max
      ensures r.None? ==>
              controlFrames == old(controlFrames) && unchanged(framer) && p.taken == [] && p.fs == [] && p.blocked == []
      ensures r.Some? ==> r.value == lead + p.taken + Streams(Shorten(p.fs))
      ensures r.Some? ==> AllEncodable(r.value) && PayloadLength(h, r.value) <= max
      ensures r.Some? ==> Greedy(h, lead, old(controlFrames), p.taken, p.length, max)
      ensures r.Some? && canSendStreamFrames ==>
              p.length <= max && framer.Full(path, turns, p.fs, p.again, p.visited, max + 2 - p.length)
      ensures multiset(ContentsOf(p.fs)) + framer.Undelivered() == old(framer.Undelivered())
      ensures framer.emitted == old(framer.emitted) + p.fs && framer.written == old(framer.written)
      ensures old(WithinCredit(framer.flow)) ==> WithinCredit(framer.flow)
      ensures !canSendStreamFrames ==> p.fs == [] && p.blocked == [] && unchanged(framer)
      ensures r.Some? && canSendStreamFrames ==> Announced(old(framer.blockedFrameQueue), old(framer.flow), p)
    {
      hide *;
      var payload, length;
      ghost var taken, again, visited;
      payload, length, taken := TakeLead(h, lead, max);
      NoContents();
      if length > max { return None, Picked(taken, [], length, 0, 0, []); }
      var popped := [];
      again, visited := 0, 0;
      NoShorter(h, popped);
      ghost var left := controlFrames;
      ghost var blocked := [];
      if canSendStreamFrames { popped, again, visited, blocked := AddStreams(h, length, max, path, turns); }
      PayloadConcat(h, payload, Streams(Shorten(popped)));
      KeepsMore(old(controlFrames), left, taken, blocked);
      p := Picked(taken, popped, length, again, visited, blocked);
      if canSendStreamFrames { IsAnnounced(old(framer.blockedFrameQueue), old(framer.flow), p); }
      r := Some(payload + Streams(Shorten(popped)));
    }

    // the part of the packet before the STREAM frames
    method TakeLead(h: Header, lead: seq<Frame>, max: nat)
      returns (payload: seq<Frame>, length: nat, ghost taken: seq<Frame>)
      requires Valid() && AllEncodable(lead)
      modifies `controlFrames
      ensures Valid() && payload == lead + taken && AllEncodable(payload) && AllControl(taken)
      ensures length == PayloadLength(h, payload)
      ensures length > max <==> PayloadLength(h, lead) > max
      ensures Keeps(old(controlFrames), controlFrames, taken, [])
      ensures length > max ==> taken == [] && controlFrames == old(controlFrames)
      ensures length <= max ==> Greedy(h, lead, old(controlFrames), taken, length, max)
    {
      PartsAreValid();
      hide *;
      var leadLength := LeadLength(h, lead);
      var control, left;
      control, left, length := TakeControl(h, controlFrames, leadLength, max);
      taken := control;
      LeftKeeps(controlFrames, left, control);
      PayloadConcat(h, lead, control);
      if length <= max { IsGreedy(h, lead, controlFrames, left, control, length, max); }
      SetControl(left);
      payload := lead + control;
    }

    predicate PingFirst()
      reads this
    {
      |controlFrames| > 0 && controlFrames[0].Ping?
    }

    // the ACK frame or the STOP_WAITING frame that waits cannot be written
    ghost predicate CannotWrite(h: Header, pathID: Byte)
      requires Valid()
      reads this, framer
    {
      (pathID in ackFrame && !FirstGapFits(ackFrame[pathID].0)) ||
      (pathID in stopWaiting && (h.number == 0 || h.number < stopWaiting[pathID]))
    }

    // the delta of the STOP_WAITING frame that waits, if any, fits into the bytes of the packet number
    ghost predicate DeltaFits(h: Header, pathID: Byte)
      reads this
    {
      pathID in stopWaiting ==>
        0 < stopWaiting[pathID] <= h.number && h.number - stopWaiting[pathID] < Pow256(h.numberLength)
    }

    // STOP_WAITING and ACK alone take up more than max bytes
    ghost predicate TooLong(h: Header, pathID: Byte, max: nat)
      requires Valid()
      reads this, framer
    {
      !PingFirst() && PayloadLength(h, Lead(pathID)) > max
    }

    // What goes into the packet before the frames that were picked. A PING goes alone.
    function First(pathID: Byte): (fs: seq<Frame>)
      reads this
    {
      if PingFirst() then [] else Lead(pathID)
    }

    // The frames of the next packet: a PING that is first among the control frames, or what was composed.
    method Pick(h: Header, pathID: Byte, max: nat, canSendStreamFrames: bool, path: Option<set<nat>>, turns: Turns)
      returns (r: Option<seq<Frame>>, ghost p: Picked)
      requires Valid() && h.numberLength in {1, 2, 4, 6} && max <= MAX_PACKET_SIZE && TurnsOf(turns, |framer.streams|)
      modifies `controlFrames, framer
      ensures Valid() && Fit(p.fs) && AllLong(p.fs) && AllControl(p.taken)
      ensures multiset(ContentsOf(p.fs)) + framer.Undelivered() == old(framer.Undelivered())
      ensures framer.emitted == old(framer.emitted) + p.fs && framer.written == old(framer.written)
      ensures old(WithinCredit(framer.flow)) ==> WithinCredit(framer.flow)
      ensures old(PingFirst()) ==>
              r.Some? && p.taken == [Ping] && p.fs == [] && controlFrames == old(controlFrames)[1..] &&
              unchanged(framer)
      ensures !old(PingFirst()) ==> Keeps(old(controlFrames), controlFrames, p.taken, p.blocked)
      ensures r.None? <==> old(TooLong(h, pathID, max))
      ensures r.None? ==> p.taken == [] && p.fs == [] && p.blocked == [] && unchanged(`controlFrames, framer)
      ensures r.Some? ==> r.value == old(First(pathID)) + p.taken + Streams(Shorten(p.fs)) && AllEncodable(r.value)
      ensures r.Some? && !old(PingFirst()) ==>
              PayloadLength(h, r.value) <= max &&
              Greedy(h, old(Lead(pathID)), old(controlFrames), p.taken, p.length, max)
      ensures r.Some? && !old(PingFirst()) && canSendStreamFrames ==>
              p.length <= max && framer.Full(path, turns, p.fs, p.again, p.visited, max + 2 - p.length) &&
              Announced(old(framer.blockedFrameQueue), old(framer.flow), p)
      ensures r.Some? && !canSendStreamFrames ==> p.fs == [] && p.blocked == [] && unchanged(framer)
    {
      hide *;
      FirstFacts(h, pathID, max);
      if PingFirst() {
        PingPicked(h);
        r, p := Some([controlFrames[0]]), Picked([Ping], [], 0, 0, 0, []);
        SetControl(controlFrames[1..]);
        return;
      }
      r, p := Compose(h, Lead(pathID), max, canSendStreamFrames, path, turns);
    }

    lemma PingPicked(h: Header)
      requires Valid() && PingFirst()
      ensures controlFrames != [] && controlFrames[0] == Ping && AllControl(controlFrames[1..]) && AllControl([Ping])
      ensures [] + [Ping] + Streams(Shorten([])) == [Ping] && AllEncodable([Ping])
      ensures Fit([]) && AllLong([]) && ContentsOf([]) == []
    {
      assert controlFrames[0] == Ping;
    }

    // A packet for a path. If it is sent, it takes no more than max bytes, and its payload comes apart into the
    // frames that were picked if and only if no STOP_WAITING frame goes first or its delta fits: a longer delta
    // is cut without an error. There is none if nothing is picked, or one frame while a STOP_WAITING frame
    // waits: the check is meant for that frame, but a PING is picked alone and is then lost. A PING that is
    // sent takes a waiting ACK frame off the path. No other frame is ever lost before it is written.
    method PackPacket(o: Order, h: Header, pathID: Byte, max: nat, canSendStreamFrames: bool, path: Option<set<nat>>,
                      turns: Turns)
      returns (r: PackResult, ghost p: Picked)
      requires Valid() && h.numberLength in {1, 2, 4, 6} && max <= MAX_PACKET_SIZE && TurnsOf(turns, |framer.streams|)
      modifies `controlFrames, `stopWaiting, `ackFrame, framer
      ensures Valid() && multiset(ContentsOf(p.fs)) + framer.Undelivered() == old(framer.Undelivered())
      ensures framer.emitted == old(framer.emitted) + p.fs && framer.written == old(framer.written)
      ensures old(WithinCredit(framer.flow)) ==> WithinCredit(framer.flow)
      ensures if old(PingFirst())
              then p.taken == [Ping] && p.fs == [] && controlFrames == old(controlFrames)[1..] && unchanged(framer)
              else Keeps(old(controlFrames), controlFrames, p.taken, p.blocked)
      ensures r.PayloadTooLarge? <==> old(TooLong(h, pathID, max))
      ensures r.PayloadTooLarge? ==> p.taken == [] && p.fs == [] && unchanged(`controlFrames, framer)
      ensures r.Nothing? <==>
              !r.PayloadTooLarge? &&
              |old(First(pathID))| + |p.taken| + |p.fs| <= if pathID in old(stopWaiting) then 1 else 0
      ensures r.WriteFailed? <==>
              !r.PayloadTooLarge? && !r.Nothing? && !old(PingFirst()) && old(CannotWrite(h, pathID))
      ensures r.Packed? ==>
              AllEncodable(r.frames) &&
              (Unpack(o, h, true, r.payload) == Ok(Arrivals(r.frames)) <==>
                old(PingFirst()) || old(DeltaFits(h, pathID)))
      ensures r.PayloadTooLarge? || r.Nothing? ==> unchanged(`stopWaiting, `ackFrame)
      ensures r.Packed? || r.WriteFailed? ==>
              stopWaiting == old(stopWaiting) - {pathID} && ackFrame == old(ackFrame) - {pathID}
      ensures r.Packed? || r.WriteFailed? ==> IsWritten(o, h, old(First(pathID)), p.taken, p.fs, r)
      ensures r.Packed? && !old(PingFirst()) ==> |r.payload| <= max
      ensures !r.PayloadTooLarge? && !old(PingFirst()) ==>
              Greedy(h, old(Lead(pathID)), old(controlFrames), p.taken, p.length, max)
      ensures !r.PayloadTooLarge? && !old(PingFirst()) && canSendStreamFrames ==>
              p.length <= max && framer.Full(path, turns, p.fs, p.again, p.visited, max + 2 - p.length) &&
              Announced(old(framer.blockedFrameQueue), old(framer.flow), p)
      ensures !canSendStreamFrames ==> p.fs == [] && p.blocked == [] && unchanged(framer)
      ensures r.Nothing? && p.taken + Streams(p.fs) != [] <==> old(PingFirst()) && pathID in old(stopWaiting)
      ensures old(PingFirst()) && pathID !in old(stopWaiting) ==>
              r == Packed([Ping], [7]) && ackFrame == old(ackFrame) - {pathID}
      ensures r.Nothing? && !old(PingFirst()) ==> pathID !in ackFrame
    {
      hide *;
      FirstFacts(h, pathID, max);
      ghost var first := First(pathID);
      var frames;
      frames, p := Pick(h, pathID, max, canSendStreamFrames, path, turns);
      if frames.None? { return PayloadTooLarge, p; }
      SumOfLengths(first, p.taken, p.fs);
      if |frames.value| == 0 { return Nothing, p; }
      if |frames.value| == 1 && pathID in stopWaiting { return Nothing, p; }
      Sent(pathID);
      r := WritePacket(o, h, frames.value, first, p.taken, p.fs);
      WrittenFacts(o, h, first, p.taken, p.fs, r);
      PingBytes(o, h, p.taken, p.fs);
    }

    lemma FirstFacts(h: Header, pathID: Byte, max: nat)
      requires Valid()
      ensures First(pathID) == (if PingFirst() then [] else Lead(pathID)) && IsLead(First(pathID))
      ensures |Lead(pathID)| == (if pathID in stopWaiting then 1 else 0) + (if pathID in ackFrame then 1 else 0)
      ensures AllEncodable(Lead(pathID)) && AllEncodable(First(pathID))
      ensures TooLong(h, pathID, max) <==> !PingFirst() && PayloadLength(h, Lead(pathID)) > max
      ensures Unwritable(h, First(pathID)) <==> !PingFirst() && CannotWrite(h, pathID)
      ensures !Unwritable(h, First(pathID)) ==> (Recoverable(h, First(pathID)) <==> PingFirst() || DeltaFits(h, pathID))
    {
      hide FirstGapFits, PayloadLength, Pow256, AckWire.WellFormed, Receivable;
      var lead := Lead(pathID);
      if pathID in ackFrame {
        assert lead[|lead| - 1] == Ack(ackFrame[pathID].0, ackFrame[pathID].1);
      }
      if pathID in stopWaiting {
        assert lead[0] == StopWaiting(stopWaiting[pathID]);
      }
    }

    method Sent(pathID: Byte)
      requires Valid()
      modifies `stopWaiting, `ackFrame
      ensures Valid() && stopWaiting == old(stopWaiting) - {pathID} && ackFrame == old(ackFrame) - {pathID}
    {
      stopWaiting := stopWaiting - {pathID};
      ackFrame := ackFrame - {pathID};
    }

    method SetControl(left: seq<Frame>)
      requires Valid() && AllControl(left)
      modifies `controlFrames
      ensures Valid() && controlFrames == left
    {
      controlFrames := left;
    }

    // Two more bytes are lent to the framer, and saved again on the last frame.
    method AddStreams(h: Header, length: nat, max: nat, path: Option<set<nat>>, turns: Turns)
      returns (fs: seq<StreamFrame>, ghost again: nat, ghost visited: nat, ghost blocked: seq<nat>)
      requires Valid() && length <= max <= MAX_PACKET_SIZE && TurnsOf(turns, |framer.streams|)
      modifies `controlFrames, framer
      ensures Valid() && Fit(fs) && AllLong(fs) && AllEncodable(Streams(Shorten(fs)))
      ensures length + PayloadLength(h, Streams(Shorten(fs))) <= max
      ensures multiset(ContentsOf(fs)) + framer.Undelivered() == old(framer.Undelivered())
      ensures framer.emitted == old(framer.emitted) + fs && framer.written == old(framer.written)
      ensures old(WithinCredit(framer.flow)) ==> WithinCredit(framer.flow)
      ensures controlFrames == old(controlFrames) + BlockedFrames(blocked) && framer.blockedFrameQueue == []
      ensures again <= |fs| && blocked == old(framer.blockedFrameQueue) + AllBlocked(old(framer.flow), fs[again..])
      ensures IsBlocking(old(framer.flow), fs[again..], AllBlocked(old(framer.flow), fs[again..]))
      ensures framer.Full(path, turns, fs, again, visited, max + 2 - length)
    {
      hide *;
      fs, again, visited := TakeStreams(max + 2 - length, path, turns);
      ShortenSavesTwo(fs);
      StreamsLength(h, Shorten(fs));
      NoShorter(h, fs);
      blocked := framer.blockedFrameQueue;
      DrainBlocked();
    }

    method TakeStreams(maxLen: nat, path: Option<set<nat>>, turns: Turns)
      returns (fs: seq<StreamFrame>, ghost again: nat, ghost visited: nat)
      requires Valid() && maxLen <= MAX_PACKET_SIZE + 2 && TurnsOf(turns, |framer.streams|)
      modifies framer
      ensures again <= |fs| &&
              framer.blockedFrameQueue == old(framer.blockedFrameQueue) + AllBlocked(old(framer.flow), fs[again..]) &&
              IsBlocking(old(framer.flow), fs[again..], AllBlocked(old(framer.flow), fs[again..]))
      ensures Valid() && Fit(fs) && AllLong(fs) && TotalLength(fs) <= maxLen &&
              framer.Full(path, turns, fs, again, visited, maxLen)
      ensures multiset(ContentsOf(fs)) + framer.Undelivered() == old(framer.Undelivered())
      ensures framer.emitted == old(framer.emitted) + fs && framer.written == old(framer.written)
      ensures old(WithinCredit(framer.flow)) ==> WithinCredit(framer.flow)
    {
      hide IsControl, Fit, AllLong, ContentsOf, TotalLength, AcksValid, StreamFramer.Full, StreamFramer.Valid,
           StreamFramer.Undelivered, Part, SentFrames, AllBlocked, IsBlocking, Framed, Pieces;
      fs, again, visited := framer.PopStreamFrames(maxLen, path, turns);
    }
  }

  lemma NoShorter(h: Header, fs: seq<StreamFrame>)
    ensures fs == [] ==> Shorten(fs) == [] && AllEncodable(Streams([])) && PayloadLength(h, Streams([])) == 0
    ensures PayloadLength(h, []) == 0
  {
  }

  // what may go first: a STOP_WAITING frame, then an ACK frame
  ghost predicate IsLead(lead: seq<Frame>) {
    forall i :: 0 <= i < |lead| ==>
      (lead[i].StopWaiting? && i == 0) ||
      (lead[i].Ack? && AckWire.WellFormed(lead[i].ack) && Receivable(lead[i].ack))
  }

  // frames that the peer gets back
  ghost predicate Recoverable(h: Header, fs: seq<Frame>) {
    forall i :: 0 <= i < |fs| ==> Transmittable(h, fs[i])
  }

  lemma SumOfLengths(lead: seq<Frame>, taken: seq<Frame>, fs: seq<StreamFrame>)
    ensures |lead + taken + Streams(Shorten(fs))| == |lead| + |taken| + |fs|
    ensures (|taken| == 0 ==> taken == []) && (|fs| == 0 ==> fs == [])
  {
  }

  // some frame cannot be written
  ghost predicate Unwritable(h: Header, fs: seq<Frame>)
    requires AllEncodable(fs)
  {
    exists i :: 0 <= i < |fs| && !CanWrite(h, fs[i])
  }

  method WriteFrames(o: Order, h: Header, fs: seq<Frame>) returns (r: Option<seq<Byte>>)
    requires AllEncodable(fs)
    ensures r.None? <==> Unwritable(h, fs)
    ensures r.Some? ==> r.value == EncodeAll(o, h, fs)
  {
    hide EncodeFrame, CanWrite;
    var bytes, i := [], 0;
    assert fs[0..] == fs && bytes + EncodeAll(o, h, fs) == EncodeAll(o, h, fs);
    while i < |fs|
      invariant i <= |fs| && bytes + EncodeAll(o, h, fs[i..]) == EncodeAll(o, h, fs)
      invariant forall j :: 0 <= j < i ==> CanWrite(h, fs[j])
    {
      assert Encodable(fs[i]) && fs[i..][1..] == fs[i + 1..];
      if !CanWrite(h, fs[i]) { return None; }
      bytes, i := bytes + EncodeFrame(o, h, fs[i]), i + 1;
    }
    return Some(bytes);
  }

  // What goes first arrives, unless it is a STOP_WAITING frame that is cut.
  lemma Unrecoverable(h: Header, lead: seq<Frame>)
    requires IsLead(lead) && AllEncodable(lead) && !Unwritable(h, lead) && !Recoverable(h, lead)
    ensures lead != [] && lead[0].StopWaiting? && CanWrite(h, lead[0]) && !Transmittable(h, lead[0])
  {
    hide AckWire.WellFormed, Receivable, FirstGapFits, Pow256;
    var i :| 0 <= i < |lead| && !Transmittable(h, lead[i]);
    assert CanWrite(h, lead[i]);
  }

  // A packet whose STOP_WAITING frame is cut is rejected or read as another one.
  lemma CutIsNotRead(o: Order, h: Header, frames: seq<Frame>)
    requires h.numberLength in {1, 2, 4, 6} && AllEncodable(frames) && frames != []
    requires frames[0].StopWaiting? && CanWrite(h, frames[0]) && !Transmittable(h, frames[0])
    ensures Unpack(o, h, true, EncodeAll(o, h, frames)) != Ok(Arrivals(frames))
  {
    hide EncodeFrame, UnpackFrames, ParseFrame, Pow256;
    var rest := EncodeAll(o, h, frames[1..]);
    NotPadding(o, h, frames[0]);
    UnpackFirst(o, h, true, EncodeFrame(o, h, frames[0]) + rest);
    StopWaitingIsExact(o, h, true, frames[0].leastUnacked, rest);
    assert Arrivals(frames)[0] == frames[0];
  }

  lemma ComposedIsPackable(h: Header, lead: seq<Frame>, taken: seq<Frame>, fs: seq<StreamFrame>)
    requires h.numberLength in {1, 2, 4, 6} && IsLead(lead) && Recoverable(h, lead)
    requires AllControl(taken) && Fit(fs) && AllLong(fs)
    ensures Packable(h, lead + taken + Streams(Shorten(fs)))
  {
    hide Transmittable, IsControl, Fit, Shorten;
    ControlIsPackable(h, taken);
    PackableConcat(h, lead, taken);
    ShortenFits(h, fs);
    PackableConcat(h, lead + taken, Streams(Shorten(fs)));
  }

  lemma ComposedArrives(o: Order, h: Header, lead: seq<Frame>, taken: seq<Frame>, fs: seq<StreamFrame>,
                        frames: seq<Frame>)
    requires h.numberLength in {1, 2, 4, 6} && AllEncodable(frames) && AllEncodable(lead) && IsLead(lead) &&
             frames == lead + taken + Streams(Shorten(fs)) && frames != []
    requires AllControl(taken) && Fit(fs) && AllLong(fs) && !Unwritable(h, lead)
    ensures |EncodeAll(o, h, frames)| == PayloadLength(h, frames)
    ensures Unpack(o, h, true, EncodeAll(o, h, frames)) == Ok(Arrivals(frames)) <==> Recoverable(h, lead)
  {
    hide *;
    PayloadLengthIsExact(o, h, frames);
    if Recoverable(h, lead) {
      ComposedIsPackable(h, lead, taken, fs);
      PacketRoundTrip(o, h, frames);
    } else {
      Unrecoverable(h, lead);
      assert frames[0] == lead[0];
      CutIsNotRead(o, h, frames);
    }
  }

  lemma ControlIsPackable(h: Header, fs: seq<Frame>)
    requires h.numberLength in {1, 2, 4, 6} && AllControl(fs)
    ensures Packable(h, fs) && forall i :: 0 <= i < |fs| ==> !fs[i].Stream?
  {
  }

  // A packet that was written: the frames in order, as long as announced; the peer gets them back exactly if
  // what goes first can be recovered. It is not written exactly if some frame that goes first cannot be.
  ghost predicate IsWritten(o: Order, h: Header, lead: seq<Frame>, taken: seq<Frame>, fs: seq<StreamFrame>,
                            r: PackResult) {
    h.numberLength in {1, 2, 4, 6} && (r.Packed? || r.WriteFailed?) && AllEncodable(lead) &&
    (r.WriteFailed? <==> Unwritable(h, lead)) &&
    (r.Packed? ==>
      r.frames == lead + taken + Streams(Shorten(fs)) && AllEncodable(r.frames) &&
      r.payload == EncodeAll(o, h, r.frames) && |r.payload| == PayloadLength(h, r.frames) &&
      (Unpack(o, h, true, r.payload) == Ok(Arrivals(r.frames)) <==> Recoverable(h, lead)))
  }

  lemma WrittenFacts(o: Order, h: Header, lead: seq<Frame>, taken: seq<Frame>, fs: seq<StreamFrame>, r: PackResult)
    requires IsWritten(o, h, lead, taken, fs, r)
    ensures h.numberLength in {1, 2, 4, 6} && AllEncodable(lead) && (r.Packed? || r.WriteFailed?) &&
            (r.WriteFailed? <==> Unwritable(h, lead))
    ensures r.Packed? ==>
      r.frames == lead + taken + Streams(Shorten(fs)) && AllEncodable(r.frames) &&
      r.payload == EncodeAll(o, h, r.frames) &&
      |r.payload| == PayloadLength(h, r.frames) &&
      (Unpack(o, h, true, r.payload) == Ok(Arrivals(r.frames)) <==> Recoverable(h, lead))
  {
  }

  lemma PingBytes(o: Order, h: Header, taken: seq<Frame>, fs: seq<StreamFrame>)
    ensures AllEncodable([Ping]) && EncodeAll(o, h, [Ping]) == [7]
    ensures taken == [Ping] && fs == [] ==> [] + taken + Streams(Shorten(fs)) == [Ping]
  {
    assert [Ping][1..] == [];
    assert EncodeAll(o, h, []) == [];
  }

  // Whether a packet can be written is decided by what goes first.
  lemma UnwritableFirst(h: Header, lead: seq<Frame>, taken: seq<Frame>, fs: seq<StreamFrame>, frames: seq<Frame>)
    requires AllEncodable(frames) && frames == lead + taken + Streams(Shorten(fs)) && AllControl(taken)
    ensures AllEncodable(lead) && (Unwritable(h, frames) <==> Unwritable(h, lead))
  {
    hide FirstGapFits, Shorten, AckWire.WellFormed;
    assert forall i :: 0 <= i < |lead| ==> frames[i] == lead[i];
    forall i | |lead| <= i < |frames| ensures CanWrite(h, frames[i]) {
      if i < |lead| + |taken| {
        assert frames[i] == taken[i - |lead|] && IsControl(frames[i]);
      } else {
        assert frames[i] == Streams(Shorten(fs))[i - |lead| - |taken|];
      }
    }
  }

  method WritePacket(o: Order, h: Header, frames: seq<Frame>, ghost lead: seq<Frame>, ghost taken: seq<Frame>,
                     ghost fs: seq<StreamFrame>)
    returns (r: PackResult)
    requires h.numberLength in {1, 2, 4, 6} && AllEncodable(frames) && IsLead(lead) &&
             frames == lead + taken + Streams(Shorten(fs)) && frames != []
    requires AllControl(taken) && Fit(fs) && AllLong(fs)
    ensures IsWritten(o, h, lead, taken, fs, r)
  {
    hide EncodeAll, PayloadLength, Unpack, Arrivals, IsControl, Encodable, Recoverable, Fit, Shorten, Unwritable,
         IsLead, AllLong;
    var payload := WriteFrames(o, h, frames);
    UnwritableFirst(h, lead, taken, fs, frames);
    if payload.None? { return WriteFailed; }
    ComposedArrives(o, h, lead, taken, fs, frames);
    r := Packed(frames, payload.value);
  }

  // BLOCKED frames for streams and the connection
  function BlockedFrames(ids: seq<nat>): (fs: seq<Frame>)
    ensures |fs| == |ids| && forall i :: 0 <= i < |ids| ==> fs[i] == Blocked(ids[i])
  {
    seq(|ids|, i requires 0 <= i < |ids| => Blocked(ids[i]))
  }

  function Waiting(b: Option<nat>, queue: seq<nat>): (ids: seq<nat>) {
    (if b.Some? then [b.value] else []) + queue
  }

  lemma NextBlocked(control: seq<Frame>, b: Option<nat>, queue: seq<nat>, before: seq<nat>)
    requires if b.Some? then before == [b.value] + queue else before == queue == []
    ensures control + BlockedFrames(before) == control + BlockedFrames(Waiting(b, queue))
  {
  }

  lemma FirstBlocked(control: seq<Frame>, id: nat, queue: seq<nat>)
    ensures control + BlockedFrames(Waiting(Some(id), queue)) == control + [Blocked(id)] + BlockedFrames(queue)
  {
  }

  method LeadLength(h: Header, lead: seq<Frame>) returns (n: nat)
    requires AllEncodable(lead)
    ensures n == PayloadLength(h, lead)
  {
    hide FrameLength, Encodable;
    n := 0;
    var i := |lead|;
    while i > 0
      invariant 0 <= i <= |lead| && AllEncodable(lead[i..]) && n == PayloadLength(h, lead[i..])
    {
      i := i - 1;
      assert lead[i..][1..] == lead[i + 1..];
      n := n + FrameLength(h, lead[i]);
    }
    assert lead[0..] == lead;
  }

  // what a packet is made of after STOP_WAITING and ACK: control frames, the length up to here, STREAM frames,
  // how many of them are retransmissions, how many streams had their turn, and the BLOCKED frames that came
  datatype Picked = Picked(taken: seq<Frame>, fs: seq<StreamFrame>, length: nat, again: nat, visited: nat,
                           blocked: seq<nat>)

  // every stream that was blocked before is announced, and exactly those that the new frames block
  ghost predicate Announced(queue: seq<nat>, m: Flow.Manager, p: Picked) {
    p.again <= |p.fs| && queue <= p.blocked && IsBlocking(m, p.fs[p.again..], p.blocked[|queue|..])
  }

  lemma IsAnnounced(queue: seq<nat>, m: Flow.Manager, p: Picked)
    requires p.again <= |p.fs| && p.blocked == queue + AllBlocked(m, p.fs[p.again..])
    requires IsBlocking(m, p.fs[p.again..], AllBlocked(m, p.fs[p.again..]))
    ensures Announced(queue, m, p)
  {
    hide IsBlocking, AllBlocked;
    assert p.blocked[|queue|..] == AllBlocked(m, p.fs[p.again..]);
  }

  // the next control frame would not have fitted
  ghost predicate Greedy(h: Header, lead: seq<Frame>, before: seq<Frame>, taken: seq<Frame>, length: nat, max: nat) {
    AllEncodable(lead + taken) && length == PayloadLength(h, lead + taken) && |taken| <= |before| &&
    (|taken| < |before| ==>
      var next := before[|before| - |taken| - 1]; Encodable(next) && length + FrameLength(h, next) > max)
  }

  lemma IsGreedy(h: Header, lead: seq<Frame>, before: seq<Frame>, left: seq<Frame>, taken: seq<Frame>, length: nat,
                 max: nat)
    requires left + Reverse(taken) == before && AllEncodable(lead + taken) &&
             length == PayloadLength(h, lead + taken)
    requires left != [] ==> Encodable(left[|left| - 1]) && length + FrameLength(h, left[|left| - 1]) > max
    ensures Greedy(h, lead, before, taken, length, max)
  {
    hide FrameLength, PayloadLength, Encodable;
    assert left == before[..|left|];
  }

  // some control frames left from the end, and BLOCKED frames came
  ghost predicate Keeps(before: seq<Frame>, after: seq<Frame>, taken: seq<Frame>, blocked: seq<nat>) {
    AllControl(taken) && |taken| <= |before| &&
    var n := |before| - |taken|;
    before == before[..n] + Reverse(taken) && after == before[..n] + BlockedFrames(blocked)
  }

  lemma LeftKeeps(control: seq<Frame>, left: seq<Frame>, taken: seq<Frame>)
    requires left + Reverse(taken) == control && AllControl(taken)
    ensures Keeps(control, left, taken, []) && (taken == [] ==> left == control)
  {
    assert left == control[..|left|];
    assert taken == [] ==> Reverse(taken) == [];
    assert left + BlockedFrames([]) == left;
  }

  lemma KeepsMore(control: seq<Frame>, left: seq<Frame>, taken: seq<Frame>, blocked: seq<nat>)
    requires Keeps(control, left, taken, [])
    ensures Keeps(control, left + BlockedFrames(blocked), taken, blocked)
    ensures blocked == [] ==> left + BlockedFrames(blocked) == left
  {
    assert BlockedFrames([]) == [];
  }

  ghost predicate AcksValid(acks: map<Byte, (AckFrame, nat)>) {
    forall p :: p in acks ==> AckWire.WellFormed(acks[p].0) && Receivable(acks[p].0)
  }
}
