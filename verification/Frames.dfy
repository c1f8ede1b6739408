/**
  The frames of a packet on the wire, other than the ACK frame itself: STREAM, RST_STREAM,
  WINDOW_UPDATE, BLOCKED, STOP_WAITING and PING.
 */
module Frames {
  import opened Basics
  import opened ByteOrder
  import opened AckWire
  import opened PacketNumber
  import Float16

  const MAX_PACKET_SIZE: nat := 1350

  // ----- STREAM

  datatype StreamFrame = StreamFrame(id: nat, fin: bool, hasLength: bool, offset: nat, data: seq<Byte>)

  function IdLength(id: nat): (n: nat)
    ensures 1 <= n <= 4 && (id < 0x1_0000_0000 ==> id < Pow256(n)) && (n > 1 ==> id >= Pow256(n - 1))
  {
    Powers();
    if id < 0x100 then 1 else if id < 0x1_0000 then 2 else if id < 0x100_0000 then 3 else 4
  }

  // there is no length 1, so that the lengths fit into three bits
  function OffsetLength(offset: nat): (n: nat)
    ensures (n == 0 || 2 <= n <= 8) && (offset < TWO_64 ==> offset < Pow256(n))
    ensures (n == 0 <==> offset == 0) && (n > 2 ==> offset >= Pow256(n - 1))
  {
    Powers();
    if offset == 0 then 0
    else if offset < 0x1_0000 then 2
    else if offset < 0x100_0000 then 3
    else if offset < 0x1_0000_0000 then 4
    else if offset < 0x100_0000_0000 then 5
    else if offset < 0x1_0000_0000_0000 then 6
    else if offset < 0x100_0000_0000_0000 then 7
    else 8
  }

  function OffsetCode(length: nat): (c: nat)
    requires length == 0 || 2 <= length <= 8
    ensures c < 8
  {
    if length == 0 then 0 else length - 1
  }

  function StreamTypeByte(fin: bool, hasLength: bool, offsetLength: nat, idLength: nat): (t: Byte)
    requires (offsetLength == 0 || 2 <= offsetLength <= 8) && 1 <= idLength <= 4
    ensures t >= 0x80
  {
    0x80 + (if fin then 0x40 else 0) + (if hasLength then 0x20 else 0) + 4 * OffsetCode(offsetLength) + (idLength - 1)
  }

  function HeaderLength(f: StreamFrame): (n: nat)
    ensures n >= 2
  {
    1 + IdLength(f.id) + OffsetLength(f.offset) + if f.hasLength then 2 else 0
  }

  function EncodeStream(o: Order, f: StreamFrame): (bytes: seq<Byte>)
    ensures |bytes| == HeaderLength(f) + |f.data| && bytes[0] >= 0x80
  {
    [StreamTypeByte(f.fin, f.hasLength, OffsetLength(f.offset), IdLength(f.id))] + Write(o, f.id, IdLength(f.id)) +
    Write(o, f.offset, OffsetLength(f.offset)) + (if f.hasLength then Write(o, |f.data|, 2) else []) + f.data
  }

  // the length of the data and the input after it; without a length, the data is the rest
  function ReadDataLength(o: Order, hasLength: bool, input: seq<Byte>): (r: Result<(nat, seq<Byte>)>) {
    if hasLength then
      var (n, rest) :- Read(o, input, 2);
      if n > MAX_PACKET_SIZE then Err(InvalidStreamData) else Ok((n, rest))
    else Ok((|input| % 0x1_0000, input))
  }

  function CheckedData(id: nat, fin: bool, hasLength: bool, offset: nat, n: nat,
                       input: seq<Byte>): (r: Result<(StreamFrame, seq<Byte>)>) {
    if |input| < n then Err(EndOfInput)
    else if offset + n >= TWO_64 then Err(InvalidStreamData)
    else if !fin && n == 0 then Err(EmptyStreamFrame)
    else Ok((StreamFrame(id, fin, hasLength, offset, input[..n]), input[n..]))
  }

  function ParseStream(o: Order, input: seq<Byte>): (r: Result<(StreamFrame, seq<Byte>)>)
    ensures r.Ok? ==> |r.value.1| < |input| && (r.value.0.fin || r.value.0.data != [])
    ensures r.Ok? ==> r.value.0.offset + |r.value.0.data| < TWO_64
  {
    var (t, i1) :- ReadByte(input);
    var fin, hasLength := t / 0x40 % 2 == 1, t / 0x20 % 2 == 1;
    var code := t / 4 % 8;
    var offsetLength := if code == 0 then 0 else code + 1;
    var (id, i2) :- Read(o, i1, t % 4 + 1);
    var (offset, i3) :- Read(o, i2, offsetLength);
    var (n, i4) :- ReadDataLength(o, hasLength, i3);
    CheckedData(id, fin, hasLength, offset, n, i4)
  }

  // A length that is given is no more than a packet has room for, and without one the data is the rest, unless that
  // has more than 16 bits.
  lemma ParsedDataIsBounded(o: Order, input: seq<Byte>)
    ensures
      var r := ParseStream(o, input);
      r.Ok? ==>
        var (f, rest) := r.value;
        if f.hasLength then |f.data| <= MAX_PACKET_SIZE
        else |f.data| < 0x1_0000 && (|f.data| + |rest| < 0x1_0000 ==> rest == [])
  {
    hide Read, ReadByte;
  }

  // a frame that may be sent
  predicate FitsWire(f: StreamFrame) {
    f.id < 0x1_0000_0000 && f.offset + |f.data| < TWO_64 && (f.data != [] || f.fin) &&
    |f.data| <= if f.hasLength then MAX_PACKET_SIZE else 0xFFFF
  }

  lemma StreamBitFields(f: nat, l: nat, o: nat, d: nat)
    requires f < 2 && l < 2 && o < 8 && d < 4
    ensures
      var t := 0x80 + 0x40 * f + 0x20 * l + 4 * o + d;
      t / 0x40 % 2 == f && t / 0x20 % 2 == l && t / 4 % 8 == o && t % 4 == d
  {
    var t := 0x80 + 0x40 * f + 0x20 * l + 4 * o + d;
    assert t / 0x40 == 2 + f && t / 0x20 == 4 + 2 * f + l && t / 4 == 32 + 16 * f + 8 * l + o;
  }

  lemma StreamTypeByteFields(fin: bool, hasLength: bool, offsetLength: nat, idLength: nat)
    requires (offsetLength == 0 || 2 <= offsetLength <= 8) && 1 <= idLength <= 4
    ensures
      var t := StreamTypeByte(fin, hasLength, offsetLength, idLength);
      t / 0x40 % 2 == (if fin then 1 else 0) && t / 0x20 % 2 == (if hasLength then 1 else 0) &&
      t / 4 % 8 == OffsetCode(offsetLength) && t % 4 == idLength - 1
  {
    hide OffsetCode;
    StreamBitFields(if fin then 1 else 0, if hasLength then 1 else 0, OffsetCode(offsetLength), idLength - 1);
  }

  lemma DataRoundTrip(o: Order, f: StreamFrame, rest: seq<Byte>)
    requires FitsWire(f) && (f.hasLength || rest == [])
    ensures ReadDataLength(o, f.hasLength, (if f.hasLength then Write(o, |f.data|, 2) else []) + (f.data + rest)) ==
            Ok((|f.data|, f.data + rest))
    ensures CheckedData(f.id, f.fin, f.hasLength, f.offset, |f.data|, f.data + rest) == Ok((f, rest))
  {
    hide Write, Read;
    Powers();
    if f.hasLength {
      WriteThenRead(o, |f.data|, 2, f.data + rest);
    } else {
      assert [] + (f.data + rest) == f.data + rest;
    }
    assert (f.data + rest)[..|f.data|] == f.data && (f.data + rest)[|f.data|..] == rest;
  }

  // the fields of a STREAM frame, read one after the other
  lemma StreamSteps(o: Order, f: StreamFrame, i0: seq<Byte>, t: Byte, i1: seq<Byte>, i2: seq<Byte>, i3: seq<Byte>,
                    i4: seq<Byte>, rest: seq<Byte>)
    requires ReadByte(i0) == Ok((t, i1))
    requires t / 0x40 % 2 == (if f.fin then 1 else 0) && t / 0x20 % 2 == (if f.hasLength then 1 else 0)
    requires t / 4 % 8 == OffsetCode(OffsetLength(f.offset)) && t % 4 == IdLength(f.id) - 1
    requires Read(o, i1, IdLength(f.id)) == Ok((f.id, i2)) && Read(o, i2, OffsetLength(f.offset)) == Ok((f.offset, i3))
    requires ReadDataLength(o, f.hasLength, i3) == Ok((|f.data|, i4))
    requires CheckedData(f.id, f.fin, f.hasLength, f.offset, |f.data|, i4) == Ok((f, rest))
    ensures ParseStream(o, i0) == Ok((f, rest))
  {
    hide Read, ReadByte, ReadDataLength, CheckedData, OffsetLength, IdLength;
  }

  lemma RegroupStream(a: seq<Byte>, b: seq<Byte>, c: seq<Byte>, d: seq<Byte>, e: seq<Byte>, rest: seq<Byte>)
    ensures a + b + c + d + e + rest == a + (b + (c + (d + (e + rest))))
  {
  }

  // A frame that may be sent is read back, with what follows it; without a length, nothing may follow.
  lemma StreamRoundTrip(o: Order, f: StreamFrame, rest: seq<Byte>)
    requires FitsWire(f) && (f.hasLength || rest == [])
    ensures ParseStream(o, EncodeStream(o, f) + rest) == Ok((f, rest))
  {
    hide Read, ReadByte, Write, ReadDataLength, CheckedData, StreamTypeByte, OffsetLength, IdLength, ParseStream;
    var t := StreamTypeByte(f.fin, f.hasLength, OffsetLength(f.offset), IdLength(f.id));
    StreamTypeByteFields(f.fin, f.hasLength, OffsetLength(f.offset), IdLength(f.id));
    var id, offset := Write(o, f.id, IdLength(f.id)), Write(o, f.offset, OffsetLength(f.offset));
    var length := if f.hasLength then Write(o, |f.data|, 2) else [];
    var i4 := f.data + rest;
    var i3 := length + i4;
    var i2 := offset + i3;
    var i1 := id + i2;
    RegroupStream([t], id, offset, length, f.data, rest);
    WriteThenReadByte(t, i1);
    WriteThenRead(o, f.id, IdLength(f.id), i2);
    WriteThenRead(o, f.offset, OffsetLength(f.offset), i3);
    DataRoundTrip(o, f, rest);
    StreamSteps(o, f, [t] + i1, t, i1, i2, i3, i4, rest);
  }

  // ----- the other frames

  datatype Frame =
    | Stream(stream: StreamFrame)
    | Ack(ack: AckFrame, delay: nat)
    | StopWaiting(leastUnacked: nat)
    | WindowUpdate(id: nat, byteOffset: nat)
    | Blocked(id: nat)
    | RstStream(id: nat, byteOffset: nat, errorCode: nat)
    | Ping

  // the number of the packet that carries the frames, and the bytes of it that are sent
  datatype Header = Header(number: nat, numberLength: nat)

  // which frames survive being sent
  ghost predicate Transmittable(h: Header, f: Frame) {
    match f
    case Stream(s) => FitsWire(s)
    case Ack(a, _) => AckWire.WellFormed(a) && Receivable(a) && FirstGapFits(a)
    case StopWaiting(least) => 0 < least <= h.number && h.number - least < Pow256(h.numberLength)
    case WindowUpdate(id, offset) => id < 0x1_0000_0000 && offset < TWO_64
    case Blocked(id) => id < 0x1_0000_0000
    case RstStream(id, offset, code) => id < 0x1_0000_0000 && offset < TWO_64 && code < 0x1_0000_0000
    case Ping => true
  }

  // ranges that an ACK frame can have
  ghost predicate Encodable(f: Frame) {
    f.Ack? ==> AckWire.WellFormed(f.ack)
  }

  // Which frames can be written: the first gap of an ACK frame fits, and a STOP_WAITING frame goes with a
  // packet that is not before the one it names.
  predicate CanWrite(h: Header, f: Frame)
    requires Encodable(f)
  {
    match f
    case Ack(a, _) => FirstGapFits(a)
    case StopWaiting(least) => 0 < h.number && least <= h.number
    case _ => true
  }

  // how far a STOP_WAITING frame goes back
  function Delta(h: Header, least: nat): (d: nat) {
    if least <= h.number then h.number - least else 0
  }

  function EncodeFrame(o: Order, h: Header, f: Frame): (bytes: seq<Byte>)
    requires Encodable(f)
  {
    match f
    case Stream(s) => EncodeStream(o, s)
    case Ack(a, delay) => Encode(o, a, delay)
    case StopWaiting(least) => [6] + Write(o, Delta(h, least), h.numberLength)
    case WindowUpdate(id, offset) => [4] + Write(o, id, 4) + Write(o, offset, 8)
    case Blocked(id) => [5] + Write(o, id, 4)
    case RstStream(id, offset, code) => [1] + Write(o, id, 4) + Write(o, offset, 8) + Write(o, code, 4)
    case Ping => [7]
  }

  // where the fields are: the type, then the fields one after the other
  ghost predicate IsLaidOut(o: Order, h: Header, f: Frame, b: seq<Byte>) {
    match f
    case Stream(_) => |b| > 0 && b[0] >= 0x80
    case Ack(_, _) => |b| > 0 && 0x40 <= b[0] < 0x80
    case StopWaiting(least) =>
      |b| == 1 + h.numberLength && b[0] == 6 &&
      (least <= h.number ==> b[1..] == Write(o, h.number - least, h.numberLength))
    case WindowUpdate(id, offset) =>
      |b| == 13 && b[0] == 4 && b[1..5] == Write(o, id, 4) && b[5..] == Write(o, offset, 8)
    case Blocked(id) => |b| == 5 && b[0] == 5 && b[1..] == Write(o, id, 4)
    case RstStream(id, offset, code) =>
      |b| == 17 && b[0] == 1 && b[1..5] == Write(o, id, 4) && b[5..13] == Write(o, offset, 8) &&
      b[13..] == Write(o, code, 4)
    case Ping => b == [7]
  }

  lemma FrameLayout(o: Order, h: Header, f: Frame)
    requires Encodable(f)
    ensures IsLaidOut(o, h, f, EncodeFrame(o, h, f))
  {
    hide Write, EncodeStream, Encode;
    if f.Ack? { AckTypeByte(o, f.ack, f.delay); }
    if f.Stream? { StreamStarts(o, f.stream); }
  }

  lemma StreamStarts(o: Order, f: StreamFrame)
    ensures EncodeStream(o, f) != [] && EncodeStream(o, f)[0] >= 0x80
  {
  }

  lemma StreamLayout(o: Order, f: StreamFrame)
    ensures
      var b, i := EncodeStream(o, f), 1 + IdLength(f.id);
      var j := i + OffsetLength(f.offset);
      var k := j + if f.hasLength then 2 else 0;
      |b| == k + |f.data| && b[1..i] == Write(o, f.id, IdLength(f.id)) &&
      b[i..j] == Write(o, f.offset, OffsetLength(f.offset)) && (f.hasLength ==> b[j..k] == Write(o, |f.data|, 2)) &&
      b[k..] == f.data
  {
    hide Write, StreamTypeByte, IdLength, OffsetLength;
    var t := StreamTypeByte(f.fin, f.hasLength, OffsetLength(f.offset), IdLength(f.id));
    var id, offset := Write(o, f.id, IdLength(f.id)), Write(o, f.offset, OffsetLength(f.offset));
    var length := if f.hasLength then Write(o, |f.data|, 2) else [];
    Slices([t], id, offset, length, f.data, []);
    assert EncodeStream(o, f) == [t] + id + offset + length + f.data + [];
  }

  lemma StreamTypeLayout(o: Order, f: StreamFrame)
    ensures
      var t := EncodeStream(o, f)[0];
      t >= 0x80 && t / 0x40 % 2 == (if f.fin then 1 else 0) && t / 0x20 % 2 == (if f.hasLength then 1 else 0) &&
      t % 4 == IdLength(f.id) - 1 && t / 4 % 8 == if f.offset == 0 then 0 else OffsetLength(f.offset) - 1
  {
    hide Write, StreamTypeByte, IdLength;
    StreamTypeByteFields(f.fin, f.hasLength, OffsetLength(f.offset), IdLength(f.id));
  }

  // the length that is announced before writing; for a STREAM frame it leaves out the data
  function FrameLength(h: Header, f: Frame): (n: nat)
    requires Encodable(f)
  {
    match f
    case Stream(s) => HeaderLength(s) + |s.data|
    case Ack(a, _) => MinLength(a)
    case StopWaiting(_) => 1 + h.numberLength
    case WindowUpdate(_, _) => 1 + 4 + 8
    case Blocked(_) => 1 + 4
    case RstStream(_, _, _) => 1 + 4 + 8 + 4
    case Ping => 1
  }

  lemma FrameLengthIsExact(o: Order, h: Header, f: Frame)
    requires Encodable(f)
    ensures |EncodeFrame(o, h, f)| == FrameLength(h, f)
  {
    hide EncodeStream, HeaderLength, Encode, MinLength, Write;
    if f.Ack? { EncodedLength(o, f.ack, f.delay); }
  }

  // what arrives: the lowest ranges of an ACK may be missing, and its delay is rounded
  function Arriving(f: Frame): (g: Frame)
    requires f.Ack? ==> AckWire.WellFormed(f.ack)
  {
    if f.Ack? then Ack(Sent(f.ack), Float16.Decode(Float16.Representation(f.delay))) else f
  }

  function ParseStopWaiting(o: Order, h: Header, input: seq<Byte>): (r: Result<(Frame, seq<Byte>)>)
    requires h.numberLength in {1, 2, 4, 6}
    ensures r.Ok? ==> r.value.0.StopWaiting? && 0 < r.value.0.leastUnacked <= h.number && |r.value.1| <= |input|
  {
    var (delta, rest) :- Read(o, input, h.numberLength);
    if delta >= h.number then Err(InvalidStopWaitingData) else Ok((StopWaiting(h.number - delta), rest))
  }

  function ParseWindowUpdate(o: Order, input: seq<Byte>): (r: Result<(Frame, seq<Byte>)>)
    ensures r.Ok? ==> |r.value.1| <= |input|
  {
    var (id, i1) :- Read(o, input, 4);
    var (offset, i2) :- Read(o, i1, 8);
    Ok((WindowUpdate(id, offset), i2))
  }

  function ParseBlocked(o: Order, input: seq<Byte>): (r: Result<(Frame, seq<Byte>)>)
    ensures r.Ok? ==> |r.value.1| <= |input|
  {
    var (id, i1) :- Read(o, input, 4);
    Ok((Blocked(id), i1))
  }

  function ParseRstStream(o: Order, input: seq<Byte>): (r: Result<(Frame, seq<Byte>)>)
    ensures r.Ok? ==> |r.value.1| <= |input|
  {
    var (id, i1) :- Read(o, input, 4);
    var (offset, i2) :- Read(o, i1, 8);
    var (code, i3) :- Read(o, i2, 4);
    Ok((RstStream(id, offset, code), i3))
  }

  // the frames that are told apart by the whole type byte
  function ParseByType(o: Order, h: Header, t: Byte, input: seq<Byte>): (r: Result<(Frame, seq<Byte>)>)
    requires h.numberLength in {1, 2, 4, 6}
    ensures r.Ok? ==> |r.value.1| <= |input|
  {
    match t
    case 1 => ParseRstStream(o, input)
    case 4 => ParseWindowUpdate(o, input)
    case 5 => ParseBlocked(o, input)
    case 6 => ParseStopWaiting(o, h, input)
    case 7 => Ok((Ping, input))
    case _ => if t in {2, 3, 0x10, 0x11, 0x12} then Err(Unsupported) else Err(UnknownType)
  }

  // one frame; the type byte tells which
  function ParseFrame(o: Order, h: Header, encrypted: bool, input: seq<Byte>): (r: Result<(Frame, seq<Byte>)>)
    requires h.numberLength in {1, 2, 4, 6} && input != []
    ensures r.Ok? ==> |r.value.1| < |input|
  {
    var t := input[0];
    if t >= 0x80 then
      var (s, rest) :- ParseStream(o, input);
      if s.id != 1 && !encrypted then Err(UnencryptedStreamData) else Ok((Stream(s), rest))
    else if t >= 0x40 then
      var (a, delay, rest) :- Parse(o, input);
      Ok((Ack(a, delay), rest))
    else if t >= 0x20 then Err(Unsupported)
    else ParseByType(o, h, t, input[1..])
  }

  // Without encryption only the crypto stream is accepted, and all other frames as they are.
  lemma EncryptionMatters(o: Order, h: Header, input: seq<Byte>)
    requires h.numberLength in {1, 2, 4, 6} && input != []
    ensures
      var r := ParseFrame(o, h, true, input);
      ParseFrame(o, h, false, input) ==
      if r.Ok? && r.value.0.Stream? && r.value.0.stream.id != 1 then Err(UnencryptedStreamData) else r
  {
    hide ParseStream, Parse;
    ByTypeIsNoStream(o, h, input[0], input[1..]);
    hide ParseByType;
  }

  lemma ByTypeIsNoStream(o: Order, h: Header, t: Byte, input: seq<Byte>)
    requires h.numberLength in {1, 2, 4, 6}
    ensures ParseByType(o, h, t, input).Ok? ==> !ParseByType(o, h, t, input).value.0.Stream?
  {
    hide Read;
  }

  lemma Regroup3(a: seq<Byte>, b: seq<Byte>, c: seq<Byte>, d: seq<Byte>, rest: seq<Byte>)
    ensures a + b + rest == a + (b + rest) && a + b + c + rest == a + (b + (c + rest))
    ensures a + b + c + d + rest == a + (b + (c + (d + rest)))
  {
  }

  lemma ByType(o: Order, h: Header, encrypted: bool, t: Byte, body: seq<Byte>)
    requires h.numberLength in {1, 2, 4, 6} && t < 0x20
    ensures ParseFrame(o, h, encrypted, [t] + body) == ParseByType(o, h, t, body)
  {
    hide ParseByType, ParseStream, Parse;
    assert ([t] + body)[1..] == body;
  }

  // What is read back of a STOP_WAITING frame: the delta is cut to the bytes of the packet number.
  lemma StopWaitingArrives(o: Order, h: Header, encrypted: bool, least: nat, rest: seq<Byte>)
    requires h.numberLength in {1, 2, 4, 6} && least <= h.number
    ensures
      var delta := (h.number - least) % Pow256(h.numberLength);
      ParseFrame(o, h, encrypted, EncodeFrame(o, h, StopWaiting(least)) + rest) ==
      if delta >= h.number then Err(InvalidStopWaitingData) else Ok((StopWaiting(h.number - delta), rest))
  {
    hide Read, Write, ParseFrame, Pow256;
    var delta := Write(o, h.number - least, h.numberLength);
    Regroup3([6], delta, [], [], rest);
    WriteThenReadLow(o, h.number - least, h.numberLength, rest);
    ByType(o, h, encrypted, 6, delta + rest);
  }

  // A STOP_WAITING frame arrives if and only if its delta fits into the bytes of the packet number.
  lemma StopWaitingIsExact(o: Order, h: Header, encrypted: bool, least: nat, rest: seq<Byte>)
    requires h.numberLength in {1, 2, 4, 6} && least <= h.number
    ensures
      var r := ParseFrame(o, h, encrypted, EncodeFrame(o, h, StopWaiting(least)) + rest);
      (r == Ok((StopWaiting(least), rest)) <==> 0 < least && h.number - least < Pow256(h.numberLength)) &&
      (r.Ok? && r.value.0 == StopWaiting(least) ==> r == Ok((StopWaiting(least), rest)))
  {
    hide ParseFrame, EncodeFrame, Pow256;
    StopWaitingArrives(o, h, encrypted, least, rest);
    var delta, p := h.number - least, Pow256(h.numberLength);
    assert 0 <= delta % p < p;
    if delta < p { Remainder(delta, p, 0, delta); }
  }

  // With two bytes, packet 0x2_0000 asks to stop waiting below 1, and the peer stops below 0x1_0001.
  lemma CutExample(o: Order)
    ensures
      var h := Header(0x2_0000, 2);
      ParseFrame(o, h, true, EncodeFrame(o, h, StopWaiting(1)) + []) == Ok((StopWaiting(0x1_0001), []))
  {
    hide ParseFrame, EncodeFrame, Pow256;
    Powers();
    StopWaitingArrives(o, Header(0x2_0000, 2), true, 1, []);
  }

  // The header's length, chosen from a least unacked number that is no greater than the frame's, has room
  // for the delta, unless that has more than 48 bits.
  lemma HeaderHasRoom(number: nat, leastUnacked: nat, least: nat)
    requires leastUnacked <= least <= number < TWO_64
    ensures number - least < Pow256(LengthForHeader(number, leastUnacked)) <==> number - least < 0x1_0000_0000_0000
  {
    hide Pow256;
    Powers();
    assert Wrap(number - leastUnacked) == number - leastUnacked;
  }

  lemma ControlRoundTrip(o: Order, h: Header, encrypted: bool, f: Frame, rest: seq<Byte>)
    requires h.numberLength in {1, 2, 4, 6} && Transmittable(h, f) && !f.Stream? && !f.Ack?
    ensures ParseFrame(o, h, encrypted, EncodeFrame(o, h, f) + rest) == Ok((f, rest))
  {
    hide Read, Write, ParseFrame;
    Powers();
    match f
    case StopWaiting(least) =>
      StopWaitingIsExact(o, h, encrypted, least, rest);
    case WindowUpdate(id, offset) =>
      var a, b := Write(o, id, 4), Write(o, offset, 8);
      Regroup3([4], a, b, [], rest);
      WriteThenRead(o, id, 4, b + rest);
      WriteThenRead(o, offset, 8, rest);
      ByType(o, h, encrypted, 4, a + (b + rest));
    case Blocked(id) =>
      var a := Write(o, id, 4);
      Regroup3([5], a, [], [], rest);
      WriteThenRead(o, id, 4, rest);
      ByType(o, h, encrypted, 5, a + rest);
    case RstStream(id, offset, code) =>
      var a, b, c := Write(o, id, 4), Write(o, offset, 8), Write(o, code, 4);
      Regroup3([1], a, b, c, rest);
      WriteThenRead(o, id, 4, b + (c + rest));
      WriteThenRead(o, offset, 8, c + rest);
      WriteThenRead(o, code, 4, rest);
      ByType(o, h, encrypted, 1, a + (b + (c + rest)));
    case Ping =>
      ByType(o, h, encrypted, 7, rest);
  }

  // The converse: a frame of these kinds is only accepted from the bytes that are written for it.
  lemma ControlIsUnique(o: Order, h: Header, encrypted: bool, input: seq<Byte>)
    requires h.numberLength in {1, 2, 4, 6} && input != [] && ParseFrame(o, h, encrypted, input).Ok?
    requires input[0] < 0x40
    ensures
      var (f, rest) := ParseFrame(o, h, encrypted, input).value;
      Transmittable(h, f) && !f.Stream? && !f.Ack? && input == EncodeFrame(o, h, f) + rest
  {
    hide Read, Write, Transmittable;
    var t, body := input[0], input[1..];
    assert input == [t] + body;
    if t == 1 {
      RstStreamIsUnique(o, h, body);
    } else if t == 4 {
      WindowUpdateIsUnique(o, h, body);
    } else if t == 5 {
      BlockedIsUnique(o, h, body);
    } else if t == 6 {
      StopWaitingIsUnique(o, h, body);
    } else {
      assert t == 7;
      PingIsUnique(h);
    }
  }

  lemma PingIsUnique(h: Header)
    ensures Transmittable(h, Ping)
  {
  }

  lemma BlockedIsUnique(o: Order, h: Header, body: seq<Byte>)
    requires ParseBlocked(o, body).Ok?
    ensures var (f, rest) := ParseBlocked(o, body).value;
            f.Blocked? && Transmittable(h, f) && [5] + body == EncodeFrame(o, h, f) + rest
  {
    hide Read, Write, Pow256;
    Powers();
    ReadThenWrite(o, body, 4);
    var a, rest := Write(o, Read(o, body, 4).value.0, 4), Read(o, body, 4).value.1;
    Regroup3([5], a, [], [], rest);
  }

  lemma WindowUpdateIsUnique(o: Order, h: Header, body: seq<Byte>)
    requires ParseWindowUpdate(o, body).Ok?
    ensures var (f, rest) := ParseWindowUpdate(o, body).value;
            f.WindowUpdate? && Transmittable(h, f) && [4] + body == EncodeFrame(o, h, f) + rest
  {
    hide Read, Write, Pow256;
    Powers();
    ReadThenWrite(o, body, 4);
    var a, i1 := Write(o, Read(o, body, 4).value.0, 4), Read(o, body, 4).value.1;
    ReadThenWrite(o, i1, 8);
    Regroup3([4], a, Write(o, Read(o, i1, 8).value.0, 8), [], Read(o, i1, 8).value.1);
  }

  lemma RstStreamIsUnique(o: Order, h: Header, body: seq<Byte>)
    requires ParseRstStream(o, body).Ok?
    ensures var (f, rest) := ParseRstStream(o, body).value;
            f.RstStream? && Transmittable(h, f) && [1] + body == EncodeFrame(o, h, f) + rest
  {
    hide Read, Write, Pow256;
    Powers();
    ReadThenWrite(o, body, 4);
    var a, i1 := Write(o, Read(o, body, 4).value.0, 4), Read(o, body, 4).value.1;
    ReadThenWrite(o, i1, 8);
    var b, i2 := Write(o, Read(o, i1, 8).value.0, 8), Read(o, i1, 8).value.1;
    ReadThenWrite(o, i2, 4);
    Regroup3([1], a, b, Write(o, Read(o, i2, 4).value.0, 4), Read(o, i2, 4).value.1);
  }

  lemma StopWaitingIsUnique(o: Order, h: Header, body: seq<Byte>)
    requires h.numberLength in {1, 2, 4, 6} && ParseStopWaiting(o, h, body).Ok?
    ensures var (f, rest) := ParseStopWaiting(o, h, body).value;
            Transmittable(h, f) && [6] + body == EncodeFrame(o, h, f) + rest
  {
    hide Read, Write, Pow256;
    ReadThenWrite(o, body, h.numberLength);
    var (delta, rest) := Read(o, body, h.numberLength).value;
    Regroup3([6], Write(o, delta, h.numberLength), [], [], rest);
  }

  // What is not read: a type byte from 0x20 to 0x3f, or below 0x20 any but those of the five kinds.
  lemma OtherTypesAreRejected(o: Order, h: Header, encrypted: bool, input: seq<Byte>)
    requires h.numberLength in {1, 2, 4, 6} && input != [] && input[0] < 0x40
    ensures
      var r := ParseFrame(o, h, encrypted, input);
      (r == Err(Unsupported) <==> input[0] >= 0x20 || input[0] in {2, 3, 0x10, 0x11, 0x12}) &&
      (r == Err(UnknownType) <==> input[0] < 0x20 && input[0] !in {1, 2, 3, 4, 5, 6, 7, 0x10, 0x11, 0x12})
  {
    hide ParseStream, Parse;
    OnlyReadFails(o, input[1..]);
  }

  lemma OnlyReadFails(o: Order, input: seq<Byte>)
    ensures ParseRstStream(o, input).Err? ==> ParseRstStream(o, input) == Err(EndOfInput)
    ensures ParseWindowUpdate(o, input).Err? ==> ParseWindowUpdate(o, input) == Err(EndOfInput)
    ensures ParseBlocked(o, input).Err? ==> ParseBlocked(o, input) == Err(EndOfInput)
  {
    hide Value;
  }

  lemma StreamFirst(o: Order, h: Header, s: StreamFrame, rest: seq<Byte>)
    requires h.numberLength in {1, 2, 4, 6} && FitsWire(s) && (s.hasLength || rest == [])
    ensures ParseFrame(o, h, true, EncodeStream(o, s) + rest) == Ok((Stream(s), rest))
  {
    StreamRoundTrip(o, s, rest);
    hide EncodeStream, ParseStream, Parse, ParseByType;
  }

  lemma AckFirst(o: Order, h: Header, a: AckFrame, delay: nat, rest: seq<Byte>)
    requires h.numberLength in {1, 2, 4, 6} && AckWire.WellFormed(a) && Receivable(a) && FirstGapFits(a)
    ensures ParseFrame(o, h, true, Encode(o, a, delay) + rest) == Ok((Arriving(Ack(a, delay)), rest))
  {
    hide Encode, Parse, ParseFrame, Sent, Arriving, AckWire.WellFormed, Receivable, FirstGapFits;
    RoundTrip(o, a, delay, rest);
    AckTypeByte(o, a, delay);
    AckDispatch(o, h, Encode(o, a, delay) + rest, Sent(a), Float16.Decode(Float16.Representation(delay)), rest);
    AckArrives(a, delay);
  }

  lemma AckTypeByte(o: Order, a: AckFrame, delay: nat)
    requires AckWire.WellFormed(a)
    ensures Encode(o, a, delay) != [] && 0x40 <= Encode(o, a, delay)[0] < 0x80
  {
    hide Write, EncodeBlocks, SentBlocks, DeltaLength, LengthFor, FirstLength, Float16.Representation, TypeByte;
    TypeByteFields(a.ranges != [], a.pathID != 0, LengthFor(a.largestAcked), DeltaLength(a));
  }

  lemma AckDispatch(o: Order, h: Header, input: seq<Byte>, a: AckFrame, delay: nat, rest: seq<Byte>)
    requires h.numberLength in {1, 2, 4, 6} && input != [] && 0x40 <= input[0] < 0x80 &&
             Parse(o, input) == Ok((a, delay, rest))
    ensures ParseFrame(o, h, true, input) == Ok((Ack(a, delay), rest))
  {
    hide Parse;
  }

  lemma AckArrives(a: AckFrame, delay: nat)
    requires AckWire.WellFormed(a)
    ensures Arriving(Ack(a, delay)) == Ack(Sent(a), Float16.Decode(Float16.Representation(delay)))
  {
    hide Sent;
  }

  // Every frame that may be sent arrives, whatever follows it in the packet.
  lemma FrameRoundTrip(o: Order, h: Header, f: Frame, rest: seq<Byte>)
    requires h.numberLength in {1, 2, 4, 6} && Transmittable(h, f) && (f.Stream? && !f.stream.hasLength ==> rest == [])
    ensures ParseFrame(o, h, true, EncodeFrame(o, h, f) + rest) == Ok((Arriving(f), rest))
  {
    hide ParseFrame, EncodeStream, Encode, Sent;
    match f
    case Stream(s) => StreamFirst(o, h, s, rest);
    case Ack(a, delay) => AckFirst(o, h, a, delay, rest);
    case _ => ControlRoundTrip(o, h, true, f, rest);
  }
}
