/**
  An acknowledgement from one end to the other: the receiver makes an ACK frame of its history, the
  frame is written, and whenever it arrives it is parsed and the sender takes it in.
 */
module AckEndToEnd {
  import opened Basics
  import opened ByteOrder
  import opened AckWire
  import opened SentPackets
  import opened SentPacketHandling
  import opened ReceivedPackets
  import Float16
  import Frames

  // What arrives acknowledges no more than what was meant, and the same packets from its lowest one up.
  lemma TruncationAcksLess(f: AckFrame, n: nat)
    requires AckWire.WellFormed(f) && FirstGapFits(f)
    ensures AcksPacket(AckWire.Sent(f), n) <==> AcksPacket(f, n) && n >= AckWire.Sent(f).lowestAcked
  {
    if f.ranges != [] {
      FirstGapDecides(f);
      hide AckWire.Writable, SentBlocks, FirstGapFits;
      var k := AckWire.Writable(f.ranges);
      forall i | k <= i < |f.ranges| ensures f.ranges[i].last < f.ranges[k - 1].first { BelowAll(f.ranges, k - 1, i); }
      forall i | 0 <= i < k ensures f.ranges[i].first >= f.ranges[k - 1].first {
        if i < k - 1 { BelowAll(f.ranges, i, k - 1); }
      }
      LowestFirst(f);
    }
  }

  lemma {:induction false} BelowAll(ranges: seq<AckRange>, i: nat, j: nat)
    requires Descending(ranges) && i < j < |ranges|
    ensures ranges[j].last < ranges[i].first
    decreases j
  {
    assert ranges[j - 1].first > ranges[j].last + 1;
    if i + 1 < j { BelowAll(ranges, i, j - 1); }
  }

  lemma LowestFirst(f: AckFrame)
    requires AckWire.WellFormed(f) && f.ranges != []
    ensures forall i :: 0 <= i < |f.ranges| ==> f.lowestAcked <= f.ranges[i].first && f.ranges[i].last <= f.largestAcked
  {
    var n := |f.ranges| - 1;
    forall i | 0 <= i < |f.ranges| ensures f.lowestAcked <= f.ranges[i].first && f.ranges[i].last <= f.largestAcked {
      FirstBelow(f.ranges, i);
      if i < n { BelowAll(f.ranges, i, n); }
    }
  }

  // A frame that acknowledges only packets that were sent is neither about unsent nor about skipped ones.
  lemma HonestFrame(sender: SentPacketHandler, f: AckFrame, withPacketNumber: nat)
    requires sender.Valid() && AcksPacket(f, f.largestAcked) &&
             forall n: nat :: AcksPacket(f, n) ==> n in sender.numbers
    ensures var r := sender.Verdict(f, withPacketNumber); !r.UnsentPacket? && !r.SkippedPacket?
  {
    hide AcksPacket, Accounted, InFlight, Queued;
  }

  lemma OnlyReceived(h: seq<Packet>, f: AckFrame, received: set<nat>)
    requires forall n: nat :: AcksPacket(f, n) ==> n in received
    ensures forall p :: p in multiset(Select(h, AckTest(f))) ==> p.number in received
  {
    hide AcksPacket, Select;
    forall p | p in multiset(Select(h, AckTest(f))) ensures p.number in received {
      assert p in Select(h, AckTest(f));
    }
  }

  lemma ArrivesHonest(f: AckFrame, received: set<nat>)
    requires AckWire.WellFormed(f) && FirstGapFits(f) && AcksPacket(f, f.largestAcked) &&
             forall n: nat :: AcksPacket(f, n) ==> n in received
    ensures
      var g := AckWire.Sent(f);
      AcksPacket(g, g.largestAcked) && forall n: nat :: AcksPacket(g, n) ==> n in received
  {
    var g := AckWire.Sent(f);
    SentIsValid(f);
    TruncationAcksLess(f, g.largestAcked);
    hide AcksPacket, FirstGapFits;
    forall n: nat | AcksPacket(g, n) ensures n in received { TruncationAcksLess(f, n); }
  }

  lemma AllReported(h: seq<Packet>, f: AckFrame)
    ensures forall p :: p in h && AcksPacket(f, p.number) ==> p in multiset(Select(h, AckTest(f)))
  {
    hide AcksPacket, Select;
    forall p | p in h && AcksPacket(f, p.number) ensures p in multiset(Select(h, AckTest(f))) {
      assert p in Select(h, AckTest(f));
    }
  }

  // ----- how much of the history a frame reports

  // the gap below the highest interval is short enough to be written
  predicate TopGapFits(rs: seq<Interval>) {
    |rs| < 2 || rs[|rs| - 1].start - rs[|rs| - 2].end - 1 <= 254 * 255
  }

  // the blocks that all intervals below the highest one take up on the wire
  ghost function BlocksNeeded(rs: seq<Interval>): (n: nat)
    requires Separated(rs)
  {
    DownwardDescends(rs);
    |BlocksOf(Downward(rs), |rs|)|
  }

  // the number of intervals, from the highest down, that are written
  ghost function Reported(rs: seq<Interval>): (k: nat)
    requires Separated(rs) && rs != []
    ensures 1 <= k <= |rs|
  {
    DownwardDescends(rs);
    Writable(Downward(rs))
  }

  ghost function LowestReported(rs: seq<Interval>): (n: nat)
    requires Separated(rs) && rs != []
  {
    rs[|rs| - Reported(rs)].start
  }

  // As many intervals are reported as 254 blocks can hold, and all of them exactly if they fit.
  lemma ReportedIsLongest(rs: seq<Interval>)
    requires Separated(rs) && rs != []
    ensures Descending(Downward(rs)) && |BlocksOf(Downward(rs), Reported(rs))| <= 254
    ensures Reported(rs) < |rs| ==> |BlocksOf(Downward(rs), Reported(rs) + 1)| > 254
    ensures BlocksNeeded(rs) <= 254 <==> LowestReported(rs) == rs[0].start
    ensures BlocksNeeded(rs) <= 254 ==> forall n: nat :: Has(rs, n) ==> n >= LowestReported(rs)
  {
    DownwardDescends(rs);
    WritableIsLongest(Downward(rs));
    hide BlocksOf, Writable, Downward, Descending;
    if Reported(rs) < |rs| {
      BlocksGrow(Downward(rs), Reported(rs) + 1, |rs|);
      assert rs[0].end < rs[|rs| - Reported(rs)].start;
    }
    forall n: nat | Has(rs, n) ensures n >= rs[0].start {
      var r :| r in rs && Covers(r, n);
      var k :| 0 <= k < |rs| && rs[k] == r;
    }
  }

  lemma FrameOnWire(pathID: Byte, largest: nat, rs: seq<Interval>)
    requires Separated(rs) && rs != [] && rs[|rs| - 1].end == largest < TWO_48
    ensures
      var f := FrameOf(pathID, largest, Downward(rs));
      AckWire.WellFormed(f) && (FirstGapFits(f) <==> TopGapFits(rs)) &&
      AckWire.Sent(f).lowestAcked == LowestReported(rs) && AckWire.Sent(f).largestAcked == largest
  {
    FrameIsWellFormed(pathID, largest, rs);
    hide Writable, Separated;
  }

  // ----- from the receiver to the wire

  // bytes that the parser takes for an ACK frame, about packets that were received only
  ghost predicate Honest(o: Order, bytes: seq<Byte>, received: set<nat>) {
    var r := Parse(o, bytes);
    r.Ok? && AcksPacket(r.value.0, r.value.0.largestAcked) &&
    forall n: nat :: AcksPacket(r.value.0, n) ==> n in received
  }

  lemma StaysHonest(o: Order, bytes: seq<Byte>, received: set<nat>, more: set<nat>)
    requires Honest(o, bytes, received) && received <= more
    ensures Honest(o, bytes, more)
  {
    hide Parse, AcksPacket;
  }

  // Whatever is written arrives as the longest part of the frame that can be sent.
  method Write(o: Order, f: AckFrame, delay: nat, ghost received: set<nat>) returns (r: Option<seq<Byte>>)
    requires AckWire.WellFormed(f) && Receivable(f) && AcksPacket(f, f.largestAcked)
    requires forall n: nat :: AcksPacket(f, n) ==> n in received
    ensures r.Some? <==> FirstGapFits(f)
    ensures r.Some? ==> Parse(o, r.value) == Ok((AckWire.Sent(f), Float16.Decode(Float16.Representation(delay)), []))
    ensures r.Some? ==> Honest(o, r.value, received)
  {
    WriterAccepts(f);
    hide *;
    var written := WriteAckFrame(o, f, delay);
    if !written.Written? { return None; }
    RoundTrip(o, f, delay, []);
    assert written.bytes + [] == written.bytes;
    ArrivesHonest(f, received);
    HonestBytes(o, written.bytes, received);
    return Some(written.bytes);
  }

  lemma HonestBytes(o: Order, bytes: seq<Byte>, received: set<nat>)
    requires Parse(o, bytes).Ok? && AcksPacket(Parse(o, bytes).value.0, Parse(o, bytes).value.0.largestAcked)
    requires forall n: nat :: AcksPacket(Parse(o, bytes).value.0, n) ==> n in received
    ensures Honest(o, bytes, received)
  {
    hide Parse, AcksPacket;
  }

  lemma WriterAccepts(f: AckFrame)
    requires AckWire.WellFormed(f)
    ensures f.lowestAcked <= f.largestAcked < TWO_48 && |f.ranges| != 1 && Descending(f.ranges)
    ensures f.ranges != [] ==> f.ranges[0].last == f.largestAcked && f.ranges[|f.ranges| - 1].first == f.lowestAcked
  {
  }

  // what the bytes of an ACK frame say about a history
  ghost predicate Reports(o: Order, bytes: seq<Byte>, rs: seq<Interval>, largest: nat) {
    Separated(rs) && rs != [] &&
    var r := Parse(o, bytes);
    r.Ok? && r.value.0.largestAcked == largest &&
    forall n: nat :: AcksPacket(r.value.0, n) <==> Has(rs, n) && n >= LowestReported(rs)
  }

  lemma ReportsHistory(o: Order, bytes: seq<Byte>, pathID: Byte, largest: nat, rs: seq<Interval>)
    requires Separated(rs) && rs != [] && rs[|rs| - 1].end == largest < TWO_48 && TopGapFits(rs)
    requires AckWire.WellFormed(FrameOf(pathID, largest, Downward(rs))) && Parse(o, bytes).Ok?
    requires Parse(o, bytes).value.0 == AckWire.Sent(FrameOf(pathID, largest, Downward(rs)))
    ensures Reports(o, bytes, rs, largest)
  {
    hide *;
    var f := FrameOf(pathID, largest, Downward(rs));
    FrameOnWire(pathID, largest, rs);
    forall n: nat ensures AcksPacket(AckWire.Sent(f), n) <==> Has(rs, n) && n >= LowestReported(rs) {
      FrameIsExact(pathID, largest, rs, n);
      TruncationAcksLess(f, n);
    }
    ReportsAll(o, bytes, rs, largest);
  }

  lemma ReportsAll(o: Order, bytes: seq<Byte>, rs: seq<Interval>, largest: nat)
    requires Separated(rs) && rs != [] && Parse(o, bytes).Ok? && Parse(o, bytes).value.0.largestAcked == largest
    requires forall n: nat :: AcksPacket(Parse(o, bytes).value.0, n) <==> Has(rs, n) && n >= LowestReported(rs)
    ensures Reports(o, bytes, rs, largest)
  {
    hide Parse, AcksPacket, Has, LowestReported;
  }

  // The receiver's side of an acknowledgement. A frame is put on the wire exactly if one is due and its
  // first gap can be written. It then says of every number down to the lowest one that fits whether the
  // history has it, and every number that it has was received.
  method PutOnWire(receiver: ReceivedPacketHandler, o: Order, pathID: Byte, delay: nat, now: int)
    returns (bytes: Option<seq<Byte>>)
    requires receiver.Valid() && receiver.largestObserved < TWO_48
    modifies receiver
    ensures receiver.Valid() &&
            unchanged(receiver`received, receiver`ranges, receiver`largestObserved, receiver`lowerLimit)
    ensures bytes.Some? <==> old(receiver.IsDue(now)) && TopGapFits(receiver.ranges)
    ensures bytes.Some? ==> Honest(o, bytes.value, receiver.received)
    ensures bytes.Some? ==> Reports(o, bytes.value, receiver.ranges, receiver.largestObserved)
    ensures old(receiver.IsDue(now)) ==> !receiver.ackQueued && receiver.ackAlarm == None
    ensures !old(receiver.IsDue(now)) ==> unchanged(receiver)
  {
    hide *;
    DueIsReported(receiver, now);
    var frame := receiver.GetAckFrame(pathID, now);
    if frame.None? { return None; }
    FrameOnWire(pathID, receiver.largestObserved, receiver.ranges);
    FrameIs(receiver, pathID);
    bytes := Write(o, frame.value, delay, receiver.received);
    if bytes.Some? { ReportsHistory(o, bytes.value, pathID, receiver.largestObserved, receiver.ranges); }
  }

  lemma DueIsReported(receiver: ReceivedPacketHandler, now: int)
    requires receiver.Valid()
    ensures receiver.IsDue(now) ==>
      Has(receiver.ranges, receiver.largestObserved) && receiver.ranges != [] && Separated(receiver.ranges) &&
      receiver.ranges[|receiver.ranges| - 1].end == receiver.largestObserved
  {
    if receiver.IsDue(now) { TopIsLargest(receiver.ranges, receiver.largestObserved); }
    hide Has;
  }

  lemma FrameIs(receiver: ReceivedPacketHandler, pathID: Byte)
    requires receiver.ranges != []
    ensures receiver.Frame(pathID) == FrameOf(pathID, receiver.largestObserved, Downward(receiver.ranges))
  {
  }

  // ----- from the wire to the sender

  ghost function FrameIn(o: Order, bytes: seq<Byte>): (f: AckFrame)
    requires Parse(o, bytes).Ok?
    ensures ValidateAckRanges(f)
  {
    Parse(o, bytes).value.0
  }

  lemma HonestFrameIn(o: Order, bytes: seq<Byte>, received: set<nat>)
    requires Honest(o, bytes, received)
    ensures Parse(o, bytes).Ok? && FrameIn(o, bytes) == Parse(o, bytes).value.0 && ValidateAckRanges(FrameIn(o, bytes))
    ensures
      var f := FrameIn(o, bytes);
      AcksPacket(f, f.largestAcked) && forall n: nat :: AcksPacket(f, n) ==> n in received
  {
    hide Parse, AcksPacket;
  }

  // what an ACK frame acknowledges: the packets in flight that it is about, and no others
  ghost predicate Acks(f: AckFrame, history: seq<Packet>, before: multiset<Packet>, after: multiset<Packet>) {
    after == before + multiset(Select(history, AckTest(f)))
  }

  // and what it makes the sender give up: of the packets left, those that were overtaken too long ago
  ghost predicate Overtaken(f: AckFrame, before: seq<Packet>, after: seq<Packet>, queueBefore: seq<Packet>,
                            queue: seq<Packet>,
                            lostBefore: multiset<Packet>, lost: multiset<Packet>, now: int, delayUntilLost: int)
  {
    var left := WithoutAll(before, Select(before, AckTest(f)));
    Gone(left, after, queueBefore, queue, lostBefore, lost, Select(left, LostTest(f.largestAcked, now, delayUntilLost)))
  }

  lemma AcksExactly(f: AckFrame, history: seq<Packet>, before: multiset<Packet>, after: multiset<Packet>,
                    received: set<nat>)
    requires Acks(f, history, before, after) && forall n: nat :: AcksPacket(f, n) ==> n in received
    ensures forall p :: p in history && AcksPacket(f, p.number) ==> p in after
    ensures forall p :: p in after - before ==> p.number in received
  {
    AllReported(history, f);
    OnlyReceived(history, f, received);
    hide AcksPacket, Select;
  }

  // The sender's side, whenever the bytes arrive and with whatever packet number: the frame is never
  // taken for one about unsent or skipped packets. It is processed exactly if it comes with a higher
  // packet number than all before and tells something new, and then exactly the packets in flight
  // that it acknowledges become acknowledged, all of which were received.
  method TakeIn(sender: SentPacketHandler, o: Order, bytes: seq<Byte>, withPacketNumber: nat, now: int,
                delayUntilLost: int,
                ghost received: set<nat>) returns (r: AckResult)
    requires sender.Valid() && Honest(o, bytes, received) && received <= sender.numbers
    modifies sender
    ensures sender.Valid() && unchanged(sender`numbers, sender`sent, sender`lastSentPacketNumber) && Parse(o, bytes).Ok?
    ensures r in {Processed, Ignored, DuplicateOrOutOfOrder}
    ensures r == Processed <==> withPacketNumber > old(sender.largestReceivedPacketWithAck) &&
                                FrameIn(o, bytes).largestAcked > old(sender.LargestInOrderAcked())
    ensures r == Processed ==> Acks(FrameIn(o, bytes), old(sender.packetHistory), old(sender.acked), sender.acked)
    ensures r == Processed ==>
            Overtaken(FrameIn(o, bytes), old(sender.packetHistory), sender.packetHistory,
              old(sender.retransmissionQueue),
                      sender.retransmissionQueue, old(sender.lost), sender.lost, now, delayUntilLost)
    ensures r != Processed ==>
            unchanged(sender`packetHistory, sender`retransmissionQueue, sender`acked, sender`lost, sender`largestAcked)
    ensures r == DuplicateOrOutOfOrder <==> withPacketNumber <= old(sender.largestReceivedPacketWithAck)
    ensures r == Processed ==> sender.largestAcked == FrameIn(o, bytes).largestAcked
    ensures sender.largestReceivedPacketWithAck == Max(old(sender.largestReceivedPacketWithAck), withPacketNumber)
    ensures forall p :: p in sender.acked - old(sender.acked) ==> p.number in received
  {
    hide *;
    HonestFrameIn(o, bytes, received);
    var parsed := ParseAckFrame(o, bytes);
    var f := parsed.value.0;
    HonestFrame(sender, f, withPacketNumber);
    VerdictIs(sender, f, withPacketNumber);
    r := sender.ReceivedAck(f, withPacketNumber, now, delayUntilLost);
    if r == Processed {
      TakesIn(f, old(sender.packetHistory), sender.packetHistory, old(sender.retransmissionQueue),
        sender.retransmissionQueue, old(sender.acked), sender.acked, old(sender.lost), sender.lost, now,
        delayUntilLost);
      AcksExactly(f, old(sender.packetHistory), old(sender.acked), sender.acked, received);
    }
  }

  lemma VerdictIs(sender: SentPacketHandler, f: AckFrame, withPacketNumber: nat)
    requires !sender.Verdict(f, withPacketNumber).UnsentPacket? && !sender.Verdict(f, withPacketNumber).SkippedPacket?
    ensures sender.Verdict(f, withPacketNumber) == Processed <==>
            withPacketNumber > sender.largestReceivedPacketWithAck && f.largestAcked > sender.LargestInOrderAcked()
    ensures sender.Verdict(f, withPacketNumber) == DuplicateOrOutOfOrder <==>
            withPacketNumber <= sender.largestReceivedPacketWithAck
    ensures Max(sender.largestReceivedPacketWithAck, withPacketNumber) ==
            if withPacketNumber <= sender.largestReceivedPacketWithAck then sender.largestReceivedPacketWithAck
            else withPacketNumber
  {
  }

  lemma TakesIn(f: AckFrame, before: seq<Packet>, after: seq<Packet>, queueBefore: seq<Packet>, queue: seq<Packet>,
                ackedBefore: multiset<Packet>, acked: multiset<Packet>, lostBefore: multiset<Packet>,
                lost: multiset<Packet>, now: int, delayUntilLost: int)
    requires acked == ackedBefore + multiset(Select(before, AckTest(f)))
    requires
      var left := WithoutAll(before, Select(before, AckTest(f)));
      Gone(left, after, queueBefore, queue, lostBefore, lost,
        Select(left, LostTest(f.largestAcked, now, delayUntilLost)))
    ensures Acks(f, before, ackedBefore, acked)
    ensures Overtaken(f, before, after, queueBefore, queue, lostBefore, lost, now, delayUntilLost)
  {
  }

  // Both sides together, over a wire that delivers at once. Whatever the receiver got of what the sender
  // sent: every packet in flight that the history has, down to the lowest one that is reported, becomes
  // acknowledged, and that is the whole history if its gaps take up at most 254 blocks.
  method Acknowledge(receiver: ReceivedPacketHandler, sender: SentPacketHandler, o: Order, pathID: Byte, delay: nat,
                     withPacketNumber: nat, now: int, delayUntilLost: int) returns (r: Option<AckResult>)
    requires receiver.Valid() && sender.Valid() && receiver.received <= sender.numbers &&
             receiver.largestObserved < TWO_48
    modifies receiver, sender
    ensures receiver.Valid() && sender.Valid() &&
            unchanged(receiver`received, receiver`ranges, receiver`largestObserved)
    ensures r.Some? <==> old(receiver.IsDue(now)) && TopGapFits(receiver.ranges)
    ensures r.None? ==> unchanged(sender)
    ensures r.Some? ==> r.value in {Processed, Ignored, DuplicateOrOutOfOrder}
    ensures r.Some? ==>
            (r.value == Processed <==> withPacketNumber > old(sender.largestReceivedPacketWithAck) &&
                                       receiver.largestObserved > old(sender.LargestInOrderAcked()))
    ensures forall p :: p in sender.acked - old(sender.acked) ==> p.number in receiver.received
    ensures r == Some(Processed) ==>
            Separated(receiver.ranges) && receiver.ranges != [] &&
            forall p :: p in old(sender.packetHistory) && Has(receiver.ranges, p.number) ==>
              p.number >= LowestReported(receiver.ranges) ==> p in sender.acked
    ensures r == Some(Processed) && BlocksNeeded(receiver.ranges) <= 254 ==>
            forall p :: p in old(sender.packetHistory) && Has(receiver.ranges, p.number) ==> p in sender.acked
  {
    hide *;
    var bytes := PutOnWire(receiver, o, pathID, delay, now);
    if bytes.None? { return None; }
    HonestFrameIn(o, bytes.value, receiver.received);
    ReportsWhat(o, bytes.value, receiver.ranges, receiver.largestObserved);
    ReportedIsLongest(receiver.ranges);
    var verdict := TakeIn(sender, o, bytes.value, withPacketNumber, now, delayUntilLost, receiver.received);
    if verdict == Processed {
      AcksExactly(FrameIn(o, bytes.value), old(sender.packetHistory), old(sender.acked), sender.acked,
        receiver.received);
    }
    return Some(verdict);
  }

  lemma ReportsWhat(o: Order, bytes: seq<Byte>, rs: seq<Interval>, largest: nat)
    requires Reports(o, bytes, rs, largest)
    ensures Parse(o, bytes).Ok? && Separated(rs) && rs != [] && FrameIn(o, bytes).largestAcked == largest
    ensures forall n: nat :: AcksPacket(FrameIn(o, bytes), n) <==> Has(rs, n) && n >= LowestReported(rs)
  {
    hide Parse, AcksPacket, Has, LowestReported;
  }

  // ----- whole runs

  datatype Event =
    | Send(packet: Packet, now: int)
    | Arrive(which: nat, shouldInstigateAck: bool, now: int) // any packet that was sent, at any time, perhaps again
    | AckOut(pathID: Byte, delay: nat, now: int)
    | AckIn(which: nat, withPacketNumber: nat, now: int, delayUntilLost: int) // any ACK frame so far, likewise
    | Alarm(now: int, delayUntilLost: int, potentiallyFailed: bool)
    | Retransmit
    | StopWaiting(which: nat, numberLength: nat, bytes: seq<Byte>,
      now: int) // a packet with such a frame, whatever it says

  // everything that was put on the wire so far, in both directions
  datatype Wire = Wire(packets: seq<nat>, acks: seq<seq<Byte>>)

  // both ends and the wire at one time
  datatype Snapshot = Snapshot(
    wire: Wire,
    lastSent: nat, sent: seq<Packet>, history: seq<Packet>, queue: seq<Packet>, acked: multiset<Packet>,
    lost: multiset<Packet>,
    largestAcked: nat, ackNumber: nat,
    received: set<nat>, ranges: seq<Interval>, limit: nat, ackQueued: bool, ackAlarm: Option<int>)

  ghost function Taken(sender: SentPacketHandler, receiver: ReceivedPacketHandler, wire: Wire): (s: Snapshot)
    reads sender, receiver
  {
    Snapshot(wire, sender.lastSentPacketNumber, sender.sent, sender.packetHistory, sender.retransmissionQueue,
      sender.acked,
             sender.lost, sender.largestAcked, sender.largestReceivedPacketWithAck,
             receiver.received, receiver.ranges, receiver.lowerLimit, receiver.ackQueued, receiver.ackAlarm)
  }

  ghost predicate SendEffect(s: Snapshot, packet: Packet, now: int, t: Snapshot) {
    if packet.number > s.lastSent && |s.queue| + |s.history| < MAX_TRACKED_SENT then
      var p := packet.(frames := Strip(packet.frames), sendTime := now);
      var tracked := if p.frames == [] then [] else [p];
      t == s.(wire := s.wire.(packets := s.wire.packets + [packet.number]), lastSent := packet.number,
              sent := s.sent + tracked, history := s.history + tracked)
    else t == s
  }

  // packet n arrives, and the receiver may want to acknowledge it
  ghost predicate ArriveEffect(s: Snapshot, n: nat, instigate: bool, t: Snapshot) {
    t == s.(received := s.received + {n}, ranges := t.ranges, ackQueued := t.ackQueued, ackAlarm := t.ackAlarm) &&
    if n > s.limit then
      Adds(s.ranges, t.ranges, n) && (s.ackQueued ==> t.ackQueued) && (instigate ==> t.ackQueued || t.ackAlarm.Some?)
    else t.ranges == s.ranges && t.ackQueued == s.ackQueued && t.ackAlarm == s.ackAlarm
  }

  ghost predicate AckOutEffect(o: Order, s: Snapshot, now: int, t: Snapshot) {
    if s.ackQueued || (s.ackAlarm.Some? && s.ackAlarm.value <= now) then
      t == s.(wire := t.wire, ackQueued := false, ackAlarm := None) && t.wire.packets == s.wire.packets &&
      if TopGapFits(s.ranges) then
        |t.wire.acks| == |s.wire.acks| + 1 && t.wire.acks[..|s.wire.acks|] == s.wire.acks && s.ranges != [] &&
        Reports(o, t.wire.acks[|s.wire.acks|], s.ranges, s.ranges[|s.ranges| - 1].end)
      else t.wire == s.wire
    else t == s
  }

  function InOrder(history: seq<Packet>, largestAcked: nat): (n: int) {
    if history != [] then history[0].number - 1 else largestAcked
  }

  ghost predicate AckInEffect(o: Order, s: Snapshot, bytes: seq<Byte>, number: nat, now: int, delayUntilLost: int,
                              t: Snapshot) {
    Parse(o, bytes).Ok? &&
    var f := FrameIn(o, bytes);
    if number <= s.ackNumber then t == s
    else if f.largestAcked <= InOrder(s.history, s.largestAcked) then t == s.(ackNumber := number)
    else
      t == s.(ackNumber := number, largestAcked := f.largestAcked, acked := t.acked, history := t.history,
        queue := t.queue, lost := t.lost) &&
      Acks(f, s.history, s.acked, t.acked) &&
      Overtaken(f, s.history, t.history, s.queue, t.queue, s.lost, t.lost, now, delayUntilLost)
  }

  // packets in flight are handed over for retransmission, and none disappears
  ghost predicate AlarmEffect(s: Snapshot, t: Snapshot) {
    t == s.(history := t.history, queue := t.queue, lost := t.lost) && s.queue <= t.queue &&
    Ascending(t.history) && t.lost == s.lost + multiset(t.queue[|s.queue|..]) &&
    multiset(t.history) + multiset(t.queue[|s.queue|..]) == multiset(s.history)
  }

  // packet n arrives with a frame that moves the lower limit
  ghost predicate StopEffect(s: Snapshot, n: nat, limit: nat, t: Snapshot) {
    t == s.(received := s.received + {n}, ranges := t.ranges, limit := limit, ackQueued := t.ackQueued,
      ackAlarm := t.ackAlarm) &&
    forall m: nat :: Has(t.ranges, m) <==> (Has(s.ranges, m) || (n > s.limit && m == n)) && m > limit
  }

  ghost predicate Effect(o: Order, s: Snapshot, e: Event, t: Snapshot) {
    match e
    case Send(packet, now) => SendEffect(s, packet, now, t)
    case Arrive(which, instigate, now) =>
      if s.wire.packets == [] then t == s else ArriveEffect(s, s.wire.packets[which % |s.wire.packets|], instigate, t)
    case AckOut(pathID, delay, now) => AckOutEffect(o, s, now, t)
    case AckIn(which, number, now, delayUntilLost) =>
      if s.wire.acks == [] then t == s
      else AckInEffect(o, s, s.wire.acks[which % |s.wire.acks|], number, now, delayUntilLost, t)
    case Alarm(now, delayUntilLost, failed) => AlarmEffect(s, t)
    case Retransmit => t == s.(queue := if s.queue == [] then [] else s.queue[1..])
    case StopWaiting(which, length, bytes, now) =>
      if s.wire.packets == [] || length !in {1, 2, 4, 6} then t == s
      else
        var n := s.wire.packets[which % |s.wire.packets|];
        var frame := Frames.ParseStopWaiting(o, Frames.Header(n, length), bytes);
        if frame.Err? then ArriveEffect(s, n, false, t) else StopEffect(s, n, frame.value.0.leastUnacked - 1, t)
  }

  // ----- what holds at both ends after every event

  ghost predicate AckedWereReceived(acked: multiset<Packet>, received: set<nat>) {
    forall p :: p in acked ==> p.number in received
  }

  ghost predicate WasSent(packets: seq<nat>, numbers: set<nat>) {
    (forall i :: 0 <= i < |packets| ==> packets[i] in numbers) && forall n :: n in numbers ==> n < TWO_48
  }

  ghost predicate AllHonest(o: Order, acks: seq<seq<Byte>>, received: set<nat>) {
    forall i :: 0 <= i < |acks| ==> Honest(o, acks[i], received)
  }

  ghost predicate Linked(o: Order, sender: SentPacketHandler, receiver: ReceivedPacketHandler, wire: Wire)
    reads sender, receiver
  {
    sender.Valid() && receiver.Valid() && receiver.received <= sender.numbers &&
    WasSent(wire.packets, sender.numbers) &&
    AckedWereReceived(sender.acked, receiver.received) && AllHonest(o, wire.acks, receiver.received)
  }

  lemma ObservedWasSent(o: Order, sender: SentPacketHandler, receiver: ReceivedPacketHandler, wire: Wire)
    requires Linked(o, sender, receiver, wire)
    ensures receiver.largestObserved < TWO_48
  {
    hide Has, Honest;
  }

  lemma MoreAcked(before: multiset<Packet>, after: multiset<Packet>, received: set<nat>)
    requires AckedWereReceived(before, received) && forall p :: p in after - before ==> p.number in received
    ensures AckedWereReceived(after, received)
  {
    forall p | p in after ensures p.number in received {
      if p !in before { assert p in after - before; }
    }
  }

  lemma MoreReceived(o: Order, acks: seq<seq<Byte>>, acked: multiset<Packet>, received: set<nat>, n: nat)
    requires AllHonest(o, acks, received) && AckedWereReceived(acked, received)
    ensures AllHonest(o, acks, received + {n}) && AckedWereReceived(acked, received + {n})
  {
    hide Honest;
    forall i | 0 <= i < |acks| ensures Honest(o, acks[i], received + {n}) {
      StaysHonest(o, acks[i], received, received + {n});
    }
  }

  method SendStep(o: Order, sender: SentPacketHandler, ghost receiver: ReceivedPacketHandler, wire: Wire,
                  packet: Packet, now: int)
    returns (w: Wire)
    requires Linked(o, sender, receiver, wire) && packet.number < TWO_48
    modifies sender
    ensures Linked(o, sender, receiver, w)
    ensures SendEffect(old(Taken(sender, receiver, wire)), packet, now, Taken(sender, receiver, w))
  {
    hide SentPacketHandler.Valid, ReceivedPacketHandler.Valid, Latest, Count, Strip, IsStripped, AllHonest;
    var r := sender.SentPacket(packet, now);
    return if r.Accepted? then wire.(packets := wire.packets + [packet.number]) else wire;
  }

  method ArriveStep(o: Order, ghost sender: SentPacketHandler, receiver: ReceivedPacketHandler, ghost wire: Wire,
                    number: nat,
                    instigate: bool, now: int)
    returns (closed: bool)
    requires Linked(o, sender, receiver, wire) && number in wire.packets
    modifies receiver
    ensures closed ==>
            |receiver.ranges| >= MAX_TRACKED_RANGES &&
            Taken(sender, receiver, wire) == old(Taken(sender, receiver, wire))
    ensures !closed ==> Linked(o, sender, receiver, wire) && number <= receiver.largestObserved
    ensures !closed ==>
            ArriveEffect(old(Taken(sender, receiver, wire)), number, instigate, Taken(sender, receiver, wire))
  {
    NumbersArePositive(sender, wire.packets, number);
    hide SentPacketHandler.Valid, ReceivedPacketHandler.Valid, ReceivedPacketHandler.Urgent, Adds, AllHonest,
         AckedWereReceived;
    MoreReceived(o, wire.acks, sender.acked, receiver.received, number);
    var r := receiver.ReceivedPacket(number, instigate, now);
    return r.TooManyRanges?;
  }

  lemma NumbersArePositive(sender: SentPacketHandler, packets: seq<nat>, number: nat)
    requires sender.Valid() && WasSent(packets, sender.numbers) && number in packets
    ensures number > 0 && number in sender.numbers
  {
  }

  lemma OneMoreAck(o: Order, acks: seq<seq<Byte>>, bytes: seq<Byte>, received: set<nat>)
    requires AllHonest(o, acks, received) && Honest(o, bytes, received)
    ensures AllHonest(o, acks + [bytes], received)
    ensures (acks + [bytes])[..|acks|] == acks && (acks + [bytes])[|acks|] == bytes && |acks + [bytes]| == |acks| + 1
  {
    hide Honest;
  }

  method AckOutStep(o: Order, ghost sender: SentPacketHandler, receiver: ReceivedPacketHandler, wire: Wire, e: Event)
    returns (w: Wire)
    requires Linked(o, sender, receiver, wire) && e.AckOut?
    modifies receiver
    ensures Linked(o, sender, receiver, w)
    ensures AckOutEffect(o, old(Taken(sender, receiver, wire)), e.now, Taken(sender, receiver, w))
  {
    hide SentPacketHandler.Valid, ReceivedPacketHandler.Valid, WasSent, AckedWereReceived, AllHonest, Reports,
         TopGapFits, Separated, Has;
    ObservedWasSent(o, sender, receiver, wire);
    DueIsReported(receiver, e.now);
    var bytes := PutOnWire(receiver, o, e.pathID, e.delay, e.now);
    if bytes.None? { return wire; }
    OneMoreAck(o, wire.acks, bytes.value, receiver.received);
    return wire.(acks := wire.acks + [bytes.value]);
  }

  method AckInStep(o: Order, sender: SentPacketHandler, ghost receiver: ReceivedPacketHandler, wire: Wire, e: Event)
    requires Linked(o, sender, receiver, wire) && e.AckIn? && wire.acks != []
    modifies sender
    ensures Linked(o, sender, receiver, wire)
    ensures AckInEffect(o, old(Taken(sender, receiver, wire)), wire.acks[e.which % |wire.acks|], e.withPacketNumber,
              e.now, e.delayUntilLost, Taken(sender, receiver, wire))
  {
    hide SentPacketHandler.Valid, ReceivedPacketHandler.Valid, WasSent, AckedWereReceived, Honest, Acks, Overtaken,
         FrameIn;
    var r := TakeIn(sender, o, wire.acks[e.which % |wire.acks|], e.withPacketNumber, e.now, e.delayUntilLost,
      receiver.received);
    MoreAcked(old(sender.acked), sender.acked, receiver.received);
  }

  // With the same packets sent and acknowledged, what leaves the history is lost.
  lemma Conserved(before: seq<Packet>, after: seq<Packet>, acked: multiset<Packet>, lostBefore: multiset<Packet>,
                  lost: multiset<Packet>, sent: seq<Packet>, moved: seq<Packet>)
    requires Accounted(before, acked, lostBefore, sent) && Accounted(after, acked, lost, sent) &&
             lost == lostBefore + multiset(moved)
    ensures multiset(after) + multiset(moved) == multiset(before)
  {
    forall p ensures (multiset(after) + multiset(moved))[p] == multiset(before)[p] {
      assert (multiset(before) + acked + lostBefore)[p] == multiset(sent)[p] == (multiset(after) + acked + lost)[p];
    }
  }

  lemma IsAccounted(sender: SentPacketHandler)
    requires sender.Valid()
    ensures Accounted(sender.packetHistory, sender.acked, sender.lost, sender.sent)
  {
  }

  method AlarmStep(o: Order, sender: SentPacketHandler, ghost receiver: ReceivedPacketHandler, ghost wire: Wire,
                   e: Event)
    requires Linked(o, sender, receiver, wire) && e.Alarm?
    modifies sender
    ensures Linked(o, sender, receiver, wire)
    ensures AlarmEffect(old(Taken(sender, receiver, wire)), Taken(sender, receiver, wire))
  {
    hide SentPacketHandler.Valid, ReceivedPacketHandler.Valid, WasSent, AckedWereReceived, AllHonest, Moves;
    FireAlarm(sender, e);
    sender.HistoryAscends();
    MovesAre(old(sender.packetHistory), sender.packetHistory, old(sender.retransmissionQueue),
      sender.retransmissionQueue,
             old(sender.lost), sender.lost);
  }

  ghost predicate Moves(before: seq<Packet>, after: seq<Packet>, queueBefore: seq<Packet>, queue: seq<Packet>,
                        lostBefore: multiset<Packet>, lost: multiset<Packet>) {
    queueBefore <= queue && lost == lostBefore + multiset(queue[|queueBefore|..]) &&
    multiset(after) + multiset(queue[|queueBefore|..]) == multiset(before)
  }

  lemma MovesAre(before: seq<Packet>, after: seq<Packet>, queueBefore: seq<Packet>, queue: seq<Packet>,
                 lostBefore: multiset<Packet>, lost: multiset<Packet>)
    requires Moves(before, after, queueBefore, queue, lostBefore, lost)
    ensures queueBefore <= queue && lost == lostBefore + multiset(queue[|queueBefore|..])
    ensures multiset(after) + multiset(queue[|queueBefore|..]) == multiset(before)
  {
  }

  lemma Appended(before: seq<Packet>, after: seq<Packet>, queueBefore: seq<Packet>, queue: seq<Packet>,
                 acked: multiset<Packet>,
                 lostBefore: multiset<Packet>, lost: multiset<Packet>, sent: seq<Packet>, moved: seq<Packet>)
    requires Accounted(before, acked, lostBefore, sent) && Accounted(after, acked, lost, sent)
    requires queue == queueBefore + moved && lost == lostBefore + multiset(moved)
    ensures Moves(before, after, queueBefore, queue, lostBefore, lost)
  {
    hide Accounted;
    assert queue[|queueBefore|..] == moved;
    Conserved(before, after, acked, lostBefore, lost, sent, moved);
  }

  method FireAlarm(sender: SentPacketHandler, e: Event)
    requires sender.Valid() && e.Alarm?
    modifies sender`packetHistory, sender`bytesInFlight, sender`retransmissionQueue, sender`nextLeastUnacked,
             sender`lost,
             sender`lossTime, sender`rtoCount, sender`tlpCount
    ensures sender.Valid()
    ensures Moves(old(sender.packetHistory), sender.packetHistory, old(sender.retransmissionQueue),
              sender.retransmissionQueue,
                  old(sender.lost), sender.lost)
  {
    hide SentPacketHandler.Valid, Moves, Accounted, Select, Deadline, SentPacketHandler.HasOutstanding, WithoutAll;
    IsAccounted(sender);
    ghost var h, queue, lost, loss := sender.packetHistory, sender.retransmissionQueue, sender.lost, sender.lossTime;
    ghost var outstanding, probes := sender.HasOutstanding(), sender.tlpCount;
    sender.OnAlarm(e.now, e.delayUntilLost, e.potentiallyFailed);
    IsAccounted(sender);
    ghost var moved :=
      if !outstanding then []
      else if loss.Some? then Select(h, LostTest(sender.largestAcked, e.now, e.delayUntilLost))
      else if probes < MAX_TAIL_LOSS_PROBES then [h[|h| - 1]]
      else h[..if e.potentiallyFailed || |h| < 2 then |h| else 2];
    Appended(h, sender.packetHistory, queue, sender.retransmissionQueue, sender.acked, lost, sender.lost, sender.sent,
      moved);
  }

  method RetransmitStep(o: Order, sender: SentPacketHandler, ghost receiver: ReceivedPacketHandler, ghost wire: Wire)
    requires Linked(o, sender, receiver, wire)
    modifies sender
    ensures Linked(o, sender, receiver, wire)
    ensures Effect(o, old(Taken(sender, receiver, wire)), Retransmit, Taken(sender, receiver, wire))
  {
    hide SentPacketHandler.Valid, ReceivedPacketHandler.Valid, WasSent, AckedWereReceived, AllHonest;
    var r := sender.DequeuePacketForRetransmission();
    assert r.Some? ==> sender.retransmissionQueue == ([r.value] + sender.retransmissionQueue)[1..];
  }

  // The packet is registered before its frames are handled, so that the limit is below a packet that was received.
  method StopWaitingStep(o: Order, ghost sender: SentPacketHandler, receiver: ReceivedPacketHandler, wire: Wire,
                         e: Event)
    returns (closed: bool)
    requires Linked(o, sender, receiver, wire) && e.StopWaiting?
    modifies receiver
    ensures closed ==>
            |receiver.ranges| >= MAX_TRACKED_RANGES &&
            Taken(sender, receiver, wire) == old(Taken(sender, receiver, wire))
    ensures !closed ==> Linked(o, sender, receiver, wire)
    ensures !closed ==> Effect(o, old(Taken(sender, receiver, wire)), e, Taken(sender, receiver, wire))
  {
    hide SentPacketHandler.Valid, ReceivedPacketHandler.Valid, WasSent, AckedWereReceived, AllHonest,
         Frames.ParseStopWaiting, Has;
    if wire.packets == [] || e.numberLength !in {1, 2, 4, 6} { return false; }
    var number := wire.packets[e.which % |wire.packets|];
    closed := ArriveStep(o, sender, receiver, wire, number, false, e.now);
    if closed { return; }
    var frame := Frames.ParseStopWaiting(o, Frames.Header(number, e.numberLength), e.bytes);
    if frame.Err? { return; }
    receiver.SetLowerLimit(frame.value.0.leastUnacked - 1);
  }

  // An event, and what it does to both ends and the wire. The session closes if the receiver tracks too
  // many intervals.
  method Step(o: Order, sender: SentPacketHandler, receiver: ReceivedPacketHandler, wire: Wire, e: Event)
    returns (w: Wire, closed: bool)
    requires Linked(o, sender, receiver, wire) && (e.Send? ==> e.packet.number < TWO_48)
    modifies sender, receiver
    ensures closed ==>
            |receiver.ranges| >= MAX_TRACKED_RANGES && Taken(sender, receiver, w) == old(Taken(sender, receiver, wire))
    ensures !closed ==> Linked(o, sender, receiver, w)
    ensures !closed ==> Effect(o, old(Taken(sender, receiver, wire)), e, Taken(sender, receiver, w))
  {
    hide Linked, Taken, SendEffect, ArriveEffect, AckOutEffect, AckInEffect, AlarmEffect, StopEffect;
    w, closed := wire, false;
    WireIs(sender, receiver, wire);
    match e
    case Send(packet, now) => w := SendStep(o, sender, receiver, wire, packet, now);
    case Arrive(which, instigate, now) =>
      if wire.packets != [] {
        closed := ArriveStep(o, sender, receiver, wire, wire.packets[which % |wire.packets|], instigate, now);
      }
    case AckOut(_, _, _) => w := AckOutStep(o, sender, receiver, wire, e);
    case AckIn(_, _, _, _) => if wire.acks != [] { AckInStep(o, sender, receiver, wire, e); }
    case Alarm(_, _, _) => AlarmStep(o, sender, receiver, wire, e);
    case Retransmit => RetransmitStep(o, sender, receiver, wire);
    case StopWaiting(_, _, _, _) => closed := StopWaitingStep(o, sender, receiver, wire, e);
  }

  lemma WireIs(sender: SentPacketHandler, receiver: ReceivedPacketHandler, wire: Wire)
    ensures Taken(sender, receiver, wire).wire == wire
  {
  }

  // every packet in one place, and nothing acknowledged that was not received
  ghost predicate Sound(s: Snapshot) {
    (forall p :: p in s.acked ==> p.number in s.received) &&
    (forall p :: p in s.sent <==> p in s.history || p in s.acked || p in s.lost) &&
    forall p :: !(p in s.history && p in s.acked) && !(p in s.history && p in s.lost) && !(p in s.acked && p in s.lost)
  }

  // a run: each snapshot follows from the one before by the next event
  ghost predicate IsRun(o: Order, trace: seq<Snapshot>, events: seq<Event>) {
    0 < |trace| <= |events| + 1 && forall i :: 0 <= i < |trace| - 1 ==> Effect(o, trace[i], events[i], trace[i + 1])
  }

  ghost predicate IsStart(s: Snapshot) {
    s == Snapshot(Wire([], []), 0, [], [], [], multiset{}, multiset{}, 0, 0, {}, [], 0, false, None)
  }

  // ----- every run of these effects is sound

  lemma {:induction false} WithoutAllSum(h: seq<Packet>, gone: seq<Packet>)
    requires Ascending(h) && Selected(gone, h)
    ensures multiset(WithoutAll(h, gone)) + multiset(gone) == multiset(h) && Ascending(WithoutAll(h, gone))
    decreases |gone|
  {
    hide *;
    WithoutAllAscends(h, gone);
    if gone == [] {
      WithoutNone(h);
    } else {
      var k := |gone| - 1;
      var front, last := gone[..k], gone[k];
      StillSelected(h, gone, k);
      WithoutAllSum(h, front);
      StillThere(h, gone, k);
      assert gone[..k + 1] == gone;
      WithoutAllAscends(h, front);
      WithoutOne(WithoutAll(h, front), last);
      PutBack(multiset(WithoutAll(h, front)), last, multiset(front), multiset(h));
    }
  }

  lemma PutBack(left: multiset<Packet>, p: Packet, gone: multiset<Packet>, all: multiset<Packet>)
    requires p in left && left + gone == all
    ensures (left - multiset{p}) + (gone + multiset{p}) == all
  {
  }

  // what every event keeps
  ghost predicate Consistent(o: Order, s: Snapshot) {
    Accounted(s.history, s.acked, s.lost, s.sent) && Ascending(s.history) &&
    (forall p :: p in s.sent ==> p.number <= s.lastSent) && (forall n: nat :: Has(s.ranges, n) ==> n in s.received) &&
    AckedWereReceived(s.acked, s.received) && AllAboutReceived(o, s.wire.acks, s.received)
  }

  ghost predicate AboutReceived(o: Order, bytes: seq<Byte>, received: set<nat>) {
    Parse(o, bytes).Ok? && forall n: nat :: AcksPacket(FrameIn(o, bytes), n) ==> n in received
  }

  ghost predicate AllAboutReceived(o: Order, acks: seq<seq<Byte>>, received: set<nat>) {
    forall i :: 0 <= i < |acks| ==> AboutReceived(o, acks[i], received)
  }

  lemma StaysAboutReceived(o: Order, acks: seq<seq<Byte>>, acked: multiset<Packet>, received: set<nat>, n: nat)
    requires AllAboutReceived(o, acks, received) && AckedWereReceived(acked, received)
    ensures AllAboutReceived(o, acks, received + {n}) && AckedWereReceived(acked, received + {n})
  {
    hide Parse, AcksPacket, FrameIn;
    forall i | 0 <= i < |acks| ensures AboutReceived(o, acks[i], received + {n}) {
      assert AboutReceived(o, acks[i], received);
    }
  }

  lemma SendKeeps(o: Order, s: Snapshot, packet: Packet, now: int, t: Snapshot)
    requires Consistent(o, s) && SendEffect(s, packet, now, t)
    ensures Consistent(o, t)
  {
    hide Has, AllAboutReceived, AckedWereReceived, Strip, Accounted, Ascending;
    var p := packet.(frames := Strip(packet.frames), sendTime := now);
    if packet.number > s.lastSent {
      forall q | q in s.history ensures q in s.sent { InSent(s.history, s.acked, s.lost, s.sent, q); }
      OneMoreSent(s.history, s.acked, s.lost, s.sent, s.lastSent, p);
      assert s.sent + [] == s.sent && s.history + [] == s.history;
    }
  }

  lemma OneMoreSent(history: seq<Packet>, acked: multiset<Packet>, lost: multiset<Packet>, sent: seq<Packet>, last: nat,
                    p: Packet)
    requires Accounted(history, acked, lost, sent) && Ascending(history) && last < p.number
    requires (forall q :: q in sent ==> q.number <= last) && forall q :: q in history ==> q in sent
    ensures Accounted(history + [p], acked, lost, sent + [p]) && Ascending(history + [p])
  {
    AscendingAppend(history, last, p);
    AscendingAppend(sent, last, p);
    hide Ascending;
    assert multiset(history + [p]) == multiset(history) + multiset{p};
    assert multiset(sent + [p]) == multiset(sent) + multiset{p};
  }

  lemma AscendingAppend(h: seq<Packet>, last: nat, p: Packet)
    requires Ascending(h) && last < p.number && forall q :: q in h ==> q.number <= last
    ensures Ascending(h + [p])
  {
    assert forall i :: 0 <= i < |h| ==> h[i] in h;
  }

  lemma InSent(history: seq<Packet>, acked: multiset<Packet>, lost: multiset<Packet>, sent: seq<Packet>, p: Packet)
    requires Accounted(history, acked, lost, sent) && p in history
    ensures p in sent
  {
    assert p in multiset(history) + acked + lost;
  }

  lemma ArriveKeeps(o: Order, s: Snapshot, n: nat, instigate: bool, t: Snapshot)
    requires Consistent(o, s) && ArriveEffect(s, n, instigate, t)
    ensures Consistent(o, t)
  {
    hide Has, Accounted, Ascending, AllAboutReceived, AckedWereReceived;
    StaysAboutReceived(o, s.wire.acks, s.acked, s.received, n);
  }

  lemma StopKeeps(o: Order, s: Snapshot, n: nat, limit: nat, t: Snapshot)
    requires Consistent(o, s) && StopEffect(s, n, limit, t)
    ensures Consistent(o, t)
  {
    hide Has, Accounted, Ascending, AllAboutReceived, AckedWereReceived;
    StaysAboutReceived(o, s.wire.acks, s.acked, s.received, n);
  }

  lemma ReportIsAboutReceived(o: Order, bytes: seq<Byte>, rs: seq<Interval>, largest: nat, received: set<nat>)
    requires Reports(o, bytes, rs, largest) && forall n: nat :: Has(rs, n) ==> n in received
    ensures AboutReceived(o, bytes, received)
  {
    ReportsWhat(o, bytes, rs, largest);
    hide Parse, AcksPacket, Has, FrameIn, Reports;
  }

  lemma AckOutKeeps(o: Order, s: Snapshot, now: int, t: Snapshot)
    requires Consistent(o, s) && AckOutEffect(o, s, now, t)
    ensures Consistent(o, t)
  {
    hide Has, Accounted, Ascending, AboutReceived, AckedWereReceived, Reports, TopGapFits;
    var k := |s.wire.acks|;
    if |t.wire.acks| == k + 1 && t.wire != s.wire {
      ReportIsAboutReceived(o, t.wire.acks[k], s.ranges, s.ranges[|s.ranges| - 1].end, s.received);
      assert forall i :: 0 <= i < k ==> t.wire.acks[i] == t.wire.acks[..k][i];
    }
  }

  lemma AckInKeeps(o: Order, s: Snapshot, bytes: seq<Byte>, number: nat, now: int, delayUntilLost: int, t: Snapshot)
    requires Consistent(o, s) && AboutReceived(o, bytes, s.received)
    requires AckInEffect(o, s, bytes, number, now, delayUntilLost, t)
    ensures Consistent(o, t)
  {
    hide Has, Ascending, Accounted, AllAboutReceived, Parse, AcksPacket, FrameIn, AckedWereReceived, Acks, Overtaken;
    var f := FrameIn(o, bytes);
    if number > s.ackNumber && f.largestAcked > InOrder(s.history, s.largestAcked) {
      AcksExactly(f, s.history, s.acked, t.acked, s.received);
      MoreAcked(s.acked, t.acked, s.received);
      AckedIsAccounted(f, s, t, now, delayUntilLost);
    }
  }

  // What is acknowledged and what is given up leaves the history, and is counted where it goes.
  lemma AckedIsAccounted(f: AckFrame, s: Snapshot, t: Snapshot, now: int, delayUntilLost: int)
    requires Accounted(s.history, s.acked, s.lost, s.sent) && Ascending(s.history)
    requires Acks(f, s.history, s.acked, t.acked)
    requires Overtaken(f, s.history, t.history, s.queue, t.queue, s.lost, t.lost, now, delayUntilLost)
    ensures Accounted(t.history, t.acked, t.lost, s.sent) && Ascending(t.history)
  {
    hide Ascending, Select, WithoutAll, Selected, AckTest, LostTest;
    var newly := Select(s.history, AckTest(f));
    var left := WithoutAll(s.history, newly);
    var gone := Select(left, LostTest(f.largestAcked, now, delayUntilLost));
    SelectIsSelected(s.history, AckTest(f));
    WithoutAllSum(s.history, newly);
    SelectIsSelected(left, LostTest(f.largestAcked, now, delayUntilLost));
    WithoutAllSum(left, gone);
    assert multiset(t.history) + (s.acked + multiset(newly)) + (s.lost + multiset(gone)) ==
           (multiset(t.history) + multiset(gone) + multiset(newly)) + s.acked + s.lost;
  }

  lemma AlarmKeeps(o: Order, s: Snapshot, t: Snapshot)
    requires Consistent(o, s) && AlarmEffect(s, t)
    ensures Consistent(o, t)
  {
    hide Has, Ascending, AllAboutReceived, AckedWereReceived;
    var moved := multiset(t.queue[|s.queue|..]);
    assert multiset(t.history) + s.acked + (s.lost + moved) == (multiset(t.history) + moved) + s.acked + s.lost;
  }

  lemma EffectKeeps(o: Order, s: Snapshot, e: Event, t: Snapshot)
    requires Consistent(o, s) && Effect(o, s, e, t)
    ensures Consistent(o, t)
  {
    hide Accounted, Ascending, Has, AckedWereReceived, AboutReceived, SendEffect, ArriveEffect, AckOutEffect,
         AckInEffect, AlarmEffect, StopEffect, Frames.ParseStopWaiting;
    match e
    case Send(packet, now) => SendKeeps(o, s, packet, now, t);
    case Arrive(which, instigate, now) =>
      if s.wire.packets != [] { ArriveKeeps(o, s, s.wire.packets[which % |s.wire.packets|], instigate, t); }
    case AckOut(pathID, delay, now) => AckOutKeeps(o, s, now, t);
    case AckIn(which, number, now, delayUntilLost) =>
      if s.wire.acks != [] {
        AckInKeeps(o, s, s.wire.acks[which % |s.wire.acks|], number, now, delayUntilLost, t);
      }
    case Alarm(now, delayUntilLost, failed) => AlarmKeeps(o, s, t);
    case Retransmit =>
    case StopWaiting(which, length, bytes, now) =>
      if s.wire.packets != [] && length in {1, 2, 4, 6} {
        var n := s.wire.packets[which % |s.wire.packets|];
        var frame := Frames.ParseStopWaiting(o, Frames.Header(n, length), bytes);
        if frame.Err? {
          ArriveKeeps(o, s, n, false, t);
        } else {
          StopKeeps(o, s, n, frame.value.0.leastUnacked - 1, t);
        }
      }
  }

  lemma ConsistentIsSound(o: Order, s: Snapshot)
    requires Consistent(o, s)
    ensures Sound(s)
  {
    hide Accounted, Ascending, Has, AllAboutReceived;
    forall p
      ensures p in s.sent <==> p in s.history || p in s.acked || p in s.lost
      ensures !(p in s.history && p in s.acked) && !(p in s.history && p in s.lost) && !(p in s.acked && p in s.lost)
    {
      ExactlyOnePlace(s.history, s.acked, s.lost, s.sent, p);
    }
  }

  lemma {:induction false} EveryRunIsConsistent(o: Order, trace: seq<Snapshot>, events: seq<Event>, i: nat)
    requires IsRun(o, trace, events) && IsStart(trace[0]) && i < |trace|
    ensures Consistent(o, trace[i])
  {
    hide Effect;
    if i > 0 {
      EveryRunIsConsistent(o, trace, events, i - 1);
      assert Effect(o, trace[i - 1], events[i - 1], trace[i - 1 + 1]);
      EffectKeeps(o, trace[i - 1], events[i - 1], trace[i]);
    }
  }

  // Any run, over a network that may lose, repeat, delay and reorder packets and ACK frames: at no time
  // does a packet count as acknowledged that was not received, and every packet is in flight,
  // acknowledged or handed over for retransmission, and in no two of these places.
  lemma EveryRunIsSound(o: Order, trace: seq<Snapshot>, events: seq<Event>, i: nat)
    requires IsRun(o, trace, events) && IsStart(trace[0]) && i < |trace|
    ensures Sound(trace[i])
  {
    hide IsRun, IsStart, Consistent, Sound;
    EveryRunIsConsistent(o, trace, events, i);
    ConsistentIsSound(o, trace[i]);
  }

  // The handlers go through such a run: from their start, each event has its effect on them. All events are
  // handled unless the receiver's intervals become too many.
  method Run(o: Order, sender: SentPacketHandler, receiver: ReceivedPacketHandler, events: seq<Event>)
    returns (wire: Wire, closed: bool, ghost trace: seq<Snapshot>)
    requires Linked(o, sender, receiver, Wire([], [])) && IsStart(Taken(sender, receiver, Wire([], [])))
    requires forall i :: 0 <= i < |events| ==> events[i].Send? ==> events[i].packet.number < TWO_48
    modifies sender, receiver
    ensures IsRun(o, trace, events) && trace[0] == old(Taken(sender, receiver, Wire([], [])))
    ensures trace[|trace| - 1] == Taken(sender, receiver, wire)
    ensures forall i :: 0 <= i < |trace| ==> Sound(trace[i])
    ensures if closed then |receiver.ranges| >= MAX_TRACKED_RANGES
            else |trace| == |events| + 1 && Linked(o, sender, receiver, wire)
  {
    hide Linked, Taken, Effect, Sound, IsStart;
    wire, closed := Wire([], []), false;
    trace := [Taken(sender, receiver, wire)];
    EveryRunIsSound(o, trace, events, 0);
    var i := 0;
    while i < |events|
      invariant 0 <= i <= |events| && |trace| == i + 1 && IsRun(o, trace, events) && IsStart(trace[0])
      invariant trace[0] == old(Taken(sender, receiver, Wire([], [])))
      invariant Linked(o, sender, receiver, wire) && trace[i] == Taken(sender, receiver, wire)
      invariant forall k :: 0 <= k <= i ==> Sound(trace[k])
    {
      wire, closed := Step(o, sender, receiver, wire, events[i]);
      if closed { return; }
      trace, i := trace + [Taken(sender, receiver, wire)], i + 1;
      EveryRunIsSound(o, trace, events, i);
    }
  }

  // New handlers are at the start.
  method Begin(o: Order, version: nat) returns (sender: SentPacketHandler, receiver: ReceivedPacketHandler)
    ensures fresh(sender) && fresh(receiver) && Linked(o, sender, receiver, Wire([], []))
    ensures IsStart(Taken(sender, receiver, Wire([], [])))
  {
    hide SentPacketHandler.Valid, ReceivedPacketHandler.Valid;
    sender := new SentPacketHandler();
    receiver := new ReceivedPacketHandler(version);
  }
}
