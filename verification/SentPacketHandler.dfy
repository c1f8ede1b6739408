/**
  The handler of sent packets on one path: sending, acknowledgements, loss detection, alarms and
  STOP_WAITING. The ghost fields are a ledger of everything that happened to the packets.
 */
module SentPacketHandling {
  import opened Basics
  import opened ByteOrder
  import opened AckWire
  import opened SentPackets

  // ----- loss

  function LostTest(largestAcked: nat, now: int, delayUntilLost: int): (test: Packet -> bool) {
    (p: Packet) => p.number <= largestAcked && now - p.sendTime > delayUntilLost
  }

  function UpTo(largestAcked: nat): (test: Packet -> bool) {
    (p: Packet) => p.number <= largestAcked
  }

  // When the oldest packet that was overtaken becomes overdue.
  function Deadline(h: seq<Packet>, largestAcked: nat, delayUntilLost: int): (t: Option<int>) {
    if h != [] && h[0].number <= largestAcked then Some(h[0].sendTime + delayUntilLost) else None
  }

  // the first packet that is kept, or a packet beyond the largest acknowledged one
  ghost predicate FirstKept(h: seq<Packet>, largestAcked: nat, now: int, delayUntilLost: int, i: nat) {
    i < |h| && !LostTest(largestAcked, now, delayUntilLost)(h[i]) &&
    forall j :: 0 <= j < i ==> LostTest(largestAcked, now, delayUntilLost)(h[j])
  }

  lemma {:induction false} FirstSurvivor(h: seq<Packet>, test: Packet -> bool, i: nat)
    requires Ascending(h) && i < |h| && !test(h[i]) && forall j :: 0 <= j < i ==> test(h[j])
    ensures var rest := WithoutAll(h, Select(h, test)); rest != [] && rest[0] == h[i]
  {
    hide Select, WithoutAll;
    SelectIsSelected(h, test);
    var rest := WithoutAll(h, Select(h, test));
    WithoutAllMembers(h, Select(h, test));
    WithoutAllAscends(h, Select(h, test));
    assert h[i] in h && h[i] in rest;
    assert rest[0] in rest && rest[0] in h;
    var k :| 0 <= k < |h| && h[k] == rest[0];
    var m :| 0 <= m < |rest| && rest[m] == h[i];
  }

  lemma {:induction false} WithoutAllAscends(h: seq<Packet>, gone: seq<Packet>)
    requires Ascending(h)
    ensures Ascending(WithoutAll(h, gone))
    decreases |gone|
  {
    hide Ascending;
    if gone != [] {
      WithoutAllAscends(h, gone[..|gone| - 1]);
      WithoutAscends(WithoutAll(h, gone[..|gone| - 1]), gone[|gone| - 1].number);
    }
  }

  lemma NoSurvivor(h: seq<Packet>, test: Packet -> bool)
    requires Ascending(h) && forall p :: p in h ==> test(p)
    ensures WithoutAll(h, Select(h, test)) == []
  {
    hide WithoutAll, Select;
    SelectIsSelected(h, test);
    WithoutAllMembers(h, Select(h, test));
    HasFirst(WithoutAll(h, Select(h, test)));
  }

  lemma HasFirst(s: seq<Packet>)
    ensures s == [] || exists p :: p in s
  {
    if s != [] { assert s[0] in s; }
  }

  lemma DeadlineOfRest(h: seq<Packet>, largestAcked: nat, now: int, delay: int, i: nat)
    requires Ascending(h) && FirstKept(h, largestAcked, now, delay, i)
    ensures Deadline(WithoutAll(h, Select(h, LostTest(largestAcked, now, delay))), largestAcked, delay) ==
            if h[i].number <= largestAcked then Some(h[i].sendTime + delay) else None
  {
    hide Select, WithoutAll;
    FirstSurvivor(h, LostTest(largestAcked, now, delay), i);
  }

  lemma NoDeadline(h: seq<Packet>, largestAcked: nat, now: int, delay: int)
    requires Ascending(h) && forall j :: 0 <= j < |h| ==> LostTest(largestAcked, now, delay)(h[j])
    ensures Deadline(WithoutAll(h, Select(h, LostTest(largestAcked, now, delay))), largestAcked, delay) == None
  {
    hide Select, WithoutAll;
    NoSurvivor(h, LostTest(largestAcked, now, delay));
  }

  // exactly the packets that were overtaken, and were sent too long ago, from the oldest on
  ghost predicate AreOverdue(h: seq<Packet>, largestAcked: nat, now: int, delayUntilLost: int, lost: seq<Packet>) {
    Ascending(lost) &&
    forall p :: p in lost <==> p in h && p.number <= largestAcked && now - p.sendTime > delayUntilLost
  }

  // when the oldest packet that was overtaken and is not overdue becomes overdue
  ghost predicate IsNextDeadline(h: seq<Packet>, largestAcked: nat, now: int, delayUntilLost: int, t: Option<int>) {
    (t.None? <==> forall p :: p in h && p.number <= largestAcked ==> now - p.sendTime > delayUntilLost) &&
    (t.Some? ==>
      exists i :: 0 <= i < |h| && h[i].number <= largestAcked && now <= t.value == h[i].sendTime + delayUntilLost &&
        forall j :: 0 <= j < i ==> now - h[j].sendTime > delayUntilLost)
  }

  lemma LostIsExact(h: seq<Packet>, largestAcked: nat, now: int, delayUntilLost: int)
    requires Ascending(h)
    ensures AreOverdue(h, largestAcked, now, delayUntilLost, Select(h, LostTest(largestAcked, now, delayUntilLost)))
  {
    SelectIsSelected(h, LostTest(largestAcked, now, delayUntilLost));
  }

  lemma DeadlineIsNext(h: seq<Packet>, largestAcked: nat, now: int, delay: int, i: nat)
    requires Ascending(h) && i <= |h| && forall j :: 0 <= j < i ==> LostTest(largestAcked, now, delay)(h[j])
    requires i < |h| ==> !LostTest(largestAcked, now, delay)(h[i])
    ensures IsNextDeadline(h, largestAcked, now, delay,
              if i < |h| && h[i].number <= largestAcked then Some(h[i].sendTime + delay) else None)
  {
    if i < |h| { assert h[i] in h; }
  }

  lemma DeadlineIsExact(h: seq<Packet>, largestAcked: nat, now: int, delay: int)
    requires Ascending(h)
    ensures IsNextDeadline(h, largestAcked, now, delay,
              Deadline(WithoutAll(h, Select(h, LostTest(largestAcked, now, delay))), largestAcked, delay))
  {
    hide IsNextDeadline, Deadline, Select, WithoutAll, Ascending;
    var i := 0;
    while i < |h| && LostTest(largestAcked, now, delay)(h[i])
      invariant i <= |h| && forall j :: 0 <= j < i ==> LostTest(largestAcked, now, delay)(h[j])
    {
      i := i + 1;
    }
    DeadlineIsNext(h, largestAcked, now, delay, i);
    if i < |h| { DeadlineOfRest(h, largestAcked, now, delay, i); } else { NoDeadline(h, largestAcked, now, delay); }
  }

  // When the loss timer fires, something is lost.
  lemma TimerFindsLost(h: seq<Packet>, largestAcked: nat, before: int, delayUntilLost: int, t: int, now: int)
    requires IsNextDeadline(h, largestAcked, before, delayUntilLost, Some(t)) && now > t
    ensures exists p :: p in h && LostTest(largestAcked, now, delayUntilLost)(p)
  {
    var i :| 0 <= i < |h| && h[i].number <= largestAcked && before <= t == h[i].sendTime + delayUntilLost;
    assert h[i] in h && LostTest(largestAcked, now, delayUntilLost)(h[i]);
  }

  // Packets that were overtaken too long ago. The loss timer is then that of the oldest packet left.
  method FindLost(h: seq<Packet>, largestAcked: nat, now: int, delayUntilLost: int)
    returns (lost: seq<Packet>, lossTime: Option<int>)
    requires Ascending(h)
    ensures lost == Select(h, LostTest(largestAcked, now, delayUntilLost))
    ensures lossTime == Deadline(WithoutAll(h, lost), largestAcked, delayUntilLost)
  {
    hide Select, WithoutAll, Deadline;
    ghost var test := LostTest(largestAcked, now, delayUntilLost);
    lossTime := None;
    lost := [];
    ghost var kept := 0;
    NothingSelected(test);
    var i := 0;
    while i < |h|
      invariant kept <= i <= |h| && lost == Select(h[..i], test)
      invariant forall j :: 0 <= j < kept ==> test(h[j])
      invariant kept < i ==> !test(h[kept]) && h[kept].number <= largestAcked
      invariant lossTime == if kept < i then Some(h[kept].sendTime + delayUntilLost) else None
    {
      SelectStep(h, test, i);
      if h[i].number > largestAcked {
        SelectTail(h, test, i);
        DeadlineOfRest(h, largestAcked, now, delayUntilLost, kept);
        return;
      }
      var timeSinceSent := now - h[i].sendTime;
      if timeSinceSent > delayUntilLost {
        lost := lost + [h[i]];
        if kept == i { kept := i + 1; }
      } else if lossTime.None? {
        lossTime := Some(now + (delayUntilLost - timeSinceSent));
      }
      i := i + 1;
    }
    assert h[..i] == h;
    if kept < |h| {
      DeadlineOfRest(h, largestAcked, now, delayUntilLost, kept);
    } else {
      NoDeadline(h, largestAcked, now, delayUntilLost);
    }
  }

  lemma NothingSelected(test: Packet -> bool)
    ensures Select([], test) == []
  {
  }

  // ----- skipped packet numbers

  function Count(lo: nat, hi: nat): (ns: seq<nat>)
    ensures |ns| == if lo < hi then hi - lo else 0
    ensures forall i :: 0 <= i < |ns| ==> ns[i] == lo + i
    decreases hi - lo
  {
    if lo < hi then Count(lo, hi - 1) + [hi - 1] else []
  }

  function Latest(s: seq<nat>): (t: seq<nat>) {
    if |s| > MAX_TRACKED_SKIPPED then s[|s| - MAX_TRACKED_SKIPPED..] else s
  }

  // the last ten, or all if there are fewer
  lemma LatestIsSuffix(s: seq<nat>)
    ensures |Latest(s)| <= 10 && |Latest(s)| <= |s| && Latest(s) == s[|s| - |Latest(s)|..]
    ensures |Latest(s)| < 10 ==> Latest(s) == s
  {
  }

  lemma LatestOfFew(s: seq<nat>)
    requires |s| <= MAX_TRACKED_SKIPPED
    ensures Latest(s) == s
  {
  }

  lemma LatestStep(s: seq<nat>, p: nat)
    ensures var t := Latest(s) + [p]; Latest(s + [p]) == if |t| > MAX_TRACKED_SKIPPED then t[1..] else t
  {
  }

  ghost predicate Increasing(s: seq<nat>) {
    forall i, j :: 0 <= i < j < |s| ==> s[i] < s[j]
  }

  // The numbers between the last packet and the next one are remembered, up to the latest ten.
  method SkipTo(skipped: seq<nat>, lastSent: nat, number: nat) returns (s: seq<nat>)
    requires lastSent < number && |skipped| <= MAX_TRACKED_SKIPPED
    ensures s == Latest(skipped + Count(lastSent + 1, number))
  {
    hide Latest, Count;
    s := skipped;
    var p := lastSent + 1;
    assert skipped + Count(p, p) == skipped;
    LatestOfFew(skipped);
    while p < number
      invariant lastSent < p <= number && s == Latest(skipped + Count(lastSent + 1, p))
    {
      LatestStep(skipped + Count(lastSent + 1, p), p);
      assert skipped + Count(lastSent + 1, p + 1) == skipped + Count(lastSent + 1, p) + [p];
      s := s + [p];
      if |s| > MAX_TRACKED_SKIPPED { s := s[1..]; }
      p := p + 1;
    }
  }

  ghost predicate Collected(before: seq<nat>, after: seq<nat>, bound: int) {
    |after| <= |before| && forall n :: n in after <==> n in before && n > bound
  }

  // Forget the numbers up to bound.
  method CollectSkipped(skipped: seq<nat>, bound: nat) returns (s: seq<nat>)
    requires Increasing(skipped)
    ensures Increasing(s) && Collected(skipped, s, bound)
  {
    var deleteIndex, i := 0, 0;
    while i < |skipped|
      invariant deleteIndex <= i <= |skipped|
      invariant forall j :: 0 <= j < deleteIndex ==> skipped[j] <= bound
      invariant forall j :: deleteIndex <= j < i ==> skipped[j] > bound
    {
      if skipped[i] <= bound { deleteIndex := i + 1; }
      i := i + 1;
    }
    return skipped[deleteIndex..];
  }

  predicate AcksSkipped(skipped: seq<nat>, f: AckFrame) {
    exists n :: n in skipped && AcksPacket(f, n)
  }

  lemma SkippedIs(skipped: seq<nat>, f: AckFrame)
    ensures AcksSkipped(skipped, f) <==> exists n :: n in skipped && AcksPacket(f, n)
  {
  }

  // ----- the ledger

  // Every packet is in flight, acknowledged or lost, and in no two of these places.
  ghost predicate Accounted(history: seq<Packet>, acked: multiset<Packet>, lost: multiset<Packet>, sent: seq<Packet>) {
    Ascending(sent) && multiset(history) + acked + lost == multiset(sent)
  }

  ghost predicate InFlight(history: seq<Packet>, bytesInFlight: nat) {
    Ascending(history) && bytesInFlight == Bytes(history)
  }

  // What is handed over for retransmission stays queued until it is taken out.
  ghost predicate Queued(queue: seq<Packet>, dequeued: multiset<Packet>, lost: multiset<Packet>,
                         duplicated: multiset<Packet>) {
    multiset(queue) + dequeued == lost + duplicated
  }

  ghost predicate Numbered(sent: seq<Packet>, numbers: set<nat>, skipped: seq<nat>, lastSent: nat) {
    (forall p :: p in sent ==> p.number in numbers && p.frames != []) &&
    (forall n :: n in numbers ==> 0 < n <= lastSent) &&
    (forall n :: n in skipped ==> n < lastSent && n !in numbers) && Increasing(skipped) &&
    |skipped| <= MAX_TRACKED_SKIPPED
  }

  lemma {:induction false} CountsOnce(s: seq<Packet>, p: Packet)
    requires Ascending(s)
    ensures multiset(s)[p] <= 1
  {
    if s != [] {
      var front, last := s[..|s| - 1], s[|s| - 1];
      assert s == front + [last];
      CountsOnce(front, p);
      if p == last {
        assert p !in front;
      }
    }
  }

  // A packet that was sent is in exactly one place.
  lemma ExactlyOnePlace(history: seq<Packet>, acked: multiset<Packet>, lost: multiset<Packet>, sent: seq<Packet>,
                        p: Packet)
    requires Accounted(history, acked, lost, sent)
    ensures p in sent <==> p in history || p in acked || p in lost
    ensures !(p in history && p in acked) && !(p in history && p in lost) && !(p in acked && p in lost)
  {
    CountsOnce(sent, p);
    assert (multiset(history) + acked + lost)[p] <= 1;
    assert p in sent <==> p in multiset(sent);
    assert p in history <==> p in multiset(history);
  }

  lemma NextIsNew(sent: seq<Packet>, numbers: set<nat>, skipped: seq<nat>, lastSent: nat, p: Packet)
    requires Ascending(sent) && Numbered(sent, numbers, skipped, lastSent) && lastSent < p.number && p.frames != []
    ensures Ascending(sent + [p])
    ensures Numbered(sent + [p], numbers + {p.number}, Latest(skipped + Count(lastSent + 1, p.number)), p.number)
  {
    SkippedGrows(skipped, lastSent, p.number);
    assert forall i :: 0 <= i < |sent| ==> sent[i] in sent;
  }

  lemma SkippedGrows(skipped: seq<nat>, lastSent: nat, number: nat)
    requires Increasing(skipped) && lastSent < number && forall n :: n in skipped ==> n < lastSent
    ensures var s := Latest(skipped + Count(lastSent + 1, number));
      Increasing(s) && |s| <= MAX_TRACKED_SKIPPED && forall n :: n in s ==> n in skipped || lastSent < n < number
  {
    var all := skipped + Count(lastSent + 1, number);
    assert forall i :: 0 <= i < |skipped| ==> skipped[i] in skipped;
    assert Increasing(all);
    forall n | n in Latest(all) ensures n in skipped || lastSent < n < number {
      assert n in all;
    }
  }

  // ----- the handler

  datatype SendResult = Accepted | NotIncreasing | TooManyTracked

  datatype AckResult = Processed | Ignored | UnsentPacket | DuplicateOrOutOfOrder | SkippedPacket

  class SentPacketHandler {
    var lastSentPacketNumber: nat
    var skippedPackets: seq<nat>
    var numNonRetransmittablePackets: nat
    var largestAcked: nat
    var largestReceivedPacketWithAck: nat
    var packetHistory: seq<Packet>
    var retransmissionQueue: seq<Packet>
    var bytesInFlight: nat
    var rtoCount: nat
    var tlpCount: nat
    var lossTime: Option<int>

    // STOP_WAITING
    var largestLeastUnackedSent: nat
    var nextLeastUnacked: nat
    var lastStopWaitingFrame: Option<nat>

    // what was accepted for sending, and what became of it
    ghost var sent: seq<Packet>
    ghost var numbers: set<nat>
    ghost var acked: multiset<Packet>
    ghost var lost: multiset<Packet>
    ghost var duplicated: multiset<Packet>
    ghost var dequeued: multiset<Packet>

    ghost predicate Valid()
      reads this
    {
      InFlight(packetHistory, bytesInFlight) && Accounted(packetHistory, acked, lost, sent) &&
      Numbered(sent, numbers, skippedPackets, lastSentPacketNumber) &&
      Queued(retransmissionQueue, dequeued, lost, duplicated) &&
      (lastStopWaitingFrame.Some? ==> lastStopWaitingFrame.value <= largestLeastUnackedSent) &&
      largestAcked <= lastSentPacketNumber && largestLeastUnackedSent <= nextLeastUnacked <= lastSentPacketNumber + 1
    }

    constructor ()
      ensures Valid() && sent == [] && packetHistory == [] && retransmissionQueue == [] && bytesInFlight == 0
      ensures numbers == {} && lastSentPacketNumber == 0 && skippedPackets == []
      ensures acked == multiset{} && lost == multiset{} && largestAcked == 0 && largestReceivedPacketWithAck == 0
    {
      lastSentPacketNumber, skippedPackets, numNonRetransmittablePackets := 0, [], 0;
      largestAcked, largestReceivedPacketWithAck, packetHistory, retransmissionQueue, bytesInFlight := 0, 0, [], [], 0;
      rtoCount, tlpCount, lossTime := 0, 0, None;
      largestLeastUnackedSent, nextLeastUnacked, lastStopWaitingFrame := 0, 0, None;
      sent, numbers, acked, lost, duplicated, dequeued := [], {}, multiset{}, multiset{}, multiset{}, multiset{};
    }

    function LargestInOrderAcked(): (n: int)
      reads `packetHistory, `largestAcked
    {
      if packetHistory != [] then packetHistory[0].number - 1 else largestAcked
    }

    // Everything below the least unacknowledged number has left the history for good.
    function LeastUnacked(): (n: int)
      requires Valid()
      reads this
      ensures n <= lastSentPacketNumber + 1
      ensures forall p :: p in packetHistory ==> n <= p.number
      ensures if packetHistory == [] then n == largestAcked + 1 else exists p :: p in packetHistory && p.number == n
      ensures forall p :: p in sent && p.number < n ==> p in acked || p in lost
    {
      assert forall p :: p in sent ==> p in multiset(packetHistory) + acked + lost by {
        assert forall p :: p in sent ==> p in multiset(sent);
      }
      assert packetHistory != [] ==>
             packetHistory[0] in packetHistory && packetHistory[0] in multiset(packetHistory) + acked + lost;
      assert packetHistory != [] ==> packetHistory[0] in multiset(sent);
      LargestInOrderAcked() + 1
    }

    // A packet that may be sent is not refused for lack of room.
    function SendingAllowed(congestionWindow: nat): (allowed: bool)
      reads this
      ensures allowed ==> |retransmissionQueue| + |packetHistory| < MAX_TRACKED_SENT
      ensures allowed && retransmissionQueue == [] ==> bytesInFlight <= congestionWindow
      ensures !allowed && bytesInFlight <= congestionWindow ==>
              |retransmissionQueue| + |packetHistory| >= MAX_TRACKED_SENT
      ensures !allowed && retransmissionQueue != [] ==> |retransmissionQueue| + |packetHistory| >= MAX_TRACKED_SENT
    {
      |retransmissionQueue| + |packetHistory| < MAX_TRACKED_SENT &&
      (bytesInFlight <= congestionWindow || |retransmissionQueue| > 0)
    }

    // the numbers up to that of the next packet are taken
    ghost predicate Takes(number: nat, skipped: seq<nat>)
      reads this
    {
      number > lastSentPacketNumber && skipped == Latest(skippedPackets + Count(lastSentPacketNumber + 1, number))
    }

    method Track(p: Packet, skipped: seq<nat>)
      requires Valid() && Takes(p.number, skipped) && p.frames != []
      modifies `lastSentPacketNumber, `skippedPackets, `packetHistory, `bytesInFlight, `numNonRetransmittablePackets,
               `sent, `numbers
      ensures Valid() && lastSentPacketNumber == p.number && skippedPackets == skipped &&
              numbers == old(numbers) + {p.number}
      ensures packetHistory == old(packetHistory) + [p] && sent == old(sent) + [p]
      ensures bytesInFlight == old(bytesInFlight) + p.length && numNonRetransmittablePackets == 0
    {
      hide Latest, Count, Accounted, InFlight, Numbered, Queued;
      SendAccounted(packetHistory, bytesInFlight, acked, lost, sent, numbers, skippedPackets, lastSentPacketNumber, p);
      skippedPackets, lastSentPacketNumber := skipped, p.number;
      bytesInFlight := bytesInFlight + p.length;
      packetHistory := packetHistory + [p];
      numNonRetransmittablePackets := 0;
      sent, numbers := sent + [p], numbers + {p.number};
    }

    method Pass(number: nat, skipped: seq<nat>)
      requires Valid() && Takes(number, skipped)
      modifies `lastSentPacketNumber, `skippedPackets, `numNonRetransmittablePackets, `numbers
      ensures Valid() && lastSentPacketNumber == number && skippedPackets == skipped &&
              numbers == old(numbers) + {number}
      ensures numNonRetransmittablePackets == old(numNonRetransmittablePackets) + 1
    {
      hide Latest, Count, Accounted, InFlight, Numbered, Queued;
      NumberUsed(sent, numbers, skippedPackets, lastSentPacketNumber, number);
      skippedPackets, lastSentPacketNumber := skipped, number;
      numNonRetransmittablePackets := numNonRetransmittablePackets + 1;
      numbers := numbers + {number};
    }

    method SentPacket(packet: Packet, now: int) returns (r: SendResult)
      requires Valid()
      modifies `lastSentPacketNumber, `skippedPackets, `packetHistory, `bytesInFlight, `numNonRetransmittablePackets,
               `sent, `numbers
      ensures Valid()
      ensures r.NotIncreasing? <==> packet.number <= old(lastSentPacketNumber)
      ensures r.TooManyTracked? <==>
              packet.number > old(lastSentPacketNumber) &&
              |retransmissionQueue| + old(|packetHistory|) >= MAX_TRACKED_SENT
      ensures !r.Accepted? ==> unchanged(this)
      ensures r.Accepted? ==> lastSentPacketNumber == packet.number && numbers == old(numbers) + {packet.number}
      ensures r.Accepted? ==>
              skippedPackets == Latest(old(skippedPackets) + Count(old(lastSentPacketNumber) + 1, packet.number))
      ensures r.Accepted? && Strip(packet.frames) != [] ==>
              var p := packet.(frames := Strip(packet.frames), sendTime := now);
              packetHistory == old(packetHistory) + [p] && sent == old(sent) + [p] &&
              bytesInFlight == old(bytesInFlight) + p.length && numNonRetransmittablePackets == 0
      ensures r.Accepted? ==>
              IsStripped(packet.frames, Strip(packet.frames)) &&
              (packetHistory != old(packetHistory) <==>
                exists k :: k in packet.frames && k != Ack && k != StopWaiting)
      ensures r.Accepted? && Strip(packet.frames) == [] ==>
              packetHistory == old(packetHistory) && sent == old(sent) && bytesInFlight == old(bytesInFlight) &&
              numNonRetransmittablePackets == old(numNonRetransmittablePackets) + 1
    {
      StripIsExact(packet.frames);
      KeptAny(packet.frames);
      hide Latest, Count, Strip, IsStripped, Accounted, InFlight, Numbered;
      if packet.number <= lastSentPacketNumber { return NotIncreasing; }
      if |retransmissionQueue| + |packetHistory| + 1 > MAX_TRACKED_SENT { return TooManyTracked; }
      SkippedIsSmall(sent, numbers, skippedPackets, lastSentPacketNumber);
      var skipped := SkipTo(skippedPackets, lastSentPacketNumber, packet.number);
      hide Valid;
      var p := packet.(frames := Strip(packet.frames), sendTime := now);
      if p.frames != [] {
        Track(p, skipped);
      } else {
        Pass(packet.number, skipped);
      }
      return Accepted;
    }

    lemma KeptAny(frames: seq<Kind>)
      ensures Strip(frames) != [] <==> exists k :: k in frames && k != Ack && k != StopWaiting
    {
      if Strip(frames) != [] { assert Strip(frames)[0] in Strip(frames); }
    }

    method OnPacketAcked(p: Packet)
      requires Valid() && p in packetHistory
      modifies `packetHistory, `bytesInFlight, `acked, `rtoCount, `tlpCount
      ensures Valid() && packetHistory == Without(old(packetHistory), p.number) &&
              bytesInFlight == old(bytesInFlight) - p.length
      ensures acked == old(acked) + multiset{p} && rtoCount == 0 && tlpCount == 0
    {
      hide Accounted, InFlight, Numbered, Queued, Without;
      Leave(packetHistory, bytesInFlight, acked, lost, sent, p);
      bytesInFlight := bytesInFlight - p.length;
      rtoCount, tlpCount := 0, 0;
      packetHistory := Without(packetHistory, p.number);
      acked := acked + multiset{p};
    }

    method QueueForRetransmission(p: Packet)
      requires Valid() && p in packetHistory
      modifies `packetHistory, `bytesInFlight, `retransmissionQueue, `nextLeastUnacked, `lost
      ensures Valid() && packetHistory == Without(old(packetHistory), p.number) &&
              bytesInFlight == old(bytesInFlight) - p.length
      ensures retransmissionQueue == old(retransmissionQueue) + [p] && lost == old(lost) + multiset{p}
      ensures nextLeastUnacked == if p.number >= old(nextLeastUnacked) then p.number + 1 else old(nextLeastUnacked)
    {
      hide Accounted, InFlight, Numbered, Queued, Without;
      Leave(packetHistory, bytesInFlight, acked, lost, sent, p);
      HistoryBelow(packetHistory, acked, lost, sent, numbers, skippedPackets, lastSentPacketNumber);
      Enqueue(retransmissionQueue, dequeued, lost, duplicated, p);
      bytesInFlight := bytesInFlight - p.length;
      retransmissionQueue := retransmissionQueue + [p];
      packetHistory := Without(packetHistory, p.number);
      if p.number >= nextLeastUnacked { nextLeastUnacked := p.number + 1; }
      lost := lost + multiset{p};
    }

    method AckAll(gone: seq<Packet>)
      requires Valid() && Selected(gone, packetHistory)
      modifies `packetHistory, `bytesInFlight, `acked, `rtoCount, `tlpCount
      ensures Valid() && packetHistory == WithoutAll(old(packetHistory), gone) && acked == old(acked) + multiset(gone)
      ensures if gone == [] then rtoCount == old(rtoCount) && tlpCount == old(tlpCount)
              else rtoCount == 0 && tlpCount == 0
    {
      hide *;
      HistoryAscends();
      WithoutNone(packetHistory);
      var i := 0;
      while i < |gone|
        invariant i <= |gone| && Valid() && packetHistory == WithoutAll(old(packetHistory), gone[..i])
        invariant acked == old(acked) + multiset(gone[..i])
        invariant if i == 0 then rtoCount == old(rtoCount) && tlpCount == old(tlpCount)
                  else rtoCount == 0 && tlpCount == 0
      {
        StillThere(old(packetHistory), gone, i);
        OnPacketAcked(gone[i]);
        i := i + 1;
      }
      assert gone[..i] == gone;
    }

    method QueueAll(gone: seq<Packet>)
      requires Valid() && Selected(gone, packetHistory)
      modifies `packetHistory, `bytesInFlight, `retransmissionQueue, `nextLeastUnacked, `lost
      ensures Valid() && packetHistory == WithoutAll(old(packetHistory), gone) && lost == old(lost) + multiset(gone)
      ensures retransmissionQueue == old(retransmissionQueue) + gone &&
              Covered(old(nextLeastUnacked), gone, nextLeastUnacked)
    {
      hide *;
      HistoryAscends();
      WithoutNone(packetHistory);
      CoverNothing(nextLeastUnacked);
      var i := 0;
      while i < |gone|
        invariant i <= |gone| && Valid() && packetHistory == WithoutAll(old(packetHistory), gone[..i])
        invariant lost == old(lost) + multiset(gone[..i]) && retransmissionQueue == old(retransmissionQueue) + gone[..i]
        invariant Covered(old(nextLeastUnacked), gone[..i], nextLeastUnacked)
      {
        StillThere(old(packetHistory), gone, i);
        CoverOneMore(old(nextLeastUnacked), gone[..i], nextLeastUnacked, gone[i]);
        QueueForRetransmission(gone[i]);
        i := i + 1;
      }
      assert gone[..i] == gone;
    }

    method DetectLost(now: int, delayUntilLost: int)
      requires Valid()
      modifies `packetHistory, `bytesInFlight, `retransmissionQueue, `nextLeastUnacked, `lost, `lossTime
      ensures Valid()
      ensures Covered(old(nextLeastUnacked), Select(old(packetHistory), LostTest(largestAcked, now, delayUntilLost)),
                nextLeastUnacked)
      ensures Gone(old(packetHistory), packetHistory, old(retransmissionQueue), retransmissionQueue, old(lost), lost,
                   Select(old(packetHistory), LostTest(largestAcked, now, delayUntilLost)))
      ensures lossTime == Deadline(packetHistory, largestAcked, delayUntilLost)
    {
      hide *;
      HistoryAscends();
      var gone, time := FindLost(packetHistory, largestAcked, now, delayUntilLost);
      SelectIsSelected(packetHistory, LostTest(largestAcked, now, delayUntilLost));
      QueueAll(gone);
      GoneOf(old(packetHistory), packetHistory, old(retransmissionQueue), retransmissionQueue, old(lost), lost, gone);
      SetLossTime(time);
    }

    method SetLossTime(time: Option<int>)
      requires Valid()
      modifies `lossTime
      ensures Valid() && lossTime == time
    {
      lossTime := time;
    }

    method SetInflightAsLost()
      requires Valid()
      modifies `packetHistory, `bytesInFlight, `retransmissionQueue, `nextLeastUnacked, `lost
      ensures Valid() &&
              Covered(old(nextLeastUnacked), Select(old(packetHistory), UpTo(largestAcked)), nextLeastUnacked)
      ensures Gone(old(packetHistory), packetHistory, old(retransmissionQueue), retransmissionQueue, old(lost), lost,
                   Select(old(packetHistory), UpTo(largestAcked)))
    {
      hide *;
      HistoryAscends();
      var gone := FindUpTo(packetHistory, largestAcked);
      SelectIsSelected(packetHistory, UpTo(largestAcked));
      QueueAll(gone);
      GoneOf(old(packetHistory), packetHistory, old(retransmissionQueue), retransmissionQueue, old(lost), lost, gone);
    }

    method AckNewly(f: AckFrame)
      requires Valid() && ValidateAckRanges(f)
      modifies `packetHistory, `bytesInFlight, `acked, `rtoCount, `tlpCount
      ensures Valid() && packetHistory == WithoutAll(old(packetHistory), Select(old(packetHistory), AckTest(f)))
      ensures acked == old(acked) + multiset(Select(old(packetHistory), AckTest(f)))
      ensures if Select(old(packetHistory), AckTest(f)) == [] then unchanged(`rtoCount, `tlpCount)
              else rtoCount == 0 && tlpCount == 0
    {
      hide *;
      HistoryAscends();
      ValidFrame(f);
      var newlyAcked := DetermineNewlyAcked(packetHistory, f);
      SelectIsSelected(packetHistory, AckTest(f));
      AckAll(newlyAcked.value);
    }

    // An ACK frame that passed the parser. Exactly its packets leave the history as acknowledged,
    // and then exactly those that were overtaken too long ago are handed over for retransmission.
    method ReceivedAck(f: AckFrame, withPacketNumber: nat, now: int, delayUntilLost: int) returns (r: AckResult)
      requires Valid() && ValidateAckRanges(f)
      modifies `largestReceivedPacketWithAck, `largestAcked, `skippedPackets, `packetHistory, `bytesInFlight,
               `retransmissionQueue,
               `nextLeastUnacked, `lossTime, `rtoCount, `tlpCount, `acked, `lost
      ensures Valid()
      ensures r == old(Verdict(f, withPacketNumber))
      ensures r != Processed ==>
              unchanged(`packetHistory, `bytesInFlight, `retransmissionQueue, `acked, `lost, `skippedPackets,
                `nextLeastUnacked)
      ensures r == Processed ==>
              var newlyAcked := Select(old(packetHistory), AckTest(f));
              var left := WithoutAll(old(packetHistory), newlyAcked);
              acked == old(acked) + multiset(newlyAcked) && largestAcked == f.largestAcked &&
              Gone(left, packetHistory, old(retransmissionQueue), retransmissionQueue, old(lost), lost,
                   Select(left, LostTest(f.largestAcked, now, delayUntilLost))) &&
              lossTime == Deadline(packetHistory, f.largestAcked, delayUntilLost)
      ensures r == Processed ==>
              Collected(old(skippedPackets), skippedPackets, LargestInOrderAcked()) &&
              nextLeastUnacked == Max(old(nextLeastUnacked), f.largestAcked + 1)
      ensures largestReceivedPacketWithAck ==
              if r.UnsentPacket? || r.DuplicateOrOutOfOrder? then old(largestReceivedPacketWithAck)
              else withPacketNumber
      ensures largestAcked == if r.SkippedPacket? || r.Processed? then f.largestAcked else old(largestAcked)
      ensures r == Processed && Select(old(packetHistory), AckTest(f)) != [] ==> rtoCount == 0 && tlpCount == 0
      ensures r != Processed || Select(old(packetHistory), AckTest(f)) == [] ==> unchanged(`rtoCount, `tlpCount)
    {
      hide *;
      r := Screen(f, withPacketNumber);
      if r == Processed { Process(f, now, delayUntilLost); }
    }

    method Process(f: AckFrame, now: int, delayUntilLost: int)
      requires Valid() && ValidateAckRanges(f) && largestAcked == f.largestAcked <= lastSentPacketNumber
      modifies `skippedPackets, `packetHistory, `bytesInFlight, `retransmissionQueue, `nextLeastUnacked, `lossTime,
               `rtoCount, `tlpCount,
               `acked, `lost
      ensures Valid()
      ensures
        var newlyAcked := Select(old(packetHistory), AckTest(f));
        var left := WithoutAll(old(packetHistory), newlyAcked);
        acked == old(acked) + multiset(newlyAcked) &&
        Gone(left, packetHistory, old(retransmissionQueue), retransmissionQueue, old(lost), lost,
             Select(left, LostTest(f.largestAcked, now, delayUntilLost))) &&
        lossTime == Deadline(packetHistory, f.largestAcked, delayUntilLost) &&
        if newlyAcked == [] then rtoCount == old(rtoCount) && tlpCount == old(tlpCount)
        else rtoCount == 0 && tlpCount == 0
      ensures Collected(old(skippedPackets), skippedPackets, LargestInOrderAcked())
      ensures nextLeastUnacked == Max(old(nextLeastUnacked), f.largestAcked + 1)
    {
      hide *;
      AckNewly(f);
      ghost var left := packetHistory;
      DetectLost(now, delayUntilLost);
      NextAfterAck(old(nextLeastUnacked), left, f.largestAcked, now, delayUntilLost, nextLeastUnacked);
      CollectGarbage();
      AckStopsWaiting(f.largestAcked);
    }

    // What becomes of an ACK frame.
    ghost function Verdict(f: AckFrame, withPacketNumber: nat): (r: AckResult)
      reads this
    {
      if f.largestAcked > lastSentPacketNumber then UnsentPacket
      else if withPacketNumber <= largestReceivedPacketWithAck then DuplicateOrOutOfOrder
      else if f.largestAcked <= LargestInOrderAcked() then Ignored
      else if AcksSkipped(skippedPackets, f) then SkippedPacket
      else Processed
    }

    // The cases, told from the numbers: an ACK frame is wrong if it is about a packet that was not sent or was
    // skipped, and otherwise processed exactly if it came with a newer packet and is about one in flight or later.
    lemma VerdictCases(f: AckFrame, withPacketNumber: nat)
      requires Valid()
      ensures
        var r, sent, newer := Verdict(f, withPacketNumber), f.largestAcked <= lastSentPacketNumber,
          withPacketNumber > largestReceivedPacketWithAck;
        (r.UnsentPacket? <==> !sent) && (r.DuplicateOrOutOfOrder? <==> sent && !newer) &&
        (r.Ignored? <==> sent && newer && f.largestAcked < LeastUnacked()) &&
        (r.SkippedPacket? <==>
          sent && newer && f.largestAcked >= LeastUnacked() && exists n :: n in skippedPackets && AcksPacket(f, n)) &&
        (r.Processed? <==>
          sent && newer && f.largestAcked >= LeastUnacked() && forall n :: n in skippedPackets ==> !AcksPacket(f, n))
    {
      hide Accounted, InFlight, Numbered, Queued, AcksPacket;
    }

    method Screen(f: AckFrame, withPacketNumber: nat) returns (r: AckResult)
      requires Valid()
      modifies `largestReceivedPacketWithAck, `largestAcked
      ensures Valid() && r == old(Verdict(f, withPacketNumber))
      ensures largestReceivedPacketWithAck ==
              if r.UnsentPacket? || r.DuplicateOrOutOfOrder? then old(largestReceivedPacketWithAck)
              else withPacketNumber
      ensures largestAcked == if r.SkippedPacket? || r.Processed? then f.largestAcked else old(largestAcked)
      ensures r.Processed? ==> f.largestAcked <= lastSentPacketNumber
    {
      hide Accounted, InFlight, Numbered, Queued;
      if f.largestAcked > lastSentPacketNumber { return UnsentPacket; }
      if withPacketNumber <= largestReceivedPacketWithAck { return DuplicateOrOutOfOrder; }
      largestReceivedPacketWithAck := withPacketNumber;
      if f.largestAcked <= LargestInOrderAcked() { return Ignored; }
      largestAcked := f.largestAcked;
      return if AcksSkipped(skippedPackets, f) then SkippedPacket else Processed;
    }

    method CollectGarbage()
      requires Valid()
      modifies `skippedPackets
      ensures Valid() && Collected(old(skippedPackets), skippedPackets, LargestInOrderAcked())
    {
      hide Accounted, InFlight, Queued;
      HistoryBelow(packetHistory, acked, lost, sent, numbers, skippedPackets, lastSentPacketNumber);
      skippedPackets := CollectSkipped(skippedPackets, LargestInOrderAcked());
    }

    method AckStopsWaiting(ackedUpTo: nat)
      requires Valid() && ackedUpTo <= lastSentPacketNumber
      modifies `nextLeastUnacked
      ensures Valid() && nextLeastUnacked == Max(old(nextLeastUnacked), ackedUpTo + 1)
    {
      hide Accounted, InFlight, Numbered, Queued;
      if ackedUpTo >= nextLeastUnacked { nextLeastUnacked := ackedUpTo + 1; }
    }

    // A path that is closed: what the peer received leaves the history, and the rest is handed over.
    method ReceivedClosePath(f: AckFrame, withPacketNumber: nat) returns (r: AckResult)
      requires Valid() && ValidateAckRanges(f)
      modifies `largestReceivedPacketWithAck, `skippedPackets, `packetHistory, `bytesInFlight, `retransmissionQueue,
               `nextLeastUnacked, `rtoCount, `tlpCount, `acked, `lost
      ensures Valid()
      ensures r.UnsentPacket? <==> f.largestAcked > lastSentPacketNumber
      ensures r.DuplicateOrOutOfOrder? <==>
              f.largestAcked <= lastSentPacketNumber && withPacketNumber <= old(largestReceivedPacketWithAck)
      ensures r.SkippedPacket? <==>
              f.largestAcked <= lastSentPacketNumber && withPacketNumber > old(largestReceivedPacketWithAck) &&
              exists n :: n in old(skippedPackets) && AcksPacket(f, n)
      ensures r != Processed ==>
              unchanged(`packetHistory, `bytesInFlight, `retransmissionQueue, `acked, `lost, `skippedPackets)
      ensures r != Ignored
      ensures r == Processed ==>
              var newlyAcked := Select(old(packetHistory), AckTest(f));
              var left := WithoutAll(old(packetHistory), newlyAcked);
              acked == old(acked) + multiset(newlyAcked) &&
              Gone(left, packetHistory, old(retransmissionQueue), retransmissionQueue, old(lost), lost,
                Select(left, UpTo(largestAcked)))
    {
      hide *;
      if f.largestAcked > lastSentPacketNumber { return UnsentPacket; }
      if withPacketNumber <= largestReceivedPacketWithAck { return DuplicateOrOutOfOrder; }
      NoteAckPacket(withPacketNumber);
      SkippedIs(skippedPackets, f);
      if AcksSkipped(skippedPackets, f) { return SkippedPacket; }
      GiveUp(f);
      return Processed;
    }

    method GiveUp(f: AckFrame)
      requires Valid() && ValidateAckRanges(f)
      modifies `skippedPackets, `packetHistory, `bytesInFlight, `retransmissionQueue, `nextLeastUnacked, `rtoCount,
               `tlpCount, `acked, `lost
      ensures Valid()
      ensures
        var newlyAcked := Select(old(packetHistory), AckTest(f));
        var left := WithoutAll(old(packetHistory), newlyAcked);
        acked == old(acked) + multiset(newlyAcked) &&
        Gone(left, packetHistory, old(retransmissionQueue), retransmissionQueue, old(lost), lost,
             Select(left, UpTo(largestAcked)))
    {
      hide *;
      AckNewly(f);
      SetInflightAsLost();
      CollectGarbage();
    }

    method NoteAckPacket(number: nat)
      requires Valid()
      modifies `largestReceivedPacketWithAck
      ensures Valid() && largestReceivedPacketWithAck == number
    {
      largestReceivedPacketWithAck := number;
    }

    predicate HasOutstanding()
      reads `packetHistory
    {
      exists p :: p in packetHistory && IsRetransmittable(p)
    }

    // the first k packets of the history are handed over
    twostate predicate HandedOver(k: nat)
      reads `packetHistory, `retransmissionQueue, `lost
    {
      k <= |old(packetHistory)| && packetHistory == old(packetHistory)[k..] &&
      retransmissionQueue == old(retransmissionQueue) + old(packetHistory)[..k] &&
      lost == old(lost) + multiset(old(packetHistory)[..k])
    }

    // the last packet of the history is handed over
    twostate predicate Probed()
      reads `packetHistory, `retransmissionQueue, `lost
    {
      old(packetHistory) != [] &&
      var n := |old(packetHistory)| - 1;
      packetHistory == old(packetHistory)[..n] &&
      retransmissionQueue == old(retransmissionQueue) + [old(packetHistory)[n]] &&
      lost == old(lost) + multiset{old(packetHistory)[n]}
    }

    twostate lemma OneHandedOver()
      requires old(packetHistory) != [] && packetHistory == old(packetHistory)[1..]
      requires retransmissionQueue == old(retransmissionQueue) + [old(packetHistory)[0]]
      requires lost == old(lost) + multiset{old(packetHistory)[0]}
      ensures HandedOver(1)
    {
      assert old(packetHistory)[..1] == [old(packetHistory)[0]];
    }

    twostate lemma NoneHandedOver()
      requires packetHistory == old(packetHistory) && retransmissionQueue == old(retransmissionQueue) &&
               lost == old(lost)
      ensures HandedOver(0)
    {
    }

    method RetransmitOldest()
      requires Valid()
      modifies `packetHistory, `bytesInFlight, `retransmissionQueue, `nextLeastUnacked, `lost
      ensures Valid() && HandedOver(if old(packetHistory) == [] then 0 else 1)
    {
      hide *;
      HistoryAscends();
      if packetHistory != [] {
        WithoutFirst(packetHistory);
        QueueForRetransmission(packetHistory[0]);
        OneHandedOver();
      } else {
        NoneHandedOver();
      }
    }

    method RetransmitOldestTwo()
      requires Valid()
      modifies `packetHistory, `bytesInFlight, `retransmissionQueue, `nextLeastUnacked, `lost
      ensures Valid() && HandedOver(if |old(packetHistory)| < 2 then |old(packetHistory)| else 2)
    {
      hide Valid;
      ghost var h := packetHistory;
      RetransmitOldest();
      assert |h| >= 2 ==> h[..2] == h[..1] + h[1..][..1];
      RetransmitOldest();
    }

    method RetransmitAll()
      requires Valid()
      modifies `packetHistory, `bytesInFlight, `retransmissionQueue, `nextLeastUnacked, `lost
      ensures Valid() && HandedOver(|old(packetHistory)|)
    {
      hide Valid;
      ghost var h, k := packetHistory, 0;
      while |packetHistory| > 0
        invariant Valid() && k + |packetHistory| == |h| && HandedOver(k)
        decreases |packetHistory|
      {
        assert h[..k + 1] == h[..k] + [h[k]] && packetHistory[..1] == [h[k]];
        RetransmitOldest();
        k := k + 1;
      }
    }

    twostate lemma ProbeHandedOver()
      requires old(packetHistory) != []
      requires var n := |old(packetHistory)| - 1;
        packetHistory == old(packetHistory)[..n] &&
        retransmissionQueue == old(retransmissionQueue) + [old(packetHistory)[n]] &&
        lost == old(lost) + multiset{old(packetHistory)[n]}
      ensures Probed()
    {
    }

    twostate lemma ProbedIs()
      requires Probed()
      ensures old(packetHistory) != [] &&
              retransmissionQueue == old(retransmissionQueue) + [old(packetHistory)[|old(packetHistory)| - 1]]
    {
    }

    twostate lemma HandedOverIs(k: nat)
      requires HandedOver(k)
      ensures k <= |old(packetHistory)| && retransmissionQueue == old(retransmissionQueue) + old(packetHistory)[..k] &&
              old(packetHistory)[..|old(packetHistory)|] == old(packetHistory)
    {
    }

    method RetransmitProbe()
      requires Valid() && packetHistory != []
      modifies `packetHistory, `bytesInFlight, `retransmissionQueue, `nextLeastUnacked, `lost
      ensures Valid() && Probed()
    {
      hide *;
      HistoryAscends();
      WithoutLast(packetHistory);
      QueueForRetransmission(packetHistory[|packetHistory| - 1]);
      ProbeHandedOver();
    }

    // The timer fired. If anything is left to retransmit, overtaken packets are handed over, or the
    // last packet as a probe, or, after two probes, the oldest two packets (all of them if the path failed).
    method OnAlarm(now: int, delayUntilLost: int, potentiallyFailed: bool)
      requires Valid()
      modifies `packetHistory, `bytesInFlight, `retransmissionQueue, `nextLeastUnacked, `lost, `lossTime, `rtoCount,
               `tlpCount
      ensures Valid()
      ensures old(HasOutstanding()) <==>
              (exists p, k :: p in old(packetHistory) && k in p.frames &&
                 k !in {ClosePath, ConnectionClose, Ack, StopWaiting})
      ensures !old(HasOutstanding()) ==> unchanged(this)
      ensures old(HasOutstanding() && lossTime.Some?) ==>
              Gone(old(packetHistory), packetHistory, old(retransmissionQueue), retransmissionQueue, old(lost), lost,
                   Select(old(packetHistory), LostTest(largestAcked, now, delayUntilLost))) &&
              lossTime == Deadline(packetHistory, largestAcked, delayUntilLost) && unchanged(`rtoCount, `tlpCount)
      ensures old(HasOutstanding() && lossTime.None? && tlpCount < MAX_TAIL_LOSS_PROBES) ==>
              Probed() && old(packetHistory) != [] &&
              retransmissionQueue == old(retransmissionQueue) + [old(packetHistory)[|old(packetHistory)| - 1]] &&
              tlpCount == old(tlpCount) + 1 && unchanged(`rtoCount, `lossTime)
      ensures old(HasOutstanding() && lossTime.None? && tlpCount >= MAX_TAIL_LOSS_PROBES) ==>
              HandedOver(if potentiallyFailed || |old(packetHistory)| < 2 then |old(packetHistory)| else 2) &&
              retransmissionQueue == old(retransmissionQueue) +
                (if potentiallyFailed || |old(packetHistory)| < 2 then old(packetHistory)
                 else old(packetHistory)[..2]) &&
              rtoCount == old(rtoCount) + 1 && unchanged(`tlpCount, `lossTime)
    {
      SomeHistory();
      hide *;
      if !HasOutstanding() { return; }
      if lossTime.Some? {
        DetectLost(now, delayUntilLost);
      } else if tlpCount < MAX_TAIL_LOSS_PROBES {
        RetransmitProbe();
        ProbedIs();
        CountProbe();
      } else {
        if potentiallyFailed { RetransmitAll(); } else { RetransmitOldestTwo(); }
        HandedOverIs(if potentiallyFailed || |old(packetHistory)| < 2 then |old(packetHistory)| else 2);
        CountTimeout();
      }
    }

    lemma SomeHistory()
      ensures HasOutstanding() ==> packetHistory != []
      ensures HasOutstanding() <==>
              (exists p, k :: p in packetHistory && k in p.frames &&
                 k !in {ClosePath, ConnectionClose, Ack, StopWaiting})
    {
      hide IsRetransmittable;
      forall p | p in packetHistory
        ensures IsRetransmittable(p) <==>
                exists k :: k in p.frames && k !in {ClosePath, ConnectionClose, Ack, StopWaiting}
      {
        RetransmittableIsExact(p);
      }
    }

    method CountProbe()
      requires Valid()
      modifies `tlpCount
      ensures Valid() && tlpCount == old(tlpCount) + 1
    {
      tlpCount := tlpCount + 1;
    }

    method CountTimeout()
      requires Valid()
      modifies `rtoCount
      ensures Valid() && rtoCount == old(rtoCount) + 1
    {
      rtoCount := rtoCount + 1;
    }

    method DequeuePacketForRetransmission() returns (r: Option<Packet>)
      requires Valid()
      modifies `retransmissionQueue, `dequeued
      ensures Valid()
      ensures r.None? <==> old(retransmissionQueue) == []
      ensures r.None? ==> unchanged(this)
      ensures r.Some? ==>
              [r.value] + retransmissionQueue == old(retransmissionQueue) &&
              dequeued == old(dequeued) + multiset{r.value}
    {
      hide Accounted, InFlight, Numbered;
      if |retransmissionQueue| == 0 { return None; }
      var packet := retransmissionQueue[0];
      assert retransmissionQueue == [packet] + retransmissionQueue[1..];
      retransmissionQueue := retransmissionQueue[1..];
      dequeued := dequeued + multiset{packet};
      return Some(packet);
    }

    method DuplicatePacket(p: Packet)
      requires Valid()
      modifies `retransmissionQueue, `duplicated
      ensures Valid() && retransmissionQueue == old(retransmissionQueue) + [p] &&
              duplicated == old(duplicated) + multiset{p}
    {
      hide Accounted, InFlight, Numbered;
      Enqueue(retransmissionQueue, dequeued, lost, duplicated, p);
      retransmissionQueue := retransmissionQueue + [p];
      duplicated := duplicated + multiset{p};
    }

    // A new frame is only made when it announces more than the last one.
    method GetStopWaitingFrame(force: bool) returns (leastUnacked: Option<nat>)
      requires Valid()
      modifies `largestLeastUnackedSent, `lastStopWaitingFrame
      ensures Valid()
      ensures old(largestLeastUnackedSent) < nextLeastUnacked ==>
              leastUnacked == Some(nextLeastUnacked) && largestLeastUnackedSent == nextLeastUnacked
      ensures old(largestLeastUnackedSent) >= nextLeastUnacked ==>
              largestLeastUnackedSent == old(largestLeastUnackedSent)
      ensures old(largestLeastUnackedSent) >= nextLeastUnacked && !force ==>
              leastUnacked == None && unchanged(`lastStopWaitingFrame)
      ensures old(largestLeastUnackedSent) >= nextLeastUnacked && force ==>
              leastUnacked == lastStopWaitingFrame == if old(lastStopWaitingFrame).None? && largestLeastUnackedSent > 0
                                                      then Some(nextLeastUnacked) else old(lastStopWaitingFrame)
      ensures leastUnacked.Some? ==> leastUnacked.value <= lastSentPacketNumber + 1
    {
      hide Accounted, InFlight, Numbered, Queued;
      if nextLeastUnacked <= largestLeastUnackedSent {
        if force {
          if lastStopWaitingFrame.None? && largestLeastUnackedSent > 0 {
            lastStopWaitingFrame := Some(nextLeastUnacked);
          }
          return lastStopWaitingFrame;
        }
        return None;
      }
      largestLeastUnackedSent := nextLeastUnacked;
      lastStopWaitingFrame := Some(nextLeastUnacked);
      return lastStopWaitingFrame;
    }

    lemma HistoryAscends()
      requires Valid()
      ensures Ascending(packetHistory)
    {
    }
  }

  lemma SkippedIsSmall(sent: seq<Packet>, numbers: set<nat>, skipped: seq<nat>, lastSent: nat)
    requires Numbered(sent, numbers, skipped, lastSent)
    ensures |skipped| <= MAX_TRACKED_SKIPPED && Increasing(skipped)
  {
  }

  lemma SendAccounted(history: seq<Packet>, bytes: nat, acked: multiset<Packet>, lost: multiset<Packet>,
                      sent: seq<Packet>,
                      numbers: set<nat>, skipped: seq<nat>, lastSent: nat, p: Packet)
    requires InFlight(history, bytes) && Accounted(history, acked, lost, sent) &&
             Numbered(sent, numbers, skipped, lastSent)
    requires lastSent < p.number && p.frames != []
    ensures InFlight(history + [p], bytes + p.length) && Accounted(history + [p], acked, lost, sent + [p])
    ensures Numbered(sent + [p], numbers + {p.number}, Latest(skipped + Count(lastSent + 1, p.number)), p.number)
  {
    NextIsNew(sent, numbers, skipped, lastSent, p);
    BytesAppend(history, p);
    hide Bytes, Numbered;
    HistoryBelow(history, acked, lost, sent, numbers, skipped, lastSent);
  }

  lemma HistoryBelow(history: seq<Packet>, acked: multiset<Packet>, lost: multiset<Packet>, sent: seq<Packet>,
                     numbers: set<nat>, skipped: seq<nat>, lastSent: nat)
    requires Accounted(history, acked, lost, sent) && Numbered(sent, numbers, skipped, lastSent)
    ensures forall i :: 0 <= i < |history| ==> history[i] in sent && 0 < history[i].number <= lastSent
  {
    forall i | 0 <= i < |history| ensures history[i] in sent {
      ExactlyOnePlace(history, acked, lost, sent, history[i]);
    }
  }

  lemma NumberUsed(sent: seq<Packet>, numbers: set<nat>, skipped: seq<nat>, lastSent: nat, number: nat)
    requires Numbered(sent, numbers, skipped, lastSent) && lastSent < number
    ensures Numbered(sent, numbers + {number}, Latest(skipped + Count(lastSent + 1, number)), number)
  {
    SkippedGrows(skipped, lastSent, number);
  }

  lemma Leave(history: seq<Packet>, bytes: nat, acked: multiset<Packet>, lost: multiset<Packet>, sent: seq<Packet>,
              p: Packet)
    requires InFlight(history, bytes) && Accounted(history, acked, lost, sent) && p in history
    ensures p.length <= bytes && InFlight(Without(history, p.number), bytes - p.length)
    ensures Accounted(Without(history, p.number), acked + multiset{p}, lost, sent)
    ensures Accounted(Without(history, p.number), acked, lost + multiset{p}, sent)
  {
    hide Without, Bytes, Ascending;
    WithoutOne(history, p);
    WithoutAscends(history, p.number);
    var rest := multiset(Without(history, p.number));
    assert p in multiset(history);
    assert rest + multiset{p} == multiset(history);
  }

  lemma Enqueue(queue: seq<Packet>, dequeued: multiset<Packet>, lost: multiset<Packet>, duplicated: multiset<Packet>,
                p: Packet)
    requires Queued(queue, dequeued, lost, duplicated)
    ensures Queued(queue + [p], dequeued, lost + multiset{p}, duplicated)
    ensures Queued(queue + [p], dequeued, lost, duplicated + multiset{p})
  {
    assert multiset(queue + [p]) + dequeued == multiset(queue) + dequeued + multiset{p};
    assert lost + multiset{p} + duplicated == lost + duplicated + multiset{p};
  }

  lemma WithoutNone(h: seq<Packet>)
    ensures WithoutAll(h, []) == h
  {
  }

  lemma StillSelected(h: seq<Packet>, gone: seq<Packet>, i: nat)
    requires Selected(gone, h) && i < |gone|
    ensures Selected(gone[..i], h) && gone[i] in h && gone[i] !in gone[..i]
  {
    assert gone[i] in gone;
    assert forall p :: p in gone[..i] ==> p in gone;
  }

  lemma StillThere(h: seq<Packet>, gone: seq<Packet>, i: nat)
    requires Ascending(h) && Selected(gone, h) && i < |gone|
    ensures gone[i] in WithoutAll(h, gone[..i])
    ensures WithoutAll(h, gone[..i + 1]) == Without(WithoutAll(h, gone[..i]), gone[i].number)
    ensures gone[..i + 1] == gone[..i] + [gone[i]] && multiset(gone[..i + 1]) == multiset(gone[..i]) + multiset{gone[i]}
  {
    hide Without;
    assert gone[..i + 1][..i] == gone[..i];
    StillSelected(h, gone, i);
    hide WithoutAll, Ascending, Selected;
    WithoutAllMembers(h, gone[..i]);
  }

  // STOP_WAITING will cover the packets that are handed over, and no more than before and these
  ghost predicate Covered(before: nat, gone: seq<Packet>, next: nat) {
    before <= next && (forall p :: p in gone ==> p.number < next) &&
    (next == before || exists p :: p in gone && next == p.number + 1)
  }

  lemma CoverNothing(before: nat)
    ensures Covered(before, [], before)
  {
  }

  lemma CoverOneMore(before: nat, gone: seq<Packet>, next: nat, p: Packet)
    requires Covered(before, gone, next)
    ensures Covered(before, gone + [p], if p.number >= next then p.number + 1 else next)
  {
    assert p in gone + [p];
    assert forall q :: q in gone ==> q in gone + [p];
  }

  lemma NextAfterAck(before: nat, h: seq<Packet>, largest: nat, now: int, delay: int, next: nat)
    requires Covered(before, Select(h, LostTest(largest, now, delay)), next)
    ensures Max(next, largest + 1) == Max(before, largest + 1)
  {
    hide Select;
  }

  // some packets moved from the history to the end of the retransmission queue
  ghost predicate Gone(before: seq<Packet>, after: seq<Packet>, queueBefore: seq<Packet>, queue: seq<Packet>,
                       lostBefore: multiset<Packet>, lost: multiset<Packet>, gone: seq<Packet>) {
    after == WithoutAll(before, gone) && queue == queueBefore + gone && lost == lostBefore + multiset(gone)
  }

  lemma GoneOf(before: seq<Packet>, after: seq<Packet>, queueBefore: seq<Packet>, queue: seq<Packet>,
               lostBefore: multiset<Packet>, lost: multiset<Packet>, gone: seq<Packet>)
    ensures Gone(before, after, queueBefore, queue, lostBefore, lost, gone) <==>
            after == WithoutAll(before, gone) && queue == queueBefore + gone && lost == lostBefore + multiset(gone)
  {
  }

  method FindUpTo(h: seq<Packet>, largestAcked: nat) returns (found: seq<Packet>)
    requires Ascending(h)
    ensures found == Select(h, UpTo(largestAcked)) && Ascending(found)
    ensures forall p :: p in found <==> p in h && p.number <= largestAcked
  {
    SelectIsSelected(h, UpTo(largestAcked));
    hide Select;
    found := [];
    NothingSelected(UpTo(largestAcked));
    var i := 0;
    while i < |h|
      invariant i <= |h| && found == Select(h[..i], UpTo(largestAcked))
    {
      SelectStep(h, UpTo(largestAcked), i);
      if h[i].number > largestAcked {
        SelectTail(h, UpTo(largestAcked), i);
        return;
      }
      found, i := found + [h[i]], i + 1;
    }
    assert h[..i] == h;
  }

  lemma WithoutFirst(h: seq<Packet>)
    requires Ascending(h) && h != []
    ensures Without(h, h[0].number) == h[1..]
  {
    var n := h[0].number;
    WithoutOfFront(h, |h|);
    assert h[..|h|] == h;
  }

  lemma {:induction false} WithoutOfFront(h: seq<Packet>, k: nat)
    requires Ascending(h) && 1 <= k <= |h|
    ensures Without(h[..k], h[0].number) == h[1..k]
  {
    if k == 1 {
      assert h[..1] == [h[0]];
    } else {
      var n := h[0].number;
      assert h[k - 1].number != n;
      hide Without, Ascending;
      assert h[..k] == h[..k - 1] + [h[k - 1]] && h[1..k] == h[1..k - 1] + [h[k - 1]];
      WithoutAppend(h[..k - 1], h[k - 1], n);
      WithoutOfFront(h, k - 1);
    }
  }

  lemma WithoutLast(h: seq<Packet>)
    requires Ascending(h) && h != []
    ensures Without(h, h[|h| - 1].number) == h[..|h| - 1]
    ensures h[|h| - 1] in h
  {
    var front, last := h[..|h| - 1], h[|h| - 1];
    assert h == front + [last];
    WithoutAppend(front, last, last.number);
    WithoutAbsent(front, last.number);
  }
}
