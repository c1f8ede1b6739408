/**
  The sender's record of its packets. Every retransmittable packet that was sent is, at any time,
  in exactly one place: in flight, acknowledged, or handed over for retransmission.
 */
module SentPackets {
  import opened Basics
  import opened ByteOrder
  import opened AckWire

  const MAX_TRACKED_SENT: nat := 5000
  const MAX_TRACKED_SKIPPED: nat := 10
  const MAX_TAIL_LOSS_PROBES: nat := 2

  datatype Kind = Stream | RstStream | WindowUpdate | Blocked | Ping | Goaway | AddAddress | Paths
                | ClosePath | ConnectionClose | Ack | StopWaiting

  datatype Packet = Packet(number: nat, frames: seq<Kind>, length: nat, sendTime: int)

  function Strip(frames: seq<Kind>): (kept: seq<Kind>)
    ensures forall k :: k in kept <==> k in frames && k != Ack && k != StopWaiting
  {
    if frames == [] then []
    else
      var last := frames[|frames| - 1];
      Strip(frames[..|frames| - 1]) + if last == Ack || last == StopWaiting then [] else [last]
  }

  // the places before n of frames other than ACK and STOP_WAITING
  ghost function PlacesBefore(frames: seq<Kind>, n: nat): (s: set<nat>)
    requires n <= |frames|
  {
    set j | 0 <= j < n && frames[j] != Ack && frames[j] != StopWaiting
  }

  // kept are exactly these frames, each as often as it was there, and after those that were before it
  ghost predicate IsStripped(frames: seq<Kind>, kept: seq<Kind>) {
    |kept| == |PlacesBefore(frames, |frames|)| &&
    (forall i :: 0 <= i < |frames| && frames[i] != Ack && frames[i] != StopWaiting ==>
      |PlacesBefore(frames, i)| < |kept| && kept[|PlacesBefore(frames, i)|] == frames[i]) &&
    forall k :: k != Ack && k != StopWaiting ==> multiset(kept)[k] == multiset(frames)[k]
  }

  lemma SamePlaces(frames: seq<Kind>, last: Kind, n: nat)
    requires n <= |frames|
    ensures PlacesBefore(frames + [last], n) == PlacesBefore(frames, n)
    ensures |PlacesBefore(frames + [last], |frames| + 1)| ==
            |PlacesBefore(frames, |frames|)| + if last == Ack || last == StopWaiting then 0 else 1
  {
    var all, front := PlacesBefore(frames + [last], |frames| + 1), PlacesBefore(frames, |frames|);
    assert all == front + if last == Ack || last == StopWaiting then {} else {|frames|};
    assert PlacesBefore(frames + [last], n) == PlacesBefore(frames, n);
  }

  lemma OneMoreKept(frames: seq<Kind>, kept: seq<Kind>, last: Kind)
    requires IsStripped(frames, kept)
    ensures IsStripped(frames + [last], kept + if last == Ack || last == StopWaiting then [] else [last])
  {
    hide PlacesBefore;
    var all, more := frames + [last], kept + if last == Ack || last == StopWaiting then [] else [last];
    SamePlaces(frames, last, |frames|);
    forall i | 0 <= i < |all| && all[i] != Ack && all[i] != StopWaiting
      ensures |PlacesBefore(all, i)| < |more| && more[|PlacesBefore(all, i)|] == all[i]
    {
      SamePlaces(frames, last, i);
      if i < |frames| { assert all[i] == frames[i]; }
    }
  }

  // What is kept of a packet: all frames but ACK and STOP_WAITING.
  lemma {:induction false} StripIsExact(frames: seq<Kind>)
    ensures IsStripped(frames, Strip(frames))
  {
    if frames != [] {
      hide IsStripped;
      var front, last := frames[..|frames| - 1], frames[|frames| - 1];
      StripIsExact(front);
      OneMoreKept(front, Strip(front), last);
      assert frames == front + [last];
    }
  }

  // Something is left to retransmit in a packet with any frame that is not about closing or acknowledging.
  predicate IsRetransmittable(p: Packet) {
    Stream in p.frames || RstStream in p.frames || WindowUpdate in p.frames || Blocked in p.frames ||
    Ping in p.frames || Goaway in p.frames || AddAddress in p.frames || Paths in p.frames
  }

  lemma RetransmittableIsExact(p: Packet)
    ensures IsRetransmittable(p) <==> exists k :: k in p.frames && k !in {ClosePath, ConnectionClose, Ack, StopWaiting}
  {
    forall k | k in p.frames && k !in {ClosePath, ConnectionClose, Ack, StopWaiting} ensures IsRetransmittable(p) {
      match k
      case Stream => case RstStream => case WindowUpdate => case Blocked => case Ping => case Goaway =>
      case AddAddress => case Paths =>
    }
  }

  // ----- lists of packets

  predicate Ascending(h: seq<Packet>) {
    forall i, j :: 0 <= i < j < |h| ==> h[i].number < h[j].number
  }

  function Bytes(h: seq<Packet>): (n: nat) {
    if h == [] then 0 else Bytes(h[..|h| - 1]) + h[|h| - 1].length
  }

  // the list without the packet numbered n
  function Without(h: seq<Packet>, n: nat): (rest: seq<Packet>)
    ensures forall p :: p in rest <==> p in h && p.number != n
    decreases |h|
  {
    if h == [] then []
    else
      var last := h[|h| - 1];
      Without(h[..|h| - 1], n) + if last.number == n then [] else [last]
  }

  // the list without some of its packets
  function WithoutAll(h: seq<Packet>, gone: seq<Packet>): (rest: seq<Packet>)
    decreases |gone|
  {
    if gone == [] then h else Without(WithoutAll(h, gone[..|gone| - 1]), gone[|gone| - 1].number)
  }

  predicate Selected(gone: seq<Packet>, h: seq<Packet>) {
    Ascending(gone) && forall p :: p in gone ==> p in h
  }

  lemma AscendingPrefix(h: seq<Packet>, n: nat)
    requires Ascending(h) && n <= |h|
    ensures Ascending(h[..n])
  {
  }

  lemma WithoutAppend(h: seq<Packet>, last: Packet, n: nat)
    ensures Without(h + [last], n) == if last.number == n then Without(h, n) else Without(h, n) + [last]
  {
    assert (h + [last])[..|h|] == h;
  }

  lemma {:induction false} WithoutAbsent(h: seq<Packet>, n: nat)
    requires forall p :: p in h ==> p.number != n
    ensures Without(h, n) == h
  {
    if h != [] {
      hide Without;
      var front, last := h[..|h| - 1], h[|h| - 1];
      assert h == front + [last];
      assert last in h && forall p :: p in front ==> p in h;
      WithoutAbsent(front, n);
      WithoutAppend(front, last, n);
    }
  }

  lemma BytesAppend(h: seq<Packet>, p: Packet)
    ensures Bytes(h + [p]) == Bytes(h) + p.length
  {
    assert (h + [p])[..|h|] == h;
  }

  lemma {:induction false} WithoutOne(h: seq<Packet>, p: Packet)
    requires Ascending(h) && p in h
    ensures multiset(Without(h, p.number)) == multiset(h) - multiset{p}
    ensures Bytes(Without(h, p.number)) == Bytes(h) - p.length
  {
    hide Without, Bytes, Ascending;
    var front, last := h[..|h| - 1], h[|h| - 1];
    assert h == front + [last];
    AscendingPrefix(h, |h| - 1);
    NumbersDiffer(h, p);
    WithoutAppend(front, last, p.number);
    BytesAppend(front, last);
    if last.number == p.number {
      WithoutAbsent(front, p.number);
    } else {
      WithoutOne(front, p);
      BytesAppend(Without(front, p.number), last);
    }
  }

  lemma NumbersDiffer(h: seq<Packet>, p: Packet)
    requires Ascending(h) && p in h
    ensures forall q :: q in h && q.number == p.number ==> q == p
    ensures forall q :: q in h[..|h| - 1] ==> q.number != h[|h| - 1].number
  {
  }

  lemma {:induction false} WithoutAscends(h: seq<Packet>, n: nat)
    requires Ascending(h)
    ensures Ascending(Without(h, n))
  {
    if h != [] {
      var front, last := h[..|h| - 1], h[|h| - 1];
      WithoutAscends(front, n);
      var rest := Without(front, n);
      forall i | 0 <= i < |rest| ensures rest[i].number < last.number {
        assert rest[i] in front;
      }
    }
  }

  lemma {:induction false} WithoutAllMembers(h: seq<Packet>, gone: seq<Packet>)
    requires Ascending(h) && Selected(gone, h)
    ensures forall p :: p in WithoutAll(h, gone) <==> p in h && p !in gone
    decreases |gone|
  {
    if gone != [] {
      var front, last := gone[..|gone| - 1], gone[|gone| - 1];
      assert gone == front + [last];
      WithoutAllMembers(h, front);
      forall p | p in h && p.number == last.number ensures p == last {
        assert last in gone;
      }
    }
  }

  // the packets of a list that pass a test
  function Select(h: seq<Packet>, test: Packet -> bool): (chosen: seq<Packet>)
    ensures forall p :: p in chosen <==> p in h && test(p)
  {
    if h == [] then []
    else
      var last := h[|h| - 1];
      Select(h[..|h| - 1], test) + if test(last) then [last] else []
  }

  lemma {:induction false} SelectIsSelected(h: seq<Packet>, test: Packet -> bool)
    requires Ascending(h)
    ensures Selected(Select(h, test), h)
  {
    if h != [] {
      var front, last := h[..|h| - 1], h[|h| - 1];
      SelectIsSelected(front, test);
      var chosen := Select(front, test);
      forall i | 0 <= i < |chosen| ensures chosen[i].number < last.number {
        assert chosen[i] in front;
      }
    }
  }

  lemma {:induction false} SelectTail(h: seq<Packet>, test: Packet -> bool, n: nat)
    requires n <= |h| && forall i :: n <= i < |h| ==> !test(h[i])
    ensures Select(h, test) == Select(h[..n], test)
    decreases |h|
  {
    if n < |h| {
      var front := h[..|h| - 1];
      assert front[..n] == h[..n];
      SelectTail(front, test, n);
    } else {
      assert h[..n] == h;
    }
  }

  lemma SelectStep(h: seq<Packet>, test: Packet -> bool, i: nat)
    requires i < |h|
    ensures Select(h[..i + 1], test) == Select(h[..i], test) + if test(h[i]) then [h[i]] else []
  {
    assert h[..i + 1][..i] == h[..i];
  }

  // ----- which packets an ACK frame acknowledges

  function AckTest(f: AckFrame): (test: Packet -> bool) {
    (p: Packet) => AcksPacket(f, p.number)
  }

  predicate FirstsDescend(ranges: seq<AckRange>) {
    (forall i :: 0 <= i < |ranges| ==> ranges[i].first <= ranges[i].last) &&
    (forall i :: 1 <= i < |ranges| ==> ranges[i - 1].first > ranges[i].first)
  }

  // within the bounds of the frame, but above all of its ranges
  ghost predicate Beyond(f: AckFrame, n: nat) {
    f.ranges != [] && f.lowestAcked <= n <= f.largestAcked && forall r :: r in f.ranges ==> r.last < n
  }

  lemma {:induction false} FirstsOrdered(ranges: seq<AckRange>, i: nat, j: nat)
    requires FirstsDescend(ranges) && i < j < |ranges|
    ensures ranges[i].first > ranges[j].first
  {
    if i + 1 < j { FirstsOrdered(ranges, i, j - 1); }
    assert ranges[j - 1].first > ranges[j].first;
  }

  // ranges are visited from the lowest up; the lower ones end below n
  predicate Passed(ranges: seq<AckRange>, index: nat, n: nat) {
    index < |ranges| && forall k :: |ranges| - index <= k < |ranges| ==> ranges[k].last < n
  }

  lemma RangeDecides(f: AckFrame, index: nat, n: nat)
    requires FirstsDescend(f.ranges) && f.lowestAcked <= n <= f.largestAcked && Passed(f.ranges, index, n)
    requires n <= f.ranges[|f.ranges| - 1 - index].last || index == |f.ranges| - 1
    ensures
      var r := f.ranges[|f.ranges| - 1 - index];
      r.first <= r.last && (AcksPacket(f, n) <==> r.first <= n <= r.last) && (Beyond(f, n) <==> r.last < n)
  {
    var k := |f.ranges| - 1 - index;
    var r := f.ranges[k];
    forall i | 0 <= i < |f.ranges| && f.ranges[i].first <= n <= f.ranges[i].last ensures r.first <= n <= r.last {
      if i < k { FirstsOrdered(f.ranges, i, k); }
    }
    if r.last < n {
      forall q | q in f.ranges ensures q.last < n {
        var i :| 0 <= i < |f.ranges| && q == f.ranges[i];
      }
    } else {
      assert r in f.ranges;
    }
  }

  method AdvanceRange(ranges: seq<AckRange>, start: nat, n: nat) returns (index: nat)
    requires Passed(ranges, start, n)
    ensures Passed(ranges, index, n)
    ensures n <= ranges[|ranges| - 1 - index].last || index == |ranges| - 1
  {
    index := start;
    while n > ranges[|ranges| - 1 - index].last && index < |ranges| - 1
      invariant Passed(ranges, index, n)
      decreases |ranges| - index
    {
      index := index + 1;
    }
  }

  // One pass over the history, with one pass over the ranges beside it. It stops with an error exactly
  // if a packet lies beyond the ranges, and otherwise finds exactly the packets that are acknowledged.
  method DetermineNewlyAcked(h: seq<Packet>, f: AckFrame) returns (r: Option<seq<Packet>>)
    requires Ascending(h) && FirstsDescend(f.ranges)
    ensures r.None? <==> exists p :: p in h && Beyond(f, p.number)
    ensures r.Some? ==> r.value == Select(h, AckTest(f))
  {
    hide AcksPacket, Beyond, FirstsDescend, Select;
    var acked, i := [], 0;
    var index: nat := 0;
    NoneAcked(f);
    while i < |h|
      invariant i <= |h| && acked == Select(h[..i], AckTest(f))
      invariant forall j :: 0 <= j < i ==> !Beyond(f, h[j].number)
      invariant f.ranges != [] && i < |h| ==> Passed(f.ranges, index, h[i].number)
    {
      var packet := h[i];
      var n := packet.number;
      SelectStep(h, AckTest(f), i);
      OutOfBounds(f, n);
      if n > f.largestAcked {
        forall j | i <= j < |h| ensures !AcksPacket(f, h[j].number) && !Beyond(f, h[j].number) {
          OutOfBounds(f, h[j].number);
        }
        SelectTail(h, AckTest(f), i);
        return Some(acked);
      }
      if n >= f.lowestAcked {
        if f.ranges != [] {
          index := AdvanceRange(f.ranges, index, n);
          RangeDecides(f, index, n);
          var ackRange := f.ranges[|f.ranges| - 1 - index];
          if n >= ackRange.first {
            if n > ackRange.last { return None; }
            acked := acked + [packet];
          }
        } else {
          AllAcked(f, n);
          acked := acked + [packet];
        }
      }
      i := i + 1;
    }
    assert h[..i] == h;
    return Some(acked);
  }

  lemma NoneAcked(f: AckFrame)
    ensures Select([], AckTest(f)) == []
  {
  }

  lemma OutOfBounds(f: AckFrame, n: nat)
    ensures n < f.lowestAcked || f.largestAcked < n ==> !AcksPacket(f, n) && !Beyond(f, n)
  {
  }

  lemma AllAcked(f: AckFrame, n: nat)
    requires f.ranges == [] && f.lowestAcked <= n <= f.largestAcked
    ensures AcksPacket(f, n) && !Beyond(f, n)
  {
  }

  // A frame that passed the parser has no packet beyond its ranges.
  lemma ValidFrame(f: AckFrame)
    requires ValidateAckRanges(f)
    ensures FirstsDescend(f.ranges) && forall n :: !Beyond(f, n)
  {
    if f.ranges != [] { assert f.ranges[0] in f.ranges; }
  }
}
