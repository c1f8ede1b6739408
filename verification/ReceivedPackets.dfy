/**
  What a path has received: packet numbers kept as intervals, and the handler that decides when to
  send an ACK frame and what it says.
 */
module ReceivedPackets {
  import opened Basics
  import opened ByteOrder
  import opened AckWire

  const MAX_TRACKED_RANGES: nat := 2500
  const MAX_PACKETS_BEFORE_ACK: nat := 20
  const RETRANSMITTABLE_BEFORE_ACK: nat := 2
  const ACK_SEND_DELAY: int := 25
  const VERSION_39: nat := 39

  // ----- the history

  datatype Interval = Interval(start: nat, end: nat)

  // in ascending order, with at least one number missing between neighbours
  ghost predicate Separated(rs: seq<Interval>) {
    (forall i :: 0 <= i < |rs| ==> 0 < rs[i].start <= rs[i].end) &&
    (forall i, j :: 0 <= i < j < |rs| ==> rs[i].end + 1 < rs[j].start)
  }

  ghost predicate Covers(r: Interval, n: nat) {
    r.start <= n <= r.end
  }

  // the set of numbers that a history stands for
  ghost predicate Has(rs: seq<Interval>, n: nat) {
    exists r :: r in rs && Covers(r, n)
  }

  ghost predicate Adds(before: seq<Interval>, after: seq<Interval>, p: nat) {
    forall n: nat :: Has(after, n) <==> Has(before, n) || n == p
  }

  ghost predicate Deletes(before: seq<Interval>, after: seq<Interval>, p: nat) {
    forall n: nat :: Has(after, n) <==> Has(before, n) && n > p
  }

  // from index i on, everything starts above p + 1
  ghost predicate Above(rs: seq<Interval>, i: nat, p: nat) {
    forall j :: i <= j < |rs| ==> rs[j].start > p + 1
  }

  lemma Known(rs: seq<Interval>, i: nat, p: nat)
    requires Separated(rs) && i < |rs| && Covers(rs[i], p)
    ensures Adds(rs, rs, p)
  {
    assert rs[i] in rs;
  }

  // One interval grows by p, and still has space on both sides.
  lemma Grown(rs: seq<Interval>, i: nat, r: Interval, p: nat)
    requires Separated(rs) && i < |rs| && Above(rs, i + 1, p)
    requires 0 < r.start <= r.end && (forall n: nat :: Covers(r, n) <==> Covers(rs[i], n) || n == p)
    requires i > 0 ==> rs[i - 1].end + 1 < r.start
    ensures Separated(rs[i := r]) && Adds(rs, rs[i := r], p)
  {
    var s := rs[i := r];
    assert Covers(r, r.start) && Covers(r, r.end) && Covers(r, p);
    forall j | 0 <= j < i ensures rs[j].end + 1 < r.start { if j < i - 1 { assert rs[j].end < rs[i - 1].start; } }
    assert Separated(s);
    forall n: nat ensures Has(s, n) <==> Has(rs, n) || n == p { Updated(rs, i, r, n); }
  }

  lemma Updated(rs: seq<Interval>, i: nat, r: Interval, n: nat)
    requires i < |rs| && (Covers(rs[i], n) ==> Covers(r, n))
    ensures Has(rs[i := r], n) <==> Has(rs, n) || Covers(r, n)
  {
    var s := rs[i := r];
    assert s[i] == r && r in s;
    forall q | q in rs && Covers(q, n) ensures Has(s, n) {
      var k :| 0 <= k < |rs| && rs[k] == q;
      assert s[k] in s && Covers(s[k], n);
    }
    forall q | q in s && Covers(q, n) ensures Has(rs, n) || Covers(r, n) {
      var k :| 0 <= k < |s| && s[k] == q;
      if k != i { assert rs[k] in rs; }
    }
  }

  function InsertAt(rs: seq<Interval>, i: nat, p: nat): (s: seq<Interval>)
    requires i <= |rs|
  {
    rs[..i] + [Interval(p, p)] + rs[i..]
  }

  lemma Inserted(rs: seq<Interval>, i: nat, p: nat)
    requires Separated(rs) && i <= |rs| && 0 < p && Above(rs, i, p) && (i > 0 ==> rs[i - 1].end + 1 < p)
    ensures Separated(InsertAt(rs, i, p)) && Adds(rs, InsertAt(rs, i, p), p)
  {
    hide Has, Adds;
    var s := InsertAt(rs, i, p);
    forall j | 0 <= j < i ensures rs[j].end + 1 < p { if j < i - 1 { assert rs[j].end < rs[i - 1].start; } }
    assert forall j :: 0 <= j < |s| ==> s[j] == if j < i then rs[j] else if j == i then Interval(p, p) else rs[j - 1];
    InsertedMembers(rs, i, p);
  }

  lemma InsertedMembers(rs: seq<Interval>, i: nat, p: nat)
    requires i <= |rs|
    ensures Adds(rs, InsertAt(rs, i, p), p)
  {
    var s := InsertAt(rs, i, p);
    assert rs == rs[..i] + rs[i..];
    assert forall q :: q in s <==> q in rs || q == Interval(p, p);
    forall n: nat ensures Has(s, n) <==> Has(rs, n) || n == p {
      assert Covers(Interval(p, p), n) <==> n == p;
    }
  }

  // p closes the gap between two neighbours
  function MergeAt(rs: seq<Interval>, i: nat): (s: seq<Interval>)
    requires 1 <= i < |rs|
  {
    rs[..i - 1] + [Interval(rs[i - 1].start, rs[i].end)] + rs[i + 1..]
  }

  lemma Merged(rs: seq<Interval>, i: nat, p: nat)
    requires Separated(rs) && 1 <= i < |rs| && rs[i - 1].end + 1 == p == rs[i].start - 1
    ensures Separated(MergeAt(rs, i)) && Adds(rs, MergeAt(rs, i), p)
  {
    var s, r := MergeAt(rs, i), Interval(rs[i - 1].start, rs[i].end);
    assert forall j :: 0 <= j < |s| ==> s[j] == if j < i - 1 then rs[j] else if j == i - 1 then r else rs[j + 1];
    assert Separated(s);
    forall n: nat ensures Has(s, n) <==> Has(rs, n) || n == p {
      MergedMembers(rs, i);
      assert Covers(r, n) <==> Covers(rs[i - 1], n) || Covers(rs[i], n) || n == p;
      assert rs[i - 1] in rs && rs[i] in rs;
    }
  }

  lemma MergedMembers(rs: seq<Interval>, i: nat)
    requires 1 <= i < |rs|
    ensures var s, r := MergeAt(rs, i), Interval(rs[i - 1].start, rs[i].end);
      (forall q :: q in s ==> q in rs || q == r) && r in s &&
      (forall q :: q in rs ==> q in s || q == rs[i - 1] || q == rs[i])
  {
    assert rs == rs[..i - 1] + [rs[i - 1], rs[i]] + rs[i + 1..];
  }

  // The set gains p, and nothing else. Only the limit on intervals can prevent it.
  method Register(rs: seq<Interval>, p: nat) returns (s: Option<seq<Interval>>)
    requires Separated(rs) && 0 < p
    ensures s.None? <==> |rs| >= MAX_TRACKED_RANGES
    ensures s.Some? ==> Separated(s.value) && Adds(rs, s.value, p) && |s.value| <= |rs| + 1
  {
    if |rs| >= MAX_TRACKED_RANGES { return None; }
    hide Adds, Has, InsertAt, MergeAt;
    var i: nat := |rs|;
    while i > 0
      invariant i <= |rs| && Above(rs, i, p)
    {
      i := i - 1;
      var r := rs[i];
      if r.start <= p <= r.end {
        Known(rs, i, p);
        return Some(rs);
      }
      if r.end == p - 1 {
        Grown(rs, i, Interval(r.start, p), p);
        return Some(rs[i := Interval(r.start, p)]);
      }
      if r.start == p + 1 {
        if i > 0 && rs[i - 1].end + 1 == p {
          Merged(rs, i, p);
          MergeLength(rs, i);
          return Some(MergeAt(rs, i));
        }
        Grown(rs, i, Interval(p, r.end), p);
        return Some(rs[i := Interval(p, r.end)]);
      }
      if p > r.end {
        Inserted(rs, i + 1, p);
        InsertLength(rs, i + 1, p);
        return Some(InsertAt(rs, i + 1, p));
      }
    }
    Inserted(rs, 0, p);
    InsertLength(rs, 0, p);
    return Some(InsertAt(rs, 0, p));
  }

  lemma MergeLength(rs: seq<Interval>, i: nat)
    requires 1 <= i < |rs|
    ensures |MergeAt(rs, i)| == |rs| - 1
  {
  }

  lemma InsertLength(rs: seq<Interval>, i: nat, p: nat)
    requires i <= |rs|
    ensures |InsertAt(rs, i, p)| == |rs| + 1
  {
  }

  // The set loses everything up to p, and nothing else.
  method DeleteUpTo(rs: seq<Interval>, p: nat) returns (s: seq<Interval>)
    requires Separated(rs)
    ensures Separated(s) && Deletes(rs, s, p) && |s| <= |rs|
  {
    var i := 0;
    while i < |rs|
      invariant i <= |rs| && forall j :: 0 <= j < i ==> rs[j].end <= p
    {
      var r := rs[i];
      if r.start <= p < r.end {
        s := [Interval(p + 1, r.end)] + rs[i + 1..];
        CutAt(rs, i, p);
        return;
      } else if r.end <= p {
        i := i + 1;
      } else {
        s := rs[i..];
        DropTo(rs, i, p);
        return;
      }
    }
    s := rs[i..];
    DropTo(rs, i, p);
  }

  lemma DropTo(rs: seq<Interval>, i: nat, p: nat)
    requires Separated(rs) && i <= |rs| && (forall j :: 0 <= j < i ==> rs[j].end <= p) && (i < |rs| ==> p < rs[i].start)
    ensures Separated(rs[i..]) && Deletes(rs, rs[i..], p)
  {
    forall n: nat ensures Has(rs[i..], n) <==> Has(rs, n) && n > p {
      assert forall q :: q in rs[i..] ==> q in rs && q.start > p;
      forall q | q in rs && Covers(q, n) && n > p ensures q in rs[i..] {
        var k :| 0 <= k < |rs| && rs[k] == q;
        assert rs[i..][k - i] == q;
      }
    }
  }

  lemma CutAt(rs: seq<Interval>, i: nat, p: nat)
    requires Separated(rs) && i < |rs| && (forall j :: 0 <= j < i ==> rs[j].end <= p) && rs[i].start <= p < rs[i].end
    ensures var s := [Interval(p + 1, rs[i].end)] + rs[i + 1..]; Separated(s) && Deletes(rs, s, p)
  {
    var r := Interval(p + 1, rs[i].end);
    var s := [r] + rs[i + 1..];
    forall n: nat ensures Has(s, n) <==> Has(rs, n) && n > p {
      assert forall q :: q in rs[i + 1..] ==> q in rs && q.start > p;
      assert r in s && rs[i] in rs && (Covers(r, n) <==> Covers(rs[i], n) && n > p);
      forall q | q in rs && Covers(q, n) && n > p ensures q == rs[i] || q in rs[i + 1..] {
        var k :| 0 <= k < |rs| && rs[k] == q;
        if k > i { assert rs[i + 1..][k - i - 1] == q; }
      }
    }
  }

  // ----- the ACK frame of a history

  // the intervals from the highest down
  ghost function Downward(rs: seq<Interval>): (ranges: seq<AckRange>)
    ensures |ranges| == |rs|
  {
    seq(|rs|, i requires 0 <= i < |rs| => AckRange(rs[|rs| - 1 - i].start, rs[|rs| - 1 - i].end))
  }

  lemma DownwardDescends(rs: seq<Interval>)
    requires Separated(rs)
    ensures Descending(Downward(rs))
  {
  }

  method AckRanges(rs: seq<Interval>) returns (ranges: seq<AckRange>)
    requires Separated(rs)
    ensures ranges == Downward(rs) && Descending(ranges)
  {
    DownwardDescends(rs);
    ranges := [];
    var i := |rs|;
    while i > 0
      invariant 0 <= i <= |rs| && |ranges| == |rs| - i
      invariant forall k :: 0 <= k < |ranges| ==> ranges[k] == AckRange(rs[|rs| - 1 - k].start, rs[|rs| - 1 - k].end)
    {
      i := i - 1;
      ranges := ranges + [AckRange(rs[i].start, rs[i].end)];
    }
  }

  // what GetAckFrame reports
  function FrameOf(pathID: Byte, largest: nat, ranges: seq<AckRange>): (f: AckFrame)
    requires ranges != []
  {
    AckFrame(pathID, largest, ranges[|ranges| - 1].first, if |ranges| > 1 then ranges else [])
  }

  lemma TopIsLargest(rs: seq<Interval>, largest: nat)
    requires Separated(rs) && Has(rs, largest) && forall n: nat :: Has(rs, n) ==> n <= largest
    ensures rs != [] && rs[|rs| - 1].end == largest
  {
    var r :| r in rs && Covers(r, largest);
    var last := rs[|rs| - 1];
    assert last in rs && Covers(last, last.end) && Has(rs, last.end);
    var k :| 0 <= k < |rs| && rs[k] == r;
  }

  // The frame acknowledges exactly what the history has.
  lemma FrameIsExact(pathID: Byte, largest: nat, rs: seq<Interval>, n: nat)
    requires Separated(rs) && rs != [] && rs[|rs| - 1].end == largest
    ensures AcksPacket(FrameOf(pathID, largest, Downward(rs)), n) <==> Has(rs, n)
  {
    if Has(rs, n) { HadIsAcked(pathID, largest, rs, n); }
    if AcksPacket(FrameOf(pathID, largest, Downward(rs)), n) { AckedIsHad(pathID, largest, rs, n); }
    hide *;
  }

  lemma HadIsAcked(pathID: Byte, largest: nat, rs: seq<Interval>, n: nat)
    requires Separated(rs) && rs != [] && rs[|rs| - 1].end == largest && Has(rs, n)
    ensures AcksPacket(FrameOf(pathID, largest, Downward(rs)), n)
  {
    var r :| r in rs && Covers(r, n);
    var k :| 0 <= k < |rs| && rs[k] == r;
    var range := Downward(rs)[|rs| - 1 - k];
    assert range.first <= n <= range.last;
    assert rs[0].start <= n <= largest;
  }

  lemma AckedIsHad(pathID: Byte, largest: nat, rs: seq<Interval>, n: nat)
    requires rs != [] && rs[|rs| - 1].end == largest && AcksPacket(FrameOf(pathID, largest, Downward(rs)), n)
    ensures Has(rs, n)
  {
    var ranges := Downward(rs);
    var k := if |ranges| > 1 then var k :| 0 <= k < |ranges| && ranges[k].first <= n <= ranges[k].last; k else 0;
    assert rs[|rs| - 1 - k] in rs && Covers(rs[|rs| - 1 - k], n);
  }

  lemma FrameIsWellFormed(pathID: Byte, largest: nat, rs: seq<Interval>)
    requires Separated(rs) && rs != [] && rs[|rs| - 1].end == largest < TWO_48
    ensures var f := FrameOf(pathID, largest, Downward(rs)); WellFormed(f) && Receivable(f)
  {
    DownwardDescends(rs);
  }

  // ----- the handler

  // The highest interval starts above n if and only if some number between n and its end is missing.
  lemma HoleIsExact(rs: seq<Interval>, n: nat)
    requires Separated(rs) && rs != []
    ensures rs[|rs| - 1].start > n <==> exists m: nat :: n <= m < rs[|rs| - 1].end && !Has(rs, m)
  {
    var top := rs[|rs| - 1];
    if top.start > n {
      var m := top.start - 1;
      forall r | r in rs ensures !Covers(r, m) {
        var k :| 0 <= k < |rs| && rs[k] == r;
      }
      assert !Has(rs, m);
    } else {
      forall m: nat | n <= m < top.end ensures Has(rs, m) { assert top in rs && Covers(top, m); }
    }
  }

  datatype ReceiveResult = Received | InvalidNumber | TooManyRanges

  class ReceivedPacketHandler {
    const version: nat
    var largestObserved: nat
    var lowerLimit: nat
    var ranges: seq<Interval>
    var packetsSinceLastAck: nat
    var retransmittableSinceLastAck: nat
    var ackQueued: bool
    var ackAlarm: Option<int>
    var lastAck: Option<nat> // the largest packet number of the last ACK frame

    ghost var received: set<nat>

    ghost predicate Valid()
      reads this
    {
      Separated(ranges) && Bounded(ranges, largestObserved, received) && lowerLimit <= largestObserved &&
      (lastAck.Some? ==> lastAck.value <= largestObserved) && Prompt()
    }

    // No packet that has to be acknowledged is forgotten.
    ghost predicate Prompt()
      reads this
    {
      (ackQueued || ackAlarm.Some? ==> largestObserved > 0) && !(ackQueued && ackAlarm.Some?) &&
      (retransmittableSinceLastAck > 0 ==> ackQueued || ackAlarm.Some?) &&
      (retransmittableSinceLastAck >= RETRANSMITTABLE_BEFORE_ACK ==> ackQueued) &&
      (lastAck.None? && packetsSinceLastAck > 0 ==> ackQueued) &&
      (version < VERSION_39 && packetsSinceLastAck >= MAX_PACKETS_BEFORE_ACK ==> ackQueued)
    }

    constructor (v: nat)
      ensures Valid() && version == v && received == {} && ranges == [] && lowerLimit == 0 && lastAck == None &&
              !ackQueued && ackAlarm == None
    {
      version := v;
      largestObserved, lowerLimit, ranges, packetsSinceLastAck, retransmittableSinceLastAck := 0, 0, [], 0, 0;
      ackQueued, ackAlarm, lastAck, received := false, None, None, {};
    }

    // why an ACK frame is sent without delay
    ghost predicate Urgent(p: nat, shouldInstigateAck: bool)
      reads this
    {
      lastAck.None? || (version < VERSION_39 && packetsSinceLastAck >= MAX_PACKETS_BEFORE_ACK) || p < lastAck.value ||
      (ranges != [] && ranges[|ranges| - 1].start > lastAck.value) ||
      (shouldInstigateAck && retransmittableSinceLastAck >= RETRANSMITTABLE_BEFORE_ACK)
    }

    // The reasons, told from the numbers: the first packet, twenty of them before version 39, one that was
    // reported missing, a hole at or above what was last reported, or the second that wants to be acknowledged.
    lemma UrgentCases(p: nat, shouldInstigateAck: bool)
      requires Valid() && ranges != []
      ensures Urgent(p, shouldInstigateAck) <==>
              lastAck.None? || (version < VERSION_39 && packetsSinceLastAck >= 20) || p < lastAck.value ||
              (exists n: nat :: lastAck.value <= n < ranges[|ranges| - 1].end && !Has(ranges, n)) ||
              (shouldInstigateAck && retransmittableSinceLastAck >= 2)
    {
      if lastAck.Some? { HoleIsExact(ranges, lastAck.value); }
    }

    method ReceivedPacket(p: nat, shouldInstigateAck: bool, now: int) returns (r: ReceiveResult)
      requires Valid()
      modifies this
      ensures r.InvalidNumber? <==> p == 0
      ensures r.InvalidNumber? ==> unchanged(this)
      ensures r.TooManyRanges? <==> p > old(lowerLimit) && old(|ranges|) >= MAX_TRACKED_RANGES
      ensures r.TooManyRanges? ==> unchanged(`ranges, `received, `ackQueued, `ackAlarm)
      ensures r.Received? ==> Valid() && received == old(received) + {p}
      ensures r.Received? ==> largestObserved == if p > old(largestObserved) then p else old(largestObserved)
      ensures lowerLimit == old(lowerLimit) && lastAck == old(lastAck)
      ensures r.Received? && p > lowerLimit ==> Adds(old(ranges), ranges, p)
      ensures r.Received? && p <= lowerLimit ==>
              unchanged(`ranges, `ackQueued, `ackAlarm, `packetsSinceLastAck, `retransmittableSinceLastAck)
      ensures r.Received? && p > lowerLimit ==> (ackQueued <==> old(ackQueued) || Urgent(p, shouldInstigateAck))
      ensures r.Received? && p > lowerLimit && shouldInstigateAck ==> ackQueued || ackAlarm.Some?
      ensures r.Received? && p > lowerLimit ==>
              packetsSinceLastAck == old(packetsSinceLastAck) + 1 &&
              retransmittableSinceLastAck == old(retransmittableSinceLastAck) + if shouldInstigateAck then 1 else 0
      ensures r.Received? && p > lowerLimit && !ackQueued ==>
              ackAlarm == if shouldInstigateAck && old(ackAlarm).None? then Some(now + ACK_SEND_DELAY)
                          else old(ackAlarm)
    {
      hide Separated, Has, Adds;
      if p == 0 { return InvalidNumber; }
      ghost var before := received;
      if p <= lowerLimit {
        received := received + {p};
        StillBounded(ranges, largestObserved, before, p);
        return Received;
      }
      var registered := Register(ranges, p);
      var largest := if p > largestObserved then p else largestObserved;
      if registered.None? {
        largestObserved := largest;
        return TooManyRanges;
      }
      NowBounded(ranges, registered.value, largestObserved, largest, before, p);
      hide Bounded;
      largestObserved := largest;
      ranges := registered.value;
      received := received + {p};
      MaybeQueueAck(p, shouldInstigateAck, now);
      return Received;
    }

    method MaybeQueueAck(p: nat, shouldInstigateAck: bool, now: int)
      requires Valid() && largestObserved > 0
      modifies `packetsSinceLastAck, `retransmittableSinceLastAck, `ackQueued, `ackAlarm
      ensures Valid() && (ackQueued <==> old(ackQueued) || Urgent(p, shouldInstigateAck))
      ensures shouldInstigateAck ==> ackQueued || ackAlarm.Some?
      ensures packetsSinceLastAck == old(packetsSinceLastAck) + 1
      ensures retransmittableSinceLastAck == old(retransmittableSinceLastAck) + if shouldInstigateAck then 1 else 0
      ensures !ackQueued ==>
              ackAlarm == if shouldInstigateAck && old(ackAlarm).None? then Some(now + ACK_SEND_DELAY)
                          else old(ackAlarm)
    {
      hide Separated, Bounded;
      packetsSinceLastAck := packetsSinceLastAck + 1;
      if shouldInstigateAck { retransmittableSinceLastAck := retransmittableSinceLastAck + 1; }
      if lastAck.None? { ackQueued := true; }
      if version < VERSION_39 && packetsSinceLastAck >= MAX_PACKETS_BEFORE_ACK { ackQueued := true; }
      if lastAck.Some? && p < lastAck.value { ackQueued := true; }
      if lastAck.Some? && ranges != [] && ranges[|ranges| - 1].start > lastAck.value { ackQueued := true; }
      if !ackQueued && shouldInstigateAck {
        if retransmittableSinceLastAck >= RETRANSMITTABLE_BEFORE_ACK {
          ackQueued := true;
        } else if ackAlarm.None? {
          ackAlarm := Some(now + ACK_SEND_DELAY);
        }
      }
      if ackQueued { ackAlarm := None; }
    }

    // The sender asks not to be told about packets up to p, which is below a packet that it sent.
    method SetLowerLimit(p: nat)
      requires Valid() && p < largestObserved
      modifies `lowerLimit, `ranges
      ensures Valid() && lowerLimit == p && Deletes(old(ranges), ranges, p)
    {
      hide Separated, Has, Deletes;
      var left := DeleteUpTo(ranges, p);
      LeftBounded(ranges, left, largestObserved, received, p);
      hide Bounded;
      lowerLimit := p;
      ranges := left;
    }

    predicate IsDue(now: int)
      reads this
    {
      ackQueued || (ackAlarm.Some? && ackAlarm.value <= now)
    }

    // the frame that reports the history
    ghost function Frame(pathID: Byte): (f: AckFrame)
      requires ranges != []
      reads this
    {
      FrameOf(pathID, largestObserved, Downward(ranges))
    }

    // An ACK frame is sent when it is queued or the alarm is due. It acknowledges exactly the packets
    // of the history, all of which were received, and it survives being written and parsed.
    method GetAckFrame(pathID: Byte, now: int) returns (r: Option<AckFrame>)
      requires Valid()
      modifies `packetsSinceLastAck, `retransmittableSinceLastAck, `ackQueued, `ackAlarm, `lastAck
      ensures Valid()
      ensures r.Some? <==> old(IsDue(now))
      ensures r.Some? <==> old(ackQueued) || (old(ackAlarm).Some? && old(ackAlarm).value <= now)
      ensures r.None? ==> unchanged(this)
      ensures r.Some? ==> ranges != [] && r.value == Frame(pathID)
      ensures r.Some? ==> (forall n: nat :: AcksPacket(r.value, n) <==> Has(ranges, n))
      ensures r.Some? ==> (forall n: nat :: AcksPacket(r.value, n) ==> n in received)
      ensures r.Some? ==> r.value.pathID == pathID && r.value.largestAcked == largestObserved
      ensures r.Some? && largestObserved < TWO_48 ==> WellFormed(r.value) && Receivable(r.value)
      ensures r.Some? ==> lastAck == Some(largestObserved) && !ackQueued && ackAlarm == None &&
                          packetsSinceLastAck == 0 && retransmittableSinceLastAck == 0
    {
      hide Separated, Has, Descending, WellFormed, AcksPacket, Downward;
      if !ackQueued && (ackAlarm.None? || ackAlarm.value > now) { return None; }
      TopIsLargest(ranges, largestObserved);
      var ackRanges := AckRanges(ranges);
      var ack := FrameOf(pathID, largestObserved, ackRanges);
      forall n: nat ensures AcksPacket(ack, n) <==> Has(ranges, n) { FrameIsExact(pathID, largestObserved, ranges, n); }
      if largestObserved < TWO_48 { FrameIsWellFormed(pathID, largestObserved, ranges); }
      lastAck := Some(largestObserved);
      ackAlarm := None;
      ackQueued := false;
      packetsSinceLastAck := 0;
      retransmittableSinceLastAck := 0;
      return Some(ack);
    }
  }

  lemma LeftBounded(rs: seq<Interval>, s: seq<Interval>, largest: nat, received: set<nat>, p: nat)
    requires Bounded(rs, largest, received) && Deletes(rs, s, p) && p < largest
    ensures Bounded(s, largest, received)
  {
    hide Has;
    assert Has(s, largest);
  }

  ghost predicate Bounded(rs: seq<Interval>, largest: nat, received: set<nat>) {
    (forall n: nat :: Has(rs, n) ==> n in received && n <= largest) && (largest > 0 ==> Has(rs, largest))
  }

  lemma StillBounded(rs: seq<Interval>, largest: nat, received: set<nat>, p: nat)
    requires Bounded(rs, largest, received)
    ensures Bounded(rs, largest, received + {p})
  {
  }

  lemma NowBounded(rs: seq<Interval>, s: seq<Interval>, largest: nat, newLargest: nat, received: set<nat>, p: nat)
    requires Bounded(rs, largest, received) && Adds(rs, s, p) && 0 < p &&
             newLargest == if p > largest then p else largest
    ensures Bounded(s, newLargest, received + {p})
  {
    hide Has;
    assert Has(s, newLargest);
  }
}
