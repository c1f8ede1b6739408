/**
  Filling a packet with STREAM frames: first what has to be retransmitted, then new data of the
  streams in turn. Nothing is lost, duplicated or reordered, and nothing exceeds the space given.
 */
module StreamFraming {
  import opened Basics
  import opened ByteOrder
  import opened Frames
  import Flow = FlowControl

  // what a frame delivers: the bytes of a stream at their offsets, and its end
  datatype Item = Octet(id: nat, offset: nat, byte: Byte) | End(id: nat, offset: nat)

  function Octets(id: nat, offset: nat, data: seq<Byte>): (items: seq<Item>)
    ensures |items| == |data| && forall i :: 0 <= i < |data| ==> items[i] == Octet(id, offset + i, data[i])
  {
    seq(|data|, i requires 0 <= i < |data| => Octet(id, offset + i, data[i]))
  }

  function Contents(f: StreamFrame): (items: seq<Item>) {
    Octets(f.id, f.offset, f.data) + if f.fin then [End(f.id, f.offset + |f.data|)] else []
  }

  function ContentsOf(fs: seq<StreamFrame>): (items: seq<Item>) {
    if fs == [] then [] else ContentsOf(fs[..|fs| - 1]) + Contents(fs[|fs| - 1])
  }

  function FullLength(f: StreamFrame): (n: nat) {
    HeaderLength(f) + |f.data|
  }

  function TotalLength(fs: seq<StreamFrame>): (n: nat) {
    if fs == [] then 0 else TotalLength(fs[..|fs| - 1]) + FullLength(fs[|fs| - 1])
  }

  lemma AppendOne(fs: seq<StreamFrame>, f: StreamFrame)
    ensures TotalLength(fs + [f]) == TotalLength(fs) + FullLength(f)
    ensures ContentsOf(fs + [f]) == ContentsOf(fs) + Contents(f)
  {
    assert (fs + [f])[..|fs|] == fs;
  }

  lemma {:induction false} ContentsConcat(x: seq<StreamFrame>, y: seq<StreamFrame>)
    ensures ContentsOf(x + y) == ContentsOf(x) + ContentsOf(y)
    ensures TotalLength(x + y) == TotalLength(x) + TotalLength(y)
  {
    hide Contents, FullLength;
    if y == [] {
      assert x + y == x;
    } else {
      var front, last := y[..|y| - 1], y[|y| - 1];
      assert x + y == x + front + [last] && y == front + [last];
      AppendOne(x + front, last);
      AppendOne(front, last);
      ContentsConcat(x, front);
    }
  }

  lemma ContentsFirst(q: seq<StreamFrame>)
    requires q != []
    ensures ContentsOf(q) == Contents(q[0]) + ContentsOf(q[1..])
  {
    hide Contents, ContentsOf, TotalLength, FullLength;
    assert q == [q[0]] + q[1..];
    ContentsConcat([q[0]], q[1..]);
    AppendOne([], q[0]);
    NoContents();
    assert [] + [q[0]] == [q[0]];
  }

  // ----- splitting

  // the first n bytes of a frame, without the end of the stream
  function Head(f: StreamFrame, n: nat): (h: StreamFrame)
    requires n < |f.data|
  {
    f.(fin := false, data := f.data[..n])
  }

  function Tail(f: StreamFrame, n: nat): (t: StreamFrame)
    requires n < |f.data|
  {
    f.(offset := f.offset + n, data := f.data[n..])
  }

  lemma OctetsSplit(id: nat, offset: nat, data: seq<Byte>, n: nat)
    requires n <= |data|
    ensures Octets(id, offset, data[..n]) + Octets(id, offset + n, data[n..]) == Octets(id, offset, data)
  {
    hide Octets;
  }

  lemma SplitKeepsContents(f: StreamFrame, n: nat)
    requires n < |f.data|
    ensures Contents(Head(f, n)) + Contents(Tail(f, n)) == Contents(f)
  {
    hide Octets;
    OctetsSplit(f.id, f.offset, f.data, n);
    assert f.offset + n + |f.data[n..]| == f.offset + |f.data|;
  }

  function Long(f: StreamFrame): (g: StreamFrame) {
    f.(hasLength := true)
  }

  // frames that can be sent with a length
  ghost predicate Fit(fs: seq<StreamFrame>) {
    forall f :: f in fs ==> FitsWire(Long(f))
  }

  ghost predicate AllLong(fs: seq<StreamFrame>) {
    forall f :: f in fs ==> f.hasLength
  }

  lemma SplitFits(f: StreamFrame, n: nat)
    requires FitsWire(Long(f)) && 0 < n < |f.data|
    ensures FitsWire(Long(Head(f, n))) && FitsWire(Long(Tail(f, n)))
  {
  }

  // f carries a stretch of what q carries, and the end of the stream only if q does
  ghost predicate PieceOf(f: StreamFrame, q: StreamFrame) {
    f.id == q.id && q.offset <= f.offset && f.offset + |f.data| <= q.offset + |q.data| &&
    f.data == q.data[f.offset - q.offset..f.offset - q.offset + |f.data|] &&
    (f.fin ==> q.fin && f.offset + |f.data| == q.offset + |q.data|) && (f.data != [] || f.fin)
  }

  ghost predicate Pieces(fs: seq<StreamFrame>, queue: seq<StreamFrame>) {
    forall f :: f in fs ==> exists q :: q in queue && PieceOf(f, q)
  }

  lemma PiecesOfItself(queue: seq<StreamFrame>)
    requires Fit(queue)
    ensures Pieces(queue, queue)
  {
    forall f | f in queue ensures PieceOf(f, f) { assert FitsWire(Long(f)); }
  }

  lemma NoPieces(queue: seq<StreamFrame>)
    ensures Pieces([], queue)
  {
  }

  lemma PieceOfPiece(f: StreamFrame, q: StreamFrame, r: StreamFrame)
    requires PieceOf(f, q) && PieceOf(q, r)
    ensures PieceOf(f, r)
  {
  }

  lemma LongIsPiece(f: StreamFrame)
    requires FitsWire(Long(f))
    ensures PieceOf(Long(f), f)
  {
  }

  lemma HeadIsPiece(f: StreamFrame, n: nat)
    requires 0 < n < |f.data|
    ensures PieceOf(Head(Long(f), n), f)
  {
    var h := Head(Long(f), n);
    assert h.offset == f.offset && |h.data| == n && !h.fin;
    assert h.data == f.data[0..n];
  }

  lemma TailIsPiece(f: StreamFrame, n: nat)
    requires 0 < n < |f.data|
    ensures PieceOf(Tail(Long(f), n), f)
  {
    var t := Tail(Long(f), n);
    assert t.offset == f.offset + n && |t.data| == |f.data| - n && t.fin == f.fin;
    assert t.data == f.data[n..n + |t.data|];
  }

  // What was taken off a frame, or is left of it, is a piece of what that frame is a piece of.
  lemma PiecesMore(fs: seq<StreamFrame>, f: StreamFrame, q: StreamFrame, left: seq<StreamFrame>,
                   queue: seq<StreamFrame>)
    requires Pieces(fs, queue) && Pieces(left, queue) && q in left && PieceOf(f, q)
    ensures Pieces(fs + [f], queue) && Pieces([f], queue)
  {
    hide PieceOf;
    var r :| r in queue && PieceOf(q, r);
    PieceOfPiece(f, q, r);
  }

  lemma PiecesConcat(x: seq<StreamFrame>, y: seq<StreamFrame>, queue: seq<StreamFrame>)
    requires Pieces(x, queue) && Pieces(y, queue)
    ensures Pieces(x + y, queue)
  {
    hide PieceOf;
  }

  lemma PiecesSplit(fs: seq<StreamFrame>, i: nat, queue: seq<StreamFrame>)
    requires Pieces(fs, queue) && i <= |fs|
    ensures Pieces(fs[..i], queue) && Pieces(fs[i..], queue)
  {
    hide PieceOf;
    assert forall f :: f in fs[..i] ==> f in fs;
    assert forall f :: f in fs[i..] ==> f in fs;
  }

  // ----- retransmissions

  // One frame of the retransmission queue, when used bytes are taken: the frame or the part of it that
  // is sent, and what is left of it.
  method TakeFrame(queued: StreamFrame, used: nat, maxLen: nat)
    returns (taken: Option<StreamFrame>, left: Option<StreamFrame>)
    requires FitsWire(Long(queued))
    ensures taken.None? <==> used + HeaderLength(Long(queued)) >= maxLen
    ensures taken.None? ==> left == Some(Long(queued)) && Contents(left.value) == Contents(queued)
    ensures taken.Some? ==> FitsWire(taken.value) && taken.value.hasLength && taken.value.id == queued.id
    ensures taken.Some? ==> used + FullLength(taken.value) <= maxLen
    ensures taken.Some? && left.None? ==> Contents(taken.value) == Contents(queued)
    ensures taken.Some? && left.Some? ==> Contents(taken.value) + Contents(left.value) == Contents(queued)
    ensures taken.Some? && left.Some? ==> used + FullLength(taken.value) == maxLen
    ensures left.Some? ==> FitsWire(left.value) && left.value.hasLength && left.value.id == queued.id
    ensures (taken.Some? ==> PieceOf(taken.value, queued)) && (left.Some? ==> PieceOf(left.value, queued))
  {
    hide IdLength, OffsetLength, PieceOf;
    LongIsPiece(queued);
    var frame := queued.(hasLength := true);
    if used + HeaderLength(frame) >= maxLen { return None, Some(frame); }
    var n := maxLen - (used + HeaderLength(frame));
    if n >= |frame.data| { return Some(frame), None; }
    SplitKeepsContents(frame, n);
    SplitFits(frame, n);
    HeadIsPiece(queued, n);
    TailIsPiece(queued, n);
    return Some(Head(frame, n)), Some(Tail(frame, n));
  }

  // From the front of the queue, until the space is used up.
  method PopRetransmissions(queue: seq<StreamFrame>, maxLen: nat)
    returns (res: seq<StreamFrame>, currentLen: nat, left: seq<StreamFrame>)
    requires Fit(queue)
    ensures ContentsOf(res) + ContentsOf(left) == ContentsOf(queue)
    ensures currentLen == TotalLength(res) <= maxLen && AllLong(res) && Fit(res) && Fit(left)
    ensures left != [] ==> currentLen + HeaderLength(Long(left[0])) >= maxLen
    ensures Pieces(res, queue) && Pieces(left, queue)
  {
    hide HeaderLength, FullLength, FitsWire, Contents, ContentsOf, TotalLength, PieceOf, Pieces;
    NoContents();
    PiecesOfItself(queue);
    NoPieces(queue);
    res, currentLen, left := [], 0, queue;
    while |left| > 0
      invariant ContentsOf(res) + ContentsOf(left) == ContentsOf(queue)
      invariant Pieces(res, queue) && Pieces(left, queue)
      invariant currentLen == TotalLength(res) <= maxLen && AllLong(res) && Fit(res) && Fit(left)
      decreases |left|
    {
      assert left[0] in left;
      ContentsFirst(left);
      var taken, remains := TakeFrame(left[0], currentLen, maxLen);
      PiecesSplit(left, 1, queue);
      if remains.Some? {
        Replace(left, remains.value);
        PiecesMore(res, remains.value, left[0], left, queue);
        PiecesConcat([remains.value], left[1..], queue);
      }
      if taken.None? {
        left := [remains.value] + left[1..];
        return;
      }
      AppendOne(res, taken.value);
      PiecesMore(res, taken.value, left[0], left, queue);
      currentLen, res := currentLen + FullLength(taken.value), res + [taken.value];
      if remains.Some? {
        left := [remains.value] + left[1..];
        return;
      }
      left := left[1..];
    }
  }

  lemma NoContents()
    ensures ContentsOf([]) == [] && TotalLength([]) == 0 && Fit([]) && AllLong([])
  {
  }

  lemma Replace(q: seq<StreamFrame>, f: StreamFrame)
    requires q != []
    ensures ContentsOf([f] + q[1..]) == Contents(f) + ContentsOf(q[1..])
  {
    assert ([f] + q[1..])[1..] == q[1..];
    ContentsFirst([f] + q[1..]);
  }

  // ----- retransmissions of the streams of one path

  // the frames of the given streams, or those of the other streams
  function Part(q: seq<StreamFrame>, ids: set<nat>, on: bool): (p: seq<StreamFrame>) {
    if q == [] then []
    else (if (q[0].id in ids) == on then [q[0]] else []) + Part(q[1..], ids, on)
  }

  lemma {:induction false} PartConcat(x: seq<StreamFrame>, y: seq<StreamFrame>, ids: set<nat>, on: bool)
    ensures Part(x + y, ids, on) == Part(x, ids, on) + Part(y, ids, on)
  {
    if x == [] {
      assert x + y == y;
    } else {
      assert (x + y)[1..] == x[1..] + y;
      PartConcat(x[1..], y, ids, on);
    }
  }

  // the queue around the frame at index i, when what comes before it stays
  lemma PartAround(q: seq<StreamFrame>, i: nat, ids: set<nat>, on: bool, middle: seq<StreamFrame>)
    requires i < |q| && |middle| <= 1
    ensures Part(q[..i] + middle + q[i + 1..], ids, on) ==
            Part(q[..i], ids, on) + Part(middle, ids, on) + Part(q[i + 1..], ids, on)
  {
    hide Part;
    PartConcat(q[..i] + middle, q[i + 1..], ids, on);
    PartConcat(q[..i], middle, ids, on);
  }

  lemma PartOne(f: StreamFrame, ids: set<nat>, on: bool)
    ensures Part([f], ids, on) == if (f.id in ids) == on then [f] else []
    ensures Part([], ids, on) == []
  {
    assert [f][1..] == [];
  }

  // what the queue delivers on the given streams
  // Both parts together are the queue, and a frame is in the part that its stream is in.
  lemma {:induction false} PartIsExact(q: seq<StreamFrame>, ids: set<nat>)
    ensures multiset(Part(q, ids, true)) + multiset(Part(q, ids, false)) == multiset(q)
    ensures forall f :: f in Part(q, ids, true) ==> f.id in ids
    ensures forall f :: f in Part(q, ids, false) ==> f.id !in ids
  {
    if q != [] {
      PartIsExact(q[1..], ids);
      assert q == [q[0]] + q[1..];
    }
  }

  function OnPath(q: seq<StreamFrame>, ids: set<nat>): (items: seq<Item>) {
    ContentsOf(Part(q, ids, true))
  }

  // The frame at index i is on the path, and the first such one: it is replaced by what is left of it.
  lemma TakeFromMiddle(q: seq<StreamFrame>, i: nat, ids: set<nat>, left: Option<StreamFrame>)
    requires i < |q| && q[i].id in ids && Part(q[..i], ids, true) == [] && (left.Some? ==> left.value.id == q[i].id)
    ensures var q' := q[..i] + (if left.Some? then [left.value] else []) + q[i + 1..];
      Part(q', ids, false) == Part(q, ids, false) && q'[..i] == q[..i] &&
      OnPath(q', ids) == (if left.Some? then Contents(left.value) else []) + ContentsOf(Part(q[i + 1..], ids, true)) &&
      OnPath(q, ids) == Contents(q[i]) + ContentsOf(Part(q[i + 1..], ids, true)) &&
      (left.Some? ==> Part(q', ids, true) != [] && Part(q', ids, true)[0] == left.value)
  {
    hide Part, Contents, ContentsOf, TotalLength;
    var middle := if left.Some? then [left.value] else [];
    assert q == q[..i] + [q[i]] + q[i + 1..];
    PartAround(q, i, ids, true, [q[i]]);
    PartAround(q, i, ids, false, [q[i]]);
    PartAround(q, i, ids, true, middle);
    PartAround(q, i, ids, false, middle);
    PartOne(q[i], ids, true);
    PartOne(q[i], ids, false);
    var rest := Part(q[i + 1..], ids, true);
    FrontContents(q[i], rest);
    if left.Some? {
      PartOne(left.value, ids, true);
      PartOne(left.value, ids, false);
      FrontContents(left.value, rest);
    } else {
      assert [] + [] + rest == rest;
    }
  }

  lemma FrontContents(f: StreamFrame, rest: seq<StreamFrame>)
    ensures [] + [f] + rest == [f] + rest
    ensures ContentsOf([f] + rest) == Contents(f) + ContentsOf(rest)
  {
    assert ([f] + rest)[1..] == rest;
    ContentsFirst([f] + rest);
  }

  lemma OffPath(q: seq<StreamFrame>, i: nat, ids: set<nat>)
    requires i < |q| && q[i].id !in ids && Part(q[..i], ids, true) == []
    ensures Part(q[..i + 1], ids, true) == []
  {
    hide Part;
    assert q[..i + 1] == q[..i] + [q[i]];
    PartConcat(q[..i], [q[i]], ids, true);
    PartOne(q[i], ids, true);
  }

  // Wherever the frames of the path are in the queue, until the space is used up. The frames of the
  // other streams are not touched.
  method PopRetransmissionsOfPath(queue: seq<StreamFrame>, maxLen: nat, ids: set<nat>)
    returns (res: seq<StreamFrame>, currentLen: nat, left: seq<StreamFrame>)
    requires Fit(queue)
    ensures ContentsOf(res) + OnPath(left, ids) == OnPath(queue, ids)
    ensures Part(left, ids, false) == Part(queue, ids, false)
    ensures currentLen == TotalLength(res) <= maxLen && AllLong(res) && Fit(res) && Fit(left)
    ensures forall f :: f in res ==> f.id in ids
    ensures var here := Part(left, ids, true); here != [] ==> currentLen + HeaderLength(Long(here[0])) >= maxLen
    ensures Pieces(res, queue) && Pieces(left, queue)
  {
    hide HeaderLength, FullLength, FitsWire, Contents, ContentsOf, TotalLength, Part, OnPath, PieceOf, Pieces;
    PiecesOfItself(queue);
    NoPieces(queue);
    NoContents();
    PartNone(queue, ids);
    res, currentLen, left := [], 0, queue;
    var i := 0;
    while i < |left|
      invariant i <= |left| && Part(left[..i], ids, true) == []
      invariant ContentsOf(res) + OnPath(left, ids) == OnPath(queue, ids) &&
                Part(left, ids, false) == Part(queue, ids, false)
      invariant currentLen == TotalLength(res) <= maxLen && AllLong(res) && Fit(res) && Fit(left)
      invariant forall f :: f in res ==> f.id in ids
      invariant Pieces(res, queue) && Pieces(left, queue)
      decreases |left| - i
    {
      if left[i].id !in ids {
        OffPath(left, i, ids);
        i := i + 1;
      } else {
        assert left[i] in left;
        var taken, remains := TakeFrame(left[i], currentLen, maxLen);
        TakeFromMiddle(left, i, ids, remains);
        PiecesAround(left, i, remains, queue);
        if taken.Some? { PiecesMore(res, taken.value, left[i], left, queue); }
        left := left[..i] + (if remains.Some? then [remains.value] else []) + left[i + 1..];
        if taken.None? { return; }
        AppendOne(res, taken.value);
        currentLen, res := currentLen + FullLength(taken.value), res + [taken.value];
        if remains.Some? { return; }
      }
    }
    assert left[..i] == left;
  }

  lemma PiecesAround(left: seq<StreamFrame>, i: nat, remains: Option<StreamFrame>, queue: seq<StreamFrame>)
    requires Pieces(left, queue) && i < |left| && (remains.Some? ==> PieceOf(remains.value, left[i]))
    ensures Pieces(left[..i] + (if remains.Some? then [remains.value] else []) + left[i + 1..], queue)
  {
    hide PieceOf, Pieces;
    PiecesSplit(left, i, queue);
    PiecesSplit(left, i + 1, queue);
    NoPieces(queue);
    if remains.Some? { PiecesMore([], remains.value, left[i], left, queue); }
    PiecesConcat(left[..i], if remains.Some? then [remains.value] else [], queue);
    PiecesConcat(left[..i] + (if remains.Some? then [remains.value] else []), left[i + 1..], queue);
  }

  lemma PartNone(q: seq<StreamFrame>, ids: set<nat>)
    ensures Part(q[..0], ids, true) == []
  {
  }

  // ----- new data

  // the sending side of a stream; a failed stream sends nothing any more
  datatype SendStream = SendStream(id: nat, writeOffset: nat, data: seq<Byte>, finished: bool, finSent: bool,
                                   failed: bool)

  ghost predicate Streamable(s: SendStream) {
    s.id < 0x1_0000_0000 && s.writeOffset + |s.data| < TWO_64
  }

  // the end of a stream, if it still has to be delivered
  function Ending(s: SendStream): (items: seq<Item>) {
    if s.finished && !s.finSent then [End(s.id, s.writeOffset + |s.data|)] else []
  }

  // what a stream still has to deliver
  function ToSend(s: SendStream): (items: seq<Item>) {
    if s.failed then []
    else Octets(s.id, s.writeOffset, s.data) + Ending(s)
  }

  function AllToSend(streams: seq<SendStream>): (items: multiset<Item>) {
    if streams == [] then multiset{} else AllToSend(streams[..|streams| - 1]) + multiset(ToSend(streams[|streams| - 1]))
  }

  function Window(m: Flow.Manager, id: nat): (n: nat) {
    if id in m.streams then Flow.SendableOn(m, id) else 0
  }

  // nothing was sent beyond the windows of the peer
  ghost predicate WithinCredit(m: Flow.Manager) {
    m.conn.bytesSent <= Flow.SendLimit(m.conn, m.params) &&
    forall id :: id in m.streams ==> m.streams[id].bytesSent <= Flow.SendLimit(m.streams[id], m.params)
  }

  // a first window that is below what was sent already
  predicate Retracts(m: Flow.Manager, id: nat, offset: nat) {
    (id == 0 || id in m.streams) &&
    var c := if id == 0 then m.conn else m.streams[id];
    c.sendWindow == 0 && 0 < offset < c.bytesSent
  }

  lemma CreditIsKept(m: Flow.Manager, id: nat, offset: nat)
    ensures WithinCredit(m) ==> (WithinCredit(Flow.Credited(m, id, offset)) <==> !Retracts(m, id, offset))
  {
    var m' := Flow.Credited(m, id, offset);
    assert id in m.streams ==> id in m'.streams;
    assert forall j :: j in m'.streams ==> j in m.streams;
  }

  lemma SendingKeepsCredit(m: Flow.Manager, id: nat, n: nat)
    requires WithinCredit(m) && n <= Window(m, id)
    ensures WithinCredit(Flow.Sent(m, id, n))
  {
  }

  // take up to n bytes off the data of a stream
  function Advance(s: SendStream, n: nat): (s': SendStream)
    requires n <= |s.data|
  {
    s.(writeOffset := s.writeOffset + n, data := s.data[n..])
  }

  function HeaderOf(s: SendStream): (n: nat) {
    HeaderLength(StreamFrame(s.id, false, true, s.writeOffset, []))
  }

  // the frame with the next n bytes; the end of the stream goes with the last of them
  function NextFrame(s: SendStream, n: nat): (f: StreamFrame)
    requires n <= |s.data|
  {
    StreamFrame(s.id, n == |s.data| && s.finished && !s.finSent && !s.failed, true, s.writeOffset, s.data[..n])
  }

  function AfterFrame(s: SendStream, n: nat): (s': SendStream)
    requires n <= |s.data|
  {
    Advance(s, n).(finSent := s.finSent || NextFrame(s, n).fin)
  }

  lemma LastFrameDelivers(s: SendStream)
    requires !s.failed
    ensures Contents(NextFrame(s, |s.data|)) == ToSend(s) && ToSend(AfterFrame(s, |s.data|)) == []
  {
    assert s.data[..|s.data|] == s.data;
  }

  lemma NoEndYet(s: SendStream, n: nat)
    requires n < |s.data| && !s.failed
    ensures Contents(NextFrame(s, n)) == Octets(s.id, s.writeOffset, s.data[..n])
    ensures ToSend(AfterFrame(s, n)) ==
            Octets(s.id, s.writeOffset + n, s.data[n..]) + Ending(s)
  {
    hide Octets;
  }

  // A frame takes over what it delivers from its stream.
  lemma FrameDelivers(s: SendStream, n: nat)
    requires n <= |s.data| && !s.failed
    ensures Contents(NextFrame(s, n)) + ToSend(AfterFrame(s, n)) == ToSend(s)
  {
    hide Octets, Contents, AfterFrame, NextFrame;
    if n == |s.data| {
      LastFrameDelivers(s);
    } else {
      NoEndYet(s, n);
      OctetsSplit(s.id, s.writeOffset, s.data, n);
    }
  }

  lemma NextLength(s: SendStream, n: nat)
    requires n <= |s.data|
    ensures FullLength(NextFrame(s, n)) == HeaderOf(s) + n
  {
  }

  lemma NextFits(s: SendStream, n: nat)
    requires n <= |s.data|
    ensures Streamable(s) ==> Streamable(AfterFrame(s, n)) && s.id < 0x1_0000_0000
    ensures Streamable(s) && HeaderOf(s) + n <= MAX_PACKET_SIZE + 2 && (n > 0 || NextFrame(s, n).fin) ==>
            FitsWire(NextFrame(s, n))
  {
  }

  datatype Popped = Popped(frame: Option<StreamFrame>, stream: SendStream, flow: Flow.Manager, blocked: seq<nat>,
                           more: bool)

  function Taken(frame: Option<StreamFrame>): (n: nat) {
    if frame.Some? then FullLength(frame.value) else 0
  }

  // Why a stream has nothing to send now: it is the crypto stream, or has nothing to deliver, no space or no credit,
  // or, without volume left on the path, not less data than fits.
  ghost predicate Exhausted(s: SendStream, volumeLeft: bool, used: nat, maxBytes: nat, m: Flow.Manager) {
    s.id == 1 || ToSend(s) == [] || used + HeaderOf(s) >= maxBytes || (s.data != [] && Window(m, s.id) == 0) ||
    (!volumeLeft && s.data != [] && |s.data| >= Min(maxBytes - used - HeaderOf(s), Window(m, s.id)))
  }

  lemma StaysExhausted(s: SendStream, volumeLeft: bool, used: nat, maxBytes: nat, m: Flow.Manager, id: nat, n: nat,
                       more: nat)
    requires Exhausted(s, volumeLeft, used, maxBytes, m)
    ensures Exhausted(s, volumeLeft, used + more, maxBytes, Flow.Sent(m, id, n))
  {
    WindowShrinks(m, s.id, id, n);
    hide ToSend, HeaderOf, Window;
  }

  lemma WindowShrinks(m: Flow.Manager, id: nat, other: nat, n: nat)
    ensures Window(Flow.Sent(m, other, n), id) <= Window(m, id)
    ensures id == other && n <= Window(m, id) ==> Window(Flow.Sent(m, other, n), id) == Window(m, id) - n
  {
  }

  // After a frame, the stream has sent everything, or all of the credit or of the space is used.
  lemma ExhaustedAfter(s: SendStream, n: nat, used: nat, maxBytes: nat, m: Flow.Manager)
    requires n <= |s.data| && !s.failed && used + HeaderOf(s) + n <= maxBytes
    requires n == |s.data| || (n <= Window(m, s.id) && (n == Window(m, s.id) || used + HeaderOf(s) + n == maxBytes))
    ensures Exhausted(AfterFrame(s, n), true, used + HeaderOf(s) + n, maxBytes, Flow.Sent(m, s.id, n))
  {
    WindowShrinks(m, s.id, s.id, n);
    hide Window, Flow.Sent;
    if n == |s.data| { LastFrameDelivers(s); }
  }

  // what a new frame blocks: the connection if it has no credit left, or else its stream, unless it has ended
  function BlockedBy(m: Flow.Manager, f: StreamFrame): (ids: seq<nat>) {
    if Flow.Sendable(Flow.Sent(m, f.id, |f.data|).conn, m.params) == 0 then [0]
    else if !f.fin && Window(m, f.id) == |f.data| then [f.id] else []
  }

  // a frame that there is reason and credit for
  ghost predicate IsPaid(m: Flow.Manager, f: StreamFrame) {
    (f.data != [] || f.fin) && (f.data != [] ==> |f.data| <= Window(m, f.id))
  }

  // With m the state after a frame, is id to be told blocked? The connection is, if it has no credit left; the
  // stream of the frame is, if it has none left while the connection has some, and has not ended.
  ghost predicate Blocks(m: Flow.Manager, f: StreamFrame, id: nat) {
    var connection := Flow.Sendable(m.conn, m.params);
    (id == 0 && connection == 0) ||
    (id == f.id && connection > 0 && !f.fin && id in m.streams && Flow.Sendable(m.streams[id], m.params) == 0)
  }

  lemma BlockedByIsExact(m: Flow.Manager, f: StreamFrame)
    requires IsPaid(m, f)
    ensures forall id: nat :: multiset(BlockedBy(m, f))[id] ==
              if Blocks(Flow.Sent(m, f.id, |f.data|), f, id) then 1 else 0
  {
    if !f.fin { WindowShrinks(m, f.id, f.id, |f.data|); }
  }

  // the frame with the next n bytes of a stream, and what it uses up
  ghost predicate Emitted(s: SendStream, used: nat, maxBytes: nat, m: Flow.Manager, r: Popped) {
    r.frame.Some? &&
    var f := r.frame.value;
    |f.data| <= |s.data| && f == NextFrame(s, |f.data|) && r.stream == AfterFrame(s, |f.data|) &&
    (f.data != [] || f.fin) && (f.data != [] ==> |f.data| <= Window(m, s.id)) && used + FullLength(f) <= maxBytes &&
    r.flow == Flow.Sent(m, s.id, |f.data|) && (r.more <==> used + FullLength(f) != maxBytes) &&
    r.blocked == BlockedBy(m, f)
  }

  method Emit(s: SendStream, n: nat, used: nat, maxBytes: nat, m: Flow.Manager) returns (r: Popped)
    requires n <= |s.data| && used + HeaderOf(s) + n <= maxBytes
    requires (n > 0 || NextFrame(s, n).fin) && (n > 0 ==> n <= Window(m, s.id))
    ensures Emitted(s, used, maxBytes, m, r) && |r.frame.value.data| == n
  {
    hide HeaderOf, HeaderLength, Flow.Sent, Flow.Sendable, Window, FullLength;
    var frame, flow := NextFrame(s, n), Flow.Sent(m, s.id, n);
    NextLength(s, n);
    var blocked := [];
    if Flow.Sendable(flow.conn, m.params) == 0 { blocked := [0]; }
    else if !frame.fin && Window(m, s.id) - n == 0 { blocked := [s.id]; }
    return Popped(Some(frame), AfterFrame(s, n), flow, blocked, used + FullLength(frame) != maxBytes);
  }

  lemma EmittedFacts(s: SendStream, used: nat, maxBytes: nat, m: Flow.Manager, r: Popped)
    requires Emitted(s, used, maxBytes, m, r) && !s.failed
    ensures var f := r.frame.value;
      Contents(f) + ToSend(r.stream) == ToSend(s) && r.stream.id == s.id == f.id && f.hasLength &&
      f.offset == s.writeOffset && FullLength(f) == HeaderOf(s) + |f.data|
    ensures WithinCredit(m) ==> WithinCredit(r.flow)
    ensures Streamable(s) ==> Streamable(r.stream) && forall b :: b in r.blocked ==> b < 0x1_0000_0000
    ensures Streamable(s) && maxBytes <= MAX_PACKET_SIZE + 2 ==> FitsWire(r.frame.value)
  {
    hide ToSend, Contents, Flow.Sent, Flow.Sendable, Window, HeaderLength, FullLength, HeaderOf, WithinCredit,
         Streamable, FitsWire;
    var n := |r.frame.value.data|;
    FrameDelivers(s, n);
    NextLength(s, n);
    NextFits(s, n);
    if WithinCredit(m) { if n == 0 { NoCreditUsed(m, s.id); } else { SendingKeepsCredit(m, s.id, n); } }
  }

  // The next frame of one stream, when used bytes are taken. There is none exactly if the stream is exhausted, and
  // it is exhausted afterwards. The packet is full if not even the header fits, or exactly filled.
  method PopFrom(s: SendStream, volumeLeft: bool, used: nat, maxBytes: nat, m: Flow.Manager) returns (r: Popped)
    requires used <= maxBytes
    ensures r.frame.None? <==> Exhausted(s, volumeLeft, used, maxBytes, m)
    ensures r.frame.Some? ==> s.id != 1 && used + HeaderOf(s) < maxBytes
    ensures r.frame.Some? && s.data != [] ==>
            var room := Min(maxBytes - used - HeaderOf(s), Window(m, s.id));
            |r.frame.value.data| == Min(|s.data|, room)
    ensures s.id != 1 && !s.failed && used + HeaderOf(s) < maxBytes ==>
            if s.data == [] then r.frame.Some? <==> s.finished && !s.finSent
            else
              var room := Min(maxBytes - used - HeaderOf(s), Window(m, s.id));
              r.frame.Some? <==> room > 0 && (volumeLeft || |s.data| < room)
    ensures r.frame.None? ==> r.stream == s && r.flow == m && r.blocked == []
    ensures r.frame.None? ==> (!r.more <==> s.id != 1 && used + HeaderOf(s) > maxBytes)
    ensures r.frame.Some? ==> Emitted(s, used, maxBytes, m, r) && s.id != 1 && !s.failed
    ensures Exhausted(r.stream, volumeLeft, used + Taken(r.frame), maxBytes, r.flow)
  {
    hide Flow.Sent, Window, ToSend, HeaderLength, HeaderOf, NextFrame, AfterFrame, FullLength, Emitted;
    NothingLeft(s);
    r := Popped(None, s, m, [], true);
    if s.id == 1 { return; }
    if used + HeaderOf(s) > maxBytes { return r.(more := false); }
    var maxLen := maxBytes - used - HeaderOf(s);
    var length := if s.failed then 0 else |s.data|;
    if length != 0 {
      var window := Window(m, s.id);
      if window < maxLen { maxLen := window; }
    }
    if maxLen == 0 { return; }
    if length != 0 && !(volumeLeft || length < maxLen) { return; }
    if s.failed { return; }
    var n := if maxLen < length then maxLen else length;
    HasEnd(s, n);
    if n == 0 && !NextFrame(s, n).fin { return; }
    r := Emit(s, n, used, maxBytes, m);
    EmittedIs(s, used, maxBytes, m, r);
    ExhaustedAfter(s, n, used, maxBytes, m);
    if n == length { LastFrameDelivers(s); }
  }

  lemma HasEnd(s: SendStream, n: nat)
    requires n <= |s.data|
    ensures NextFrame(s, n).fin <==> n == |s.data| && s.finished && !s.finSent && !s.failed
  {
  }

  lemma EmittedIs(s: SendStream, used: nat, maxBytes: nat, m: Flow.Manager, r: Popped)
    requires Emitted(s, used, maxBytes, m, r)
    ensures r.frame.Some? && var f := r.frame.value;
      |f.data| <= |s.data| && f == NextFrame(s, |f.data|) && r.stream == AfterFrame(s, |f.data|) &&
      (|f.data| > 0 || f.fin) && used + FullLength(f) <= maxBytes && r.flow == Flow.Sent(m, s.id, |f.data|) &&
      (r.more <==> used + FullLength(f) != maxBytes) && r.blocked == BlockedBy(m, f) && IsPaid(m, f) &&
      Taken(r.frame) == HeaderOf(s) + |f.data|
  {
    NextLength(s, |r.frame.value.data|);
  }

  lemma NothingLeft(s: SendStream)
    ensures (s.failed || (s.data == [] && !(s.finished && !s.finSent))) <==> ToSend(s) == []
  {
  }

  lemma NoCreditUsed(m: Flow.Manager, id: nat)
    requires WithinCredit(m)
    ensures WithinCredit(Flow.Sent(m, id, 0))
  {
  }

  ghost predicate SuffixOf(x: seq<Item>, y: seq<Item>) {
    |x| <= |y| && y[|y| - |x|..] == x
  }

  lemma {:induction false} AllAfter(streams: seq<SendStream>, i: nat, s: SendStream, taken: seq<Item>)
    requires i < |streams| && taken + ToSend(s) == ToSend(streams[i])
    ensures multiset(taken) + AllToSend(streams[i := s]) == AllToSend(streams)
    decreases |streams|
  {
    hide ToSend;
    var n := |streams| - 1;
    if i == n {
      assert streams[i := s][..n] == streams[..n];
      assert multiset(taken + ToSend(s)) == multiset(taken) + multiset(ToSend(s));
    } else {
      assert streams[i := s][..n] == streams[..n][i := s];
      AllAfter(streams[..n], i, s, taken);
    }
  }

  // ----- where the new frames come from

  ghost predicate Carries(fs: seq<StreamFrame>, id: nat, b: nat) {
    exists f :: f in fs && f.id == id && f.offset <= b < f.offset + |f.data|
  }

  // s' is s after some of its data went into the frames
  ghost predicate Progress(s: SendStream, s': SendStream, fs: seq<StreamFrame>) {
    s'.id == s.id && s'.finished == s.finished && s'.failed == s.failed &&
    s.writeOffset <= s'.writeOffset <= s.writeOffset + |s.data| &&
    s'.data == s.data[s'.writeOffset - s.writeOffset..] &&
    forall b :: s.writeOffset <= b < s'.writeOffset ==> Carries(fs, s.id, b)
  }

  // f carries some of the data between s and s', at its offset in the stream
  ghost predicate NewData(s: SendStream, s': SendStream, f: StreamFrame) {
    s.writeOffset <= f.offset && f.offset + |f.data| <= s'.writeOffset <= s.writeOffset + |s.data| && f.id == s.id &&
    f.data == s.data[f.offset - s.writeOffset..f.offset - s.writeOffset + |f.data|] &&
    (f.fin ==> s.finished && f.offset + |f.data| == s'.writeOffset == s.writeOffset + |s.data|) &&
    (f.data != [] || f.fin)
  }

  ghost predicate FromStreams(streams: seq<SendStream>, left: seq<SendStream>, f: StreamFrame)
    requires |left| == |streams|
  {
    exists i :: 0 <= i < |streams| && NewData(streams[i], left[i], f)
  }

  ghost predicate Framed(streams: seq<SendStream>, left: seq<SendStream>, fs: seq<StreamFrame>) {
    |left| == |streams| && (forall i :: 0 <= i < |streams| ==> Progress(streams[i], left[i], fs)) &&
    forall f :: f in fs ==> FromStreams(streams, left, f)
  }

  lemma ProgressMore(s: SendStream, s': SendStream, fs: seq<StreamFrame>, n: nat)
    requires Progress(s, s', fs) && n <= |s'.data| && (n > 0 || NextFrame(s', n).fin)
    ensures Progress(s, AfterFrame(s', n), fs + [NextFrame(s', n)]) && NewData(s, AfterFrame(s', n), NextFrame(s', n))
  {
    var f := NextFrame(s', n);
    forall b | s.writeOffset <= b < s'.writeOffset + n ensures Carries(fs + [f], s.id, b) {
      if b < s'.writeOffset { CarriesMore(fs, f, s.id, b); } else { assert f in fs + [f]; }
    }
  }

  lemma CarriesMore(fs: seq<StreamFrame>, f: StreamFrame, id: nat, b: nat)
    requires Carries(fs, id, b)
    ensures Carries(fs + [f], id, b)
  {
    var g :| g in fs && g.id == id && g.offset <= b < g.offset + |g.data|;
    assert g in fs + [f];
  }

  lemma ProgressStays(s: SendStream, s': SendStream, fs: seq<StreamFrame>, f: StreamFrame)
    requires Progress(s, s', fs)
    ensures Progress(s, s', fs + [f])
  {
    forall b | s.writeOffset <= b < s'.writeOffset ensures Carries(fs + [f], s.id, b) { CarriesMore(fs, f, s.id, b); }
  }

  lemma NewDataStays(s: SendStream, s': SendStream, fs: seq<StreamFrame>, n: nat, f: StreamFrame)
    requires NewData(s, s', f) && Progress(s, s', fs) && n <= |s'.data|
    ensures NewData(s, AfterFrame(s', n), f)
  {
  }

  // One more frame off one of the streams.
  lemma FramedMore(streams: seq<SendStream>, left: seq<SendStream>, fs: seq<StreamFrame>, i: nat, n: nat)
    requires Framed(streams, left, fs) && i < |left| && n <= |left[i].data| && (n > 0 || NextFrame(left[i], n).fin)
    ensures Framed(streams, left[i := AfterFrame(left[i], n)], fs + [NextFrame(left[i], n)])
  {
    hide Progress, NewData, AfterFrame, NextFrame;
    var left', f := left[i := AfterFrame(left[i], n)], NextFrame(left[i], n);
    forall j | 0 <= j < |streams| ensures Progress(streams[j], left'[j], fs + [f]) {
      if j == i { ProgressMore(streams[i], left[i], fs, n); } else { ProgressStays(streams[j], left[j], fs, f); }
    }
    forall g | g in fs + [f] ensures FromStreams(streams, left', g) {
      if g in fs {
        var j :| 0 <= j < |streams| && NewData(streams[j], left[j], g);
        if j == i { NewDataStays(streams[i], left[i], fs, n, g); }
        assert NewData(streams[j], left'[j], g);
      } else {
        ProgressMore(streams[i], left[i], fs, n);
        assert NewData(streams[i], left'[i], g);
      }
    }
  }

  // whose turn it is, and for which streams the path has volume left
  datatype Turns = Turns(order: seq<nat>, volumeLeft: seq<bool>)

  ghost predicate TurnsOf(t: Turns, n: nat) {
    |t.volumeLeft| == n && forall i :: 0 <= i < |t.order| ==> t.order[i] < n
  }

  // the credit that frames have used
  function SentFrames(m: Flow.Manager, fs: seq<StreamFrame>): (m': Flow.Manager) {
    if fs == [] then m else Flow.Sent(SentFrames(m, fs[..|fs| - 1]), fs[|fs| - 1].id, |fs[|fs| - 1].data|)
  }

  // what frames have blocked, one after the other
  function AllBlocked(m: Flow.Manager, fs: seq<StreamFrame>): (ids: seq<nat>) {
    if fs == [] then []
    else
      var front := fs[..|fs| - 1];
      AllBlocked(m, front) + BlockedBy(SentFrames(m, front), fs[|fs| - 1])
  }

  ghost predicate ArePaid(m: Flow.Manager, fs: seq<StreamFrame>) {
    forall i :: 0 <= i < |fs| ==> IsPaid(SentFrames(m, fs[..i]), fs[i])
  }

  // the frames of fs after which id is to be told blocked
  ghost function Blocking(m: Flow.Manager, fs: seq<StreamFrame>, id: nat): (s: set<nat>) {
    set i | 0 <= i < |fs| && Blocks(SentFrames(m, fs[..i + 1]), fs[i], id)
  }

  // every stream, and the connection as 0, is listed once for each frame that blocks it
  ghost predicate IsBlocking(m: Flow.Manager, fs: seq<StreamFrame>, ids: seq<nat>) {
    forall id: nat :: multiset(ids)[id] == |Blocking(m, fs, id)|
  }

  lemma BlockingMore(m: Flow.Manager, fs: seq<StreamFrame>, f: StreamFrame, id: nat)
    ensures |Blocking(m, fs + [f], id)| ==
            |Blocking(m, fs, id)| + if Blocks(SentFrames(m, fs + [f]), f, id) then 1 else 0
  {
    hide SentFrames, Blocks;
    var all := fs + [f];
    assert all[..|fs| + 1] == all;
    forall i | 0 <= i < |fs|
      ensures Blocks(SentFrames(m, all[..i + 1]), all[i], id) <==> Blocks(SentFrames(m, fs[..i + 1]), fs[i], id)
    {
      assert all[..i + 1] == fs[..i + 1];
    }
    assert Blocking(m, all, id) ==
           Blocking(m, fs, id) + if Blocks(SentFrames(m, all), f, id) then {|fs|} else {};
  }

  lemma PaidMore(m: Flow.Manager, fs: seq<StreamFrame>, f: StreamFrame)
    ensures ArePaid(m, fs + [f]) <==> ArePaid(m, fs) && IsPaid(SentFrames(m, fs), f)
    ensures ArePaid(m, [])
  {
    hide SentFrames, IsPaid;
    var all := fs + [f];
    assert all[..|fs|] == fs && all[|fs|] == f;
    assert forall i :: 0 <= i < |fs| ==> all[..i] == fs[..i] && all[i] == fs[i];
  }

  lemma OneMoreBlocks(m: Flow.Manager, fs: seq<StreamFrame>, f: StreamFrame, ids: seq<nat>)
    requires IsBlocking(m, fs, ids) && IsPaid(SentFrames(m, fs), f)
    ensures IsBlocking(m, fs + [f], ids + BlockedBy(SentFrames(m, fs), f))
  {
    hide SentFrames, BlockedBy, Blocking, Blocks, IsPaid, Flow.Sent;
    BlockedByIsExact(SentFrames(m, fs), f);
    SentOneMore(m, fs, f);
    var more := BlockedBy(SentFrames(m, fs), f);
    forall id: nat ensures multiset(ids + more)[id] == |Blocking(m, fs + [f], id)| {
      BlockingMore(m, fs, f, id);
      assert multiset(ids + more) == multiset(ids) + multiset(more);
    }
  }

  // Exactly what new frames block is announced.
  lemma {:induction false} BlockedIsExact(m: Flow.Manager, fs: seq<StreamFrame>)
    requires ArePaid(m, fs)
    ensures IsBlocking(m, fs, AllBlocked(m, fs))
  {
    if fs == [] {
      assert forall id: nat :: Blocking(m, fs, id) == {};
    } else {
      hide SentFrames, BlockedBy, IsBlocking, ArePaid, IsPaid;
      var front, f := fs[..|fs| - 1], fs[|fs| - 1];
      assert fs == front + [f];
      PaidMore(m, front, f);
      BlockedIsExact(m, front);
      OneMoreBlocks(m, front, f, AllBlocked(m, front));
    }
  }

  lemma SentOneMore(m: Flow.Manager, fs: seq<StreamFrame>, f: StreamFrame)
    ensures SentFrames(m, fs + [f]) == Flow.Sent(SentFrames(m, fs), f.id, |f.data|) && SentFrames(m, []) == m
    ensures AllBlocked(m, fs + [f]) == AllBlocked(m, fs) + BlockedBy(SentFrames(m, fs), f) && AllBlocked(m, []) == []
  {
    hide BlockedBy;
    assert (fs + [f])[..|fs|] == fs;
  }

  // Of the streams that had their turn, each is exhausted; if some had none, the packet is full.
  ghost predicate FilledUp(left: seq<SendStream>, turns: Turns, visited: nat, used: nat, maxBytes: nat, m: Flow.Manager)
    requires TurnsOf(turns, |left|)
  {
    visited <= |turns.order| &&
    (forall k :: 0 <= k < visited ==>
       Exhausted(left[turns.order[k]], turns.volumeLeft[turns.order[k]], used, maxBytes, m)) &&
    (visited < |turns.order| ==>
      used == maxBytes || (visited > 0 && used + HeaderOf(left[turns.order[visited - 1]]) > maxBytes))
  }

  lemma SuffixMore(x: seq<Item>, y: seq<Item>, z: seq<Item>, taken: seq<Item>)
    requires taken + x == y && SuffixOf(y, z)
    ensures SuffixOf(x, z)
  {
    assert z[|z| - |y|..][|taken|..] == z[|z| - |x|..];
    assert y[|taken|..] == x;
  }

  // The streams in turn, until the packet is full. Together, the frames and the streams deliver what
  // the streams delivered before, and each stream in order. No stream that had its turn could send more.
  method PopNormal(streams: seq<SendStream>, turns: Turns, maxBytes: nat, m: Flow.Manager)
    returns (res: seq<StreamFrame>, left: seq<SendStream>, flow: Flow.Manager, blocked: seq<nat>, ghost visited: nat)
    requires (forall i :: 0 <= i < |streams| ==> Streamable(streams[i])) && TurnsOf(turns, |streams|)
    ensures |left| == |streams| && multiset(ContentsOf(res)) + AllToSend(left) == AllToSend(streams)
    ensures forall i :: 0 <= i < |streams| ==>
              left[i].id == streams[i].id && SuffixOf(ToSend(left[i]), ToSend(streams[i]))
    ensures TotalLength(res) <= maxBytes && AllLong(res) && (maxBytes <= MAX_PACKET_SIZE + 2 ==> Fit(res))
    ensures (forall i :: 0 <= i < |left| ==> Streamable(left[i])) && forall b :: b in blocked ==> b < 0x1_0000_0000
    ensures flow == SentFrames(m, res) && (WithinCredit(m) ==> WithinCredit(flow))
    ensures FilledUp(left, turns, visited, TotalLength(res), maxBytes, flow)
    ensures Framed(streams, left, res) && blocked == AllBlocked(m, res) && IsBlocking(m, res, blocked)
  {
    hide AfterFrame, NextFrame, Framed, Emitted, BlockedBy, AllBlocked, IsBlocking, ArePaid, IsPaid;
    hide FullLength, Contents, ContentsOf, TotalLength, ToSend, AllToSend, WithinCredit, HeaderLength, Streamable,
         FitsWire, Flow.Sent,
         Flow.SendableOn, Window, Flow.Sendable, SuffixOf, Exhausted, HeaderOf, SentFrames;
    NoContents();
    res, left, flow, blocked := [], streams, m, [];
    assert multiset(ContentsOf(res)) == multiset{};
    NothingSent(m, streams);
    PaidMore(m, res, StreamFrame(0, false, false, 0, []));
    var k, more := 0, true;
    while k < |turns.order| && more
      invariant k <= |turns.order| && |left| == |streams| &&
                multiset(ContentsOf(res)) + AllToSend(left) == AllToSend(streams)
      invariant forall j :: 0 <= j < |streams| ==>
                  left[j].id == streams[j].id && SuffixOf(ToSend(left[j]), ToSend(streams[j]))
      invariant TotalLength(res) <= maxBytes && AllLong(res) && (maxBytes <= MAX_PACKET_SIZE + 2 ==> Fit(res))
      invariant (forall j :: 0 <= j < |left| ==> Streamable(left[j])) && forall b :: b in blocked ==> b < 0x1_0000_0000
      invariant flow == SentFrames(m, res) && (WithinCredit(m) ==> WithinCredit(flow)) && Framed(streams, left, res)
      invariant blocked == AllBlocked(m, res) && ArePaid(m, res)
      invariant forall j :: 0 <= j < k ==>
                  Exhausted(left[turns.order[j]], turns.volumeLeft[turns.order[j]], TotalLength(res), maxBytes, flow)
      invariant !more ==>
                TotalLength(res) == maxBytes ||
                (k > 0 && TotalLength(res) + HeaderOf(left[turns.order[k - 1]]) > maxBytes)
    {
      var i := turns.order[k];
      var r := PopFrom(left[i], turns.volumeLeft[i], TotalLength(res), maxBytes, flow);
      if r.frame.Some? {
        var frame := r.frame.value;
        EmittedFacts(left[i], TotalLength(res), maxBytes, flow, r);
        EmittedIs(left[i], TotalLength(res), maxBytes, flow, r);
        AppendOne(res, frame);
        AllAfter(left, i, r.stream, Contents(frame));
        SuffixMore(ToSend(r.stream), ToSend(left[i]), ToSend(streams[i]), Contents(frame));
        SentOneMore(m, res, frame);
        PaidMore(m, res, frame);
        FramedMore(streams, left, res, i, |frame.data|);
        assert multiset(ContentsOf(res) + Contents(frame)) == multiset(ContentsOf(res)) + multiset(Contents(frame));
        forall j | 0 <= j < k && turns.order[j] != i
          ensures Exhausted(left[turns.order[j]], turns.volumeLeft[turns.order[j]], TotalLength(res + [frame]),
                    maxBytes, r.flow)
        {
          StaysExhausted(left[turns.order[j]], turns.volumeLeft[turns.order[j]], TotalLength(res), maxBytes, flow,
            frame.id, |frame.data|, FullLength(frame));
        }
        res, left := res + [frame], left[i := r.stream];
      }
      flow, blocked, more, k := r.flow, blocked + r.blocked, r.more, k + 1;
    }
    visited := k;
    BlockedIsExact(m, res);
  }

  lemma NothingSent(m: Flow.Manager, streams: seq<SendStream>)
    ensures SentFrames(m, []) == m && AllBlocked(m, []) == [] && Framed(streams, streams, [])
    ensures forall i :: 0 <= i < |streams| ==> SuffixOf(ToSend(streams[i]), ToSend(streams[i]))
  {
  }

  // ----- what was written, and what was sent of it

  // Each stream has its own number. What it still has to send is the end of what was written to it.
  ghost predicate Kept(streams: seq<SendStream>, written: map<nat, seq<Byte>>) {
    (forall i, j :: 0 <= i < j < |streams| ==> streams[i].id != streams[j].id) &&
    forall i :: 0 <= i < |streams| ==>
      streams[i].id in written && |written[streams[i].id]| == streams[i].writeOffset + |streams[i].data| &&
      written[streams[i].id][streams[i].writeOffset..] == streams[i].data
  }

  // The frame carries the bytes that were written at its offset. Its stream is past them, so that they
  // stay as they are; and a frame that marks the end ends with all that will ever be written.
  ghost predicate Traced(f: StreamFrame, streams: seq<SendStream>, written: map<nat, seq<Byte>>) {
    exists i :: 0 <= i < |streams| && streams[i].id == f.id && OfStream(f, streams[i], written)
  }

  ghost predicate OfStream(f: StreamFrame, s: SendStream, written: map<nat, seq<Byte>>) {
    s.id in written && s.writeOffset <= |written[s.id]| && f.offset + |f.data| <= s.writeOffset &&
    f.data == written[s.id][f.offset..f.offset + |f.data|] &&
    (f.fin ==> s.finished && s.data == [] && f.offset + |f.data| == s.writeOffset) && (f.data != [] || f.fin)
  }

  ghost predicate AllTraced(fs: seq<StreamFrame>, streams: seq<SendStream>, written: map<nat, seq<Byte>>) {
    forall f :: f in fs ==> Traced(f, streams, written)
  }

  // every byte that a stream is past has been sent
  ghost predicate AllSent(streams: seq<SendStream>, emitted: seq<StreamFrame>) {
    forall i, b :: 0 <= i < |streams| && 0 <= b < streams[i].writeOffset ==> Carries(emitted, streams[i].id, b)
  }

  ghost predicate Recorded(streams: seq<SendStream>, written: map<nat, seq<Byte>>, emitted: seq<StreamFrame>,
                           queue: seq<StreamFrame>) {
    Kept(streams, written) && AllTraced(emitted, streams, written) && AllTraced(queue, streams, written) &&
    AllSent(streams, emitted) && AllLong(emitted)
  }

  lemma SliceOfSlice(w: seq<Byte>, a: nat, b: nat, c: nat, d: nat)
    requires a <= b <= |w| && c <= d <= b - a
    ensures w[a..b][c..d] == w[a + c..a + d]
  {
    var x, y := w[a..b][c..d], w[a + c..a + d];
    assert forall k :: 0 <= k < d - c ==> x[k] == y[k];
    assert x == y;
  }

  lemma PieceIsTraced(f: StreamFrame, q: StreamFrame, streams: seq<SendStream>, written: map<nat, seq<Byte>>)
    requires Traced(q, streams, written) && PieceOf(f, q)
    ensures Traced(f, streams, written)
  {
    var i :| 0 <= i < |streams| && streams[i].id == q.id && OfStream(q, streams[i], written);
    assert OfStream(f, streams[i], written) by {
      var a := f.offset - q.offset;
      SliceOfSlice(written[q.id], q.offset, q.offset + |q.data|, a, a + |f.data|);
    }
  }

  lemma PiecesAreTraced(fs: seq<StreamFrame>, queue: seq<StreamFrame>, streams: seq<SendStream>,
                        written: map<nat, seq<Byte>>)
    requires Pieces(fs, queue) && AllTraced(queue, streams, written)
    ensures AllTraced(fs, streams, written)
  {
    hide PieceOf, Traced;
    forall f | f in fs ensures Traced(f, streams, written) {
      var q :| q in queue && PieceOf(f, q);
      PieceIsTraced(f, q, streams, written);
    }
  }

  lemma ProgressIsKept(streams: seq<SendStream>, left: seq<SendStream>, fs: seq<StreamFrame>,
                       written: map<nat, seq<Byte>>)
    requires Kept(streams, written) && Framed(streams, left, fs)
    ensures Kept(left, written)
  {
    hide Carries, NewData;
    forall i | 0 <= i < |left|
      ensures left[i].id in written && |written[left[i].id]| == left[i].writeOffset + |left[i].data| &&
              written[left[i].id][left[i].writeOffset..] == left[i].data
    {
      var s, s' := streams[i], left[i];
      assert Progress(s, s', fs);
      assert written[s.id][s.writeOffset..][s'.writeOffset - s.writeOffset..] == written[s.id][s'.writeOffset..];
    }
    forall i, j | 0 <= i < j < |left| ensures left[i].id != left[j].id {
      assert Progress(streams[i], left[i], fs) && Progress(streams[j], left[j], fs);
    }
  }

  lemma StaysTraced(f: StreamFrame, streams: seq<SendStream>, left: seq<SendStream>, fs: seq<StreamFrame>,
                    written: map<nat, seq<Byte>>)
    requires Traced(f, streams, written) && Framed(streams, left, fs) && Kept(streams, written)
    ensures Traced(f, left, written)
  {
    hide Carries, NewData;
    var i :| 0 <= i < |streams| && streams[i].id == f.id && OfStream(f, streams[i], written);
    assert Progress(streams[i], left[i], fs);
    assert OfStream(f, left[i], written);
  }

  lemma NewIsTraced(f: StreamFrame, streams: seq<SendStream>, left: seq<SendStream>, fs: seq<StreamFrame>,
                    written: map<nat, seq<Byte>>)
    requires Kept(streams, written) && Framed(streams, left, fs) && f in fs
    ensures Traced(f, left, written)
  {
    hide NewData, Progress, Carries, OfStream;
    var i :| 0 <= i < |streams| && NewData(streams[i], left[i], f);
    NewOfStream(f, streams[i], left[i], fs, written);
  }

  lemma NewOfStream(f: StreamFrame, s: SendStream, s': SendStream, fs: seq<StreamFrame>, written: map<nat, seq<Byte>>)
    requires s.id in written && |written[s.id]| == s.writeOffset + |s.data| && written[s.id][s.writeOffset..] == s.data
    requires Progress(s, s', fs) && NewData(s, s', f)
    ensures s'.id == f.id && OfStream(f, s', written)
  {
    hide Carries;
    var w := written[s.id];
    assert w[s.writeOffset..][f.offset - s.writeOffset..f.offset - s.writeOffset + |f.data|] ==
           w[f.offset..f.offset + |f.data|];
  }

  lemma {:induction false} CarriedBy(x: seq<StreamFrame>, y: seq<StreamFrame>, id: nat, b: nat)
    requires Carries(x, id, b) || Carries(y, id, b)
    ensures Carries(x + y, id, b)
  {
    var f :| (f in x || f in y) && f.id == id && f.offset <= b < f.offset + |f.data|;
    assert f in x + y;
  }

  lemma SentBoth(streams: seq<SendStream>, left: seq<SendStream>, emitted: seq<StreamFrame>, again: seq<StreamFrame>,
                 fs: seq<StreamFrame>)
    requires AllSent(streams, emitted) && Framed(streams, left, fs)
    ensures AllSent(left, emitted + (again + fs))
  {
    hide Carries, NewData;
    forall i, b | 0 <= i < |left| &&
      0 <= b < left[i].writeOffset ensures Carries(emitted + (again + fs), left[i].id, b) {
      assert Progress(streams[i], left[i], fs);
      if b >= streams[i].writeOffset { CarriedBy(again, fs, left[i].id, b); }
      CarriedBy(emitted, again + fs, left[i].id, b);
    }
  }

  // What is sent again is part of what was sent, and what is new is part of what was written.
  lemma PopIsRecorded(streams: seq<SendStream>, left: seq<SendStream>, written: map<nat, seq<Byte>>,
                      emitted: seq<StreamFrame>,
                      queue: seq<StreamFrame>, queue': seq<StreamFrame>, again: seq<StreamFrame>, fs: seq<StreamFrame>)
    requires Recorded(streams, written, emitted, queue) && Framed(streams, left, fs) && AllLong(again) && AllLong(fs)
    requires Pieces(again, queue) && Pieces(queue', queue)
    ensures Recorded(left, written, emitted + (again + fs), queue')
  {
    hide Kept, Traced, AllSent, Framed, Pieces;
    PiecesAreTraced(again, queue, streams, written);
    PiecesAreTraced(queue', queue, streams, written);
    ProgressIsKept(streams, left, fs, written);
    SentBoth(streams, left, emitted, again, fs);
    forall f | f in emitted + again + queue' ensures Traced(f, left, written) {
      StaysTraced(f, streams, left, fs, written);
    }
    forall f | f in fs ensures Traced(f, left, written) { NewIsTraced(f, streams, left, fs, written); }
  }

  // one stream changes, without losing data that it is past
  lemma ChangeIsRecorded(streams: seq<SendStream>, i: nat, s: SendStream, written: map<nat, seq<Byte>>, w: seq<Byte>,
                         emitted: seq<StreamFrame>, queue: seq<StreamFrame>)
    requires Recorded(streams, written, emitted, queue) && i < |streams|
    requires s.id == streams[i].id && s.writeOffset == streams[i].writeOffset && (streams[i].finished ==> s.finished)
    requires streams[i].finished && streams[i].data == [] ==> s.data == []
    requires |w| == s.writeOffset + |s.data| && w[s.writeOffset..] == s.data && streams[i].id in written
    requires |written[s.id]| >= s.writeOffset && w[..s.writeOffset] == written[s.id][..s.writeOffset]
    ensures Recorded(streams[i := s], written[s.id := w], emitted, queue)
  {
    hide Carries, Traced, AllLong;
    assert Kept(streams[i := s], written[s.id := w]);
    StillSent(streams, streams[i := s], emitted);
    forall f | f in emitted || f in queue ensures Traced(f, streams[i := s], written[s.id := w]) {
      ChangeIsTraced(f, streams, i, s, written, w);
    }
  }

  lemma StillSent(streams: seq<SendStream>, streams': seq<SendStream>, emitted: seq<StreamFrame>)
    requires AllSent(streams, emitted) && |streams| <= |streams'|
    requires forall i :: 0 <= i < |streams| ==>
               streams'[i].id == streams[i].id && streams'[i].writeOffset == streams[i].writeOffset
    requires forall i :: |streams| <= i < |streams'| ==> streams'[i].writeOffset == 0
    ensures AllSent(streams', emitted)
  {
    hide Carries;
  }

  lemma ChangeIsTraced(f: StreamFrame, streams: seq<SendStream>, i: nat, s: SendStream, written: map<nat, seq<Byte>>,
                       w: seq<Byte>)
    requires Kept(streams, written) && Traced(f, streams, written) && i < |streams|
    requires s.id == streams[i].id && s.writeOffset == streams[i].writeOffset && (streams[i].finished ==> s.finished)
    requires streams[i].finished && streams[i].data == [] ==> s.data == []
    requires |w| >= s.writeOffset && |written[s.id]| >= s.writeOffset &&
             w[..s.writeOffset] == written[s.id][..s.writeOffset]
    ensures Traced(f, streams[i := s], written[s.id := w])
  {
    var j :| 0 <= j < |streams| && streams[j].id == f.id && OfStream(f, streams[j], written);
    if j == i {
      assert w[..s.writeOffset][f.offset..f.offset + |f.data|] == w[f.offset..f.offset + |f.data|];
      assert written[s.id][..s.writeOffset][f.offset..f.offset + |f.data|] ==
             written[s.id][f.offset..f.offset + |f.data|];
      assert OfStream(f, streams[i := s][i], written[s.id := w]);
    } else {
      assert OfStream(f, streams[i := s][j], written[s.id := w]);
    }
  }

  lemma OpenIsRecorded(streams: seq<SendStream>, s: SendStream, written: map<nat, seq<Byte>>, emitted: seq<StreamFrame>,
                       queue: seq<StreamFrame>)
    requires Recorded(streams, written, emitted, queue) && s.id !in written && s.writeOffset == 0 && s.data == []
    ensures Recorded(streams + [s], written[s.id := []], emitted, queue)
  {
    hide Carries, Traced, AllLong;
    assert Kept(streams + [s], written[s.id := []]);
    StillSent(streams, streams + [s], emitted);
    forall f | f in emitted || f in queue ensures Traced(f, streams + [s], written[s.id := []]) {
      OpenIsTraced(f, streams, s, written);
    }
  }

  lemma OpenIsTraced(f: StreamFrame, streams: seq<SendStream>, s: SendStream, written: map<nat, seq<Byte>>)
    requires Traced(f, streams, written) && s.id !in written
    ensures Traced(f, streams + [s], written[s.id := []])
  {
    var j :| 0 <= j < |streams| && streams[j].id == f.id && OfStream(f, streams[j], written);
    assert OfStream(f, (streams + [s])[j], written[s.id := []]);
  }

  // ----- the framer

  class StreamFramer {
    var retransmissionQueue: seq<StreamFrame>
    var blockedFrameQueue: seq<nat>
    var streams: seq<SendStream>
    var flow: Flow.Manager

    // what was written to each stream, and all frames that were made, in order
    ghost var written: map<nat, seq<Byte>>
    ghost var emitted: seq<StreamFrame>

    // Every frame that was ever made is the slice of the written data at its own offset.
    ghost predicate Valid()
      reads this
    {
      Fit(retransmissionQueue) && (forall b :: b in blockedFrameQueue ==> b < 0x1_0000_0000) &&
      (forall i :: 0 <= i < |streams| ==> Streamable(streams[i])) &&
      Recorded(streams, written, emitted, retransmissionQueue)
    }

    constructor (m: Flow.Manager)
      ensures Valid() && retransmissionQueue == [] && blockedFrameQueue == [] && streams == [] && flow == m
      ensures written == map[] && emitted == []
    {
      retransmissionQueue, blockedFrameQueue, streams, flow := [], [], [], m;
      written, emitted := map[], [];
    }

    method Open(id: nat, contributes: bool)
      requires Valid() && id < 0x1_0000_0000 && id !in written
      modifies `streams, `flow, `written
      ensures Valid() && written == old(written)[id := []] && flow == Flow.Opened(old(flow), id, contributes)
      ensures old(WithinCredit(flow)) ==> WithinCredit(flow)
      ensures streams == old(streams) + [SendStream(id, 0, [], false, false, false)]
    {
      var s := SendStream(id, 0, [], false, false, false);
      OpenIsRecorded(streams, s, written, emitted, retransmissionQueue);
      hide Recorded, Fit;
      streams, flow, written := streams + [s], Flow.Opened(flow, id, contributes), written[id := []];
    }

    // Data is taken unless the stream was closed or has failed. It follows what the stream is past: data that a
    // write left behind, when its deadline passed, is replaced.
    method Write(i: nat, p: seq<Byte>) returns (accepted: bool)
      requires Valid() && i < |streams| && streams[i].writeOffset + |p| < TWO_64
      modifies `streams, `written
      ensures Valid() && (accepted <==> !old(streams)[i].failed && !old(streams)[i].finished)
      ensures !accepted || p == [] ==> unchanged(this)
      ensures accepted && p != [] ==>
              var s := old(streams)[i];
              streams == old(streams)[i := s.(data := p)] && s.id in old(written) &&
              s.writeOffset <= |old(written)[s.id]| &&
              written == old(written)[s.id := old(written)[s.id][..s.writeOffset] + p] &&
              (s.data == [] ==> written[s.id] == old(written)[s.id] + p)
    {
      if streams[i].failed || streams[i].finished { return false; }
      if |p| == 0 { return true; }
      var s := streams[i].(data := p);
      ghost var w := written[s.id][..s.writeOffset] + p;
      ChangeIsRecorded(streams, i, s, written, w, emitted, retransmissionQueue);
      assert streams[i].data == [] ==> written[s.id][..s.writeOffset] == written[s.id];
      hide Recorded, Fit, WithinCredit;
      streams, written := streams[i := s], written[s.id := w];
      return true;
    }

    method Close(i: nat)
      requires Valid() && i < |streams|
      modifies `streams
      ensures Valid() && streams == old(streams)[i := old(streams)[i].(finished := true)]
    {
      var s := streams[i].(finished := true);
      SameWritten(written, s.id);
      ChangeIsRecorded(streams, i, s, written, written[s.id], emitted, retransmissionQueue);
      hide Recorded, Fit, WithinCredit;
      streams := streams[i := s];
    }

    method Cancel(i: nat)
      requires Valid() && i < |streams|
      modifies `streams
      ensures Valid() && streams == old(streams)[i := old(streams)[i].(failed := true)]
    {
      var s := streams[i].(failed := true);
      SameWritten(written, s.id);
      ChangeIsRecorded(streams, i, s, written, written[s.id], emitted, retransmissionQueue);
      hide Recorded, Fit, WithinCredit;
      streams := streams[i := s];
    }

    // The peer announces a window. That leaves the stream within its credit, unless the first
    // announcement is below what was sent on the strength of the initial window.
    method Grant(id: nat, offset: nat)
      requires Valid()
      modifies `flow
      ensures Valid() && flow == Flow.Credited(old(flow), id, offset)
      ensures old(WithinCredit(flow)) ==> (WithinCredit(flow) <==> !Retracts(old(flow), id, offset))
    {
      CreditIsKept(flow, id, offset);
      hide Recorded, Fit, WithinCredit;
      flow := Flow.Credited(flow, id, offset);
    }

    // A frame that was made before, with or without its length, waits behind the others to be sent again.
    method AddFrameForRetransmission(f: StreamFrame)
      requires Valid() && FitsWire(Long(f)) && Long(f) in emitted
      modifies `retransmissionQueue
      ensures Valid() && retransmissionQueue == old(retransmissionQueue) + [f]
    {
      assert Traced(f, streams, written) by { LongIsTraced(f, streams, written); }
      retransmissionQueue := retransmissionQueue + [f];
    }

    method PopBlockedFrame() returns (r: Option<nat>)
      requires Valid()
      modifies `blockedFrameQueue
      ensures Valid() && (r.Some? ==> r.value < 0x1_0000_0000)
      ensures r.None? <==> old(blockedFrameQueue) == []
      ensures r.None? ==> unchanged(this)
      ensures r.Some? ==> old(blockedFrameQueue) == [r.value] + blockedFrameQueue
    {
      if |blockedFrameQueue| == 0 { return None; }
      assert blockedFrameQueue[0] in blockedFrameQueue &&
             forall b :: b in blockedFrameQueue[1..] ==> b in blockedFrameQueue;
      r, blockedFrameQueue := Some(blockedFrameQueue[0]), blockedFrameQueue[1..];
    }

    // everything that is still to be delivered
    ghost function Undelivered(): (items: multiset<Item>)
      reads `retransmissionQueue, `streams
    {
      multiset(ContentsOf(retransmissionQueue)) + AllToSend(streams)
    }

    // Neither a retransmission nor new data would have fitted: the frames before index again are retransmissions.
    ghost predicate Full(path: Option<set<nat>>, turns: Turns, res: seq<StreamFrame>, again: nat, visited: nat,
                         maxLen: nat)
      reads `retransmissionQueue, `streams, `flow
    {
      TurnsOf(turns, |streams|) && again <= |res| && TotalLength(res[..again]) <= maxLen &&
      NoRoom(retransmissionQueue, path, TotalLength(res[..again]), maxLen) &&
      FilledUp(streams, turns, visited, TotalLength(res[again..]), maxLen - TotalLength(res[..again]), flow)
    }

    // The frames deliver, once, what is then no longer to be delivered, and take no more than maxLen bytes.
    // On a path, only frames of its streams are retransmitted. Nothing more would have fitted. The first
    // frames are pieces of what had to be sent again, and the others carry new data.
    method PopStreamFrames(maxLen: nat, path: Option<set<nat>>, turns: Turns)
      returns (res: seq<StreamFrame>, ghost again: nat, ghost visited: nat)
      requires Valid() && TurnsOf(turns, |streams|)
      modifies this
      ensures Valid() && |streams| == |old(streams)| && multiset(ContentsOf(res)) + Undelivered() == old(Undelivered())
      ensures TotalLength(res) <= maxLen && AllLong(res) && (maxLen <= MAX_PACKET_SIZE + 2 ==> Fit(res))
      ensures path.Some? ==>
              Part(retransmissionQueue, path.value, false) == Part(old(retransmissionQueue), path.value, false)
      ensures again <= |res| && flow == SentFrames(old(flow), res[again..]) &&
              Full(path, turns, res, again, visited, maxLen)
      ensures Pieces(res[..again], old(retransmissionQueue)) && Framed(old(streams), streams, res[again..])
      ensures blockedFrameQueue == old(blockedFrameQueue) + AllBlocked(old(flow), res[again..])
      ensures IsBlocking(old(flow), res[again..], AllBlocked(old(flow), res[again..]))
      ensures written == old(written) && emitted == old(emitted) + res &&
              (old(WithinCredit(flow)) ==> WithinCredit(flow))
    {
      hide Recorded, Pieces, Framed, AllLong, AllBlocked, IsBlocking;
      hide ContentsOf, TotalLength, AllToSend, WithinCredit, ToSend, SuffixOf, Streamable, FitsWire, Part, SentFrames,
           FilledUp, NoRoom;
      var first, currentLen, queue := PopAgain(retransmissionQueue, maxLen, path);
      var normal, left, m, blocked;
      normal, left, m, blocked, visited := PopNormal(streams, turns, maxLen - currentLen, flow);
      ContentsConcat(first, normal);
      SumOfTwo(ContentsOf(first), ContentsOf(normal));
      res, again := first + normal, |first|;
      assert res[..again] == first && res[again..] == normal;
      PopIsRecorded(streams, left, written, emitted, retransmissionQueue, queue, first, normal);
      AllLongConcat(first, normal);
      retransmissionQueue, blockedFrameQueue, streams, flow := queue, blockedFrameQueue + blocked, left, m;
      emitted := emitted + res;
    }
  }

  lemma SameWritten(written: map<nat, seq<Byte>>, id: nat)
    requires id in written
    ensures written[id := written[id]] == written
  {
  }

  lemma LongIsTraced(f: StreamFrame, streams: seq<SendStream>, written: map<nat, seq<Byte>>)
    requires Traced(Long(f), streams, written)
    ensures Traced(f, streams, written)
  {
    var i :| 0 <= i < |streams| && streams[i].id == f.id && OfStream(Long(f), streams[i], written);
    assert OfStream(f, streams[i], written);
  }

  lemma AllLongConcat(x: seq<StreamFrame>, y: seq<StreamFrame>)
    requires AllLong(x) && AllLong(y)
    ensures AllLong(x + y)
  {
  }

  // the next frame to be retransmitted, on the path if one is given, does not fit
  ghost predicate NoRoom(queue: seq<StreamFrame>, path: Option<set<nat>>, used: nat, maxLen: nat) {
    var here := if path.None? then queue else Part(queue, path.value, true);
    here != [] ==> used + HeaderLength(Long(here[0])) >= maxLen
  }

  method PopAgain(queue: seq<StreamFrame>, maxLen: nat, path: Option<set<nat>>)
    returns (res: seq<StreamFrame>, currentLen: nat, left: seq<StreamFrame>)
    requires Fit(queue)
    ensures multiset(ContentsOf(res)) + multiset(ContentsOf(left)) == multiset(ContentsOf(queue))
    ensures currentLen == TotalLength(res) <= maxLen && AllLong(res) && Fit(res) && Fit(left)
    ensures path.Some? ==> Part(left, path.value, false) == Part(queue, path.value, false)
    ensures NoRoom(left, path, currentLen, maxLen)
    ensures Pieces(res, queue) && Pieces(left, queue)
  {
    hide ContentsOf, TotalLength, Part, Fit, AllLong, HeaderLength, Pieces;
    if path.None? {
      res, currentLen, left := PopRetransmissions(queue, maxLen);
      assert multiset(ContentsOf(res) + ContentsOf(left)) == multiset(ContentsOf(res)) + multiset(ContentsOf(left));
    } else {
      res, currentLen, left := PopRetransmissionsOfPath(queue, maxLen, path.value);
      PartsTogether(queue, path.value);
      PartsTogether(left, path.value);
      assert multiset(ContentsOf(res) + OnPath(left, path.value)) == multiset(ContentsOf(res)) + multiset(OnPath(left,
               path.value));
    }
  }

  // the frames of the path and the others deliver everything
  lemma {:induction false} PartsTogether(q: seq<StreamFrame>, ids: set<nat>)
    ensures multiset(ContentsOf(q)) == multiset(ContentsOf(Part(q, ids, true))) + multiset(ContentsOf(Part(q, ids,
              false)))
  {
    if q != [] {
      hide *;
      PartsTogether(q[1..], ids);
      ContentsFirst(q);
      var here := q[0].id in ids;
      PartStep(q, ids, here);
      PartStep(q, ids, !here);
      FrontContents(q[0], Part(q[1..], ids, here));
      SumOfTwo(Contents(q[0]), ContentsOf(q[1..]));
      SumOfTwo(Contents(q[0]), ContentsOf(Part(q[1..], ids, here)));
      SumOfThree(multiset(Contents(q[0])), multiset(ContentsOf(Part(q[1..], ids, true))),
        multiset(ContentsOf(Part(q[1..], ids, false))));
    }
  }

  lemma SumOfThree(a: multiset<Item>, b: multiset<Item>, c: multiset<Item>)
    ensures a + (b + c) == (a + b) + c && a + (b + c) == b + (a + c)
  {
  }

  lemma PartStep(q: seq<StreamFrame>, ids: set<nat>, on: bool)
    requires q != []
    ensures Part(q, ids, on) == if (q[0].id in ids) == on then [q[0]] + Part(q[1..], ids, on) else Part(q[1..], ids, on)
  {
    assert [] + Part(q[1..], ids, on) == Part(q[1..], ids, on);
  }

  lemma SumOfTwo(x: seq<Item>, y: seq<Item>)
    ensures multiset(x + y) == multiset(x) + multiset(y)
  {
  }
}
