/**
  Stream reassembly: STREAM frames arrive in any order, overlapping and duplicated, and leave as
  the byte string that was sent. The sorter keeps a list of gaps (what is still missing) and a
  map of queued frames by offset. A frame that is covered by a later, larger one may stay in the
  map; the ghost set live says which queued frames will be delivered.
 */
module StreamReassembly {
  import opened Basics
  import opened ByteOrder

  const MAX_BYTE_COUNT: nat := 0xFFFF_FFFF_FFFF_FFFF
  const MAX_STREAM_FRAME_SORTER_GAPS: nat := 2500

  datatype Interval = Interval(start: nat, end: nat)
  datatype Frame = Frame(offset: nat, data: seq<Byte>, fin: bool)
  datatype PushResult = Pushed | DuplicateData | EmptyData | TooManyGaps | NoGapFound | NoEndGapFound

  function Bytes(lo: nat, hi: nat): (s: set<nat>)
    ensures forall b :: b in s <==> lo <= b < hi
    decreases hi - lo
  {
    if lo >= hi then {} else {lo} + Bytes(lo + 1, hi)
  }

  // The frame carries a slice of the stream; a frame without data marks its end.
  ghost predicate SliceOf(stream: seq<Byte>, f: Frame) {
    f.offset + |f.data| <= |stream| &&
    f.data == stream[f.offset..f.offset + |f.data|] &&
    (f.data == [] ==> f.offset == |stream|)
  }

  // ----- the gap list

  ghost predicate GapList(gaps: seq<Interval>) {
    |gaps| > 0 && gaps[|gaps| - 1].end == MAX_BYTE_COUNT &&
    (forall i :: 0 <= i < |gaps| ==> gaps[i].start < gaps[i].end) &&
    (forall i, j :: 0 <= i < j < |gaps| ==> gaps[i].end < gaps[j].start)
  }

  ghost predicate Missing(gaps: seq<Interval>, b: nat) {
    exists i :: 0 <= i < |gaps| && gaps[i].start <= b < gaps[i].end
  }

  // the gaps are exactly what has not been received
  ghost predicate Complement(gaps: seq<Interval>, received: set<nat>) {
    (forall b :: b in received ==> b < MAX_BYTE_COUNT) &&
    (forall b :: 0 <= b < MAX_BYTE_COUNT ==> (b in received <==> !Missing(gaps, b)))
  }

  // start..end begins in gap i and ends in gap e
  ghost predicate Spans(gaps: seq<Interval>, i: nat, e: nat, start: nat, end: nat) {
    i <= e < |gaps| && gaps[i].start <= start < gaps[i].end &&
    gaps[e].start < end <= gaps[e].end && start < end
  }

  // what is left of gaps i..e when start..end arrives
  function Remains(gaps: seq<Interval>, i: nat, e: nat, start: nat, end: nat): (r: seq<Interval>)
    requires i < |gaps| && e < |gaps|
  {
    (if gaps[i].start < start then [Interval(gaps[i].start, start)] else []) +
    (if end < gaps[e].end then [Interval(end, gaps[e].end)] else [])
  }

  function Carve(gaps: seq<Interval>, i: nat, e: nat, start: nat, end: nat): (r: seq<Interval>)
    requires i < |gaps| && e < |gaps|
  {
    gaps[..i] + Remains(gaps, i, e, start, end) + gaps[e + 1..]
  }

  ghost predicate Sorted(g: seq<Interval>) {
    (forall i :: 0 <= i < |g| ==> g[i].start < g[i].end) && (forall i, j :: 0 <= i < j < |g| ==> g[i].end < g[j].start)
  }

  lemma SortedConcat(x: seq<Interval>, y: seq<Interval>, m: nat)
    requires Sorted(x) && Sorted(y)
    requires (forall i :: 0 <= i < |x| ==> x[i].end < m) && (forall i :: 0 <= i < |y| ==> m <= y[i].start)
    ensures Sorted(x + y)
  {
  }

  lemma RemainsIsSorted(gaps: seq<Interval>, i: nat, e: nat, start: nat, end: nat)
    requires GapList(gaps) && Spans(gaps, i, e, start, end)
    ensures
      var r := Remains(gaps, i, e, start, end);
      Sorted(r) && (forall k :: 0 <= k < |r| ==> gaps[i].start <= r[k].start < r[k].end <= gaps[e].end) &&
      (end < gaps[e].end ==> |r| > 0 && r[|r| - 1].end == gaps[e].end)
  {
  }

  lemma CarveIsGapList(gaps: seq<Interval>, i: nat, e: nat, start: nat, end: nat)
    requires GapList(gaps) && Spans(gaps, i, e, start, end) && end < MAX_BYTE_COUNT
    ensures GapList(Carve(gaps, i, e, start, end))
  {
    var r := Remains(gaps, i, e, start, end);
    RemainsIsSorted(gaps, i, e, start, end);
    GapListParts(gaps, i, e);
    hide Remains, Sorted, GapList;
    SortedConcat(gaps[..i], r, gaps[i].start);
    SortedConcat(gaps[..i] + r, gaps[e + 1..], gaps[e].end + 1);
    IsGapList(Carve(gaps, i, e, start, end));
  }

  lemma GapListParts(gaps: seq<Interval>, i: nat, e: nat)
    requires GapList(gaps) && i <= e < |gaps|
    ensures Sorted(gaps[..i]) && Sorted(gaps[e + 1..]) && gaps[i].start < gaps[e].end
    ensures forall k :: 0 <= k < i ==> gaps[..i][k].end < gaps[i].start
    ensures var rest := gaps[e + 1..]; forall k :: 0 <= k < |rest| ==> gaps[e].end + 1 <= rest[k].start
    ensures if e + 1 < |gaps| then gaps[e + 1..][|gaps| - e - 2].end == MAX_BYTE_COUNT
            else gaps[e].end == MAX_BYTE_COUNT
  {
  }

  lemma IsGapList(gaps: seq<Interval>)
    requires Sorted(gaps) && |gaps| > 0 && gaps[|gaps| - 1].end == MAX_BYTE_COUNT
    ensures GapList(gaps)
  {
  }

  lemma MissingConcat(g: seq<Interval>, h: seq<Interval>, b: nat)
    ensures Missing(g + h, b) <==> Missing(g, b) || Missing(h, b)
  {
    if k :| 0 <= k < |g| && g[k].start <= b < g[k].end { assert (g + h)[k] == g[k]; }
    if k :| 0 <= k < |h| && h[k].start <= b < h[k].end { assert (g + h)[|g| + k] == h[k]; }
  }

  lemma RemainsMissing(gaps: seq<Interval>, i: nat, e: nat, start: nat, end: nat, b: nat)
    requires GapList(gaps) && Spans(gaps, i, e, start, end)
    ensures Missing(Remains(gaps, i, e, start, end), b) <==> Missing(gaps[i..e + 1], b) && !(start <= b < end)
  {
    var r, m := Remains(gaps, i, e, start, end), gaps[i..e + 1];
    assert m[0] == gaps[i] && m[e - i] == gaps[e];
    if k :| 0 <= k < |m| && m[k].start <= b < m[k].end && !(start <= b < end) {
      assert m[k] == gaps[i + k];
      assert b < start ==> k == 0 && r[0] == Interval(gaps[i].start, start);
      assert b >= end ==> k == e - i && r[|r| - 1] == Interval(end, gaps[e].end);
    }
  }

  lemma CarveMissing(gaps: seq<Interval>, i: nat, e: nat, start: nat, end: nat, b: nat)
    requires GapList(gaps) && Spans(gaps, i, e, start, end)
    ensures Missing(Carve(gaps, i, e, start, end), b) <==> Missing(gaps, b) && !(start <= b < end)
  {
    var r := Remains(gaps, i, e, start, end);
    assert gaps == gaps[..i] + gaps[i..e + 1] + gaps[e + 1..];
    MissingConcat(gaps[..i], gaps[i..e + 1], b);
    MissingConcat(gaps[..i] + gaps[i..e + 1], gaps[e + 1..], b);
    MissingConcat(gaps[..i], r, b);
    MissingConcat(gaps[..i] + r, gaps[e + 1..], b);
    RemainsMissing(gaps, i, e, start, end, b);
    MissingOutside(gaps, i, e, start, end, b);
  }

  lemma MissingOutside(gaps: seq<Interval>, i: nat, e: nat, start: nat, end: nat, b: nat)
    requires GapList(gaps) && Spans(gaps, i, e, start, end)
    ensures Missing(gaps[..i], b) ==> b < start
    ensures Missing(gaps[e + 1..], b) ==> b >= end
  {
  }

  lemma CarveIsComplement(gaps: seq<Interval>, i: nat, e: nat, start: nat, end: nat, received: set<nat>)
    requires GapList(gaps) && Spans(gaps, i, e, start, end) && end < MAX_BYTE_COUNT && Complement(gaps, received)
    ensures Complement(Carve(gaps, i, e, start, end), received + Bytes(start, end))
  {
    forall b | 0 <= b < MAX_BYTE_COUNT
      ensures b in received + Bytes(start, end) <==> !Missing(Carve(gaps, i, e, start, end), b)
    {
      CarveMissing(gaps, i, e, start, end, b);
    }
  }

  // ----- queued and live frames

  function EndOf(f: Frame): (e: nat) {
    f.offset + |f.data|
  }

  // every queued frame is a slice of the stream, at its own offset, of received bytes
  ghost predicate Queue(stream: seq<Byte>, queued: map<nat, Frame>, received: set<nat>) {
    forall k :: k in queued ==>
      queued[k].offset == k && SliceOf(stream, queued[k]) && Bytes(k, EndOf(queued[k])) <= received
  }

  // Live frames do not overlap, and each is followed by a live frame or by a missing byte.
  ghost predicate Tiles(queued: map<nat, Frame>, received: set<nat>, live: set<nat>) {
    (forall k :: k in live ==> k in queued && queued[k].offset == k && queued[k].data != []) &&
    (forall k :: k in live && EndOf(queued[k]) in received ==> EndOf(queued[k]) in live) &&
    (forall k, l :: k in live && l in live && k < l ==> EndOf(queued[k]) <= l)
  }

  // A live frame starts at the read position, unless that byte is missing, and after every gap.
  ghost predicate Starts(pos: nat, gaps: seq<Interval>, received: set<nat>, live: set<nat>) {
    (forall k :: k in live ==> k >= pos) &&
    (forall i :: 0 <= i < |gaps| && gaps[i].end < MAX_BYTE_COUNT ==> gaps[i].end in live) &&
    (pos in received ==> pos in live) &&
    Bytes(0, pos) <= received
  }

  // The live frames tile what has been received from the read position on.
  ghost predicate Tiling(queued: map<nat, Frame>, pos: nat, gaps: seq<Interval>, received: set<nat>, live: set<nat>) {
    Tiles(queued, received, live) && Starts(pos, gaps, received, live)
  }

  // everything the sorter keeps about its fields
  ghost predicate State(stream: seq<Byte>, queued: map<nat, Frame>, pos: nat, gaps: seq<Interval>,
                        received: set<nat>, live: set<nat>) {
    |stream| <= MAX_BYTE_COUNT && GapList(gaps) && Complement(gaps, received) &&
    (forall b :: b in received ==> b < |stream|) &&
    Queue(stream, queued, received) && Tiling(queued, pos, gaps, received, live)
  }

  function LiveAfter(live: set<nat>, start: nat, end: nat): (r: set<nat>) {
    (set k | k in live && !(start <= k < end)) + {start}
  }

  // queued' is queued, less frames that begin inside f, plus f
  ghost predicate Replaces(queued: map<nat, Frame>, queued': map<nat, Frame>, f: Frame) {
    f.offset in queued' && queued'[f.offset] == f &&
    (forall k :: k in queued && k !in queued' ==> f.offset < k < EndOf(f)) &&
    (forall k :: k in queued' && k != f.offset ==> k in queued && queued'[k] == queued[k])
  }

  lemma NewGapEndsAreLive(gaps: seq<Interval>, i: nat, e: nat, start: nat, end: nat, live: set<nat>, k: nat)
    requires GapList(gaps) && Spans(gaps, i, e, start, end)
    requires forall j :: 0 <= j < |gaps| && gaps[j].end < MAX_BYTE_COUNT ==> gaps[j].end in live
    requires k < |Carve(gaps, i, e, start, end)| && Carve(gaps, i, e, start, end)[k].end < MAX_BYTE_COUNT
    ensures Carve(gaps, i, e, start, end)[k].end in LiveAfter(live, start, end)
  {
    var r, c := Remains(gaps, i, e, start, end), Carve(gaps, i, e, start, end);
    if k < i {
      assert c[k] == gaps[k];
    } else if k < i + |r| {
      assert c[k] == r[k - i];
    } else {
      assert c[k] == gaps[k - i - |r| + e + 1];
    }
  }

  // A live frame never reaches over an unreceived byte, so the tiling survives a new frame.
  lemma PushKeepsTiling(queued: map<nat, Frame>, queued': map<nat, Frame>, pos: nat, gaps: seq<Interval>,
                        i: nat, e: nat, f: Frame, received: set<nat>, live: set<nat>, stream: seq<Byte>)
    requires GapList(gaps) && Spans(gaps, i, e, f.offset, EndOf(f)) && Complement(gaps, received)
    requires EndOf(f) < MAX_BYTE_COUNT
    requires Queue(stream, queued, received) && Tiling(queued, pos, gaps, received, live)
    requires Replaces(queued, queued', f)
    ensures Tiling(queued', pos, Carve(gaps, i, e, f.offset, EndOf(f)), received + Bytes(f.offset, EndOf(f)),
                   LiveAfter(live, f.offset, EndOf(f)))
  {
    hide Bytes, SliceOf, Tiles, Carve, Replaces, Queue;
    var start, end := f.offset, EndOf(f);
    var received', live' := received + Bytes(start, end), LiveAfter(live, start, end);
    assert start !in received by { assert Missing(gaps, start); }
    assert end in received ==> end in live by {
      if end in received { EndIsLive(gaps, e, end, received); }
    }
    assert Tiles(queued', received', live') by {
      PushKeepsTiles(queued, queued', f, received, live, stream);
    }
    var c := Carve(gaps, i, e, start, end);
    forall k | 0 <= k < |c| && c[k].end < MAX_BYTE_COUNT ensures c[k].end in live' {
      NewGapEndsAreLive(gaps, i, e, start, end, live, k);
    }
    assert start !in Bytes(0, pos);
  }

  lemma PushKeepsTiles(queued: map<nat, Frame>, queued': map<nat, Frame>, f: Frame, received: set<nat>, live: set<nat>,
                       stream: seq<Byte>)
    requires Queue(stream, queued, received) && Tiles(queued, received, live) && Replaces(queued, queued', f)
    requires f.data != [] && f.offset !in received && (EndOf(f) in received ==> EndOf(f) in live)
    ensures Tiles(queued', received + Bytes(f.offset, EndOf(f)), LiveAfter(live, f.offset, EndOf(f)))
  {
    hide Bytes, SliceOf;
    var start, end := f.offset, EndOf(f);
    forall k | k in live ensures EndOf(queued[k]) <= start || start < k {
      assert start !in Bytes(k, EndOf(queued[k]));
    }
  }

  lemma EndIsLive(gaps: seq<Interval>, e: nat, end: nat, received: set<nat>)
    requires Complement(gaps, received) && e < |gaps| && gaps[e].start < end <= gaps[e].end && end in received
    ensures end == gaps[e].end
  {
    if end < gaps[e].end { assert Missing(gaps, end); }
  }

  lemma NothingMissing(gaps: seq<Interval>, received: set<nat>, start: nat, end: nat)
    requires Complement(gaps, received) && end <= MAX_BYTE_COUNT
    requires forall b :: start <= b < end ==> !Missing(gaps, b)
    ensures Bytes(start, end) <= received
  {
  }

  lemma NothingMissingBefore(gaps: seq<Interval>, i: nat, start: nat)
    requires GapList(gaps) && i < |gaps| && forall j :: 0 <= j < i ==> gaps[j].end < start
    ensures forall b :: start <= b < gaps[i].start ==> !Missing(gaps, b)
  {
  }

  lemma NothingMissingAfter(gaps: seq<Interval>, e: nat, end: nat)
    requires GapList(gaps) && e + 1 < |gaps| && end <= gaps[e + 1].start
    ensures forall b :: gaps[e].end <= b < end ==> !Missing(gaps, b)
  {
    forall b | gaps[e].end <= b < end ensures !Missing(gaps, b) {
      assert forall j :: e + 1 <= j < |gaps| ==> gaps[e + 1].start <= gaps[j].start;
    }
  }

  // A frame that is cut at a queued frame does not begin right at the end of a gap, because the
  // frame that ends the gap is queued.
  lemma NotAtGapEnd(gaps: seq<Interval>, queued: map<nat, Frame>, pos: nat, received: set<nat>, live: set<nat>,
                    i: nat, offset: nat, start: nat)
    requires GapList(gaps) && Complement(gaps, received) && Tiling(queued, pos, gaps, received, live)
    requires i < |gaps| && offset <= start < MAX_BYTE_COUNT && start <= gaps[i].end
    requires if start == offset then offset !in queued else Bytes(offset, start) <= received
    ensures start < gaps[i].end
  {
    if offset < start {
      assert start - 1 in Bytes(offset, start);
      assert !Missing(gaps, start - 1);
    }
  }

  lemma GapListIsChained(gaps: seq<Interval>)
    requires GapList(gaps)
    ensures Chained(gaps)
  {
    forall k | 0 <= k < |gaps| - 1 ensures Follows(gaps, k) {
      assert gaps[k].end < gaps[k + 1].start < gaps[k + 1].end;
      assert k + 1 < |gaps| - 1 ==> gaps[k + 1].end < gaps[|gaps| - 1].start;
    }
  }

  lemma StateParts(stream: seq<Byte>, queued: map<nat, Frame>, pos: nat, gaps: seq<Interval>,
                   received: set<nat>, live: set<nat>)
    requires State(stream, queued, pos, gaps, received, live)
    ensures |stream| <= MAX_BYTE_COUNT && GapList(gaps) && Complement(gaps, received)
    ensures Queue(stream, queued, received) && Tiling(queued, pos, gaps, received, live)
  {
  }

  lemma FinKeepsState(stream: seq<Byte>, queued: map<nat, Frame>, pos: nat, gaps: seq<Interval>,
                      received: set<nat>, live: set<nat>, f: Frame)
    requires State(stream, queued, pos, gaps, received, live) && SliceOf(stream, f) && f.data == []
    ensures State(stream, queued[f.offset := f], pos, gaps, received, live)
    ensures Bytes(f.offset, EndOf(f)) == {}
  {
  }

  lemma TopByteMissing(gaps: seq<Interval>, received: set<nat>, f: Frame)
    requires GapList(gaps) && Complement(gaps, received) && f.data != []
    ensures EndOf(f) == MAX_BYTE_COUNT ==> !(Bytes(f.offset, EndOf(f)) <= received)
  {
    assert Missing(gaps, MAX_BYTE_COUNT - 1) by {
      assert gaps[|gaps| - 1].start < gaps[|gaps| - 1].end;
    }
    assert EndOf(f) == MAX_BYTE_COUNT ==> MAX_BYTE_COUNT - 1 in Bytes(f.offset, EndOf(f));
  }

  lemma QueuedIsReceived(stream: seq<Byte>, queued: map<nat, Frame>, received: set<nat>, f: Frame)
    requires Queue(stream, queued, received) && f.offset in queued && f.data != [] && SliceOf(stream, f)
    ensures
      var q := queued[f.offset];
      q.data != [] && Bytes(f.offset, f.offset + |q.data|) <= received &&
      (|f.data| <= |q.data| ==> Bytes(f.offset, EndOf(f)) <= received)
  {
    var q := queued[f.offset];
    assert |f.data| <= |q.data| ==> Bytes(f.offset, EndOf(f)) <= Bytes(f.offset, EndOf(q));
  }

  lemma HeadIsReceived(gaps: seq<Interval>, received: set<nat>, i: nat, start: nat)
    requires GapList(gaps) && Complement(gaps, received) && i < |gaps| && forall j :: 0 <= j < i ==> gaps[j].end < start
    ensures Bytes(start, gaps[i].start) <= received
  {
    NothingMissingBefore(gaps, i, start);
    assert gaps[i].start < gaps[i].end <= MAX_BYTE_COUNT;
    NothingMissing(gaps, received, start, gaps[i].start);
  }

  lemma GapStartIsMissing(gaps: seq<Interval>, received: set<nat>, i: nat, b: nat)
    requires GapList(gaps) && Complement(gaps, received) && i < |gaps| && gaps[i].start <= b < gaps[i].end
    ensures b !in received
  {
    assert Missing(gaps, b);
    assert gaps[i].end <= MAX_BYTE_COUNT;
  }

  // the part of a frame from offset start on
  function CutTo(f: Frame, start: nat): (r: Frame)
    requires f.offset <= start < EndOf(f)
    ensures r.offset == start && EndOf(r) == EndOf(f) && r.data != []
    ensures forall stream :: SliceOf(stream, f) ==> SliceOf(stream, r)
  {
    Frame(start, f.data[start - f.offset..], f.fin)
  }

  // the part of a frame before offset end; it keeps the FIN bit
  function KeepTo(f: Frame, end: nat): (r: Frame)
    requires f.offset < end <= EndOf(f)
    ensures r.offset == f.offset && EndOf(r) == end && r.data <= f.data
  {
    f.(data := f.data[..end - f.offset])
  }

  lemma EndInStream(stream: seq<Byte>, f: Frame)
    requires SliceOf(stream, f)
    ensures EndOf(f) <= |stream|
  {
  }

  lemma CoveredSpans(gaps: seq<Interval>, i: nat, e: nat, start: nat, end: nat)
    requires GapList(gaps) && i <= e < |gaps| && gaps[i].start <= start < gaps[i].end
    requires gaps[e].start < end && start < end
    ensures Spans(gaps, i, e, start, Min(end, gaps[e].end))
    ensures i < e ==> gaps[i].end <= gaps[e].start
  {
  }

  lemma TailIsReceived(gaps: seq<Interval>, received: set<nat>, e: nat, end: nat)
    requires GapList(gaps) && Complement(gaps, received) && e < |gaps| && gaps[e].end < end < MAX_BYTE_COUNT
    requires e + 1 < |gaps| ==> end <= gaps[e + 1].start
    ensures Bytes(gaps[e].end, end) <= received
  {
    NothingMissingAfter(gaps, e, end);
    NothingMissing(gaps, received, gaps[e].end, end);
  }

  // cut is f without a tail that has been received before
  lemma InsertKeepsState(stream: seq<Byte>, queued: map<nat, Frame>, trimmed: map<nat, Frame>, pos: nat,
                         gaps: seq<Interval>, i: nat, e: nat, f: Frame, cut: Frame, received: set<nat>, live: set<nat>)
    requires State(stream, queued, pos, gaps, received, live)
    requires Spans(gaps, i, e, f.offset, EndOf(cut)) && EndOf(cut) < MAX_BYTE_COUNT
    requires SliceOf(stream, f) && cut.offset == f.offset && cut.data <= f.data
    requires Trimmed(queued, trimmed, f.offset, EndOf(cut))
    ensures State(stream, trimmed[f.offset := cut], pos, Carve(gaps, i, e, f.offset, EndOf(cut)),
                  received + Bytes(f.offset, EndOf(cut)), LiveAfter(live, f.offset, EndOf(cut)))
  {
    hide Bytes, Carve, LiveAfter, GapList, Complement;
    CarveIsGapList(gaps, i, e, f.offset, EndOf(cut));
    CarveIsComplement(gaps, i, e, f.offset, EndOf(cut), received);
    PushKeepsTiling(queued, trimmed[f.offset := cut], pos, gaps, i, e, cut, received, live, stream);
    assert SliceOf(stream, cut);
  }

  lemma HeadIsLive(stream: seq<Byte>, queued: map<nat, Frame>, pos: nat, gaps: seq<Interval>,
                   received: set<nat>, live: set<nat>)
    requires State(stream, queued, pos, gaps, received, live)
    ensures pos in received <==> pos in queued && queued[pos].data != []
    ensures pos in received <==> pos in live
  {
    hide Bytes;
    if pos in queued && queued[pos].data != [] {
      assert pos in Bytes(pos, EndOf(queued[pos]));
    }
    if pos in live {
      assert pos in Bytes(pos, EndOf(queued[pos]));
    }
  }

  lemma PopKeepsState(stream: seq<Byte>, queued: map<nat, Frame>, pos: nat, gaps: seq<Interval>,
                      received: set<nat>, live: set<nat>)
    requires State(stream, queued, pos, gaps, received, live) && pos in queued
    ensures State(stream, queued - {pos}, EndOf(queued[pos]), gaps, received, live - {pos})
  {
    hide Bytes, GapList, Complement, SliceOf;
    HeadIsLive(stream, queued, pos, gaps, received, live);
    GapsFollow(gaps, received, pos);
    FinAtEnd(stream, queued, received, pos);
    assert Tiles(queued - {pos}, received, live - {pos});
  }

  lemma FinAtEnd(stream: seq<Byte>, queued: map<nat, Frame>, received: set<nat>, pos: nat)
    requires Queue(stream, queued, received) && pos in queued && forall b :: b in received ==> b < |stream|
    ensures queued[pos].data == [] ==> pos !in received && EndOf(queued[pos]) == pos
    ensures Bytes(0, EndOf(queued[pos])) == Bytes(0, pos) + Bytes(pos, EndOf(queued[pos]))
  {
  }

  lemma GapsFollow(gaps: seq<Interval>, received: set<nat>, pos: nat)
    requires GapList(gaps) && Complement(gaps, received) && Bytes(0, pos) <= received
    ensures forall i :: 0 <= i < |gaps| ==> pos <= gaps[i].start < gaps[i].end
  {
    forall i | 0 <= i < |gaps| ensures pos <= gaps[i].start {
      assert Missing(gaps, gaps[i].start);
      assert gaps[i].start < gaps[i].end <= MAX_BYTE_COUNT;
      assert gaps[i].start !in Bytes(0, pos);
    }
  }

  lemma ReadIsReceived(stream: seq<Byte>, queued: map<nat, Frame>, pos: nat, gaps: seq<Interval>,
                       received: set<nat>, live: set<nat>)
    requires State(stream, queued, pos, gaps, received, live)
    ensures forall b :: 0 <= b < pos ==> b in received
  {
    assert forall b :: 0 <= b < pos ==> b in Bytes(0, pos);
  }

  lemma ReadPositionInStream(stream: seq<Byte>, queued: map<nat, Frame>, pos: nat, gaps: seq<Interval>,
                             received: set<nat>, live: set<nat>)
    requires State(stream, queued, pos, gaps, received, live)
    ensures pos <= |stream|
  {
    if pos > 0 { assert pos - 1 in Bytes(0, pos); }
  }

  // Where the scan over the gap list stops for the bytes start..end.
  datatype Scan = AllReceived | Found(index: nat) | NotFound

  method FindGap(gaps: seq<Interval>, start: nat, end: nat) returns (r: Scan)
    requires GapList(gaps) && start < end <= MAX_BYTE_COUNT
    ensures r.AllReceived? ==> forall b :: start <= b < end ==> !Missing(gaps, b)
    ensures !r.NotFound?
    ensures r.Found? ==> r.index < |gaps| && gaps[r.index].start < end && start <= gaps[r.index].end
    ensures r.Found? ==> forall j :: 0 <= j < r.index ==> gaps[j].end < start
  {
    var i := 0;
    while i < |gaps|
      invariant 0 <= i <= |gaps|
      invariant forall j :: 0 <= j < i ==> gaps[j].end < start
    {
      if end <= gaps[i].start {
        return AllReceived;
      }
      if end > gaps[i].start && start <= gaps[i].end {
        return Found(i);
      }
      i := i + 1;
    }
    return NotFound;
  }

  // gaps is was with the gaps after i and before m removed
  ghost predicate Joined(gaps: seq<Interval>, was: seq<Interval>, i: nat, m: nat) {
    i < m <= |was| && |gaps| == i + 1 + |was| - m &&
    (forall k :: 0 <= k <= i ==> gaps[k] == was[k]) &&
    (forall k :: i < k < |gaps| ==> gaps[k] == was[k - i - 1 + m])
  }

  function RemoveAt(gaps: seq<Interval>, i: nat): (r: seq<Interval>)
    requires i < |gaps|
    ensures |r| == |gaps| - 1
    ensures forall k :: 0 <= k < i ==> r[k] == gaps[k]
    ensures forall k :: i <= k < |r| ==> r[k] == gaps[k + 1]
  {
    gaps[..i] + gaps[i + 1..]
  }

  lemma JoinMore(gaps: seq<Interval>, was: seq<Interval>, i: nat, m: nat)
    requires Joined(gaps, was, i, m) && m < |was|
    ensures Joined(RemoveAt(gaps, i + 1), was, i, m + 1)
  {
  }

  lemma JoinedAtFirst(was: seq<Interval>, i: nat)
    requires i < |was|
    ensures Joined(was, was, i, i + 1)
  {
  }

  lemma JoinedAt(gaps: seq<Interval>, was: seq<Interval>, i: nat, m: nat)
    requires Joined(gaps, was, i, m)
    ensures |gaps| == i + 1 + |was| - m && i < m <= |was|
    ensures (m < |was| ==> gaps[i + 1] == was[m]) && (m + 1 < |was| ==> gaps[i + 2] == was[m + 1])
  {
  }

  // queued' is queued without some frames that begin in lo..hi
  ghost predicate Trimmed(queued: map<nat, Frame>, queued': map<nat, Frame>, lo: nat, hi: nat) {
    (forall k :: k in queued' ==> k in queued && queued'[k] == queued[k]) &&
    (forall k :: k in queued && k !in queued' ==> lo < k < hi)
  }

  // GapList, said of neighbours only
  ghost predicate Follows(gaps: seq<Interval>, k: nat)
    requires k + 1 < |gaps|
  {
    gaps[k].end < gaps[k + 1].start < gaps[k + 1].end <= MAX_BYTE_COUNT
  }

  ghost predicate Chained(gaps: seq<Interval>) {
    |gaps| > 0 && gaps[|gaps| - 1].end == MAX_BYTE_COUNT &&
    forall k {:trigger Follows(gaps, k)} :: 0 <= k < |gaps| - 1 ==> Follows(gaps, k)
  }

  lemma NothingTrimmed(queued: map<nat, Frame>, lo: nat, hi: nat)
    ensures Trimmed(queued, queued, lo, hi)
  {
  }

  lemma TrimMore(queued: map<nat, Frame>, queued': map<nat, Frame>, lo: nat, k: nat, hi: nat)
    requires Trimmed(queued, queued', lo, k) && lo < k < hi
    ensures Trimmed(queued, queued' - {k}, lo, hi)
  {
  }

  // Delete what the bytes start..end, which begin in gap i, cover: whole gaps between the first
  // and the last one, and the queued frames that follow them. last is the value of the last gap
  // touched and e its index in the old list; single says that it is gap i itself, detached that
  // it has already been removed from the list. There is no last gap for the maximum byte count.
  method CoverGaps(was: seq<Interval>, queued: map<nat, Frame>, i: nat, start: nat, end: nat)
    returns (ok: bool, gaps: seq<Interval>, queued': map<nat, Frame>, last: Interval, ghost e: nat, single: bool,
      detached: bool)
    requires Chained(was) && i < |was| && was[i].start <= start < was[i].end && start < end <= MAX_BYTE_COUNT
    ensures ok <==> end < MAX_BYTE_COUNT
    ensures ok ==> i <= e < |was| && last == was[e] && last.start < end && (single <==> e == i)
    ensures ok && e + 1 < |was| ==> end <= was[e + 1].start || end < last.end
    ensures ok ==> (detached <==> !single && end >= last.end)
    ensures ok ==> Joined(gaps, was, i, if single || detached then e + 1 else e)
    ensures ok ==> Trimmed(queued, queued', start, Min(end, last.end))
  {
    hide Joined, Trimmed, RemoveAt;
    JoinedAtFirst(was, i);
    NothingTrimmed(queued, start, Min(end, was[i].end));
    gaps, queued' := was, queued;
    last, e, single, detached := gaps[i], i, true, false;
    ghost var m := i + 1;
    while end >= last.end
      invariant i <= e < |was| && last == was[e] && start < last.end && last.start < end && (single <==> e == i)
      invariant m == (if single then e + 1 else e) && Joined(gaps, was, i, m)
      invariant Trimmed(queued, queued', start, Min(end, last.end))
      invariant !detached
      decreases |was| - e
    {
      assert e + 1 < |was| ==> Follows(was, e);
      JoinedAt(gaps, was, i, m);
      var at := if single then i + 1 else i + 2;
      if at >= |gaps| {
        return false, gaps, queued', last, e, single, detached;
      }
      var next := gaps[at];
      if !single {
        JoinMore(gaps, was, i, m);
        gaps, m := RemoveAt(gaps, i + 1), m + 1;
      }
      if end <= next.start {
        detached := !single;
        break;
      }
      TrimMore(queued, queued', start, last.end, Min(end, next.end));
      queued' := queued' - {last.end};
      last, e, single := next, e + 1, false;
    }
    assert e + 1 < |was| ==> Follows(was, e);
    ok := true;
  }

  function InsertAt(gaps: seq<Interval>, i: nat, g: Interval): (r: seq<Interval>)
    requires i <= |gaps|
    ensures |r| == |gaps| + 1 && r[i] == g
    ensures forall k :: 0 <= k < i ==> r[k] == gaps[k]
    ensures forall k :: i < k < |r| ==> r[k] == gaps[k - 1]
  {
    gaps[..i] + [g] + gaps[i..]
  }

  // Carve, element by element
  lemma IsCarved(gaps: seq<Interval>, was: seq<Interval>, i: nat, e: nat, start: nat, end: nat, r: seq<Interval>)
    requires i <= e < |was| && r == Remains(was, i, e, start, end)
    requires |gaps| == i + |r| + |was| - e - 1
    requires forall k :: 0 <= k < i ==> gaps[k] == was[k]
    requires forall k :: 0 <= k < |r| ==> gaps[i + k] == r[k]
    requires forall k :: i + |r| <= k < |gaps| ==> gaps[k] == was[k - i - |r| + e + 1]
    ensures gaps == Carve(was, i, e, start, end)
  {
  }

  // Cut start..end out of gap i and of the last gap touched.
  method ShrinkGaps(joined: seq<Interval>, i: nat, last: Interval, single: bool, start: nat, end: nat,
                    ghost was: seq<Interval>, ghost e: nat)
    returns (gaps: seq<Interval>)
    requires Joined(joined, was, i, if single || end == last.end then e + 1 else e)
    requires e < |was| && last == was[e] && (single <==> e == i) && i <= e
    requires was[i].start <= start < end <= last.end && last.start < end && (!single ==> was[i].end <= last.start)
    ensures gaps == Carve(was, i, e, start, end)
  {
    gaps := joined;
    var gap := gaps[i];
    if start == gap.start {
      var filled := end >= gap.end;
      if filled {
        gaps := RemoveAt(gaps, i);
      }
      if end < last.end {
        var at := if single || filled then i else i + 1;
        gaps := gaps[at := Interval(end, gaps[at].end)];
      }
    } else if end == last.end {
      gaps := gaps[i := Interval(gap.start, start)];
    } else {
      if single {
        gaps := InsertAt(gaps, i + 1, Interval(end, gap.end));
        gaps := gaps[i := Interval(gap.start, start)];
      } else {
        gaps := gaps[i := Interval(gap.start, start)];
        gaps := gaps[i + 1 := Interval(end, gaps[i + 1].end)];
      }
    }
    IsCarved(gaps, was, i, e, start, end, Remains(was, i, e, start, end));
  }

  // ----- the number of gaps, told from what was received

  // the missing bytes that follow a received one, and the first byte if it is missing
  ghost function GapStarts(received: set<nat>): (starts: set<nat>) {
    set b | b in {0} + (set x | x in received :: x + 1) && b !in received && b < MAX_BYTE_COUNT
  }

  ghost function NumGaps(received: set<nat>): (n: nat) {
    |GapStarts(received)|
  }

  ghost function StartSet(gaps: seq<Interval>): (starts: set<nat>)
    ensures forall b :: b in starts <==> exists i :: 0 <= i < |gaps| && gaps[i].start == b
  {
    if gaps == [] then {} else
    assert gaps == gaps[..|gaps| - 1] + [gaps[|gaps| - 1]];
    StartSet(gaps[..|gaps| - 1]) + {gaps[|gaps| - 1].start}
  }

  lemma {:induction false} CountStarts(gaps: seq<Interval>)
    requires forall i, j :: 0 <= i < j < |gaps| ==> gaps[i].start < gaps[j].start
    ensures |StartSet(gaps)| == |gaps|
  {
    if gaps != [] {
      CountStarts(gaps[..|gaps| - 1]);
    }
  }

  lemma StartIsGapStart(gaps: seq<Interval>, received: set<nat>, i: nat)
    requires GapList(gaps) && Complement(gaps, received) && i < |gaps|
    ensures gaps[i].start in GapStarts(received)
  {
    var b := gaps[i].start;
    assert b < gaps[i].end <= MAX_BYTE_COUNT;
    assert Missing(gaps, b);
    if b > 0 {
      assert !Missing(gaps, b - 1) by {
        forall j | 0 <= j < |gaps| ensures !(gaps[j].start <= b - 1 < gaps[j].end) {
          if j < i { assert gaps[j].end < b; } else if i < j { assert gaps[i].end < gaps[j].start; }
        }
      }
      assert b - 1 in received && b == b - 1 + 1;
    }
  }

  lemma GapStartIsStart(gaps: seq<Interval>, received: set<nat>, b: nat)
    requires GapList(gaps) && Complement(gaps, received) && b in GapStarts(received)
    ensures b in StartSet(gaps)
  {
    assert Missing(gaps, b);
    var i :| 0 <= i < |gaps| && gaps[i].start <= b < gaps[i].end;
    if b > 0 {
      assert b - 1 in received;
      assert !Missing(gaps, b - 1);
    }
  }

  // The list has as many gaps as there are in what was received.
  lemma GapCount(gaps: seq<Interval>, received: set<nat>)
    requires GapList(gaps) && Complement(gaps, received)
    ensures |gaps| == NumGaps(received)
  {
    forall i | 0 <= i < |gaps| ensures gaps[i].start in GapStarts(received) { StartIsGapStart(gaps, received, i); }
    forall b | b in GapStarts(received) ensures b in StartSet(gaps) { GapStartIsStart(gaps, received, b); }
    hide GapStarts, Complement;
    assert StartSet(gaps) == GapStarts(received);
    CountStarts(gaps);
  }

  // A frame makes at most one more gap.
  lemma OneMoreGap(received: set<nat>, lo: nat, hi: nat)
    ensures NumGaps(received + Bytes(lo, hi)) <= NumGaps(received) + 1
  {
    hide Bytes;
    var before, after := GapStarts(received), GapStarts(received + Bytes(lo, hi));
    forall b | b in after ensures b in before + {hi} {
      if b != 0 && b - 1 !in received {
        assert b - 1 in Bytes(lo, hi) && b !in Bytes(lo, hi);
      } else if b != 0 {
        assert b == b - 1 + 1;
      }
    }
    SubsetSize(after, before + {hi});
  }

  lemma {:induction false} SubsetSize(a: set<nat>, b: set<nat>)
    requires a <= b
    ensures |a| <= |b|
  {
    if a != {} {
      var x :| x in a;
      SubsetSize(a - {x}, b - {x});
    }
  }

  class StreamFrameSorter {
    var queuedFrames: map<nat, Frame>
    var readPosition: nat
    var gaps: seq<Interval>

    // the byte string that the sender writes, the bytes that have arrived, the frames to deliver
    ghost const stream: seq<Byte>
    ghost var received: set<nat>
    ghost var live: set<nat>

    ghost predicate Valid()
      reads this
    {
      State(stream, queuedFrames, readPosition, gaps, received, live)
    }

    constructor (ghost stream: seq<Byte>)
      requires |stream| <= MAX_BYTE_COUNT
      ensures Valid() && this.stream == stream
      ensures readPosition == 0 && received == {} && queuedFrames == map[]
    {
      queuedFrames, readPosition := map[], 0;
      gaps := [Interval(0, MAX_BYTE_COUNT)];
      this.stream, received, live := stream, {}, {};
      new;
      assert gaps[0] == Interval(0, MAX_BYTE_COUNT);
      assert forall b :: 0 <= b < MAX_BYTE_COUNT ==> Missing(gaps, b);
    }

    // Accept a frame that begins in gap i, and cut off its tail if it ends in received data.
    method Insert(f: Frame, i: nat) returns (r: PushResult)
      requires Valid() && f.data != [] && SliceOf(stream, f)
      requires i < |gaps| && gaps[i].start <= f.offset < gaps[i].end
      modifies this
      ensures r == Pushed || r == TooManyGaps || r == NoEndGapFound
      ensures r == NoEndGapFound <==> EndOf(f) == MAX_BYTE_COUNT
      ensures r == Pushed ==> Valid() && |gaps| <= MAX_STREAM_FRAME_SORTER_GAPS
      ensures r != NoEndGapFound ==> received == old(received) + Bytes(f.offset, EndOf(f))
      ensures r == TooManyGaps ==> |gaps| > MAX_STREAM_FRAME_SORTER_GAPS && GapList(gaps) && Complement(gaps, received)
      ensures readPosition == old(readPosition)
    {
      hide Bytes, State, Tiling, Queue, GapList, Complement, SliceOf, Joined, Trimmed, Carve, LiveAfter, Chained,
           KeepTo;
      var start, end := f.offset, EndOf(f);
      StateParts(stream, queuedFrames, readPosition, gaps, received, live);
      GapListIsChained(gaps);
      ghost var was, queued := gaps, queuedFrames;
      EndInStream(stream, f);
      var ok, joined, queued', last, e, single, detached := CoverGaps(gaps, queuedFrames, i, start, end);
      if !ok {
        gaps, queuedFrames := joined, queued';
        return NoEndGapFound;
      }
      CoveredSpans(was, i, e, start, end);
      var frame := f;
      if end > last.end {
        TailIsReceived(was, received, e, end);
        frame := KeepTo(f, last.end);
        end := last.end;
      }
      gaps := ShrinkGaps(joined, i, last, single, start, end, was, e);
      queuedFrames := queued';
      if |gaps| > MAX_STREAM_FRAME_SORTER_GAPS {
        CarveIsGapList(was, i, e, start, end);
        CarveIsComplement(was, i, e, start, end, received);
        received := received + Bytes(start, end);
        return TooManyGaps;
      }
      queuedFrames := queuedFrames[frame.offset := frame];
      InsertKeepsState(stream, queued, queued', readPosition, was, i, e, f, frame, received, live);
      received, live := received + Bytes(start, end), LiveAfter(live, start, end);
      r := Pushed;
    }

    // Cut off what is already there at the front of a frame, and find the gap that the rest begins
    // in. A result other than Pushed means that the frame is dropped.
    method CutFront(f: Frame) returns (r: PushResult, frame: Frame, i: nat)
      requires Valid() && f.data != [] && SliceOf(stream, f)
      ensures r == Pushed || r == DuplicateData
      ensures r == DuplicateData <==> Bytes(f.offset, EndOf(f)) <= received
      ensures r == Pushed ==> frame.data != [] && SliceOf(stream, frame) && EndOf(frame) == EndOf(f)
      ensures r == Pushed ==> f.offset <= frame.offset && Bytes(f.offset, frame.offset) <= received
      ensures r == Pushed ==> i < |gaps| && gaps[i].start <= frame.offset < gaps[i].end
    {
      hide Bytes, State, Tiling, Queue, GapList, Complement, SliceOf, CutTo;
      StateParts(stream, queuedFrames, readPosition, gaps, received, live);
      EndInStream(stream, f);
      r, frame, i := Pushed, f, 0;
      if frame.offset in queuedFrames {
        var oldFrame := queuedFrames[frame.offset];
        QueuedIsReceived(stream, queuedFrames, received, f);
        if |frame.data| <= |oldFrame.data| {
          return DuplicateData, frame, i;
        }
        frame := CutTo(frame, frame.offset + |oldFrame.data|);
      }
      var start, end := frame.offset, EndOf(frame);
      var scan := FindGap(gaps, start, end);
      if scan.AllReceived? {
        NothingMissing(gaps, received, start, end);
        return DuplicateData, frame, i;
      }
      if scan.NotFound? {
        return NoGapFound, frame, i;
      }
      i := scan.index;
      NotAtGapEnd(gaps, queuedFrames, readPosition, received, live, i, f.offset, start);
      if start < gaps[i].start {
        HeadIsReceived(gaps, received, i, start);
        frame := CutTo(frame, gaps[i].start);
      }
      GapStartIsMissing(gaps, received, i, frame.offset);
      assert frame.offset in Bytes(f.offset, EndOf(f));
    }

    // Accept a frame. Bytes that are already there are cut off at both ends. Exactly if there are now
    // too many gaps in what was received, it is refused. After TooManyGaps or NoEndGapFound the session
    // is closed, and the sorter is not used again.
    method Push(f: Frame) returns (r: PushResult)
      requires Valid()
      requires f.data != [] || f.fin ==> SliceOf(stream, f)
      modifies this
      ensures r != NoGapFound
      ensures r != TooManyGaps && r != NoEndGapFound ==> Valid()
      ensures r == EmptyData <==> f.data == [] && !f.fin
      ensures r == DuplicateData <==> f.data != [] && Bytes(f.offset, EndOf(f)) <= old(received)
      ensures r == NoEndGapFound <==> f.data != [] && EndOf(f) == MAX_BYTE_COUNT
      ensures r == EmptyData || r == DuplicateData ==> unchanged(this)
      ensures r == Pushed || r == TooManyGaps ==> received == old(received) + Bytes(f.offset, EndOf(f))
      ensures r == TooManyGaps <==>
              f.data != [] && EndOf(f) != MAX_BYTE_COUNT && !(Bytes(f.offset, EndOf(f)) <= old(received)) &&
              NumGaps(old(received) + Bytes(f.offset, EndOf(f))) > MAX_STREAM_FRAME_SORTER_GAPS
      ensures r == TooManyGaps ==> GapList(gaps) && Complement(gaps, received)
      ensures r == Pushed && f.data == [] ==> queuedFrames == old(queuedFrames)[f.offset := f]
      ensures readPosition == old(readPosition)
    {
      hide Bytes, State, Tiling, Queue, GapList, Complement, SliceOf, NumGaps;
      if f.data == [] {
        if f.fin {
          FinKeepsState(stream, queuedFrames, readPosition, gaps, received, live, f);
          queuedFrames := queuedFrames[f.offset := f];
          return Pushed;
        }
        return EmptyData;
      }
      StateParts(stream, queuedFrames, readPosition, gaps, received, live);
      TopByteMissing(gaps, received, f);
      var drop, frame, i := CutFront(f);
      if drop != Pushed {
        return drop;
      }
      r := Insert(frame, i);
      if r == Pushed { StateParts(stream, queuedFrames, readPosition, gaps, received, live); }
      if r != NoEndGapFound { GapCount(gaps, received); }
    }

    method Head() returns (r: Option<Frame>)
      requires Valid()
      ensures r.Some? <==> readPosition in queuedFrames
      ensures r.Some? && r.value.data != [] <==> readPosition in received
      ensures r.Some? ==>
              SliceOf(stream, r.value) && r.value.offset == readPosition && r.value == queuedFrames[readPosition]
    {
      HeadIsLive(stream, queuedFrames, readPosition, gaps, received, live);
      r := if readPosition in queuedFrames then Some(queuedFrames[readPosition]) else None;
    }

    method Pop() returns (r: Option<Frame>)
      requires Valid()
      modifies this
      ensures Valid()
      ensures r.Some? <==> old(readPosition) in old(queuedFrames)
      ensures r.Some? && r.value.data != [] <==> old(readPosition) in received
      ensures r.Some? ==>
              old(readPosition) <= readPosition <= |stream| && r.value.data == stream[old(readPosition)..readPosition]
      ensures r.Some? ==> queuedFrames == old(queuedFrames) - {old(readPosition)}
      ensures r.None? ==> unchanged(this)
      ensures received == old(received) && gaps == old(gaps)
    {
      hide State, Bytes;
      r := Head();
      if r.Some? {
        PopKeepsState(stream, queuedFrames, readPosition, gaps, received, live);
        assert r.value.data == stream[readPosition..readPosition + |r.value.data|];
        live := live - {readPosition};
        queuedFrames := queuedFrames - {r.value.offset};
        readPosition := readPosition + |r.value.data|;
      }
    }

    // Read until nothing more can be read.
    method Drain() returns (out: seq<Byte>)
      requires Valid()
      modifies this
      ensures Valid() && received == old(received)
      ensures old(readPosition) <= readPosition <= |stream| && out == stream[old(readPosition)..readPosition]
      ensures readPosition !in received
    {
      hide State, SliceOf;
      out := [];
      ReadPositionInStream(stream, queuedFrames, readPosition, gaps, received, live);
      var h := Head();
      while h.Some?
        invariant Valid() && received == old(received)
        invariant h.Some? <==> readPosition in queuedFrames
        invariant h.Some? && h.value.data != [] <==> readPosition in received
        invariant old(readPosition) <= readPosition <= |stream| && out == stream[old(readPosition)..readPosition]
        decreases |stream| - readPosition, |queuedFrames|
      {
        ghost var pos, queued := readPosition, queuedFrames;
        var f := Pop();
        out := out + f.value.data;
        assert |f.value.data| == readPosition - pos;
        h := Head();
      }
    }
  }

  datatype Event = Arrival(frame: Frame) | Read

  // what has arrived
  ghost function Delivered(events: seq<Event>): (received: set<nat>) {
    if events == [] then {} else
    var last := events[|events| - 1];
    Delivered(events[..|events| - 1]) + if last.Arrival? then Bytes(last.frame.offset, EndOf(last.frame)) else {}
  }

  lemma DeliveredNext(events: seq<Event>, k: nat)
    requires k < |events|
    ensures Delivered(events[..k + 1]) ==
      Delivered(events[..k]) + if events[k].Arrival? then Bytes(events[k].frame.offset, EndOf(events[k].frame)) else {}
  {
    assert events[..k + 1][..k] == events[..k];
  }

  lemma {:induction false} DeliveredBelow(events: seq<Event>, n: nat)
    requires forall k :: 0 <= k < |events| && events[k].Arrival? ==> EndOf(events[k].frame) <= n
    ensures forall b :: b in Delivered(events) ==> b < n
  {
    if events != [] { DeliveredBelow(events[..|events| - 1], n); }
  }

  function Arrivals(events: seq<Event>): (n: nat) {
    if events == [] then 0 else Arrivals(events[..|events| - 1]) + if events[|events| - 1].Arrival? then 1 else 0
  }

  // the events leave too many gaps at some time
  ghost predicate Scattered(events: seq<Event>) {
    exists k :: 0 <= k <= |events| && NumGaps(Delivered(events[..k])) > MAX_STREAM_FRAME_SORTER_GAPS
  }

  lemma {:induction false} GapsOfArrivals(events: seq<Event>)
    ensures NumGaps(Delivered(events)) <= Arrivals(events) + 1
  {
    if events == [] {
      assert GapStarts({}) == {0};
    } else {
      hide NumGaps, Bytes;
      var front, last := events[..|events| - 1], events[|events| - 1];
      GapsOfArrivals(front);
      if last.Arrival? {
        OneMoreGap(Delivered(front), last.frame.offset, EndOf(last.frame));
      } else {
        assert Delivered(events) == Delivered(front);
      }
    }
  }

  lemma {:induction false} ArrivalsGrow(events: seq<Event>, k: nat)
    requires k <= |events|
    ensures Arrivals(events[..k]) <= Arrivals(events)
    decreases |events|
  {
    if k < |events| {
      var front := events[..|events| - 1];
      assert front[..k] == events[..k];
      ArrivalsGrow(front, k);
    } else {
      assert events[..k] == events;
    }
  }

  // It takes 2500 frames to leave too many gaps.
  lemma FewArrivals(events: seq<Event>)
    requires Arrivals(events) < MAX_STREAM_FRAME_SORTER_GAPS
    ensures !Scattered(events)
  {
    forall k | 0 <= k <= |events| ensures NumGaps(Delivered(events[..k])) <= MAX_STREAM_FRAME_SORTER_GAPS {
      GapsOfArrivals(events[..k]);
      ArrivalsGrow(events, k);
    }
  }

  // Any run of the sorter: frames of one stream arrive in any order, overlapping and duplicated,
  // with reads in between. What is read is what was sent, from its beginning; reading to the end
  // stops only at a byte that never arrived. The session is closed exactly if the arrivals leave too
  // many gaps at some time, and never by fewer than 2500 of them.
  method Run(ghost stream: seq<Byte>, events: seq<Event>) returns (out: seq<Byte>, closed: bool)
    requires |stream| < MAX_BYTE_COUNT
    requires forall k :: 0 <= k < |events| && events[k].Arrival? ==> SliceOf(stream, events[k].frame)
    ensures out <= stream
    ensures closed <==> Scattered(events)
    ensures Arrivals(events) < MAX_STREAM_FRAME_SORTER_GAPS ==> !closed
    ensures !closed ==> |out| !in Delivered(events) && forall b :: 0 <= b < |out| ==> b in Delivered(events)
    ensures !closed && (forall b :: 0 <= b < |stream| ==> b in Delivered(events)) ==> out == stream
  {
    hide State, SliceOf, Bytes, NumGaps;
    if Arrivals(events) < MAX_STREAM_FRAME_SORTER_GAPS { FewArrivals(events); }
    var s := new StreamFrameSorter(stream);
    out, closed := [], false;
    GapsOfArrivals(events[..0]);
    for k := 0 to |events|
      invariant fresh(s) && s.Valid() && s.stream == stream && s.readPosition <= |stream|
      invariant out == stream[..s.readPosition]
      invariant s.received == Delivered(events[..k])
      invariant forall j :: 0 <= j <= k ==> NumGaps(Delivered(events[..j])) <= MAX_STREAM_FRAME_SORTER_GAPS
    {
      DeliveredNext(events, k);
      assert NumGaps(Delivered(events[..k])) <= MAX_STREAM_FRAME_SORTER_GAPS;
      match events[k]
      case Arrival(f) =>
        EndInStream(stream, f);
        ghost var before := s.received;
        var r := s.Push(f);
        if r == TooManyGaps {
          return out, true;
        }
        assert s.received == before + Bytes(f.offset, EndOf(f));
        assert f.data == [] || Bytes(f.offset, EndOf(f)) <= before ==> s.received == before;
      case Read =>
        var f := s.Pop();
        assert Delivered(events[..k + 1]) == Delivered(events[..k]);
        if f.Some? {
          out := out + f.value.data;
        }
    }
    assert events[..|events|] == events;
    var rest := s.Drain();
    out := out + rest;
    ReadIsReceived(stream, s.queuedFrames, s.readPosition, s.gaps, s.received, s.live);
  }
}
