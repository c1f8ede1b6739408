/**
  A stream from one end to the other: what is written to it, cut into frames by the framer and perhaps
  sent again in other pieces, and put together by the sorter in whatever order the frames arrive.
 */
module StreamDelivery {
  import opened Basics
  import opened ByteOrder
  import opened Frames
  import opened StreamFraming
  import StreamReassembly

  function Arriving(f: StreamFrame): (g: StreamReassembly.Frame) {
    StreamReassembly.Frame(f.offset, f.data, f.fin)
  }

  lemma EmittedIsTraced(framer: StreamFramer, f: StreamFrame) returns (i: nat)
    requires framer.Valid() && f in framer.emitted
    ensures i < |framer.streams| && framer.streams[i].id == f.id && OfStream(f, framer.streams[i], framer.written)
    ensures |framer.written[f.id]| == framer.streams[i].writeOffset + |framer.streams[i].data|
  {
    hide Fit, OfStream, AllSent;
    i :| 0 <= i < |framer.streams| && framer.streams[i].id == f.id && OfStream(f, framer.streams[i], framer.written);
  }

  // Every frame that was ever made is a slice of what was written to its stream.
  lemma EmittedIsSlice(framer: StreamFramer, f: StreamFrame)
    requires framer.Valid() && f in framer.emitted
    ensures f.id in framer.written && StreamReassembly.SliceOf(framer.written[f.id], Arriving(f))
  {
    hide StreamFramer.Valid;
    var i := EmittedIsTraced(framer, f);
  }

  lemma EmittedIsPast(framer: StreamFramer, f: StreamFrame, i: nat)
    requires framer.Valid() && f in framer.emitted && i < |framer.streams| && framer.streams[i].id == f.id
    ensures f.offset + |f.data| <= framer.streams[i].writeOffset
  {
    var j := EmittedIsTraced(framer, f);
    assert j == i;
  }

  // the events are arrivals of frames that were made for a stream, and reads
  ghost predicate OfFramer(events: seq<StreamReassembly.Event>, emitted: seq<StreamFrame>, id: nat) {
    forall k :: 0 <= k < |events| && events[k].Arrival? ==>
      exists f :: f in emitted && f.id == id && events[k].frame == Arriving(f)
  }

  // every frame that was made for a stream arrives, whole or in the pieces in which it was sent again
  ghost predicate AllArrive(events: seq<StreamReassembly.Event>, emitted: seq<StreamFrame>, id: nat) {
    forall f, b :: f in emitted && f.id == id && f.offset <= b < f.offset + |f.data| ==>
      b in StreamReassembly.Delivered(events)
  }

  lemma SentArrives(framer: StreamFramer, events: seq<StreamReassembly.Event>, i: nat, b: nat)
    requires framer.Valid() && i < |framer.streams| && b < framer.streams[i].writeOffset
    requires AllArrive(events, framer.emitted, framer.streams[i].id)
    ensures b in StreamReassembly.Delivered(events)
  {
    hide Fit, Kept, AllTraced, StreamReassembly.Delivered;
    assert Carries(framer.emitted, framer.streams[i].id, b);
  }

  // The reader of stream i gets what was written to it, from the beginning, however its frames were lost, sent
  // again in other pieces, repeated or reordered; and if every byte that was sent arrives, everything that
  // was sent.
  method Transfer(ghost framer: StreamFramer, ghost i: nat, events: seq<StreamReassembly.Event>)
    returns (out: seq<Byte>, closed: bool)
    requires framer.Valid() && i < |framer.streams| && framer.streams[i].id in framer.written
    requires |framer.written[framer.streams[i].id]| < StreamReassembly.MAX_BYTE_COUNT
    requires OfFramer(events, framer.emitted, framer.streams[i].id)
    ensures out <= framer.written[framer.streams[i].id]
    ensures closed <==> StreamReassembly.Scattered(events)
    ensures !closed && AllArrive(events, framer.emitted, framer.streams[i].id) ==>
            framer.streams[i].writeOffset <= |framer.written[framer.streams[i].id]| &&
            out == framer.written[framer.streams[i].id][..framer.streams[i].writeOffset]
    ensures !closed && AllArrive(events, framer.emitted, framer.streams[i].id) && framer.streams[i].data == [] ==>
            out == framer.written[framer.streams[i].id]
  {
    AllPast(framer, i);
    hide StreamFramer.Valid, StreamReassembly.SliceOf, StreamReassembly.Delivered, StreamReassembly.Scattered,
         AllArrive;
    ghost var id := framer.streams[i].id;
    forall k | 0 <= k < |events| && events[k].Arrival?
      ensures StreamReassembly.SliceOf(framer.written[id], events[k].frame)
      ensures StreamReassembly.EndOf(events[k].frame) <= framer.streams[i].writeOffset
    {
      var f :| f in framer.emitted && f.id == id && events[k].frame == Arriving(f);
      EmittedIsSlice(framer, f);
      EmittedIsPast(framer, f, i);
    }
    StreamReassembly.DeliveredBelow(events, framer.streams[i].writeOffset);
    out, closed := StreamReassembly.Run(framer.written[id], events);
    if !closed && AllArrive(events, framer.emitted, id) {
      forall b: nat | b < framer.streams[i].writeOffset ensures b in StreamReassembly.Delivered(events) {
        SentArrives(framer, events, i, b);
      }
      LongestPrefix(events, |out|, framer.streams[i].writeOffset);
    }
  }

  lemma LongestPrefix(events: seq<StreamReassembly.Event>, n: nat, end: nat)
    requires forall b: nat | b < end :: b in StreamReassembly.Delivered(events)
    requires forall b :: b in StreamReassembly.Delivered(events) ==> b < end
    requires n !in StreamReassembly.Delivered(events) &&
             forall b :: 0 <= b < n ==> b in StreamReassembly.Delivered(events)
    ensures n == end
  {
    hide StreamReassembly.Delivered;
    assert n > end ==> end in StreamReassembly.Delivered(events);
  }

  lemma AllPast(framer: StreamFramer, i: nat)
    requires framer.Valid() && i < |framer.streams|
    ensures framer.streams[i].id in framer.written
    ensures |framer.written[framer.streams[i].id]| == framer.streams[i].writeOffset + |framer.streams[i].data|
  {
  }
}
