/**
  The streams of a connection: which ones are open, which ones may be opened by which side, and whose
  turn it is.
 */
module StreamsMaps {
  import opened Basics

  type StreamID = nat

  datatype Perspective = Server | Client

  // streams with odd numbers are opened by the client
  predicate ByClient(id: StreamID) {
    id % 2 == 1
  }

  // is the stream one that this side opens
  predicate Own(p: Perspective, id: StreamID) {
    ByClient(id) <==> p == Client
  }

  function CountOf(ids: seq<StreamID>, byClient: bool): (n: nat)
    ensures n <= |ids|
  {
    if ids == [] then 0 else CountOf(ids[..|ids| - 1], byClient) + if ByClient(ids[|ids| - 1]) == byClient then 1 else 0
  }

  ghost predicate Distinct(ids: seq<StreamID>) {
    forall i, j :: 0 <= i < j < |ids| ==> ids[i] != ids[j]
  }

  function Without(ids: seq<StreamID>, i: nat): (r: seq<StreamID>)
    requires i < |ids|
  {
    ids[..i] + ids[i + 1..]
  }

  lemma CountAppend(ids: seq<StreamID>, id: StreamID, byClient: bool)
    ensures CountOf(ids + [id], byClient) == CountOf(ids, byClient) + if ByClient(id) == byClient then 1 else 0
  {
    assert (ids + [id])[..|ids|] == ids;
  }

  lemma {:induction false} CountWithout(ids: seq<StreamID>, i: nat, byClient: bool)
    requires i < |ids|
    ensures CountOf(ids, byClient) == CountOf(Without(ids, i), byClient) + if ByClient(ids[i]) == byClient then 1 else 0
    decreases |ids|
  {
    var front, last := ids[..|ids| - 1], ids[|ids| - 1];
    if i < |ids| - 1 {
      CountWithout(front, i, byClient);
      assert Without(ids, i) == Without(front, i) + [last];
      CountAppend(Without(front, i), last, byClient);
    } else {
      assert Without(ids, i) == front;
    }
  }

  lemma WithoutMembers(ids: seq<StreamID>, i: nat)
    requires Distinct(ids) && i < |ids|
    ensures Distinct(Without(ids, i)) && forall id :: id in Without(ids, i) <==> id in ids && id != ids[i]
  {
    var r := Without(ids, i);
    assert forall j :: 0 <= j < |r| ==> r[j] == ids[if j < i then j else j + 1];
    forall id | id in ids && id != ids[i] ensures id in r {
      var k :| 0 <= k < |ids| && ids[k] == id;
      assert r[if k < i then k else k - 1] == id;
    }
  }

  lemma WithoutLength(ids: seq<StreamID>, i: nat)
    requires i < |ids|
    ensures |Without(ids, i)| == |ids| - 1
  {
  }

  lemma WithoutAt(ids: seq<StreamID>, i: nat, k: nat)
    requires i < |ids| && k < |ids| && k != i
    ensures var at := k - if i < k then 1 else 0; at < |Without(ids, i)| && Without(ids, i)[at] == ids[k]
  {
  }

  // the streams that were there, and those of the peer from one number to another
  ghost predicate Includes(p: Perspective, before: set<StreamID>, from: StreamID, after: set<StreamID>, to: StreamID) {
    from <= to && forall id: StreamID :: id in after <==> id in before || (!Own(p, id) && from < id <= to)
  }

  ghost predicate Follows(p: Perspective, highest: StreamID, sid: StreamID) {
    !Own(p, sid) && highest < sid <= highest + 2 && (highest == 0 || !Own(p, highest))
  }

  lemma IncludesNone(p: Perspective, before: set<StreamID>, from: StreamID)
    ensures Includes(p, before, from, before, from)
  {
  }

  lemma IncludesOne(p: Perspective, before: set<StreamID>, from: StreamID, after: set<StreamID>, to: StreamID,
                    sid: StreamID)
    requires Includes(p, before, from, after, to) && Follows(p, to, sid)
    ensures Includes(p, before, from, after + {sid}, sid)
  {
  }

  // how many numbers of one side there are up to id
  function Rank(id: StreamID): (n: nat) {
    (id + 1) / 2
  }

  lemma NextPeer(p: Perspective, highest: StreamID, sid: StreamID, id: StreamID)
    requires Follows(p, highest, sid) && !Own(p, id) && highest <= id
    ensures sid <= id ==> highest < id && Follows(p, sid, sid + 2) && highest < sid <= highest + 2 && !Own(p, sid)
    ensures sid > id ==> highest == id || id == 0
    ensures p == Server ==> Rank(sid) == Rank(highest) + 1 && (sid <= id ==> Rank(sid) <= Rank(id))
  {
  }

  datatype OpenResult = Opened(id: StreamID) | TooManyOpenStreams
  datatype GetResult = Found | Closed | InvalidStreamID | TooMany

  class StreamsMap {
    const perspective: Perspective
    const maxIncoming: nat
    const maxOutgoing: nat
    var streams: set<StreamID>
    var openStreams: seq<StreamID>
    var roundRobinIndex: nat
    var nextStream: StreamID
    var highestStreamOpenedByPeer: StreamID
    var nextStreamToAccept: StreamID
    var numOutgoingStreams: nat
    var numIncomingStreams: nat

    // the streams that are gone, and the ones that were accepted
    ghost var removed: set<StreamID>
    ghost var accepted: seq<StreamID>

    // was the stream ever opened
    ghost predicate WasOpened(id: StreamID)
      reads `nextStream, `highestStreamOpenedByPeer
    {
      id > 0 && if Own(perspective, id) then id < nextStream else id <= highestStreamOpenedByPeer
    }

    // The streams that were ever opened are those that are open and those that are gone, and none is both: a
    // number is used once. The pending ones are about to be put into the map.
    ghost predicate UsedOnce(pending: set<StreamID>)
      reads `streams, `removed, `nextStream, `highestStreamOpenedByPeer
    {
      (forall id :: WasOpened(id) <==> id in streams || id in removed || id in pending) &&
      (forall id :: id in streams ==> id !in removed && id !in pending) && forall id :: id in pending ==> id !in removed
    }

    // The peer's streams are accepted by ascending numbers, without a gap.
    ghost predicate AcceptedInOrder()
      reads `nextStreamToAccept, `accepted, `nextStream, `highestStreamOpenedByPeer
    {
      nextStreamToAccept == FirstOfPeer(perspective) + 2 * |accepted| &&
      forall k :: 0 <= k < |accepted| ==> accepted[k] == FirstOfPeer(perspective) + 2 * k && WasOpened(accepted[k])
    }

    ghost predicate Listed()
      reads `streams, `openStreams, `numIncomingStreams, `numOutgoingStreams, `roundRobinIndex
    {
      Distinct(openStreams) && (forall id :: id in openStreams <==> id in streams) && |streams| == |openStreams| &&
      numIncomingStreams == CountOf(openStreams, true) && numOutgoingStreams == CountOf(openStreams, false) &&
      (perspective == Server ==> numIncomingStreams <= maxIncoming && numOutgoingStreams <= maxOutgoing) &&
      roundRobinIndex <= |openStreams|
    }

    ghost predicate ValidBut(pending: set<StreamID>)
      reads this
    {
      Listed() && UsedOnce(pending) && AcceptedInOrder() && nextStream > 0 && Own(perspective, nextStream) &&
      (highestStreamOpenedByPeer == 0 || !Own(perspective, highestStreamOpenedByPeer))
    }

    ghost predicate Valid()
      reads this
    {
      ValidBut({})
    }

    // The next stream to be accepted is gone, and will never be there again.
    ghost predicate Stuck()
      reads `nextStreamToAccept, `removed
    {
      nextStreamToAccept in removed
    }

    constructor (p: Perspective, incoming: nat, outgoing: nat)
      ensures Valid() && perspective == p && maxIncoming == incoming && maxOutgoing == outgoing && streams == {}
      ensures (forall id :: !WasOpened(id)) && removed == {} && accepted == [] && numOutgoingStreams == 0 &&
              highestStreamOpenedByPeer == 0
    {
      perspective, maxIncoming, maxOutgoing, streams, openStreams, roundRobinIndex := p, incoming, outgoing, {}, [], 0;
      nextStream := if p == Client then 1 else 2;
      nextStreamToAccept := if p == Client then 2 else 1;
      highestStreamOpenedByPeer, numOutgoingStreams, numIncomingStreams := 0, 0, 0;
      removed, accepted := {}, [];
    }

    // A stream that is new in the map. The counter depends on the side, and on who opens the stream.
    method PutStream(id: StreamID, own: bool)
      requires ValidBut({id}) && id !in streams && (own <==> Own(perspective, id))
      requires perspective == Server ==>
               if own then numOutgoingStreams < maxOutgoing else numIncomingStreams < maxIncoming
      modifies `streams, `openStreams, `numIncomingStreams, `numOutgoingStreams
      ensures Valid() && streams == old(streams) + {id} && openStreams == old(openStreams) + [id]
      ensures numOutgoingStreams == old(numOutgoingStreams) + if own == (perspective == Server) then 1 else 0
      ensures numIncomingStreams == old(numIncomingStreams) + if own == (perspective == Server) then 0 else 1
    {
      hide CountOf, AcceptedInOrder, Distinct, Listed;
      List(id, own);
    }

    method List(id: StreamID, own: bool)
      requires Listed() && id !in streams && (own <==> Own(perspective, id))
      requires perspective == Server ==>
               if own then numOutgoingStreams < maxOutgoing else numIncomingStreams < maxIncoming
      modifies `streams, `openStreams, `numIncomingStreams, `numOutgoingStreams
      ensures Listed() && streams == old(streams) + {id} && openStreams == old(openStreams) + [id]
      ensures numOutgoingStreams == old(numOutgoingStreams) + if own == (perspective == Server) then 1 else 0
      ensures numIncomingStreams == old(numIncomingStreams) + if own == (perspective == Server) then 0 else 1
    {
      CountAppend(openStreams, id, true);
      CountAppend(openStreams, id, false);
      hide CountOf;
      if own == (perspective == Server) { numOutgoingStreams := numOutgoingStreams + 1; } else {
        numIncomingStreams := numIncomingStreams + 1;
      }
      streams := streams + {id};
      openStreams := openStreams + [id];
    }

    // The next stream of this side, with a number that was never used.
    method OpenStream() returns (r: OpenResult)
      requires Valid()
      modifies `nextStream, `streams, `openStreams, `numIncomingStreams, `numOutgoingStreams
      ensures Valid() && (r.TooManyOpenStreams? <==> old(numOutgoingStreams) >= maxOutgoing)
      ensures r.TooManyOpenStreams? ==> unchanged(this)
      ensures r.Opened? ==>
              r.id == old(nextStream) && !old(WasOpened(r.id)) && r.id !in old(streams) + removed &&
              Own(perspective, r.id)
      ensures r.Opened? ==>
              streams == old(streams) + {r.id} && openStreams == old(openStreams) + [r.id] &&
              nextStream == old(nextStream) + 2
      ensures r.Opened? && perspective == Client ==>
              numOutgoingStreams == old(numOutgoingStreams) && numIncomingStreams == old(numIncomingStreams) + 1
    {
      hide CountOf, Distinct;
      var id := nextStream;
      if numOutgoingStreams >= maxOutgoing { return TooManyOpenStreams; }
      nextStream := nextStream + 2;
      PutStream(id, true);
      return Opened(id);
    }

    method OpenRemoteStream(id: StreamID) returns (ok: bool)
      requires Valid() && !Own(perspective, id) && id > highestStreamOpenedByPeer && id <= highestStreamOpenedByPeer + 2
      modifies `highestStreamOpenedByPeer, `streams, `openStreams, `numIncomingStreams, `numOutgoingStreams
      ensures Valid() && (ok <==> old(numIncomingStreams) < maxIncoming)
      ensures !ok ==> unchanged(this)
      ensures ok ==> highestStreamOpenedByPeer == id && streams == old(streams) + {id} && id !in old(streams) + removed
      ensures ok ==> numIncomingStreams == old(numIncomingStreams) + if perspective == Server then 1 else 0
    {
      hide CountOf, Distinct;
      if numIncomingStreams >= maxIncoming { return false; }
      highestStreamOpenedByPeer := id;
      PutStream(id, false);
      return true;
    }

    // Opening the peer's streams up to id would exceed the limit. At the client, it is the number of its own streams
    // that counts.
    predicate NoRoomUpTo(id: StreamID)
      reads `numIncomingStreams, `highestStreamOpenedByPeer
    {
      if perspective == Server then numIncomingStreams + Rank(id) - Rank(highestStreamOpenedByPeer) > maxIncoming
      else numIncomingStreams >= maxIncoming
    }

    // A stream that the peer refers to. Its streams up to that number are opened, until there are too many.
    // A stream of this side that is only the next to be opened counts as closed, and so does number 0.
    method GetOrOpenStream(id: StreamID) returns (r: GetResult)
      requires Valid()
      modifies `highestStreamOpenedByPeer, `streams, `openStreams, `numIncomingStreams, `numOutgoingStreams
      ensures Valid() && (r == Found <==> id in streams)
      ensures Includes(perspective, old(streams), old(highestStreamOpenedByPeer), streams, highestStreamOpenedByPeer)
      ensures r == Closed <==> id !in old(streams) && (id == 0 || old(WasOpened(id)) || id == nextStream)
      ensures r == InvalidStreamID <==> id !in old(streams) && Own(perspective, id) && id > nextStream
      ensures r == Closed || r == InvalidStreamID || id in old(streams) ==> unchanged(this)
      ensures r == TooMany <==>
              id !in old(streams) && !Own(perspective, id) && id > old(highestStreamOpenedByPeer) && old(NoRoomUpTo(id))
      ensures r == TooMany ==> numIncomingStreams >= maxIncoming && highestStreamOpenedByPeer < id
      ensures r == TooMany && perspective == Client ==> highestStreamOpenedByPeer == old(highestStreamOpenedByPeer)
      ensures r == Found && id !in old(streams) ==> highestStreamOpenedByPeer == id
    {
      hide CountOf, Distinct;
      if id in streams { return Found; }
      if Own(perspective, id) {
        if id <= nextStream { return Closed; }
        return InvalidStreamID;
      }
      if id <= highestStreamOpenedByPeer { return Closed; }
      var ok := OpenUpTo(id);
      return if ok then Found else TooMany;
    }

    method OpenUpTo(id: StreamID) returns (ok: bool)
      requires Valid() && !Own(perspective, id) && id > highestStreamOpenedByPeer
      modifies `highestStreamOpenedByPeer, `streams, `openStreams, `numIncomingStreams, `numOutgoingStreams
      ensures Valid() &&
              Includes(perspective, old(streams), old(highestStreamOpenedByPeer), streams, highestStreamOpenedByPeer)
      ensures ok ==> highestStreamOpenedByPeer == id && id in streams
      ensures !ok ==> highestStreamOpenedByPeer < id && id !in streams && numIncomingStreams >= maxIncoming
      ensures !ok <==> old(NoRoomUpTo(id))
      ensures perspective == Client && !ok ==> highestStreamOpenedByPeer == old(highestStreamOpenedByPeer)
    {
      hide *;
      PeerIsUnknown(id);
      ghost var before, highest := streams, highestStreamOpenedByPeer;
      var sid := FirstRemote();
      IncludesNone(perspective, before, highest);
      while sid <= id
        invariant Valid() && Follows(perspective, highestStreamOpenedByPeer, sid)
        invariant highestStreamOpenedByPeer <= id &&
                  Includes(perspective, before, highest, streams, highestStreamOpenedByPeer)
        invariant id in streams <==> highestStreamOpenedByPeer == id
        invariant numIncomingStreams == old(numIncomingStreams) + if perspective == Server
                  then Rank(highestStreamOpenedByPeer) - Rank(highest) else 0
        invariant if perspective == Server then numIncomingStreams <= maxIncoming
                  else highestStreamOpenedByPeer == highest || old(numIncomingStreams) < maxIncoming
        decreases id + 2 - sid
      {
        NextPeer(perspective, highestStreamOpenedByPeer, sid, id);
        IncludesOne(perspective, before, highest, streams, highestStreamOpenedByPeer, sid);
        var more := OpenRemoteStream(sid);
        if !more { return false; }
        sid := sid + 2;
      }
      NextPeer(perspective, highestStreamOpenedByPeer, sid, id);
      return true;
    }

    lemma PeerIsUnknown(id: StreamID)
      requires Valid() && !Own(perspective, id) && id > highestStreamOpenedByPeer
      ensures id !in streams && (perspective == Server ==> numIncomingStreams <= maxIncoming)
      ensures NoRoomUpTo(id) <==>
        if perspective == Server then numIncomingStreams + Rank(id) - Rank(highestStreamOpenedByPeer) > maxIncoming
        else numIncomingStreams >= maxIncoming
    {
      hide CountOf, Distinct;
    }

    // the number of the next stream of the peer
    method FirstRemote() returns (sid: StreamID)
      requires Valid()
      ensures Follows(perspective, highestStreamOpenedByPeer, sid)
    {
      hide CountOf, Distinct;
      sid := highestStreamOpenedByPeer + 2;
      if sid == 2 && perspective == Server { sid := 1; }
    }

    // A stream that is open leaves the map, and its number is not used again. The turn stays where it is.
    method RemoveStream(id: StreamID) returns (ok: bool, ghost at: nat)
      requires Valid()
      modifies `streams, `openStreams, `numIncomingStreams, `numOutgoingStreams, `roundRobinIndex, `removed
      ensures Valid() && (ok <==> id in old(streams)) && (!ok ==> unchanged(this))
      ensures ok ==>
              at < |old(openStreams)| && old(openStreams)[at] == id && openStreams == Without(old(openStreams), at)
      ensures streams == old(streams) - {id} && removed == old(removed) + (if ok then {id} else {})
      ensures ok ==> roundRobinIndex == old(roundRobinIndex) - if at < old(roundRobinIndex) then 1 else 0
      ensures ok && old(roundRobinIndex) < |old(openStreams)| && old(roundRobinIndex) != at ==>
              roundRobinIndex < |openStreams| && openStreams[roundRobinIndex] == old(openStreams)[old(roundRobinIndex)]
      ensures Stuck() <==> old(Stuck()) || (ok && id == nextStreamToAccept)
    {
      hide Valid, Without;
      if id !in streams { return false, 0; }
      var i := Find(id);
      if roundRobinIndex < |openStreams| && roundRobinIndex != i { WithoutAt(openStreams, i, roundRobinIndex); }
      Delete(i);
      return true, i;
    }

    method Delete(i: nat)
      requires Valid() && i < |openStreams|
      modifies `streams, `openStreams, `numIncomingStreams, `numOutgoingStreams, `roundRobinIndex, `removed
      ensures Valid() && openStreams == Without(old(openStreams), i) && streams == old(streams) - {old(openStreams)[i]}
      ensures removed == old(removed) + {old(openStreams)[i]}
      ensures roundRobinIndex == old(roundRobinIndex) - if i < old(roundRobinIndex) then 1 else 0
    {
      hide CountOf, Distinct, Without, AcceptedInOrder;
      var id := openStreams[i];
      assert id in openStreams;
      Unlist(i);
      removed := removed + {id};
    }

    method Unlist(i: nat)
      requires Listed() && i < |openStreams|
      modifies `streams, `openStreams, `numIncomingStreams, `numOutgoingStreams, `roundRobinIndex
      ensures Listed() && openStreams == Without(old(openStreams), i) && streams == old(streams) - {old(openStreams)[i]}
      ensures roundRobinIndex == old(roundRobinIndex) - if i < old(roundRobinIndex) then 1 else 0
    {
      var id := openStreams[i];
      assert id in openStreams;
      CountWithout(openStreams, i, true);
      CountWithout(openStreams, i, false);
      WithoutMembers(openStreams, i);
      WithoutLength(openStreams, i);
      hide CountOf, Distinct, Without;
      if ByClient(id) { numIncomingStreams := numIncomingStreams - 1; } else {
        numOutgoingStreams := numOutgoingStreams - 1;
      }
      openStreams := Without(openStreams, i);
      if i < roundRobinIndex { roundRobinIndex := roundRobinIndex - 1; }
      streams := streams - {id};
    }

    method Find(id: StreamID) returns (i: nat)
      requires Valid() && id in streams
      ensures i < |openStreams| && openStreams[i] == id
    {
      assert id in openStreams;
      i := 0;
      while openStreams[i] != id
        invariant i < |openStreams| && id !in openStreams[..i]
        decreases |openStreams| - i
      {
        assert openStreams == openStreams[..i] + [openStreams[i]] + openStreams[i + 1..];
        assert id in openStreams[i + 1..];
        i := i + 1;
      }
    }

    // the streams in the order of their turns
    function Order(): (ids: seq<StreamID>)
      requires Valid()
      reads this
    {
      Favoured(streams) + Others(Rotated(openStreams, roundRobinIndex))
    }

    // The streams in turn, until the visitor stops at the given call. First 1 and 3, then every other
    // stream, from the one whose turn it is. The turn moves on by the streams that had one.
    method RoundRobinIterate(stopAt: nat) returns (visited: seq<StreamID>)
      requires Valid() && stopAt > 0
      modifies `roundRobinIndex
      ensures Valid() && visited == old(Order())[..Min(stopAt, |old(Order())|)]
      ensures roundRobinIndex == AfterTurns(old(roundRobinIndex), |visited| - |Favoured(streams)|, |openStreams|)
    {
      hide CountOf, Distinct, Rotated, Others, AfterTurns, Favoured;
      var turns, index := TakeTurns(openStreams, streams, roundRobinIndex, stopAt);
      AfterTurnsBound(roundRobinIndex, |turns| - |Favoured(streams)|, |openStreams|);
      roundRobinIndex := index;
      return turns;
    }

    // The peer's streams one by one, in the order of their numbers, each once. The next one is there exactly if it
    // was opened and is not gone. If it is gone, it is waited for in vain, and no later one is ever accepted.
    method AcceptStream() returns (r: bool, id: StreamID)
      requires Valid()
      modifies `nextStreamToAccept, `accepted
      ensures Valid() && id == old(nextStreamToAccept) && !Own(perspective, id)
      ensures r <==> WasOpened(id) && id !in removed
      ensures accepted == old(accepted) + (if r then [id] else []) && id !in old(accepted)
      ensures !r ==> unchanged(this)
      ensures old(Stuck()) ==> !r
    {
      hide CountOf, Distinct, Listed;
      id := nextStreamToAccept;
      r := id in streams;
      if r {
        nextStreamToAccept := nextStreamToAccept + 2;
        accepted := accepted + [id];
      }
    }
  }

  function FirstOfPeer(p: Perspective): (id: StreamID) {
    if p == Client then 2 else 1
  }

  // ----- taking turns

  // the crypto stream and the header stream
  function Favoured(streams: set<StreamID>): (ids: seq<StreamID>) {
    (if 1 in streams then [1] else []) + (if 3 in streams then [3] else [])
  }

  function Others(ids: seq<StreamID>): (r: seq<StreamID>)
    ensures forall id :: id in r <==> id in ids && id != 1 && id != 3
  {
    if ids == [] then []
    else
      var last := ids[|ids| - 1];
      Others(ids[..|ids| - 1]) + if last == 1 || last == 3 then [] else [last]
  }

  // from the start index to the end, and then from the beginning
  function Rotated(ids: seq<StreamID>, start: nat): (r: seq<StreamID>)
    requires start <= |ids|
    ensures |r| == |ids|
  {
    ids[start..] + ids[..start]
  }

  function AfterTurns(start: nat, turns: int, n: nat): (index: nat) {
    if turns <= 0 || n == 0 then start else (start + turns) % n
  }

  lemma AfterTurnsBound(start: nat, turns: int, n: nat)
    requires start <= n
    ensures AfterTurns(start, turns, n) <= n
  {
  }

  lemma OneMoreTurn(start: nat, turns: nat, n: nat)
    requires n > 0
    ensures (AfterTurns(start, turns, n) + 1) % n == AfterTurns(start, turns + 1, n)
  {
    ModSuccessor(start + turns, n);
  }

  lemma ModSuccessor(x: nat, n: nat)
    requires n > 0
    ensures (x % n + 1) % n == (x + 1) % n
  {
    var q, r := x / n, x % n;
    if r + 1 < n {
      Remainder(x + 1, n, q, r + 1);
      Remainder(r + 1, n, 0, r + 1);
    } else {
      assert (q + 1) * n == q * n + n;
      Remainder(x + 1, n, q + 1, 0);
      Remainder(r + 1, n, 1, 0);
    }
  }

  lemma RotatedAt(ids: seq<StreamID>, start: nat, i: nat)
    requires start <= |ids| && i < |ids|
    ensures Rotated(ids, start)[i] == ids[(i + start) % |ids|]
  {
    var n := |ids|;
    if i + start < n {
      Remainder(i + start, n, 0, i + start);
    } else {
      Remainder(i + start, n, 1, i + start - n);
    }
  }

  lemma OthersStep(ids: seq<StreamID>, i: nat)
    requires i < |ids|
    ensures Others(ids[..i + 1]) == Others(ids[..i]) + if ids[i] == 1 || ids[i] == 3 then [] else [ids[i]]
  {
    assert ids[..i + 1][..i] == ids[..i];
  }

  lemma {:induction false} OthersPrefix(ids: seq<StreamID>, i: nat)
    requires i <= |ids|
    ensures Others(ids[..i]) <= Others(ids)
    decreases |ids| - i
  {
    if i < |ids| {
      OthersStep(ids, i);
      OthersPrefix(ids, i + 1);
    } else {
      assert ids[..i] == ids;
    }
  }

  method TakeTurns(open: seq<StreamID>, streams: set<StreamID>, start: nat, stopAt: nat)
    returns (visited: seq<StreamID>, index: nat)
    requires start <= |open| && stopAt > 0
    ensures var order := Favoured(streams) + Others(Rotated(open, start));
      visited == order[..Min(stopAt, |order|)] && index == AfterTurns(start, |visited| - |Favoured(streams)|, |open|)
  {
    hide Rotated, Others, AfterTurns;
    visited, index := [], start;
    ghost var others, favoured := Others(Rotated(open, start)), Favoured(streams);
    FewTurns(start, |open|);
    if 1 in streams {
      visited := visited + [1];
      if |visited| == stopAt {
        assert (favoured + others)[..1] == favoured[..1] == visited;
        return;
      }
    }
    if 3 in streams {
      visited := visited + [3];
      if |visited| == stopAt {
        assert (favoured + others)[..|favoured|] == favoured == visited;
        return;
      }
    }
    var more;
    more, index := TakeOthers(open, start, stopAt - |visited|);
    assert (favoured + others)[..|favoured| + |more|] == favoured + more;
    visited := visited + more;
  }

  // the streams after the favoured ones
  method TakeOthers(open: seq<StreamID>, start: nat, stopAt: nat) returns (visited: seq<StreamID>, index: nat)
    requires start <= |open| && stopAt > 0
    ensures var others := Others(Rotated(open, start));
      visited == others[..Min(stopAt, |others|)] && index == AfterTurns(start, |visited|, |open|)
  {
    hide Rotated, Others, AfterTurns;
    visited, index := [], start;
    ghost var rot := Rotated(open, start);
    FewTurns(start, |open|);
    assert rot[..0] == [];
    NoOthers();
    var i := 0;
    while i < |open|
      invariant i <= |open| && visited == Others(rot[..i]) && |visited| < stopAt
      invariant index == AfterTurns(start, |visited|, |open|)
    {
      RotatedAt(open, start, i);
      OthersStep(rot, i);
      var id := open[(i + start) % |open|];
      if id != 1 && id != 3 {
        OneMoreTurn(start, |visited|, |open|);
        visited, index := visited + [id], (index + 1) % |open|;
        if |visited| == stopAt {
          OthersPrefix(rot, i + 1);
          return;
        }
      }
      i := i + 1;
    }
    assert rot[..i] == rot;
    assert visited[..|visited|] == visited;
  }

  lemma FewTurns(start: nat, n: nat)
    ensures forall turns: int :: turns <= 0 ==> AfterTurns(start, turns, n) == start
  {
  }

  lemma NoOthers()
    ensures Others([]) == []
  {
  }

  lemma {:induction false} OthersConcat(x: seq<StreamID>, y: seq<StreamID>)
    ensures Others(x + y) == Others(x) + Others(y)
  {
    if y == [] {
      assert x + y == x;
    } else {
      assert (x + y)[..|x + y| - 1] == x + y[..|y| - 1];
      OthersConcat(x, y[..|y| - 1]);
    }
  }

  lemma CutAndJoin(a: seq<StreamID>, b: seq<StreamID>, c: seq<StreamID>)
    ensures (a + b)[|a|..] == b && (a + b)[..|a|] == a && a + b + c == a + (b + c)
  {
  }

  lemma Divided(ids: seq<StreamID>, i: nat, j: nat)
    requires i <= j <= |ids|
    ensures ids[..j] == ids[..i] + ids[i..j] && ids[i..] == ids[i..j] + ids[j..]
    ensures Rotated(ids, i) == ids[i..j] + (ids[j..] + ids[..i]) && Rotated(ids, j) == ids[j..] + ids[..i] + ids[i..j]
  {
    assert ids[..j] == ids[..i] + ids[i..j] && ids[i..] == ids[i..j] + ids[j..];
    CutAndJoin(ids[i..j], ids[j..], ids[..i]);
    CutAndJoin(ids[j..], ids[..i], ids[i..j]);
  }

  lemma NextTurn(start: nat, turns: nat, n: nat)
    requires start <= n && 0 < turns < n
    ensures AfterTurns(start, turns, n) == if start + turns < n then start + turns else start + turns - n
  {
    var end := start + turns;
    if end < n { Remainder(end, n, 0, end); } else { Remainder(end, n, 1, end - n); }
  }

  // After some turns, the order goes on from there.
  lemma RotatedOn(ids: seq<StreamID>, start: nat, turns: nat)
    requires start <= |ids| && 0 < turns < |ids|
    ensures
      var rot, next := Rotated(ids, start), AfterTurns(start, turns, |ids|);
      next <= |ids| && Rotated(ids, next) == rot[turns..] + rot[..turns]
  {
    hide Rotated, AfterTurns;
    var n, end := |ids|, start + turns;
    NextTurn(start, turns, n);
    if end < n {
      Divided(ids, start, end);
      CutAndJoin(ids[start..end], ids[end..] + ids[..start], []);
    } else {
      Divided(ids, end - n, start);
      CutAndJoin(ids[start..] + ids[..end - n], ids[end - n..start], []);
    }
  }

  lemma {:induction false} OthersOfAll(ids: seq<StreamID>)
    ensures |Others(ids)| <= |ids|
    ensures |Others(ids)| == |ids| <==> 1 !in ids && 3 !in ids
  {
    if ids != [] {
      OthersOfAll(ids[..|ids| - 1]);
      assert ids == ids[..|ids| - 1] + [ids[|ids| - 1]];
    }
  }

  // If an iteration stops before all streams had their turn, the next one begins with the stream whose turn is next
  // if and only if streams 1 and 3 were not listed among as many as had a turn: they are passed over, but the index
  // does not move past them.
  lemma TurnGoesOn(open: seq<StreamID>, start: nat, turns: nat)
    requires Distinct(open) && start <= |open| && 0 < turns < |Others(Rotated(open, start))|
    ensures
      var rot, next := Rotated(open, start), AfterTurns(start, turns, |open|);
      next <= |open| && turns <= |rot| && Others(Rotated(open, next)) != [] &&
      (Others(Rotated(open, next))[0] == Others(rot)[turns] <==> 1 !in rot[..turns] && 3 !in rot[..turns])
  {
    var rot := Rotated(open, start);
    OthersOfAll(rot);
    RotatedOn(open, start, turns);
    RotatedIsDistinct(open, start);
    OthersAreDistinct(rot);
    hide *;
    var x, y := rot[..turns], rot[turns..];
    assert rot == x + y;
    OthersConcat(x, y);
    OthersConcat(y, x);
    OthersOfAll(x);
    FirstAfter(Others(x), Others(y), turns);
  }

  lemma FirstAfter(x: seq<StreamID>, y: seq<StreamID>, n: nat)
    requires Distinct(x + y) && |x| <= n < |x + y|
    ensures y + x != [] && ((y + x)[0] == (x + y)[n] <==> |x| == n)
  {
    assert (x + y)[|x|] == y[0] == (y + x)[0] && (x + y)[n] == y[n - |x|];
  }

  // With streams 1 and 3 at the head of the list, stream 5 has its turn again.
  lemma TurnExample()
    ensures
      var open := [1, 3, 5, 7];
      Others(Rotated(open, 0)) == [5, 7] && AfterTurns(0, 1, 4) == 1 && Others(Rotated(open, 1)) == [5, 7]
  {
    var open := [1, 3, 5, 7];
    OthersOf(1, 3, 5, 7);
    OthersOf(3, 5, 7, 1);
    assert Rotated(open, 0) == open && Rotated(open, 1) == [3, 5, 7, 1];
  }

  lemma OthersOf(a: StreamID, b: StreamID, c: StreamID, d: StreamID)
    ensures Others([a, b, c, d]) == Others([a]) + Others([b]) + Others([c]) + Others([d])
    ensures Others([a]) == (if a == 1 || a == 3 then [] else [a])
    ensures Others([b]) == (if b == 1 || b == 3 then [] else [b])
    ensures Others([c]) == (if c == 1 || c == 3 then [] else [c])
    ensures Others([d]) == (if d == 1 || d == 3 then [] else [d])
  {
    assert [a, b, c, d] == [a] + [b] + [c] + [d];
    OthersConcat([a] + [b] + [c], [d]);
    OthersConcat([a] + [b], [c]);
    OthersConcat([a], [b]);
  }

  // Every stream has one turn.
  lemma OrderListsAll(open: seq<StreamID>, streams: set<StreamID>, start: nat)
    requires Distinct(open) && start <= |open| && forall id :: id in open <==> id in streams
    ensures var order := Favoured(streams) + Others(Rotated(open, start));
      Distinct(order) && forall id :: id in order <==> id in streams
  {
    var rot := Rotated(open, start);
    assert open == open[..start] + open[start..];
    RotatedIsDistinct(open, start);
    OthersAreDistinct(rot);
    hide Rotated, Others;
    var favoured, others := Favoured(streams), Others(rot);
    forall i, j | 0 <= i < |favoured| && 0 <= j < |others| ensures favoured[i] != others[j] {
      assert others[j] in others;
    }
  }

  lemma RotatedIsDistinct(ids: seq<StreamID>, start: nat)
    requires Distinct(ids) && start <= |ids|
    ensures Distinct(Rotated(ids, start))
  {
    var r, n := Rotated(ids, start), |ids|;
    assert forall i :: 0 <= i < n ==> r[i] == ids[if i + start < n then i + start else i + start - n];
  }

  lemma {:induction false} OthersAreDistinct(ids: seq<StreamID>)
    requires Distinct(ids)
    ensures Distinct(Others(ids))
  {
    if ids != [] {
      var front, last := ids[..|ids| - 1], ids[|ids| - 1];
      OthersAreDistinct(front);
      assert last !in front;
      forall i | 0 <= i < |Others(front)| ensures Others(front)[i] != last { assert Others(front)[i] in Others(front); }
    }
  }

  // On the side of the client the limits are mixed up: the number of streams that it opens is not limited by its own
  // limit, as long as that allows any stream at all, because it is compared with the number of streams that the server
  // opened.
  method ClientOpensAny(incoming: nat, outgoing: nat, n: nat) returns (m: StreamsMap)
    requires outgoing > 0
    ensures fresh(m) && m.Valid() && m.perspective == Client && m.maxIncoming == incoming && m.maxOutgoing == outgoing
    ensures |m.streams| == n == m.numIncomingStreams && m.highestStreamOpenedByPeer == 0 &&
            forall id :: id in m.streams ==> Own(Client, id)
  {
    m := new StreamsMap(Client, incoming, outgoing);
    var i := 0;
    while i < n
      invariant i <= n && fresh(m) && m.Valid() && m.perspective == Client && m.maxIncoming == incoming &&
                m.maxOutgoing == outgoing
      invariant m.numOutgoingStreams == 0 && m.highestStreamOpenedByPeer == 0
      invariant |m.streams| == i == m.numIncomingStreams && forall id :: id in m.streams ==> Own(Client, id)
    {
      var r := m.OpenStream();
      i := i + 1;
    }
  }

  // And a client that opened as many streams as the server may open refuses every stream of the server, although the
  // server has none open.
  method ClientRefusesPeer(incoming: nat, outgoing: nat, id: StreamID) returns (m: StreamsMap, r: GetResult)
    requires outgoing > 0 && id > 0 && !Own(Client, id)
    ensures m.Valid() && m.perspective == Client && m.maxIncoming == incoming && r == TooMany
    ensures m.highestStreamOpenedByPeer == 0 && forall k :: k in m.streams ==> Own(Client, k)
  {
    m := ClientOpensAny(incoming, outgoing, incoming);
    ghost var before := m.streams;
    r := m.GetOrOpenStream(id);
  }
}
