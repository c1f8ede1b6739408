/**
  Two endpoints that follow the flow-control code, over a network that may lose, duplicate and
  reorder. A message that has been sent once may be delivered any number of times, at any time.
  The theorem: neither endpoint ever sees a flow-control violation.
 */
module FlowProtocol {
  import opened Basics
  import opened FlowControl

  datatype Message = Message(id: StreamID, offset: nat)

  // An endpoint: its manager, what it has put on the wire, and a ledger that keeps the counts of
  // streams which have been removed from the manager.
  datatype Endpoint = Endpoint(
    mgr: Manager,
    frames: set<Message>,    // STREAM frames, by stream and end offset
    resets: set<Message>,    // RST_STREAM frames, by stream and final offset
    credits: set<Message>,   // WINDOW_UPDATE frames
    known: set<StreamID>,    // streams opened so far
    finished: set<StreamID>, // streams on which a reset was sent: nothing more is sent
    sent: map<StreamID, nat>, got: map<StreamID, nat>, read: map<StreamID, nat>)

  datatype Step =
    | Open(id: StreamID)
    | Close(id: StreamID)
    | Send(id: StreamID, n: nat)
    | Resend(id: StreamID, end: nat)
    | SendReset(id: StreamID)
    | Deliver(id: StreamID, end: nat)
    | DeliverReset(id: StreamID, end: nat)
    | Read(id: StreamID, n: nat, now: Time)
    | Grant(order: seq<StreamID>, force: bool, clock: Clock)
    | DeliverCredit(id: StreamID, offset: nat)
    | Negotiate(sendStream: nat, sendConnection: nat)

  // the crypto stream and the header stream do not count for the connection
  predicate IsContributing(id: StreamID) {
    id != 1 && id != 3
  }

  // what an endpoint may do next; stream 1 is sent without regard to windows and is left out
  ghost predicate Enabled(me: Endpoint, peer: Endpoint, s: Step) {
    match s
    case Open(id) => id > 1 && id !in me.known
    case Close(id) => id in me.mgr.streams
    case Send(id, n) => id in me.mgr.streams && id !in me.finished && n <= SendableOn(me.mgr, id)
    case Resend(id, end) => exists e :: end <= e && Message(id, e) in me.frames
    case SendReset(id) => id in me.mgr.streams
    case Deliver(id, end) => Message(id, end) in peer.frames && id in me.known
    case DeliverReset(id, end) => Message(id, end) in peer.resets && id in me.known
    case Read(id, n, now) =>
      id in me.mgr.streams && me.mgr.streams[id].bytesRead + n <= me.mgr.streams[id].highestReceived
    case Grant(order, force, clock) => Listing(order, me.mgr.streams.Keys)
    case DeliverCredit(id, offset) => Message(id, offset) in peer.credits
    case Negotiate(ss, sc) => ss <= peer.mgr.params.receiveStream && sc <= peer.mgr.params.receiveConnection
  }

  function Messages(us: seq<WindowUpdate>): (ms: set<Message>) {
    set i | 0 <= i < |us| :: Message(us[i].id, us[i].offset)
  }

  function AfterOpen(me: Endpoint, id: StreamID): (e: Endpoint) {
    me.(mgr := Opened(me.mgr, id, IsContributing(id)), known := me.known + {id},
        sent := me.sent[id := 0], got := me.got[id := 0], read := me.read[id := 0])
  }

  function AfterClose(me: Endpoint, id: StreamID): (e: Endpoint) {
    me.(mgr := me.mgr.(streams := me.mgr.streams - {id}))
  }

  function AfterSend(me: Endpoint, id: StreamID, n: nat): (e: Endpoint)
    requires id in me.mgr.streams
  {
    var end := me.mgr.streams[id].bytesSent + n;
    me.(mgr := Sent(me.mgr, id, n), frames := me.frames + {Message(id, end)}, sent := me.sent[id := end])
  }

  function AfterResend(me: Endpoint, id: StreamID, end: nat): (e: Endpoint) {
    me.(frames := me.frames + {Message(id, end)})
  }

  function AfterSendReset(me: Endpoint, id: StreamID): (e: Endpoint)
    requires id in me.mgr.streams
  {
    me.(resets := me.resets + {Message(id, me.mgr.streams[id].bytesSent)}, finished := me.finished + {id})
  }

  function AfterReceived(me: Endpoint, m: Manager, id: StreamID): (e: Endpoint) {
    me.(mgr := m, got := if id in m.streams then me.got[id := m.streams[id].highestReceived] else me.got)
  }

  function AfterRead(me: Endpoint, id: StreamID, n: nat, now: Time): (e: Endpoint)
    requires id in me.read
  {
    me.(mgr := Consumed(me.mgr, id, n, now), read := me.read[id := me.read[id] + n])
  }

  function AfterGrant(me: Endpoint, order: seq<StreamID>, force: bool, clock: Clock): (e: Endpoint)
    requires Within(order, me.mgr.streams.Keys)
  {
    var (m, us) := UpdatedAll(me.mgr, order, force, clock);
    me.(mgr := m, credits := me.credits + Messages(us))
  }

  function AfterCredit(me: Endpoint, id: StreamID, offset: nat): (e: Endpoint) {
    me.(mgr := Credited(me.mgr, id, offset))
  }

  function AfterNegotiate(me: Endpoint, ss: nat, sc: nat): (e: Endpoint) {
    me.(mgr := me.mgr.(params := me.mgr.params.(sendStream := ss, sendConnection := sc)))
  }

  // what a step does, and the status that the flow-control code reports
  ghost function Apply(me: Endpoint, peer: Endpoint, s: Step): (r: (Endpoint, Status))
    requires Enabled(me, peer, s)
    requires me.mgr.streams.Keys <= me.read.Keys
  {
    match s
    case Open(id) => (AfterOpen(me, id), Ok)
    case Close(id) => (AfterClose(me, id), Ok)
    case Send(id, n) => (AfterSend(me, id, n), Ok)
    case Resend(id, end) => (AfterResend(me, id, end), Ok)
    case SendReset(id) => (AfterSendReset(me, id), Ok)
    case Deliver(id, end) =>
      var (m, status) := Received(me.mgr, id, end);
      (AfterReceived(me, m, id), status)
    case DeliverReset(id, end) =>
      var (m, status) := WasReset(me.mgr, id, end);
      (AfterReceived(me, m, id), status)
    case Read(id, n, now) => (AfterRead(me, id, n, now), Ok)
    case Grant(order, force, clock) => (AfterGrant(me, order, force, clock), Ok)
    case DeliverCredit(id, offset) => (AfterCredit(me, id, offset), Ok)
    case Negotiate(ss, sc) => (AfterNegotiate(me, ss, sc), Ok)
  }

  // ----- sums over the contributing streams

  ghost function Total(m: map<StreamID, nat>): (t: nat) {
    if m == map[] then 0 else
    var k :| k in m;
    (if IsContributing(k) then m[k] else 0) + Total(m - {k})
  }

  lemma {:induction false} TotalRemove(m: map<StreamID, nat>, k: StreamID)
    requires k in m
    ensures Total(m) == (if IsContributing(k) then m[k] else 0) + Total(m - {k})
  {
    var j :| j in m && Total(m) == (if IsContributing(j) then m[j] else 0) + Total(m - {j});
    if j != k {
      TotalRemove(m - {j}, k);
      assert (m - {j}) - {k} == (m - {k}) - {j};
      TotalRemove(m - {k}, j);
    }
  }

  lemma TotalUpdate(m: map<StreamID, nat>, k: StreamID, v: nat)
    ensures Total(m[k := v]) == Total(m) + (if IsContributing(k) then v - (if k in m then m[k] else 0) else 0)
  {
    TotalRemove(m[k := v], k);
    assert m[k := v] - {k} == m - {k};
    if k in m { TotalRemove(m, k); } else { assert m - {k} == m; }
  }

  lemma {:induction false} TotalMonotone(m: map<StreamID, nat>, n: map<StreamID, nat>)
    requires forall k :: k in m ==> m[k] == 0 || (k in n && m[k] <= n[k])
    ensures Total(m) <= Total(n)
  {
    if m != map[] {
      var k :| k in m;
      TotalRemove(m, k);
      if k in n { TotalRemove(n, k); }
      if k in n { TotalMonotone(m - {k}, n - {k}); } else { TotalMonotone(m - {k}, n); }
    }
  }

  // ----- the invariant

  // the increments and maximum increments with which an update never takes credit back
  predicate Steady(increment: nat, max: nat) {
    increment / 2 <= max + 1
  }

  // a controller grants no more than its largest increment beyond what was read, and nothing is
  // received beyond what was granted
  ghost predicate Receiving(c: Controller, initial: nat, max: nat) {
    c.bytesRead <= c.highestReceived <= c.receiveWindow <= c.bytesRead + Max(initial, max) &&
    initial <= c.receiveWindow && c.increment <= Max(initial, max) &&
    c.maxIncrement == max && (Steady(initial, max) || c.bytesRead == 0)
  }

  // without any window for a stream, nothing is ever granted to it
  ghost predicate ReceivingStream(c: Controller, p: Params) {
    Receiving(c, p.receiveStream, p.maxReceiveStream) &&
    (p.receiveStream == 0 ==> c.receiveWindow == 0 && c.increment == 0)
  }

  // No window that is ever used can shrink. The connection's is not used if the streams have none.
  predicate SoundParams(p: Params) {
    Steady(p.receiveStream, p.maxReceiveStream) &&
    (p.receiveStream == 0 || Steady(p.receiveConnection, p.maxReceiveConnection))
  }

  ghost predicate SoundStreams(e: Endpoint) {
    forall id :: id in e.mgr.streams ==>
      var c := e.mgr.streams[id];
      c.id == id != 0 && c.contributes == IsContributing(id) && id in e.known && ReceivingStream(c, e.mgr.params)
  }

  // the ledger agrees with the controllers, and the connection counts the contributing streams
  ghost predicate SoundLedger(e: Endpoint) {
    e.sent.Keys == e.known && e.got.Keys == e.known && e.read.Keys == e.known &&
    (forall id :: id in e.mgr.streams ==>
      id in e.known && e.sent[id] == e.mgr.streams[id].bytesSent &&
      e.got[id] == e.mgr.streams[id].highestReceived && e.read[id] == e.mgr.streams[id].bytesRead) &&
    (forall id :: id in e.known ==> e.read[id] <= e.got[id]) &&
    e.mgr.conn.bytesSent == Total(e.sent) && e.mgr.conn.highestReceived == Total(e.got) &&
    e.mgr.conn.bytesRead == Total(e.read)
  }

  ghost predicate SoundWire(e: Endpoint) {
    e.finished <= e.known && e.sent.Keys == e.known && 0 !in e.known &&
    (forall m :: m in e.frames ==> m.id in e.known && m.offset <= e.sent[m.id]) &&
    (forall m :: m in e.resets ==> m.id in e.finished && m.offset == e.sent[m.id]) &&
    (forall m :: m in e.credits ==>
      if m.id == 0 then m.offset <= e.mgr.conn.receiveWindow
      else m.id in e.known && (m.id in e.mgr.streams ==> m.offset <= e.mgr.streams[m.id].receiveWindow))
  }

  ghost predicate SoundConnection(e: Endpoint) {
    e.mgr.conn.id == 0 && Receiving(e.mgr.conn, e.mgr.params.receiveConnection, e.mgr.params.maxReceiveConnection)
  }

  ghost predicate Sound(e: Endpoint) {
    SoundParams(e.mgr.params) && SoundStreams(e) && SoundLedger(e) && SoundWire(e) && SoundConnection(e)
  }

  // no more was received than was sent
  ghost predicate WasSent(got: map<StreamID, nat>, sent: map<StreamID, nat>) {
    forall id :: id in got ==> got[id] == 0 || (id in sent && got[id] <= sent[id])
  }

  // the windows that s believes in have been granted by r, and s stays within them
  ghost predicate Funded(s: Endpoint, r: Endpoint) {
    s.mgr.params.sendStream <= r.mgr.params.receiveStream &&
    s.mgr.params.sendConnection <= r.mgr.params.receiveConnection &&
    SendLimit(s.mgr.conn, s.mgr.params) <= r.mgr.conn.receiveWindow &&
    s.mgr.conn.bytesSent <= r.mgr.conn.receiveWindow &&
    (forall id :: id in s.mgr.streams && id !in r.known ==> s.mgr.streams[id].sendWindow == 0) &&
    (forall id :: id in s.mgr.streams && id in r.mgr.streams ==>
      SendLimit(s.mgr.streams[id], s.mgr.params) <= r.mgr.streams[id].receiveWindow) &&
    (forall id :: id in s.sent && id !in r.known ==> s.sent[id] <= r.mgr.params.receiveStream) &&
    (forall id :: id in s.sent && id in r.mgr.streams ==> s.sent[id] <= r.mgr.streams[id].receiveWindow) &&
    WasSent(r.got, s.sent)
  }

  datatype World = World(a: Endpoint, b: Endpoint)

  ghost predicate Safe(w: World) {
    Sound(w.a) && Sound(w.b) && Funded(w.a, w.b) && Funded(w.b, w.a)
  }

  // ----- every step keeps it

  // the windows to send in are the same
  ghost predicate SameWindows(e: Endpoint, e': Endpoint) {
    e'.mgr.params == e.mgr.params && e'.mgr.streams.Keys == e.mgr.streams.Keys &&
    e'.mgr.conn.id == e.mgr.conn.id && e'.mgr.conn.sendWindow == e.mgr.conn.sendWindow &&
    forall id :: id in e.mgr.streams ==>
      e'.mgr.streams[id].id == e.mgr.streams[id].id && e'.mgr.streams[id].sendWindow == e.mgr.streams[id].sendWindow
  }

  // nothing that matters for sending changes
  ghost predicate SameSending(e: Endpoint, e': Endpoint) {
    SameWindows(e, e') && e'.sent == e.sent && e'.mgr.conn.bytesSent == e.mgr.conn.bytesSent
  }

  // nothing that matters for receiving changes, except that windows may grow
  ghost predicate SameReceiving(e: Endpoint, e': Endpoint) {
    e'.mgr.params.receiveStream == e.mgr.params.receiveStream &&
    e'.mgr.params.receiveConnection == e.mgr.params.receiveConnection &&
    e'.known == e.known && e'.mgr.streams.Keys == e.mgr.streams.Keys &&
    e'.mgr.conn.receiveWindow >= e.mgr.conn.receiveWindow &&
    forall id :: id in e.mgr.streams ==> e'.mgr.streams[id].receiveWindow >= e.mgr.streams[id].receiveWindow
  }

  lemma SendingFunded(s: Endpoint, s': Endpoint, r: Endpoint)
    requires Funded(s, r) && SameSending(s, s')
    ensures Funded(s', r)
  {
    assert forall id :: id in s'.mgr.streams ==> id in s.mgr.streams;
  }

  lemma ReceivingFunded(s: Endpoint, r: Endpoint, r': Endpoint)
    requires Funded(s, r) && SameReceiving(r, r') && (r'.got == r.got || WasSent(r'.got, s.sent))
    ensures Funded(s, r')
  {
    assert forall id :: id in r'.mgr.streams ==> id in r.mgr.streams;
  }

  lemma OpenLedger(me: Endpoint, id: StreamID)
    requires SoundLedger(me) && id !in me.known
    ensures SoundLedger(AfterOpen(me, id))
  {
    hide Total;
    TotalUpdate(me.sent, id, 0);
    TotalUpdate(me.got, id, 0);
    TotalUpdate(me.read, id, 0);
  }

  lemma OpenSound(me: Endpoint, id: StreamID)
    requires Sound(me) && id > 1 && id !in me.known
    ensures Sound(AfterOpen(me, id))
  {
    hide Total, SoundLedger;
    OpenLedger(me, id);
  }

  lemma OpenFunds(me: Endpoint, peer: Endpoint, id: StreamID)
    requires SoundLedger(me) && SoundStreams(me) && SoundStreams(peer) && SoundConnection(peer)
    requires id !in me.known && id != 0 && Funded(me, peer)
    ensures Funded(AfterOpen(me, id), peer)
  {
    hide Total;
  }

  lemma OpenCredits(me: Endpoint, peer: Endpoint, id: StreamID)
    requires SoundLedger(me) && SoundStreams(me) && SoundStreams(peer)
    requires id !in me.known && id != 0 && Funded(peer, me)
    ensures Funded(peer, AfterOpen(me, id))
  {
    hide Total;
  }

  lemma OpenIsSafe(me: Endpoint, peer: Endpoint, id: StreamID)
    requires Safe(World(me, peer)) && id > 1 && id !in me.known
    ensures Safe(World(AfterOpen(me, id), peer))
  {
    hide Total, Funded, SoundStreams, SoundLedger, SoundWire, SoundConnection, AfterOpen;
    OpenSound(me, id);
    OpenFunds(me, peer, id);
    OpenCredits(me, peer, id);
  }

  lemma CloseSound(me: Endpoint, id: StreamID)
    requires Sound(me)
    ensures Sound(AfterClose(me, id))
  {
    hide Total;
  }

  lemma CloseFunds(me: Endpoint, peer: Endpoint, id: StreamID)
    ensures Funded(me, peer) ==> Funded(AfterClose(me, id), peer)
    ensures Funded(peer, me) ==> Funded(peer, AfterClose(me, id))
  {
  }

  lemma CloseIsSafe(me: Endpoint, peer: Endpoint, id: StreamID)
    requires Safe(World(me, peer))
    ensures Safe(World(AfterClose(me, id), peer))
  {
    hide Sound, Funded, AfterClose;
    CloseSound(me, id);
    CloseFunds(me, peer, id);
  }

  lemma WireIsSafe(me: Endpoint, me': Endpoint, peer: Endpoint)
    requires Safe(World(me, peer))
    requires me' == me.(frames := me'.frames, resets := me'.resets, finished := me'.finished) && SoundWire(me')
    ensures Safe(World(me', peer))
  {
    hide Total, Funded, SoundWire;
    SendingFunded(me, me', peer);
    ReceivingFunded(peer, me, me');
  }

  lemma ResendIsSafe(me: Endpoint, peer: Endpoint, id: StreamID, end: nat)
    requires Safe(World(me, peer)) && exists e :: end <= e && Message(id, e) in me.frames
    ensures Safe(World(AfterResend(me, id, end), peer))
  {
    hide Total, Funded, SoundConnection, SoundStreams, SoundLedger;
    WireIsSafe(me, AfterResend(me, id, end), peer);
  }

  lemma SendResetIsSafe(me: Endpoint, peer: Endpoint, id: StreamID)
    requires Safe(World(me, peer)) && id in me.mgr.streams
    ensures Safe(World(AfterSendReset(me, id), peer))
  {
    hide Total, Funded, SoundConnection, SoundStreams;
    WireIsSafe(me, AfterSendReset(me, id), peer);
  }

  lemma NegotiateSound(me: Endpoint, ss: nat, sc: nat)
    requires Sound(me)
    ensures Sound(AfterNegotiate(me, ss, sc))
  {
    hide Total;
  }

  lemma NegotiateFunds(me: Endpoint, peer: Endpoint, ss: nat, sc: nat)
    requires Funded(me, peer) && SoundStreams(me) && SoundStreams(peer) && SoundConnection(me) && SoundConnection(peer)
    requires ss <= peer.mgr.params.receiveStream && sc <= peer.mgr.params.receiveConnection
    ensures Funded(AfterNegotiate(me, ss, sc), peer)
  {
  }

  lemma NegotiateIsSafe(me: Endpoint, peer: Endpoint, ss: nat, sc: nat)
    requires Safe(World(me, peer)) && ss <= peer.mgr.params.receiveStream && sc <= peer.mgr.params.receiveConnection
    ensures Safe(World(AfterNegotiate(me, ss, sc), peer))
  {
    hide Total, Funded, SoundStreams, SoundLedger, SoundWire, SoundConnection;
    NegotiateSound(me, ss, sc);
    NegotiateFunds(me, peer, ss, sc);
    ReceivingFunded(peer, me, AfterNegotiate(me, ss, sc));
  }

  // what a controller may receive does not depend on what it may send
  lemma SendingApart(c: Controller, sent: nat, window: nat, p: Params, initial: nat, max: nat)
    ensures Receiving(c.(bytesSent := sent, sendWindow := window), initial, max) <==> Receiving(c, initial, max)
    ensures ReceivingStream(c.(bytesSent := sent, sendWindow := window), p) <==> ReceivingStream(c, p)
  {
  }

  lemma CreditSound(me: Endpoint, id: StreamID, offset: nat)
    requires Sound(me)
    ensures Sound(AfterCredit(me, id, offset))
  {
    hide Total, Receiving, ReceivingStream, SoundParams;
    var p, c := me.mgr.params, if id in me.mgr.streams then me.mgr.streams[id] else me.mgr.conn;
    SendingApart(me.mgr.conn, me.mgr.conn.bytesSent, offset, p, p.receiveConnection, p.maxReceiveConnection);
    SendingApart(c, c.bytesSent, offset, p, p.receiveStream, p.maxReceiveStream);
  }

  lemma CreditFunds(me: Endpoint, peer: Endpoint, id: StreamID, offset: nat)
    requires Funded(me, peer) && SoundStreams(me) && SoundWire(peer) && Message(id, offset) in peer.credits
    ensures Funded(AfterCredit(me, id, offset), peer)
  {
  }

  lemma CreditIsSafe(me: Endpoint, peer: Endpoint, id: StreamID, offset: nat)
    requires Safe(World(me, peer)) && Message(id, offset) in peer.credits
    ensures Safe(World(AfterCredit(me, id, offset), peer))
  {
    hide Total, Funded, SoundStreams, SoundLedger, SoundWire, SoundConnection;
    CreditSound(me, id, offset);
    CreditFunds(me, peer, id, offset);
    ReceivingFunded(peer, me, AfterCredit(me, id, offset));
  }

  lemma SendLedger(me: Endpoint, id: StreamID, n: nat)
    requires SoundLedger(me) && SoundStreams(me) && id in me.mgr.streams
    ensures SoundLedger(AfterSend(me, id, n))
    ensures me.sent[id] == me.mgr.streams[id].bytesSent
  {
    hide Total;
    TotalUpdate(me.sent, id, me.sent[id] + n);
  }

  lemma SendSound(me: Endpoint, id: StreamID, n: nat)
    requires Sound(me) && id in me.mgr.streams && id !in me.finished
    ensures Sound(AfterSend(me, id, n))
  {
    hide Total, SoundLedger, Receiving, ReceivingStream, SoundParams;
    SendLedger(me, id, n);
    var p, conn, c := me.mgr.params, me.mgr.conn, me.mgr.streams[id];
    SendingApart(conn, conn.bytesSent + n, conn.sendWindow, p, p.receiveConnection, p.maxReceiveConnection);
    SendingApart(c, c.bytesSent + n, c.sendWindow, p, p.receiveStream, p.maxReceiveStream);
  }

  // more was sent on one stream, within the windows of the peer
  lemma MoreIsFunded(s: Endpoint, s': Endpoint, r: Endpoint, id: StreamID, n: nat)
    requires Funded(s, r) && SameWindows(s, s') && id in s.sent && s'.sent == s.sent[id := s.sent[id] + n]
    requires id !in r.known ==> s'.sent[id] <= r.mgr.params.receiveStream
    requires id in r.mgr.streams ==> s'.sent[id] <= r.mgr.streams[id].receiveWindow
    requires s'.mgr.conn.bytesSent <= r.mgr.conn.receiveWindow
    ensures Funded(s', r)
  {
    assert forall i :: i in s'.mgr.streams ==> i in s.mgr.streams;
    hide WasSent;
    StillSent(r.got, s.sent, id, n);
  }

  lemma SendFunds(me: Endpoint, peer: Endpoint, id: StreamID, n: nat)
    requires Funded(me, peer) && SoundStreams(me) && SoundLedger(me)
    requires id in me.mgr.streams && n <= SendableOn(me.mgr, id)
    ensures Funded(AfterSend(me, id, n), peer)
  {
    hide Total, ReceivingStream, WasSent;
    assert me.mgr.streams[id].id == id && id in me.known && me.sent[id] == me.mgr.streams[id].bytesSent;
    SendableFits(me.mgr, id, n);
    hide SoundStreams, SoundLedger, SendableOn;
    assert SameWindows(me, AfterSend(me, id, n));
    MoreIsFunded(me, AfterSend(me, id, n), peer, id, n);
  }

  lemma SendableFits(m: Manager, id: StreamID, n: nat)
    requires id in m.streams && n <= SendableOn(m, id)
    ensures n == 0 || m.streams[id].bytesSent + n <= SendLimit(m.streams[id], m.params)
    ensures n == 0 || !m.streams[id].contributes || m.conn.bytesSent + n <= SendLimit(m.conn, m.params)
  {
  }

  lemma StillSent(got: map<StreamID, nat>, sent: map<StreamID, nat>, id: StreamID, n: nat)
    requires WasSent(got, sent) && id in sent
    ensures WasSent(got, sent[id := sent[id] + n])
  {
  }

  lemma SendIsSafe(me: Endpoint, peer: Endpoint, id: StreamID, n: nat)
    requires Safe(World(me, peer)) && id in me.mgr.streams && id !in me.finished && n <= SendableOn(me.mgr, id)
    ensures Safe(World(AfterSend(me, id, n), peer))
  {
    hide Total, Funded, SoundStreams, SoundLedger, SoundWire, SoundConnection;
    SendSound(me, id, n);
    SendFunds(me, peer, id, n);
    ReceivingFunded(peer, me, AfterSend(me, id, n));
  }

  lemma ReadLedger(me: Endpoint, id: StreamID, n: nat, now: Time)
    requires SoundLedger(me) && SoundStreams(me)
    requires id in me.mgr.streams && me.mgr.streams[id].bytesRead + n <= me.mgr.streams[id].highestReceived
    ensures SoundLedger(AfterRead(me, id, n, now))
    ensures AfterRead(me, id, n, now).mgr.conn.bytesRead <= me.mgr.conn.highestReceived
  {
    hide Total, ReceivingStream;
    TotalUpdate(me.read, id, me.read[id] + n);
    TotalMonotone(me.read[id := me.read[id] + n], me.got);
  }

  lemma ReadSound(me: Endpoint, id: StreamID, n: nat, now: Time)
    requires Sound(me) && id in me.mgr.streams && me.mgr.streams[id].bytesRead + n <= me.mgr.streams[id].highestReceived
    ensures id in me.read && Sound(AfterRead(me, id, n, now))
  {
    hide Total;
    ReadLedger(me, id, n, now);
    ReadWithin(me.mgr.streams[id], n, now, me.mgr.params);
    hide SoundLedger, ReceivingStream;
    assert SoundWire(AfterRead(me, id, n, now));
  }

  lemma ReadWithin(c: Controller, n: nat, now: Time, p: Params)
    requires ReceivingStream(c, p) && Steady(p.receiveStream, p.maxReceiveStream) &&
             c.bytesRead + n <= c.highestReceived
    ensures ReceivingStream(WasRead(c, n, now), p) && (p.receiveStream == 0 ==> n == 0)
  {
  }

  lemma ReadIsSafe(me: Endpoint, peer: Endpoint, id: StreamID, n: nat, now: Time)
    requires Safe(World(me, peer))
    requires id in me.mgr.streams && me.mgr.streams[id].bytesRead + n <= me.mgr.streams[id].highestReceived
    ensures Safe(World(AfterRead(me, id, n, now), peer))
  {
    hide Total, Funded, Sound;
    ReadSound(me, id, n, now);
    var me' := AfterRead(me, id, n, now);
    SendingFunded(me, me', peer);
    ReceivingFunded(peer, me, me');
  }

  // ----- delivery: what arrives was sent, and what was sent was granted

  lemma DeliverLedger(me: Endpoint, peer: Endpoint, id: StreamID, end: nat)
    requires Safe(World(me, peer)) && id in me.mgr.streams
    requires id in peer.sent && end <= peer.sent[id]
    ensures id in me.got && me.got[id] == me.mgr.streams[id].highestReceived
    ensures
      var highest := Raised(me.mgr.streams[id], end).highestReceived;
      highest <= me.mgr.streams[id].receiveWindow && WasSent(me.got[id := highest], peer.sent) &&
      (IsContributing(id) ==> me.mgr.conn.highestReceived + highest - me.got[id] <= me.mgr.conn.receiveWindow)
  {
    hide Total, SoundWire, SoundConnection;
    var got' := me.got[id := Raised(me.mgr.streams[id], end).highestReceived];
    TotalUpdate(me.got, id, got'[id]);
    TotalMonotone(got', peer.sent);
  }

  lemma ReceivedLedger(me: Endpoint, id: StreamID, end: nat)
    requires SoundLedger(me) && SoundStreams(me) && id in me.mgr.streams && Received(me.mgr, id, end).1 == Ok
    ensures SoundLedger(AfterReceived(me, Received(me.mgr, id, end).0, id))
  {
    hide Total;
    TotalUpdate(me.got, id, Raised(me.mgr.streams[id], end).highestReceived);
  }

  lemma ReceivedSound(me: Endpoint, id: StreamID, end: nat)
    requires Sound(me) && id in me.mgr.streams && id in me.got && me.got[id] == me.mgr.streams[id].highestReceived
    requires Raised(me.mgr.streams[id], end).highestReceived <= me.mgr.streams[id].receiveWindow
    requires
      IsContributing(id) ==>
      me.mgr.conn.highestReceived + Raised(me.mgr.streams[id], end).highestReceived - me.got[id] <=
      me.mgr.conn.receiveWindow
    ensures Received(me.mgr, id, end).1 == Ok
    ensures Sound(AfterReceived(me, Received(me.mgr, id, end).0, id))
  {
    hide Total, SoundLedger;
    var me' := AfterReceived(me, Received(me.mgr, id, end).0, id);
    ReceivedLedger(me, id, end);
    assert SoundWire(me');
  }

  lemma ReceivedFunds(me: Endpoint, peer: Endpoint, id: StreamID, end: nat)
    requires Funded(me, peer) && Funded(peer, me) && id in me.mgr.streams && Received(me.mgr, id, end).1 == Ok
    requires WasSent(me.got[id := Raised(me.mgr.streams[id], end).highestReceived], peer.sent)
    ensures Funded(AfterReceived(me, Received(me.mgr, id, end).0, id), peer)
    ensures Funded(peer, AfterReceived(me, Received(me.mgr, id, end).0, id))
  {
    hide Funded, WasSent;
    var me' := AfterReceived(me, Received(me.mgr, id, end).0, id);
    SendingFunded(me, me', peer);
    ReceivingFunded(peer, me, me');
  }

  // A frame that was sent is delivered without a violation.
  lemma DeliverIsSafe(me: Endpoint, peer: Endpoint, id: StreamID, end: nat)
    requires Safe(World(me, peer)) && Message(id, end) in peer.frames
    ensures Received(me.mgr, id, end).1 == if id in me.mgr.streams then Ok else UnknownStream
    ensures Safe(World(AfterReceived(me, Received(me.mgr, id, end).0, id), peer))
  {
    hide Total, Funded, SoundLedger, SoundConnection, SoundStreams, WasSent;
    if id in me.mgr.streams {
      DeliverLedger(me, peer, id, end);
      ReceivedSound(me, id, end);
      ReceivedFunds(me, peer, id, end);
    }
  }

  // A reset carries the final offset, so it never comes after data beyond it.
  lemma ResetIsDelivered(me: Endpoint, peer: Endpoint, id: StreamID, end: nat)
    requires Safe(World(me, peer)) && Message(id, end) in peer.resets
    ensures WasReset(me.mgr, id, end) == Received(me.mgr, id, end)
    ensures id in peer.sent && end <= peer.sent[id]
  {
    hide Total;
  }

  lemma DeliverResetIsSafe(me: Endpoint, peer: Endpoint, id: StreamID, end: nat)
    requires Safe(World(me, peer)) && Message(id, end) in peer.resets
    ensures WasReset(me.mgr, id, end).1 == if id in me.mgr.streams then Ok else UnknownStream
    ensures Safe(World(AfterReceived(me, WasReset(me.mgr, id, end).0, id), peer))
  {
    hide Total, Funded, SoundLedger, SoundConnection, SoundStreams, WasSent;
    ResetIsDelivered(me, peer, id, end);
    if id in me.mgr.streams {
      DeliverLedger(me, peer, id, end);
      ReceivedSound(me, id, end);
      ReceivedFunds(me, peer, id, end);
    }
  }

  // ----- window updates

  // c' may have a larger window than c and another increment, and is otherwise the same
  ghost predicate Grown(c: Controller, c': Controller) {
    c' == c.(lastWindowUpdate := c'.lastWindowUpdate, receiveWindow := c'.receiveWindow, increment := c'.increment) &&
    c'.receiveWindow >= c.receiveWindow
  }

  lemma UpdatedGrows(c: Controller, k: Clock, initial: nat, max: nat)
    requires Receiving(c, initial, max)
    ensures Receiving(Updated(c, k), initial, max) && Grown(c, Updated(c, k))
  {
  }

  lemma StreamGrows(c: Controller, k: Clock, p: Params)
    requires ReceivingStream(c, p)
    ensures ReceivingStream(Updated(c, k), p) && Grown(c, Updated(c, k))
  {
    UpdatedGrows(c, k, p.receiveStream, p.maxReceiveStream);
  }

  ghost predicate AllReceiving(m: Manager) {
    Receiving(m.conn, m.params.receiveConnection, m.params.maxReceiveConnection) &&
    forall id :: id in m.streams ==> m.streams[id].id == id && ReceivingStream(m.streams[id], m.params)
  }

  ghost predicate AllGrown(m: Manager, m': Manager) {
    m'.params == m.params && m'.streams.Keys == m.streams.Keys && Grown(m.conn, m'.conn) &&
    forall id :: id in m.streams ==> Grown(m.streams[id], m'.streams[id])
  }

  // every update announces a window that has been granted
  ghost predicate Backed(us: seq<WindowUpdate>, m: Manager) {
    forall i :: 0 <= i < |us| ==>
      if us[i].id == 0 then us[i].offset <= m.conn.receiveWindow
      else us[i].id in m.streams && us[i].offset <= m.streams[us[i].id].receiveWindow
  }

  lemma OneGrows(m: Manager, id: StreamID, force: bool, k: Clock)
    requires AllReceiving(m) && id in m.streams && id != 0
    ensures AllReceiving(UpdatedOne(m, id, force, k)) && AllGrown(m, UpdatedOne(m, id, force, k))
    ensures Backed(Announcement(m.streams[id], force, k), UpdatedOne(m, id, force, k))
  {
    hide Receiving, ReceivingStream, Updated;
    StreamGrows(m.streams[id], k, m.params);
    AtLeastGrows(m.conn, ConnectionIncrement(ReportedIncrement(m.streams[id], k)), m.params.receiveConnection,
      m.params.maxReceiveConnection);
  }

  lemma AtLeastGrows(c: Controller, inc: nat, initial: nat, max: nat)
    requires Receiving(c, initial, max)
    ensures Receiving(AtLeast(c, inc), initial, max) && Grown(c, AtLeast(c, inc))
  {
  }

  lemma BackedGrown(us: seq<WindowUpdate>, m: Manager, m': Manager)
    requires Backed(us, m) && AllGrown(m, m')
    ensures Backed(us, m')
  {
  }

  lemma {:induction false} StreamsGrow(m: Manager, order: seq<StreamID>, force: bool, k: Clock)
    requires AllReceiving(m) && Within(order, m.streams.Keys) && 0 !in m.streams
    ensures
      var (m', us) := UpdatedStreams(m, order, force, k);
      AllReceiving(m') && AllGrown(m, m') && Backed(us, m')
    decreases |order|
  {
    if order != [] {
      hide UpdatedOne, AllReceiving, Announcement;
      var last, rest := order[|order| - 1], order[..|order| - 1];
      StreamsGrow(m, rest, force, k);
      var (m1, us) := UpdatedStreams(m, rest, force, k);
      OneGrows(m1, last, force, k);
      BackedGrown(us, m1, UpdatedOne(m1, last, force, k));
    }
  }

  lemma AllGrow(m: Manager, order: seq<StreamID>, force: bool, k: Clock)
    requires AllReceiving(m) && Within(order, m.streams.Keys) && 0 !in m.streams && m.conn.id == 0
    ensures
      var (m', us) := UpdatedAll(m, order, force, k);
      AllReceiving(m') && AllGrown(m, m') && Backed(us, m')
  {
    hide Updated, Receiving, ReceivingStream;
    StreamsGrow(m, order, force, k);
    var (m1, us) := UpdatedStreams(m, order, force, k);
    UpdatedGrows(m1.conn, k, m.params.receiveConnection, m.params.maxReceiveConnection);
    BackedGrown(us, m1, m1.(conn := Updated(m1.conn, k)));
  }

  lemma GrantWire(me: Endpoint, m': Manager, us: seq<WindowUpdate>)
    requires SoundWire(me) && AllGrown(me.mgr, m') && Backed(us, m') && me.mgr.streams.Keys <= me.known
    ensures SoundWire(me.(mgr := m', credits := me.credits + Messages(us)))
  {
  }

  lemma GrantSound(me: Endpoint, order: seq<StreamID>, force: bool, k: Clock)
    requires Sound(me) && Within(order, me.mgr.streams.Keys)
    ensures Sound(AfterGrant(me, order, force, k)) && AllGrown(me.mgr, AfterGrant(me, order, force, k).mgr)
  {
    hide Total, UpdatedAll, SoundWire, Receiving, ReceivingStream;
    assert 0 !in me.mgr.streams;
    AllGrow(me.mgr, order, force, k);
    var (m', us) := UpdatedAll(me.mgr, order, force, k);
    GrantWire(me, m', us);
  }

  lemma GrantIsSafe(me: Endpoint, peer: Endpoint, order: seq<StreamID>, force: bool, k: Clock)
    requires Safe(World(me, peer)) && Within(order, me.mgr.streams.Keys)
    ensures Safe(World(AfterGrant(me, order, force, k), peer))
  {
    hide Total, Funded, UpdatedAll, SoundStreams, SoundLedger, SoundWire, SoundConnection;
    var me' := AfterGrant(me, order, force, k);
    GrantSound(me, order, force, k);
    SendingFunded(me, me', peer);
    ReceivingFunded(peer, me, me');
  }

  // ----- the theorem

  lemma StepIsSafe(me: Endpoint, peer: Endpoint, s: Step)
    requires Safe(World(me, peer)) && Enabled(me, peer, s)
    ensures me.mgr.streams.Keys <= me.read.Keys
    ensures Apply(me, peer, s).1 == Ok || Apply(me, peer, s).1 == UnknownStream
    ensures Safe(World(Apply(me, peer, s).0, peer))
  {
    hide Safe, AfterOpen, AfterClose, AfterSend, AfterResend, AfterSendReset, AfterReceived, AfterRead, AfterGrant,
         AfterCredit, AfterNegotiate, Received, WasReset;
    SafeIsTracked(World(me, peer));
    match s
    case Open(id) => OpenIsSafe(me, peer, id);
    case Close(id) => CloseIsSafe(me, peer, id);
    case Send(id, n) => SendIsSafe(me, peer, id, n);
    case Resend(id, end) => ResendIsSafe(me, peer, id, end);
    case SendReset(id) => SendResetIsSafe(me, peer, id);
    case Deliver(id, end) => DeliverIsSafe(me, peer, id, end);
    case DeliverReset(id, end) => DeliverResetIsSafe(me, peer, id, end);
    case Read(id, n, now) => ReadIsSafe(me, peer, id, n, now);
    case Grant(order, force, clock) => GrantIsSafe(me, peer, order, force, clock);
    case DeliverCredit(id, offset) => CreditIsSafe(me, peer, id, offset);
    case Negotiate(ss, sc) => NegotiateIsSafe(me, peer, ss, sc);
  }

  datatype Move = ByA(step: Step) | ByB(step: Step)

  ghost predicate CanMove(w: World, m: Move) {
    match m
    case ByA(s) => Enabled(w.a, w.b, s)
    case ByB(s) => Enabled(w.b, w.a, s)
  }

  ghost predicate Tracked(w: World) {
    w.a.mgr.streams.Keys <= w.a.read.Keys && w.b.mgr.streams.Keys <= w.b.read.Keys
  }

  ghost function Moved(w: World, m: Move): (r: (World, Status))
    requires CanMove(w, m) && Tracked(w)
  {
    match m
    case ByA(s) => var (a, status) := Apply(w.a, w.b, s); (World(a, w.b), status)
    case ByB(s) => var (b, status) := Apply(w.b, w.a, s); (World(w.a, b), status)
  }

  lemma SafeIsTracked(w: World)
    requires Safe(w)
    ensures Tracked(w)
  {
    hide Total, Funded, SoundStreams, SoundWire, SoundConnection;
  }

  lemma MoveIsSafe(w: World, m: Move)
    requires Safe(w) && CanMove(w, m)
    ensures Tracked(w) && Safe(Moved(w, m).0)
    ensures Moved(w, m).1 == Ok || Moved(w, m).1 == UnknownStream
  {
    hide Sound, Funded, Enabled, Apply;
    SafeIsTracked(w);
    match m
    case ByA(s) => StepIsSafe(w.a, w.b, s);
    case ByB(s) => StepIsSafe(w.b, w.a, s);
  }

  function Start(p: Params): (e: Endpoint) {
    Endpoint(Manager(map[], Created(0, false, p), p), {}, {}, {}, {}, {}, map[], map[], map[])
  }

  // The initial windows that each side assumes are not larger than the ones the other side grants.
  predicate Matching(p: Params, q: Params) {
    p.sendStream <= q.receiveStream && p.sendConnection <= q.receiveConnection &&
    q.sendStream <= p.receiveStream && q.sendConnection <= p.receiveConnection
  }

  predicate Compatible(p: Params, q: Params) {
    SoundParams(p) && SoundParams(q) && Matching(p, q)
  }

  ghost predicate Follows(w: World, m: Move, w': World) {
    Tracked(w) && CanMove(w, m) && w' == Moved(w, m).0
  }

  // a run: worlds ws, each reached from the one before by the corresponding move
  ghost predicate IsRun(p: Params, q: Params, ws: seq<World>, ms: seq<Move>) {
    |ws| == |ms| + 1 && ws[0] == World(Start(p), Start(q)) &&
    forall i :: 0 <= i < |ms| ==> Follows(ws[i], ms[i], ws[i + 1])
  }

  lemma StartIsSafe(p: Params, q: Params)
    requires Compatible(p, q)
    ensures Safe(World(Start(p), Start(q)))
  {
  }

  lemma {:induction false} RunIsSafe(p: Params, q: Params, ws: seq<World>, ms: seq<Move>, i: nat)
    requires Compatible(p, q) && IsRun(p, q, ws, ms) && i < |ws|
    ensures Safe(ws[i])
  {
    hide Safe, CanMove, Moved, Start;
    if i > 0 {
      RunIsSafe(p, q, ws, ms, i - 1);
      assert Follows(ws[i - 1], ms[i - 1], ws[i - 1 + 1]);
      MoveIsSafe(ws[i - 1], ms[i - 1]);
    } else {
      StartIsSafe(p, q);
    }
  }

  // a step that reports too much data, on a stream or on the connection, or data after a reset
  ghost predicate Violates(w: World, m: Move) {
    Tracked(w) && CanMove(w, m) && Moved(w, m).1 != Ok && Moved(w, m).1 != UnknownStream
  }

  // Two-endpoint safety: in no run does a receiver see a violation.
  lemma NoViolation(p: Params, q: Params, ws: seq<World>, ms: seq<Move>)
    requires Compatible(p, q) && IsRun(p, q, ws, ms)
    ensures forall i :: 0 <= i < |ms| ==> !Violates(ws[i], ms[i])
  {
    hide Safe, CanMove, Moved, Start;
    forall i | 0 <= i < |ms| ensures !Violates(ws[i], ms[i]) {
      RunIsSafe(p, q, ws, ms, i);
      assert Follows(ws[i], ms[i], ws[i + 1]);
      MoveIsSafe(ws[i], ms[i]);
    }
  }

  // What the peer may make an endpoint buffer is bounded by the larger of the initial window and the
  // largest increment, and the connection has received exactly the sum over the contributing streams.
  ghost predicate Bounded(e: Endpoint) {
    var m := e.mgr;
    m.conn.bytesRead <= m.conn.highestReceived <=
      m.conn.bytesRead + Max(m.params.receiveConnection, m.params.maxReceiveConnection) &&
    m.conn.highestReceived == Total(e.got) && m.conn.bytesSent == Total(e.sent) && m.conn.bytesRead == Total(e.read) &&
    forall id :: id in m.streams ==>
      m.streams[id].bytesRead <= m.streams[id].highestReceived <=
        m.streams[id].bytesRead + Max(m.params.receiveStream, m.params.maxReceiveStream) &&
      id in e.got && e.got[id] == m.streams[id].highestReceived && id in e.sent && e.sent[id] == m.streams[id].bytesSent
  }

  lemma SoundIsBounded(e: Endpoint)
    requires Sound(e)
    ensures Bounded(e)
  {
    hide Total;
  }

  lemma BufferBound(p: Params, q: Params, ws: seq<World>, ms: seq<Move>, i: nat)
    requires Compatible(p, q) && IsRun(p, q, ws, ms) && i < |ws|
    ensures Bounded(ws[i].a) && Bounded(ws[i].b)
  {
    hide Sound, Funded, Moved, Bounded;
    RunIsSafe(p, q, ws, ms, i);
    SoundIsBounded(ws[i].a);
    SoundIsBounded(ws[i].b);
  }

  ghost predicate WindowsGrow(m: Manager, m': Manager) {
    m'.conn.receiveWindow >= m.conn.receiveWindow &&
    forall id :: id in m.streams && id in m'.streams ==> m'.streams[id].receiveWindow >= m.streams[id].receiveWindow
  }

  // No step takes back a window.
  lemma WindowsOnlyGrow(me: Endpoint, peer: Endpoint, s: Step)
    requires Safe(World(me, peer)) && Enabled(me, peer, s)
    ensures me.mgr.streams.Keys <= me.read.Keys
    ensures WindowsGrow(me.mgr, Apply(me, peer, s).0.mgr)
  {
    hide Total, Funded, Sound, UpdatedAll;
    SafeIsTracked(World(me, peer));
    if s.Grant? {
      GrantSound(me, s.order, s.force, s.clock);
    }
  }

  // ----- the condition on the parameters is exact

  // a controller that an update shrinks: the stream has been read until an update is just due
  function AlmostUsed(increment: nat, max: nat): (c: Controller)
    requires !Steady(increment, max)
  {
    var n := increment - increment / 2 + 1;
    Controller(3, false, 0, 0, Some(0), n, n, increment, increment, max)
  }

  lemma AlmostUsedShrinks(increment: nat, max: nat)
    requires !Steady(increment, max)
    ensures
      var c := AlmostUsed(increment, max);
      Updated(c, Clock(0, 1, 1)).receiveWindow == c.bytesRead + max < c.receiveWindow
  {
    assert Max(1, 1) == 1;
  }

  // Whatever has been read and received, and whenever: no update of a controller takes credit back,
  // exactly if half of its increment is at most one more than the maximum.
  lemma SteadyIsExact(increment: nat, max: nat)
    ensures Steady(increment, max) <==>
      forall c: Controller, k: Clock :: c.increment == increment && c.maxIncrement == max ==>
        Updated(c, k).receiveWindow >= c.receiveWindow
  {
    if !Steady(increment, max) {
      AlmostUsedShrinks(increment, max);
    }
  }

  // initial window 100 and maximum increment 10: read up to 51 bytes, the window falls from 100 to 61
  lemma ShrinkingExample()
    ensures !Steady(100, 10) && AlmostUsed(100, 10).bytesRead == 51
    ensures Updated(AlmostUsed(100, 10), Clock(0, 1, 1)).receiveWindow == 61
  {
    AlmostUsedShrinks(100, 10);
  }

  // A run to a violation if the stream windows are not steady. The receiver reads until an update is
  // due, the sender uses the rest of the first window, and the update takes some of it back. It is on
  // stream 3, which is not counted by the connection.

  function PartlyRead(p: Params): (n: nat) {
    p.receiveStream - p.receiveStream / 2 + 1
  }

  // a peer that assumes no more than is granted, and grants no more than is assumed
  function Sender(p: Params): (q: Params) {
    Params(p.receiveStream, p.receiveConnection, p.sendStream, p.sendConnection, p.sendStream, p.sendConnection)
  }

  function Receivers(p: Params): (es: seq<Endpoint>)
    ensures |es| == 3
  {
    var a1 := AfterOpen(Start(p), 3);
    var a2 := AfterReceived(a1, Received(a1.mgr, 3, PartlyRead(p)).0, 3);
    var a3 := a2.(mgr := Consumed(a2.mgr, 3, PartlyRead(p), 0), read := a2.read[3 := PartlyRead(p)]);
    [a1, a2, a3]
  }

  lemma ReceiverReads(p: Params)
    requires !Steady(p.receiveStream, p.maxReceiveStream)
    ensures
      var es := Receivers(p);
      es[0] == AfterOpen(Start(p), 3) && (forall e :: e in es ==> e.read.Keys == {3}) &&
      es[0].mgr.streams == map[3 := Created(3, false, p)] && es[0].known == {3} &&
      Received(es[0].mgr, 3, PartlyRead(p)).1 == Ok &&
      es[1] == AfterReceived(es[0], Received(es[0].mgr, 3, PartlyRead(p)).0, 3) &&
      es[1].mgr.streams == map[3 := Created(3, false, p).(highestReceived := PartlyRead(p))] && es[1].known == {3} &&
      es[1].read == map[3 := 0] && es[2] == AfterRead(es[1], 3, PartlyRead(p), 0) &&
      es[2].mgr.streams == map[3 := AlmostUsed(p.receiveStream, p.maxReceiveStream)] && es[2].known == {3}
  {
  }

  lemma SenderSends(p: Params, q: Params)
    requires q == Sender(p) && !Steady(p.receiveStream, p.maxReceiveStream)
    ensures
      var n := PartlyRead(p);
      var b1 := AfterOpen(Start(q), 3);
      b1.mgr.streams == map[3 := Created(3, false, q)] && b1.finished == {} && n <= SendableOn(b1.mgr, 3) &&
      b1.read.Keys == {3} &&
      var b2 := AfterSend(b1, 3, n);
      b2.mgr.streams == map[3 := Created(3, false, q).(bytesSent := n)] && b2.finished == {} &&
      b2.frames == {Message(3, n)} && b2.read.Keys == {3} && p.receiveStream - n <= SendableOn(b2.mgr, 3) &&
      var b3 := AfterSend(b2, 3, p.receiveStream - n);
      b3.frames == {Message(3, n), Message(3, p.receiveStream)} && b3.read.Keys == {3} && b3.mgr.streams.Keys == {3}
  {
  }

  lemma WindowIsTakenBack(p: Params)
    requires !Steady(p.receiveStream, p.maxReceiveStream)
    ensures
      var a3 := Receivers(p)[2];
      Listing([3], a3.mgr.streams.Keys) && a3.mgr.streams.Keys == {3} &&
      var a4 := AfterGrant(a3, [3], false, Clock(0, 1, 1));
      a4.known == {3} && a4.read.Keys == {3} && a4.mgr.streams.Keys == {3} &&
      Received(a4.mgr, 3, p.receiveStream).1 == TooMuchData
  {
    hide Receivers;
    ReceiverReads(p);
    AlmostUsedShrinks(p.receiveStream, p.maxReceiveStream);
    assert 3 in [3];
    var a3 := Receivers(p)[2];
    assert UpdatedStreams(a3.mgr, [], false, Clock(0, 1, 1)) == (a3.mgr, []);
    assert [3][..0] == [];
    assert UpdatedStreams(a3.mgr, [3], false, Clock(0, 1, 1)).0 == UpdatedOne(a3.mgr, 3, false, Clock(0, 1, 1));
  }

  lemma Extended(p: Params, q: Params, ws: seq<World>, ms: seq<Move>, m: Move, w: World)
    requires IsRun(p, q, ws, ms) && Follows(ws[|ms|], m, w)
    ensures IsRun(p, q, ws + [w], ms + [m])
  {
    hide Follows, Start;
    forall i | 0 <= i < |ms + [m]| ensures Follows((ws + [w])[i], (ms + [m])[i], (ws + [w])[i + 1]) {
      if i < |ms| { assert Follows(ws[i], ms[i], ws[i + 1]); }
    }
  }

  // some run leads to w
  ghost predicate Reachable(p: Params, q: Params, w: World) {
    exists ws, ms :: IsRun(p, q, ws, ms) && ws[|ms|] == w
  }

  lemma Begin(p: Params, q: Params)
    ensures Reachable(p, q, World(Start(p), Start(q)))
  {
    assert IsRun(p, q, [World(Start(p), Start(q))], []);
  }

  lemma Go(p: Params, q: Params, w: World, m: Move, w': World)
    requires Reachable(p, q, w) && Follows(w, m, w')
    ensures Reachable(p, q, w')
  {
    hide Follows, Start;
    var ws, ms :| IsRun(p, q, ws, ms) && ws[|ms|] == w;
    Extended(p, q, ws, ms, m, w');
    assert (ws + [w'])[|ms + [m]|] == w';
  }

  // some run has a step that reports a violation
  ghost predicate CanViolate(p: Params, q: Params) {
    exists ws, ms, i :: IsRun(p, q, ws, ms) && 0 <= i < |ms| && Violates(ws[i], ms[i])
  }

  lemma GoWrong(p: Params, q: Params, w: World, m: Move)
    requires Reachable(p, q, w) && Violates(w, m)
    ensures CanViolate(p, q)
  {
    hide Start, CanMove, Moved;
    var ws, ms :| IsRun(p, q, ws, ms) && ws[|ms|] == w;
    var w' := Moved(w, m).0;
    Extended(p, q, ws, ms, m, w');
    assert (ws + [w'])[|ms|] == w && (ms + [m])[|ms|] == m;
  }

  lemma RunToUpdate(p: Params, q: Params)
    requires q == Sender(p) && !Steady(p.receiveStream, p.maxReceiveStream)
    ensures Reachable(p, q, World(Receivers(p)[2], AfterSend(AfterOpen(Start(q), 3), 3, PartlyRead(p))))
  {
    hide AfterSend, AfterReceived, AfterRead, Receivers, SendableOn, Reachable;
    ReceiverReads(p);
    SenderSends(p, q);
    var n := PartlyRead(p);
    var es, b1 := Receivers(p), AfterOpen(Start(q), 3);
    var b2 := AfterSend(b1, 3, n);
    Begin(p, q);
    Go(p, q, World(Start(p), Start(q)), ByA(Open(3)), World(es[0], Start(q)));
    Go(p, q, World(es[0], Start(q)), ByB(Open(3)), World(es[0], b1));
    Go(p, q, World(es[0], b1), ByB(Send(3, n)), World(es[0], b2));
    Go(p, q, World(es[0], b2), ByA(Deliver(3, n)), World(es[1], b2));
    Go(p, q, World(es[1], b2), ByA(Read(3, n, 0)), World(es[2], b2));
  }

  lemma StreamViolation(p: Params, q: Params)
    requires q == Sender(p) && !Steady(p.receiveStream, p.maxReceiveStream)
    ensures CanViolate(p, q)
  {
    hide AfterSend, AfterReceived, AfterGrant, Receivers, SendableOn, Reachable, CanViolate, Received, Listing;
    ReceiverReads(p);
    SenderSends(p, q);
    WindowIsTakenBack(p);
    RunToUpdate(p, q);
    var n, a3, b2 := PartlyRead(p), Receivers(p)[2], AfterSend(AfterOpen(Start(q), 3), 3, PartlyRead(p));
    var a4, b3 := AfterGrant(a3, [3], false, Clock(0, 1, 1)), AfterSend(b2, 3, p.receiveStream - n);
    Go(p, q, World(a3, b2), ByB(Send(3, p.receiveStream - n)), World(a3, b3));
    Go(p, q, World(a3, b3), ByA(Grant([3], false, Clock(0, 1, 1))), World(a4, b3));
    GoWrong(p, q, World(a4, b3), ByA(Deliver(3, p.receiveStream)));
  }

  // A run to a violation if the connection window is not steady. A stream may have a window of one byte
  // that never grows, so there is one stream for each byte. All but the last byte arrive, and the receiver
  // reads until an update is due. The last byte is sent, the update takes credit back, and it arrives.

  function ConnectionRead(p: Params): (n: nat) {
    p.receiveConnection - p.receiveConnection / 2 + 1
  }

  // an unsteady connection, with some window for the streams
  predicate Overcommitted(p: Params) {
    p.receiveStream > 0 && !Steady(p.receiveConnection, p.maxReceiveConnection)
  }

  // the receiver's connection after k bytes, of which the first ones were read
  function Filled(p: Params, k: nat): (c: Controller) {
    Created(0, false, p).(highestReceived := k, bytesRead := Min(k, ConnectionRead(p)),
                          lastWindowUpdate := if k == 0 then None else Some(0))
  }

  // k streams have been used and closed
  ghost predicate Stage(p: Params, q: Params, k: nat, w: World) {
    w.a.mgr == Manager(map[], Filled(p, k), p) && (forall id :: id in w.a.known ==> id < 4 + k) &&
    w.b.mgr == Manager(map[], Created(0, false, q).(bytesSent := k), q) && w.b.finished == {} &&
    (forall id :: id in w.b.known ==> id < 4 + k)
  }

  // the last byte of a round is on the way
  ghost predicate OneSent(p: Params, q: Params, k: nat, id: StreamID, b: Endpoint) {
    b.mgr.params == q && b.mgr.streams.Keys == {id} && b.mgr.streams - {id} == map[] &&
    b.mgr.conn == Created(0, false, q).(bytesSent := k + 1) && b.finished == {} && Message(id, 1) in b.frames &&
    b.read.Keys >= {id} && forall i :: i in b.known ==> i < 5 + k
  }

  lemma SendOne(p: Params, q: Params, k: nat, w: World) returns (b: Endpoint)
    requires Overcommitted(p) && q == Sender(p) && k < p.receiveConnection && Stage(p, q, k, w) && Reachable(p, q, w)
    ensures OneSent(p, q, k, 4 + k, b) && Reachable(p, q, World(w.a, b))
  {
    hide Reachable, Steady;
    var id := 4 + k;
    var b1 := AfterOpen(w.b, id);
    b := AfterSend(b1, id, 1);
    assert b1.mgr.streams == map[id := Created(id, true, q)];
    Go(p, q, w, ByB(Open(id)), World(w.a, b1));
    Go(p, q, World(w.a, b1), ByB(Send(id, 1)), World(w.a, b));
  }

  // the receiver opens the stream and takes the byte
  lemma TakeOne(p: Params, q: Params, k: nat, w: World) returns (a: Endpoint)
    requires Overcommitted(p) && k < p.receiveConnection && OneSent(p, q, k, 4 + k, w.b) && Reachable(p, q, w)
    requires w.a.mgr == Manager(map[], Filled(p, k), p) && (forall id :: id in w.a.known ==> id < 4 + k)
    ensures a.mgr.params == p && a.mgr.conn == Filled(p, k).(highestReceived := k + 1)
    ensures a.mgr.streams == map[4 + k := Created(4 + k, true, p).(highestReceived := 1)]
    ensures 4 + k in a.read && (forall id :: id in a.known ==> id < 5 + k) && Reachable(p, q, World(a, w.b))
  {
    hide Reachable, Steady;
    var id := 4 + k;
    var a1 := AfterOpen(w.a, id);
    assert a1.mgr.streams == map[id := Created(id, true, p)];
    Go(p, q, w, ByA(Open(id)), World(a1, w.b));
    a := AfterReceived(a1, Received(a1.mgr, id, 1).0, id);
    Go(p, q, World(a1, w.b), ByA(Deliver(id, 1)), World(a, w.b));
  }

  // and reads it, if it is one of the first
  lemma MaybeRead(p: Params, q: Params, k: nat, w: World) returns (a: Endpoint)
    requires w.a.mgr.params == p && w.a.mgr.conn == Filled(p, k).(highestReceived := k + 1) && Tracked(w)
    requires w.a.mgr.streams == map[4 + k := Created(4 + k, true, p).(highestReceived := 1)]
    requires 4 + k in w.a.read && Reachable(p, q, w)
    ensures a.mgr.params == p && a.mgr.conn == Filled(p, k + 1) && a.mgr.streams.Keys == {4 + k} && 4 + k in a.read
    ensures a.known == w.a.known && Reachable(p, q, World(a, w.b))
  {
    hide Reachable;
    a := w.a;
    if k < ConnectionRead(p) {
      a := AfterRead(w.a, 4 + k, 1, 0);
      Go(p, q, w, ByA(Read(4 + k, 1, 0)), World(a, w.b));
    }
  }

  lemma Round(p: Params, q: Params, k: nat, w: World) returns (w': World)
    requires Overcommitted(p) && q == Sender(p) && k < p.receiveConnection && Stage(p, q, k, w) && Reachable(p, q, w)
    ensures Stage(p, q, k + 1, w') && Reachable(p, q, w')
  {
    hide Reachable, Steady, Filled;
    var b := SendOne(p, q, k, w);
    var a1 := TakeOne(p, q, k, World(w.a, b));
    var a2 := MaybeRead(p, q, k, World(a1, b));
    var a3 := AfterClose(a2, 4 + k);
    Go(p, q, World(a2, b), ByA(Close(4 + k)), World(a3, b));
    w' := World(a3, AfterClose(b, 4 + k));
    Go(p, q, World(a3, b), ByB(Close(4 + k)), w');
  }

  lemma {:induction false} Rounds(p: Params, q: Params, k: nat) returns (w: World)
    requires Overcommitted(p) && q == Sender(p) && k <= p.receiveConnection
    ensures Stage(p, q, k, w) && Reachable(p, q, w)
  {
    hide Reachable, Steady;
    if k == 0 {
      w := World(Start(p), Start(q));
      Begin(p, q);
    } else {
      hide Stage;
      w := Rounds(p, q, k - 1);
      w := Round(p, q, k - 1, w);
    }
  }

  lemma CreditIsTakenBack(p: Params, a: Endpoint)
    requires Overcommitted(p) && a.mgr == Manager(map[], Filled(p, p.receiveConnection - 1), p)
    requires 3 + p.receiveConnection !in a.known
    ensures
      var id := 3 + p.receiveConnection;
      Listing([], a.mgr.streams.Keys) &&
      var a1 := AfterGrant(a, [], false, Clock(0, 1, 1));
      a1.known == a.known && a1.mgr.streams == map[] &&
      var a2 := AfterOpen(a1, id);
      id in a2.known && a2.mgr.streams.Keys == {id} && Received(a2.mgr, id, 1).1 == TooMuchData
  {
    NoneUpdated(a.mgr, false, Clock(0, 1, 1));
    assert Max(1, 1) == 1;
  }

  lemma ConnectionViolation(p: Params, q: Params)
    requires Overcommitted(p) && q == Sender(p)
    ensures CanViolate(p, q)
  {
    hide Reachable, CanViolate, Filled, Received, AfterGrant, Listing;
    assert p.receiveConnection > 0;
    var k := p.receiveConnection - 1;
    var w := Rounds(p, q, k);
    var b := SendOne(p, q, k, w);
    var k0 := Clock(0, 1, 1);
    CreditIsTakenBack(p, w.a);
    var a1 := AfterGrant(w.a, [], false, k0);
    var a2 := AfterOpen(a1, 4 + k);
    Go(p, q, World(w.a, b), ByA(Grant([], false, k0)), World(a1, b));
    Go(p, q, World(a1, b), ByA(Open(4 + k)), World(a2, b));
    GoWrong(p, q, World(a2, b), ByA(Deliver(4 + k, 1)));
  }

  // The condition of NoViolation is exact: no run with any sound peer that matches has a violation, if and
  // only if the stream window is steady, and so is the connection window unless the streams have none.
  lemma SafetyIsExact(p: Params)
    ensures SoundParams(p) <==> forall q | SoundParams(q) && Matching(p, q) :: !CanViolate(p, q)
  {
    hide CanViolate;
    if SoundParams(p) {
      forall q | SoundParams(q) && Matching(p, q) ensures !CanViolate(p, q) {
        NeverViolates(p, q);
      }
    } else {
      var q := Sender(p);
      assert SoundParams(q) && Matching(p, q);
      if Steady(p.receiveStream, p.maxReceiveStream) { ConnectionViolation(p, q); } else { StreamViolation(p, q); }
    }
  }

  lemma NeverViolates(p: Params, q: Params)
    requires Compatible(p, q)
    ensures !CanViolate(p, q)
  {
    hide Start, Follows, Violates, Compatible;
    forall ws, ms | IsRun(p, q, ws, ms) ensures forall i :: 0 <= i < |ms| ==> !Violates(ws[i], ms[i]) {
      NoViolation(p, q, ws, ms);
    }
  }
}
