/**
  Credit-based flow control: one controller per stream and one for the connection. The value
  functions say what each operation does; the classes are the controllers and the manager.
 */
module FlowControl {
  import opened Basics

  type StreamID = nat
  type Time = int

  // connection parameters: the windows granted by the peer and the ones granted to it
  datatype Params = Params(sendStream: nat, sendConnection: nat,
                           receiveStream: nat, receiveConnection: nat,
                           maxReceiveStream: nat, maxReceiveConnection: nat)

  // what auto-tuning looks at
  datatype Clock = Clock(now: Time, smoothedRTT: Time, remoteRTT: Time)

  datatype Controller = Controller(
    id: StreamID, contributes: bool, bytesSent: nat, sendWindow: nat, lastWindowUpdate: Option<Time>,
    bytesRead: nat, highestReceived: nat, receiveWindow: nat, increment: nat, maxIncrement: nat)

  datatype WindowUpdate = WindowUpdate(id: StreamID, offset: nat)

  datatype Status = Ok | UnknownStream | TooMuchData | DataAfterTermination

  // ----- what the operations of a controller do

  function Created(id: StreamID, contributes: bool, p: Params): (c: Controller) {
    var window := if id == 0 then p.receiveConnection else p.receiveStream;
    var max := if id == 0 then p.maxReceiveConnection else p.maxReceiveStream;
    Controller(id, contributes, 0, 0, None, 0, 0, window, window, max)
  }

  // the offset up to which data may be sent; before any window update, the peer's initial window
  function SendLimit(c: Controller, p: Params): (w: nat) {
    if c.sendWindow != 0 then c.sendWindow else if c.id == 0 then p.sendConnection else p.sendStream
  }

  function Sendable(c: Controller, p: Params): (n: nat) {
    if c.bytesSent > SendLimit(c, p) then 0 else SendLimit(c, p) - c.bytesSent
  }

  function Granted(c: Controller, offset: nat): (c': Controller) {
    if offset > c.sendWindow then c.(sendWindow := offset) else c
  }

  function Raised(c: Controller, offset: nat): (c': Controller) {
    if offset > c.highestReceived then c.(highestReceived := offset) else c
  }

  function WasRead(c: Controller, n: nat, now: Time): (c': Controller) {
    c.(lastWindowUpdate := if c.bytesRead == 0 then Some(now) else c.lastWindowUpdate, bytesRead := c.bytesRead + n)
  }

  predicate Violated(c: Controller) {
    c.highestReceived > c.receiveWindow
  }

  // unsigned 64-bit subtraction
  function Sub64(a: nat, b: nat): (d: nat)
    requires a < TWO_64 && b < TWO_64
  {
    if a >= b then a - b else a + TWO_64 - b
  }

  // less than half of the increment is left
  predicate IsDue(c: Controller) {
    c.receiveWindow >= c.bytesRead && c.receiveWindow - c.bytesRead < c.increment / 2
  }

  // the read position is beyond the window, so far that the unsigned difference is small again
  predicate WrapsAround(c: Controller) {
    c.receiveWindow < c.bytesRead && c.receiveWindow + TWO_64 - c.bytesRead < c.increment / 2
  }

  // double the increment if window updates come faster than every two round trips
  function Tuned(c: Controller, k: Clock): (c': Controller) {
    if c.lastWindowUpdate.None? || k.smoothedRTT == 0 then c
    else if k.now - c.lastWindowUpdate.value >= 2 * Max(k.smoothedRTT, k.remoteRTT) then c
    else c.(increment := Min(2 * c.increment, c.maxIncrement))
  }

  function Refreshed(c: Controller, k: Clock): (c': Controller) {
    var t := Tuned(c, k);
    t.(lastWindowUpdate := Some(k.now), receiveWindow := t.bytesRead + t.increment)
  }

  function Updated(c: Controller, k: Clock): (c': Controller) {
    if IsDue(c) then Refreshed(c, k) else c
  }

  // the increment reported by an update: 0 if an update left it alone
  function ReportedIncrement(c: Controller, k: Clock): (inc: nat) {
    if IsDue(c) then (if Tuned(c, k).increment != c.increment then Tuned(c, k).increment else 0) else c.increment
  }

  function AtLeast(c: Controller, inc: nat): (c': Controller) {
    if inc > c.increment then c.(increment := Min(inc, c.maxIncrement), lastWindowUpdate := None) else c
  }

  // ----- auto-tuning over a run of one controller

  datatype Operation = Reading(n: nat, now: Time) | Updating(clock: Clock) | Receiving(offset: nat) | Sending(n: nat)

  function Operated(c: Controller, op: Operation): (c': Controller) {
    match op
    case Reading(n, now) => WasRead(c, n, now)
    case Updating(k) => Updated(c, k)
    case Receiving(offset) => Raised(c, offset)
    case Sending(n) => c.(bytesSent := c.bytesSent + n)
  }

  function OperatedAll(c: Controller, ops: seq<Operation>): (c': Controller) {
    if ops == [] then c else Operated(OperatedAll(c, ops[..|ops| - 1]), ops[|ops| - 1])
  }

  // an update that is due, less than two round trips after the last one or the first read
  predicate IsFast(c: Controller, op: Operation) {
    op.Updating? && c.receiveWindow >= c.bytesRead && c.receiveWindow - c.bytesRead < c.increment / 2 &&
    c.lastWindowUpdate.Some? && op.clock.smoothedRTT != 0 &&
    op.clock.now - c.lastWindowUpdate.value < 2 * Max(op.clock.smoothedRTT, op.clock.remoteRTT)
  }

  function FastUpdates(c: Controller, ops: seq<Operation>): (n: nat) {
    if ops == [] then 0
    else
      var front := ops[..|ops| - 1];
      FastUpdates(c, front) + if IsFast(OperatedAll(c, front), ops[|ops| - 1]) then 1 else 0
  }

  function Doubled(n: nat, times: nat): (r: nat) {
    if times == 0 then n else 2 * Doubled(n, times - 1)
  }

  // In every run of a controller the increment is doubled by each fast update, up to its maximum, and otherwise
  // stays as it is.
  lemma {:induction false} IncrementOfRun(c: Controller, ops: seq<Operation>)
    ensures
      var c', n := OperatedAll(c, ops), FastUpdates(c, ops);
      c'.increment == (if n == 0 then c.increment else Min(Doubled(c.increment, n), c.maxIncrement)) &&
      c'.maxIncrement == c.maxIncrement && c'.id == c.id
  {
    if ops != [] { IncrementOfRun(c, ops[..|ops| - 1]); }
  }

  // After an update that was due, the window is the increment beyond what was read.
  lemma WindowOfRun(c: Controller, ops: seq<Operation>, k: Clock)
    ensures
      var before, after := OperatedAll(c, ops), OperatedAll(c, ops + [Updating(k)]);
      if before.receiveWindow >= before.bytesRead && before.receiveWindow - before.bytesRead < before.increment / 2 then
        after.receiveWindow == before.bytesRead + after.increment && after.lastWindowUpdate == Some(k.now) &&
        after.bytesRead == before.bytesRead
      else after == before
  {
    assert (ops + [Updating(k)])[..|ops|] == ops;
  }

  class FlowController {
    const id: StreamID
    const contributesToConnection: bool
    var bytesSent: nat
    var sendWindow: nat
    var lastWindowUpdateTime: Option<Time>
    var bytesRead: nat
    var highestReceived: nat
    var receiveWindow: nat
    var receiveWindowIncrement: nat
    var maxReceiveWindowIncrement: nat

    ghost function View(): (c: Controller)
      reads this
    {
      Controller(id, contributesToConnection, bytesSent, sendWindow, lastWindowUpdateTime,
                 bytesRead, highestReceived, receiveWindow, receiveWindowIncrement, maxReceiveWindowIncrement)
    }

    constructor (id: StreamID, contributesToConnection: bool, p: Params)
      ensures View() == Created(id, contributesToConnection, p)
    {
      this.id, this.contributesToConnection := id, contributesToConnection;
      bytesSent, sendWindow, lastWindowUpdateTime, bytesRead, highestReceived := 0, 0, None, 0, 0;
      if id == 0 {
        receiveWindow, receiveWindowIncrement := p.receiveConnection, p.receiveConnection;
        maxReceiveWindowIncrement := p.maxReceiveConnection;
      } else {
        receiveWindow, receiveWindowIncrement := p.receiveStream, p.receiveStream;
        maxReceiveWindowIncrement := p.maxReceiveStream;
      }
    }

    method AddBytesSent(n: nat)
      modifies this
      ensures View() == old(View()).(bytesSent := old(bytesSent) + n)
    {
      bytesSent := bytesSent + n;
    }

    // n is the least number that makes up for what is left of the window.
    method SendWindowSize(p: Params) returns (n: nat)
      ensures n == Sendable(View(), p)
      ensures
        var window := if sendWindow != 0 then sendWindow else if id == 0 then p.sendConnection else p.sendStream;
        bytesSent + n >= window && (n > 0 ==> bytesSent + n == window)
    {
      var window := sendWindow;
      if window == 0 {
        window := if id == 0 then p.sendConnection else p.sendStream;
      }
      if bytesSent > window {
        return 0;
      }
      return window - bytesSent;
    }

    method UpdateSendWindow(offset: nat) returns (updated: bool)
      modifies this
      ensures View() == Granted(old(View()), offset)
      ensures updated <==> sendWindow > old(sendWindow)
      ensures sendWindow >= old(sendWindow) && sendWindow >= offset && sendWindow in {old(sendWindow), offset}
    {
      if offset > sendWindow {
        sendWindow := offset;
        return true;
      }
      return false;
    }

    // smaller tells that a higher offset has been seen before
    method UpdateHighestReceived(offset: nat) returns (increment: nat, smaller: bool)
      modifies this
      ensures View() == Raised(old(View()), offset)
      ensures highestReceived == old(highestReceived) + increment
      ensures highestReceived >= offset && highestReceived in {old(highestReceived), offset}
      ensures smaller <==> offset < old(highestReceived)
    {
      if offset == highestReceived {
        return 0, false;
      }
      if offset > highestReceived {
        increment := offset - highestReceived;
        highestReceived := offset;
        return increment, false;
      }
      return 0, true;
    }

    method IncrementHighestReceived(increment: nat)
      modifies this
      ensures View() == old(View()).(highestReceived := old(highestReceived) + increment)
    {
      highestReceived := highestReceived + increment;
    }

    method AddBytesRead(n: nat, now: Time)
      modifies `bytesRead, `lastWindowUpdateTime
      ensures View() == WasRead(old(View()), n, now)
      ensures bytesRead == old(bytesRead) + n
      ensures lastWindowUpdateTime == if old(bytesRead) == 0 then Some(now) else old(lastWindowUpdateTime)
    {
      if bytesRead == 0 {
        lastWindowUpdateTime := Some(now);
      }
      bytesRead := bytesRead + n;
    }

    // The increment is doubled, up to its maximum, if less than two round trips passed since the last update.
    method MaybeAdjustWindowIncrement(k: Clock)
      modifies `receiveWindowIncrement
      ensures View() == Tuned(old(View()), k)
      ensures receiveWindowIncrement ==
              if lastWindowUpdateTime.Some? && k.smoothedRTT != 0 &&
                 k.now - lastWindowUpdateTime.value < 2 * Max(k.smoothedRTT, k.remoteRTT)
              then Min(2 * old(receiveWindowIncrement), maxReceiveWindowIncrement) else old(receiveWindowIncrement)
    {
      if lastWindowUpdateTime.None? {
        return;
      }
      if k.smoothedRTT == 0 {
        return;
      }
      var since := k.now - lastWindowUpdateTime.value;
      if since >= 2 * Max(k.smoothedRTT, k.remoteRTT) {
        return;
      }
      receiveWindowIncrement := Min(2 * receiveWindowIncrement, maxReceiveWindowIncrement);
    }

    // The subtraction is unsigned: a read position beyond the window looks like a huge window, except
    // close to 2^64.
    method MaybeUpdateWindow(k: Clock) returns (due: bool, newIncrement: nat, offset: nat)
      requires receiveWindow < TWO_64 && bytesRead < TWO_64
      modifies `receiveWindowIncrement, `lastWindowUpdateTime, `receiveWindow
      ensures due <==> IsDue(old(View())) || WrapsAround(old(View()))
      ensures View() == if due then Refreshed(old(View()), k) else old(View())
      ensures !WrapsAround(old(View())) ==> newIncrement == ReportedIncrement(old(View()), k)
      ensures WrapsAround(old(View())) ==>
        newIncrement == if receiveWindowIncrement != old(receiveWindowIncrement) then receiveWindowIncrement else 0
      ensures offset == receiveWindow
      ensures if due then receiveWindow == bytesRead + receiveWindowIncrement && lastWindowUpdateTime == Some(k.now)
              else unchanged(this)
    {
      var diff := Sub64(receiveWindow, bytesRead);
      if diff < receiveWindowIncrement / 2 {
        var oldWindowIncrement := receiveWindowIncrement;
        MaybeAdjustWindowIncrement(k);
        newIncrement := if receiveWindowIncrement != oldWindowIncrement then receiveWindowIncrement else 0;
        lastWindowUpdateTime := Some(k.now);
        receiveWindow := bytesRead + receiveWindowIncrement;
        return true, newIncrement, receiveWindow;
      }
      return false, receiveWindowIncrement, receiveWindow;
    }

    method EnsureMinimumWindowIncrement(inc: nat)
      modifies `receiveWindowIncrement, `lastWindowUpdateTime
      ensures View() == AtLeast(old(View()), inc)
      ensures old(receiveWindowIncrement) >= inc ==> unchanged(this)
      ensures old(receiveWindowIncrement) < inc ==>
              receiveWindowIncrement == Min(inc, maxReceiveWindowIncrement) && lastWindowUpdateTime == None
    {
      if inc > receiveWindowIncrement {
        receiveWindowIncrement := Min(inc, maxReceiveWindowIncrement);
        lastWindowUpdateTime := None;
      }
    }

    function CheckFlowControlViolation(): (violated: bool)
      reads this
      ensures violated == Violated(View())
    {
      highestReceived > receiveWindow
    }
  }

  // ----- what the operations of the manager do

  datatype Manager = Manager(streams: map<StreamID, Controller>, conn: Controller, params: Params)

  function Opened(m: Manager, id: StreamID, contributes: bool): (m': Manager) {
    if id in m.streams then m else m.(streams := m.streams[id := Created(id, contributes, m.params)])
  }

  // check the window of a stream; the connection counts what is new
  function Accounted(m: Manager, id: StreamID, increment: nat): (r: (Manager, Status))
    requires id in m.streams
  {
    if Violated(m.streams[id]) then (m, TooMuchData)
    else if !m.streams[id].contributes then (m, Ok)
    else
      var conn := m.conn.(highestReceived := m.conn.highestReceived + increment);
      (m.(conn := conn), if Violated(conn) then TooMuchData else Ok)
  }

  // data up to an offset was received on a stream
  function Received(m: Manager, id: StreamID, offset: nat): (r: (Manager, Status)) {
    if id !in m.streams then (m, UnknownStream) else
    var c := m.streams[id];
    Accounted(m.(streams := m.streams[id := Raised(c, offset)]), id,
      Raised(c, offset).highestReceived - c.highestReceived)
  }

  function WasReset(m: Manager, id: StreamID, offset: nat): (r: (Manager, Status)) {
    if id in m.streams && offset < m.streams[id].highestReceived then (m, DataAfterTermination)
    else Received(m, id, offset)
  }

  function Consumed(m: Manager, id: StreamID, n: nat, now: Time): (m': Manager) {
    if id !in m.streams then m else
    var m1 := m.(streams := m.streams[id := WasRead(m.streams[id], n, now)]);
    if m.streams[id].contributes then m1.(conn := WasRead(m.conn, n, now)) else m1
  }

  function Sent(m: Manager, id: StreamID, n: nat): (m': Manager) {
    if id !in m.streams then m else
    var c := m.streams[id];
    var m1 := m.(streams := m.streams[id := c.(bytesSent := c.bytesSent + n)]);
    if c.contributes then m1.(conn := m.conn.(bytesSent := m.conn.bytesSent + n)) else m1
  }

  function SendableOn(m: Manager, id: StreamID): (n: nat)
    requires id in m.streams
  {
    var n := Sendable(m.streams[id], m.params);
    if m.streams[id].contributes then Min(n, Sendable(m.conn, m.params)) else n
  }

  function Credited(m: Manager, id: StreamID, offset: nat): (m': Manager) {
    if id == 0 then m.(conn := Granted(m.conn, offset))
    else if id in m.streams then m.(streams := m.streams[id := Granted(m.streams[id], offset)])
    else m
  }

  // the increment that the connection needs when a stream's increment is inc
  function ConnectionIncrement(inc: nat): (r: nat) {
    inc * 3 / 2
  }

  predicate Announced(c: Controller, force: bool) {
    force || IsDue(c)
  }

  // one round of the loop over the streams
  function UpdatedOne(m: Manager, id: StreamID, force: bool, k: Clock): (m': Manager)
    requires id in m.streams
  {
    var c := m.streams[id];
    var inc := ReportedIncrement(c, k);
    m.(streams := m.streams[id := Updated(c, k)],
       conn := if Announced(c, force) && c.contributes && inc != 0
               then AtLeast(m.conn, ConnectionIncrement(inc)) else m.conn)
  }

  function Announcement(c: Controller, force: bool, k: Clock): (us: seq<WindowUpdate>) {
    if Announced(c, force) then [WindowUpdate(c.id, Updated(c, k).receiveWindow)] else []
  }

  ghost predicate Within(order: seq<StreamID>, ids: set<StreamID>) {
    forall i :: 0 <= i < |order| ==> order[i] in ids
  }

  // order lists each of the ids once
  ghost predicate Listing(order: seq<StreamID>, ids: set<StreamID>) {
    Within(order, ids) && (forall id :: id in ids ==> id in order) &&
    (forall i, j :: 0 <= i < j < |order| ==> order[i] != order[j])
  }

  lemma NothingListed(ids: set<StreamID>)
    ensures Listing([], ids - ids) && Within([], ids)
  {
  }

  lemma ListOneMore(order: seq<StreamID>, all: set<StreamID>, todo: set<StreamID>, id: StreamID)
    requires Listing(order, all - todo) && Within(order, all) && id in todo && todo <= all
    ensures Listing(order + [id], all - (todo - {id})) && Within(order + [id], all)
    ensures (order + [id])[..|order|] == order
  {
    forall i | i in all - (todo - {id}) ensures i in order + [id] {
      if i == id { assert (order + [id])[|order|] == id; }
    }
  }

  // the streams in the given order
  function UpdatedStreams(m: Manager, order: seq<StreamID>, force: bool, k: Clock): (r: (Manager, seq<WindowUpdate>))
    requires Within(order, m.streams.Keys)
    ensures r.0.streams.Keys == m.streams.Keys
    decreases |order|
  {
    if order == [] then (m, []) else
    var last := order[|order| - 1];
    var (m1, us) := UpdatedStreams(m, order[..|order| - 1], force, k);
    (UpdatedOne(m1, last, force, k), us + Announcement(m1.streams[last], force, k))
  }

  // all streams, then the connection
  function UpdatedAll(m: Manager, order: seq<StreamID>, force: bool, k: Clock): (r: (Manager, seq<WindowUpdate>))
    requires Within(order, m.streams.Keys)
  {
    var (m1, us) := UpdatedStreams(m, order, force, k);
    (m1.(conn := Updated(m1.conn, k)), us + Announcement(m1.conn, force, k))
  }

  lemma NoneUpdated(m: Manager, force: bool, k: Clock)
    ensures Within([], m.streams.Keys) && UpdatedStreams(m, [], force, k) == (m, [])
  {
  }

  lemma OneMoreUpdated(m: Manager, order: seq<StreamID>, id: StreamID, force: bool, k: Clock)
    requires Within(order, m.streams.Keys) && Within(order + [id], m.streams.Keys)
    ensures
      var (m1, us) := UpdatedStreams(m, order, force, k);
      id in m1.streams &&
      UpdatedStreams(m, order + [id], force, k) ==
      (UpdatedOne(m1, id, force, k), us + Announcement(m1.streams[id], force, k))
  {
    hide UpdatedOne, Announcement;
    assert (order + [id])[..|order|] == order && (order + [id])[|order|] == id;
  }

  lemma AllUpdated(m: Manager, order: seq<StreamID>, force: bool, k: Clock)
    requires Within(order, m.streams.Keys)
    ensures
      var (m1, us) := UpdatedStreams(m, order, force, k);
      UpdatedAll(m, order, force, k) ==
      (m1.(conn := Updated(m1.conn, k)), us + Announcement(m1.conn, force, k))
  {
  }

  // ----- what a round of window updates comes to, whatever the order of the streams

  // What a stream that is announced asks of the connection: one and a half times its increment, unless an update
  // left that alone.
  function Demand(c: Controller, force: bool, k: Clock): (inc: nat) {
    var after := Updated(c, k).increment;
    if !c.contributes || !(force || IsDue(c)) || (IsDue(c) && after == c.increment) then 0 else after + after / 2
  }

  // the demand that counts
  ghost predicate IsTop(conn: Controller, streams: map<StreamID, Controller>, order: seq<StreamID>, id: StreamID,
                        force: bool, k: Clock)
    requires Within(order, streams.Keys)
  {
    id in order && Demand(streams[id], force, k) > conn.increment &&
    forall j :: j in order ==> Demand(streams[j], force, k) <= Demand(streams[id], force, k)
  }

  // the connection after the demands of some streams: the largest counts, within the maximum
  ghost predicate Meets(conn: Controller, conn': Controller, streams: map<StreamID, Controller>, order: seq<StreamID>,
                        force: bool, k: Clock)
    requires Within(order, streams.Keys)
  {
    if forall id :: id in order ==> Demand(streams[id], force, k) <= conn.increment then conn' == conn
    else
      exists id :: IsTop(conn, streams, order, id, force, k) &&
        conn' == conn.(increment := Min(Demand(streams[id], force, k), conn.maxIncrement), lastWindowUpdate := None)
  }

  // exactly the streams that are due, or all if forced, are announced, each once and with its new window
  ghost predicate Announces(us: seq<WindowUpdate>, streams: map<StreamID, Controller>, order: seq<StreamID>,
                            force: bool, k: Clock)
    requires Within(order, streams.Keys)
  {
    (forall id :: id in order && (force || IsDue(streams[id])) ==>
      WindowUpdate(id, Updated(streams[id], k).receiveWindow) in us) &&
    (forall i :: 0 <= i < |us| ==>
      us[i].id in order && (force || IsDue(streams[us[i].id])) &&
      us[i].offset == Updated(streams[us[i].id], k).receiveWindow) &&
    forall i, j :: 0 <= i < j < |us| ==> us[i].id != us[j].id
  }

  lemma OneDemands(m: Manager, id: StreamID, force: bool, k: Clock)
    requires id in m.streams
    ensures UpdatedOne(m, id, force, k) ==
            m.(streams := m.streams[id := Updated(m.streams[id], k)],
               conn := AtLeast(m.conn, Demand(m.streams[id], force, k)))
  {
    var c := m.streams[id];
    var inc := ReportedIncrement(c, k);
    assert ConnectionIncrement(inc) == inc + inc / 2;
  }

  lemma MeetsMore(conn: Controller, conn': Controller, streams: map<StreamID, Controller>, order: seq<StreamID>,
                  id: StreamID, force: bool, k: Clock)
    requires Within(order, streams.Keys) && id in streams && Meets(conn, conn', streams, order, force, k)
    ensures Within(order + [id], streams.Keys)
    ensures Meets(conn, AtLeast(conn', Demand(streams[id], force, k)), streams, order + [id], force, k)
  {
    hide Demand;
    var d := Demand(streams[id], force, k);
    assert forall j :: j in order + [id] <==> j in order || j == id;
    if forall j :: j in order ==> Demand(streams[j], force, k) <= conn.increment {
      if d > conn.increment { assert IsTop(conn, streams, order + [id], id, force, k); }
    } else {
      var top :| IsTop(conn, streams, order, top, force, k) &&
        conn' == conn.(increment := Min(Demand(streams[top], force, k), conn.maxIncrement), lastWindowUpdate := None);
      var best := if d > Demand(streams[top], force, k) then id else top;
      assert IsTop(conn, streams, order + [id], best, force, k);
    }
  }

  lemma AnnouncesMore(us: seq<WindowUpdate>, streams: map<StreamID, Controller>, order: seq<StreamID>, id: StreamID,
                      force: bool, k: Clock)
    requires Within(order, streams.Keys) && id in streams && id !in order && streams[id].id == id
    requires Announces(us, streams, order, force, k)
    ensures Within(order + [id], streams.Keys)
    ensures Announces(us + Announcement(streams[id], force, k), streams, order + [id], force, k)
  {
    hide Updated, IsDue;
    var more := us + Announcement(streams[id], force, k);
    assert forall j :: j in order + [id] <==> j in order || j == id;
    forall j | j in order + [id] && (force || IsDue(streams[j]))
      ensures WindowUpdate(j, Updated(streams[j], k).receiveWindow) in more
    {
      if j == id { assert more[|us|] == WindowUpdate(id, Updated(streams[id], k).receiveWindow); }
    }
  }

  ghost predicate Numbered(streams: map<StreamID, Controller>) {
    forall id :: id in streams ==> streams[id].id == id
  }

  lemma {:induction false} StreamsUpdated(m: Manager, order: seq<StreamID>, force: bool, k: Clock)
    requires Within(order, m.streams.Keys) && Numbered(m.streams)
    requires forall i, j :: 0 <= i < j < |order| ==> order[i] != order[j]
    ensures
      var (m', us) := UpdatedStreams(m, order, force, k);
      m'.params == m.params && Meets(m.conn, m'.conn, m.streams, order, force, k) &&
      Announces(us, m.streams, order, force, k) && m'.streams.Keys == m.streams.Keys &&
      forall id :: id in m.streams ==>
        m'.streams[id] == if id in order then Updated(m.streams[id], k) else m.streams[id]
    decreases |order|
  {
    if order != [] {
      var last, rest := order[|order| - 1], order[..|order| - 1];
      assert order == rest + [last] && last !in rest;
      StreamsUpdated(m, rest, force, k);
      hide Meets, Announces, Updated, AtLeast, Demand, Announcement, UpdatedOne;
      var (m1, us) := UpdatedStreams(m, rest, force, k);
      assert m1.streams[last] == m.streams[last];
      OneDemands(m1, last, force, k);
      MeetsMore(m.conn, m1.conn, m.streams, rest, last, force, k);
      AnnouncesMore(us, m.streams, rest, last, force, k);
    }
  }

  // A round of window updates: every stream and then the connection are updated. The connection first meets the
  // largest demand of all streams. Exactly what is due is announced, or everything if forced.
  ghost predicate IsRound(m: Manager, force: bool, k: Clock, m': Manager, us: seq<WindowUpdate>, all: seq<StreamID>) {
    Listing(all, m.streams.Keys) && m'.params == m.params && m'.streams.Keys == m.streams.Keys &&
    (forall id :: id in m.streams ==> m'.streams[id] == Updated(m.streams[id], k)) &&
    exists conn: Controller ::
      Meets(m.conn, conn, m.streams, all, force, k) && m'.conn == Updated(conn, k) &&
      if force || IsDue(conn) then
        us != [] && us[|us| - 1] == WindowUpdate(conn.id, m'.conn.receiveWindow) &&
        Announces(us[..|us| - 1], m.streams, all, force, k)
      else Announces(us, m.streams, all, force, k)
  }

  lemma LastAnnounced(us: seq<WindowUpdate>, conn: Controller, force: bool, k: Clock)
    ensures
      var all := us + Announcement(conn, force, k);
      if force || IsDue(conn) then
        all != [] && all[|all| - 1] == WindowUpdate(conn.id, Updated(conn, k).receiveWindow) && all[..|all| - 1] == us
      else all == us
  {
  }

  lemma RoundIsExact(m: Manager, order: seq<StreamID>, force: bool, k: Clock)
    requires Listing(order, m.streams.Keys) && Numbered(m.streams)
    ensures var (m', us) := UpdatedAll(m, order, force, k); IsRound(m, force, k, m', us, order)
  {
    assert Within(order, m.streams.Keys);
    StreamsUpdated(m, order, force, k);
    var (m1, us) := UpdatedStreams(m, order, force, k);
    hide Updated, IsDue, Meets, Announces, Announcement, UpdatedStreams;
    LastAnnounced(us, m1.conn, force, k);
    assert Meets(m.conn, m1.conn, m.streams, order, force, k);
  }

  // the values for which unsigned subtraction cannot mislead an update
  predicate InRange(c: Controller) {
    c.receiveWindow < TWO_64 && c.bytesRead + c.increment / 2 <= TWO_64 && c.bytesRead < TWO_64 &&
    c.bytesRead + c.maxIncrement / 2 <= TWO_64
  }

  class FlowControlManager {
    var streams: map<StreamID, FlowController>
    const conn: FlowController
    var params: Params

    ghost function Controllers(): (s: set<FlowController>)
      reads this
    {
      streams.Values + {conn}
    }

    ghost predicate Valid()
      reads this, Controllers()
    {
      conn.id == 0 && conn !in streams.Values &&
      (forall i :: i in streams ==> streams[i].id == i && i != 0)
    }

    ghost function View(): (m: Manager)
      reads this, Controllers()
    {
      Manager(map i | i in streams :: streams[i].View(), conn.View(), params)
    }

    constructor (p: Params)
      ensures Valid() && fresh(Controllers())
      ensures View() == Manager(map[], Created(0, false, p), p)
    {
      streams, params := map[], p;
      conn := new FlowController(0, false, p);
    }

    method NewStream(id: StreamID, contributesToConnection: bool)
      requires Valid() && id != 0
      modifies this
      ensures Valid() && fresh(Controllers() - old(Controllers()))
      ensures View() == Opened(old(View()), id, contributesToConnection)
    {
      if id in streams {
        return;
      }
      var c := new FlowController(id, contributesToConnection, params);
      streams := streams[id := c];
      assert View().streams == Opened(old(View()), id, contributesToConnection).streams;
    }

    method RemoveStream(id: StreamID)
      requires Valid()
      modifies this
      ensures Valid() && Controllers() <= old(Controllers())
      ensures View() == old(View()).(streams := old(View()).streams - {id})
    {
      streams := streams - {id};
      assert View().streams == old(View()).streams - {id};
    }

    // what changes in the view when the controller of one stream changes
    twostate lemma OneChanged(id: StreamID)
      requires old(Valid()) && id in streams && unchanged(this)
      requires forall i :: i in streams && i != id ==> unchanged(streams[i])
      ensures View().streams == old(View()).streams[id := streams[id].View()]
    {
    }

    // Check the window of a stream and count what is new for the connection.
    method Account(id: StreamID, increment: nat) returns (r: Status)
      requires Valid() && id in streams
      modifies conn
      ensures Valid()
      ensures (View(), r) == Accounted(old(View()), id, increment)
    {
      var c := streams[id];
      assert View().streams[id] == c.View();
      if c.CheckFlowControlViolation() {
        return TooMuchData;
      }
      if c.contributesToConnection {
        conn.IncrementHighestReceived(increment);
        assert View().streams == old(View()).streams;
        if conn.CheckFlowControlViolation() {
          return TooMuchData;
        }
      }
      return Ok;
    }

    method UpdateHighestReceived(id: StreamID, offset: nat) returns (r: Status)
      requires Valid()
      modifies Controllers()
      ensures Valid() && (View(), r) == Received(old(View()), id, offset)
      ensures r == UnknownStream <==> id !in streams
      ensures id in streams ==>
              streams[id].highestReceived == Max(old(streams[id].highestReceived), offset) &&
              var more := streams[id].highestReceived - old(streams[id].highestReceived);
              var whole := old(conn.highestReceived) + more;
              (r == TooMuchData <==>
                streams[id].highestReceived > streams[id].receiveWindow ||
                (streams[id].contributesToConnection && whole > conn.receiveWindow)) &&
              (r == Ok && streams[id].contributesToConnection ==> conn.highestReceived == whole) &&
              (r == Ok && !streams[id].contributesToConnection ==> conn.highestReceived == old(conn.highestReceived))
    {
      if id !in streams {
        return UnknownStream;
      }
      var increment, reordered := streams[id].UpdateHighestReceived(offset);
      OneChanged(id);
      r := Account(id, increment);
    }

    method ResetStream(id: StreamID, offset: nat) returns (r: Status)
      requires Valid()
      modifies Controllers()
      ensures Valid() && (View(), r) == WasReset(old(View()), id, offset)
      ensures r == UnknownStream <==> id !in streams
      ensures r == DataAfterTermination <==> id in streams && offset < old(streams[id].highestReceived)
      ensures r == DataAfterTermination ==> View() == old(View())
      ensures id in streams && offset >= old(streams[id].highestReceived) ==>
              (View(), r) == Received(old(View()), id, offset)
    {
      if id !in streams {
        return UnknownStream;
      }
      var increment, smaller := streams[id].UpdateHighestReceived(offset);
      OneChanged(id);
      if smaller {
        assert View().streams == old(View()).streams;
        return DataAfterTermination;
      }
      r := Account(id, increment);
    }

    method AddBytesRead(id: StreamID, n: nat, now: Time) returns (r: Status)
      requires Valid()
      modifies Controllers()
      ensures Valid() && View() == Consumed(old(View()), id, n, now)
      ensures r == if id in streams then Ok else UnknownStream
    {
      if id !in streams {
        return UnknownStream;
      }
      var c := streams[id];
      c.AddBytesRead(n, now);
      if c.contributesToConnection {
        conn.AddBytesRead(n, now);
      }
      OneChanged(id);
      return Ok;
    }

    method AddBytesSent(id: StreamID, n: nat) returns (r: Status)
      requires Valid()
      modifies Controllers()
      ensures Valid() && View() == Sent(old(View()), id, n)
      ensures r == if id in streams then Ok else UnknownStream
    {
      if id !in streams {
        return UnknownStream;
      }
      var c := streams[id];
      c.AddBytesSent(n);
      if c.contributesToConnection {
        conn.AddBytesSent(n);
      }
      OneChanged(id);
      return Ok;
    }

    method SendWindowSize(id: StreamID) returns (n: nat, r: Status)
      requires Valid()
      ensures r == if id in streams then Ok else UnknownStream
      ensures r == Ok ==> n == SendableOn(View(), id)
      ensures r != Ok ==> n == 0
    {
      if id !in streams {
        return 0, UnknownStream;
      }
      var c := streams[id];
      n := c.SendWindowSize(params);
      if c.contributesToConnection {
        var m := conn.SendWindowSize(params);
        n := Min(n, m);
      }
      r := Ok;
    }

    method UpdateWindow(id: StreamID, offset: nat) returns (updated: bool, r: Status)
      requires Valid()
      modifies Controllers()
      ensures Valid() && View() == Credited(old(View()), id, offset)
      ensures r == if id == 0 || id in streams then Ok else UnknownStream
      ensures updated <==> View() != old(View())
      ensures id == 0 ==> conn.sendWindow == Max(old(conn.sendWindow), offset)
      ensures id != 0 && id in streams ==> streams[id].sendWindow == Max(old(streams[id].sendWindow), offset)
    {
      if id == 0 {
        updated := conn.UpdateSendWindow(offset);
        assert View().streams == old(View()).streams;
        return updated, Ok;
      }
      if id !in streams {
        return false, UnknownStream;
      }
      updated := streams[id].UpdateSendWindow(offset);
      OneChanged(id);
      assert !updated ==> View().streams == old(View()).streams;
      return updated, Ok;
    }

    method UpdateOne(id: StreamID, force: bool, k: Clock) returns (us: seq<WindowUpdate>)
      requires Valid() && id in streams && InRange(streams[id].View())
      modifies streams[id], conn
      ensures Valid() && View() == UpdatedOne(old(View()), id, force, k)
      ensures us == Announcement(old(View()).streams[id], force, k)
      ensures old(InRange(conn.View())) ==> InRange(conn.View())
    {
      var c := streams[id];
      us := [];
      var due, inc, offset := c.MaybeUpdateWindow(k);
      if force || due {
        us := [WindowUpdate(id, offset)];
        if c.contributesToConnection && inc != 0 {
          conn.EnsureMinimumWindowIncrement(inc * 3 / 2);
        }
      }
      OneChanged(id);
    }

    method UpdateConnection(force: bool, k: Clock) returns (us: seq<WindowUpdate>)
      requires Valid() && InRange(conn.View())
      modifies conn
      ensures Valid() && View() == old(View()).(conn := Updated(old(View()).conn, k))
      ensures us == Announcement(old(View()).conn, force, k)
    {
      us := [];
      var due, _, offset := conn.MaybeUpdateWindow(k);
      assert View().streams == old(View()).streams;
      if force || due {
        us := [WindowUpdate(0, offset)];
      }
    }

    // The streams come in an arbitrary order, which is returned.
    method GetWindowUpdates(force: bool, k: Clock) returns (us: seq<WindowUpdate>, ghost order: seq<StreamID>)
      requires Valid()
      requires InRange(conn.View()) && forall i :: i in streams ==> InRange(streams[i].View())
      modifies Controllers()
      ensures Valid()
      ensures Listing(order, streams.Keys)
      ensures (View(), us) == UpdatedAll(old(View()), order, force, k)
      ensures IsRound(old(View()), force, k, View(), us, order)
    {
      hide UpdatedOne, Announcement, InRange, Updated, Listing, Within, UpdatedStreams, UpdatedAll, IsRound;
      us, order := [], [];
      var todo := streams.Keys;
      NothingListed(streams.Keys);
      ghost var was := View();
      assert was.streams.Keys == streams.Keys;
      NoneUpdated(was, force, k);
      while todo != {}
        invariant Valid() && unchanged(this) && InRange(conn.View())
        invariant todo <= streams.Keys && Listing(order, streams.Keys - todo) && Within(order, was.streams.Keys)
        invariant forall i :: i in todo ==> InRange(streams[i].View())
        invariant (View(), us) == UpdatedStreams(was, order, force, k)
      {
        var id :| id in todo;
        var u := UpdateOne(id, force, k);
        us := us + u;
        ListOneMore(order, streams.Keys, todo, id);
        OneMoreUpdated(was, order, id, force, k);
        order := order + [id];
        todo := todo - {id};
      }
      assert streams.Keys - todo == streams.Keys;
      AllUpdated(was, order, force, k);
      var u := UpdateConnection(force, k);
      us := us + u;
      RoundIsExact(was, order, force, k);
    }
  }
}
