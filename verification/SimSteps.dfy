/** What each event does to one direction of a link. */
module SimSteps {
  import opened Octets
  import opened SimModel

  /** From p to q all tasks stay, but for the one at `taken`. */
  ghost predicate Keeps(p: Pending, q: Pending, taken: Slot) {
    forall s {:trigger s in p} {:trigger s in q} :: s in p && s != taken ==> s in q && q[s] == p[s]
  }

  /** From p to q nothing new is in flight for `id`. */
  ghost predicate NoNewFlight(p: Pending, q: Pending, id: nat) {
    forall s {:trigger s in q} :: s in q && InFlight(q[s], id) ==> s in p && p[s] == q[s]
  }

  /** Alike to a peer: all but stamps, which only grow. */
  ghost predicate AlikeSender(c: Conn, c': Conn) {
    c'.sending == c.sending && c'.local == c.local && c'.state == c.state && c.stamp <= c'.stamp
  }

  ghost predicate AlikeReceiver(c: Conn, c': Conn) {
    c'.reading == c.reading && c'.received == c.received && c'.local == c.local && c.stamp <= c'.stamp
  }

  /** A step that takes and adds only tasks of no concern to this direction. */
  lemma DirFrame(p: Pending, q: Pending, calls: seq<Callback>, calls': seq<Callback>, x: Ref, y: Ref,
                 cx: Conn, cy: Conn, cx': Conn, cy': Conn, d: Trace, taken: Slot)
    requires DirOk(p, calls, x, y, cx, cy, d)
    requires AlikeSender(cx, cx') && AlikeReceiver(cy, cy')
    requires Keeps(p, q, taken) && NoNewFlight(p, q, cx.local)
    requires taken in p ==> p[taken] != SendTask(x) && p[taken] != ReadTask(y) && !InFlight(p[taken], cx.local)
    requires SentCalls(calls', x) == SentCalls(calls, x) && ReadCalls(calls', y) == ReadCalls(calls, y)
    ensures DirOk(q, calls', x, y, cx', cy', d)
  {
    FlightFrame(p, q, cx, cy, cx', cy', d, taken);
  }

  lemma FlyingId(task: Task, t: nat, cx: Conn, cy: Conn)
    requires cx.sending != [] && FlyingOk(task, t, cx, cy)
    ensures InFlight(task, cx.local)
  {
  }

  lemma FlightFrame(p: Pending, q: Pending, cx: Conn, cy: Conn, cx': Conn, cy': Conn, d: Trace, taken: Slot)
    requires FlightOk(p, cx, cy, d) && Keeps(p, q, taken) && NoNewFlight(p, q, cx.local)
    requires taken in p ==> !InFlight(p[taken], cx.local)
    requires cx'.local == cx.local && cx'.sending == cx.sending && cx.stamp <= cx'.stamp
    requires cy'.local == cy.local && cy.stamp <= cy'.stamp
    ensures FlightOk(q, cx', cy', d) && Flying(q, d.flight) == Flying(p, d.flight)
  {
    if d.flight.Some? {
      FlyingId(p[d.flight.value], d.flight.value.t, cx, cy);
      assert d.flight.value in q;
    }
  }

  // -------------------------------------------------------------------- sending

  lemma QueuedStream(flying: Bytes, sending: seq<Outgoing>, d: Trace, packet: Outgoing)
    requires QueueOk(sending, d) && StreamOk(flying, sending, d) && packet.message != [] && packet.sent == 0
    ensures QueueOk(sending + [packet], d.(log := d.log + [packet]))
    ensures StreamOk(flying, sending + [packet], d.(log := d.log + [packet]))
  {
    MessagesStay(d.log, [packet], d.acked);
    if sending == [] {
      assert Begun(sending + [packet]) == [];
    } else {
      assert (sending + [packet])[0] == sending[0];
    }
  }

  /** async_send on a connection that can go on at once, or only later. */
  lemma Queued(p: Pending, q: Pending, calls: seq<Callback>, x: Ref, y: Ref, cx: Conn, cy: Conn, d: Trace,
               packet: Outgoing, n: Slot) returns (d': Trace)
    requires DirOk(p, calls, x, y, cx, cy, d) && packet.message != [] && packet.sent == 0 && n !in p
    requires q == if cx.state == Connected then p[n := SendTask(x)] else p
    ensures DirOk(q, calls, x, y, cx.(sending := cx.sending + [packet]), cy, d')
    ensures d' == d.(log := d.log + [packet], wake := n)
  {
    d' := d.(log := d.log + [packet], wake := n);
    QueuedStream(Flying(p, d.flight), cx.sending, d, packet);
    ReportsStay(d.log, [packet], d.acked, x);
    QueuedFlight(p, q, x, cx, cy, d, packet, n, d');
  }

  lemma QueuedFlight(p: Pending, q: Pending, x: Ref, cx: Conn, cy: Conn, d: Trace, packet: Outgoing, n: Slot, d': Trace)
    requires FlightOk(p, cx, cy, d) && n !in p && d'.flight == d.flight && packet.message != [] && packet.sent == 0
    requires q == if cx.state == Connected then p[n := SendTask(x)] else p
    ensures FlightOk(q, cx.(sending := cx.sending + [packet]), cy, d') && Flying(q, d.flight) == Flying(p, d.flight)
  {
    if cx.sending != [] {
      assert (cx.sending + [packet])[0] == cx.sending[0];
    }
  }

  /** handle_send with nothing to send, or waiting for an acknowledgement. */
  lemma NothingSent(p: Pending, calls: seq<Callback>, x: Ref, y: Ref, cx: Conn, cy: Conn, d: Trace, taken: Slot)
    requires DirOk(p, calls, x, y, cx, cy, d) && taken in p && p[taken] == SendTask(x)
    requires cx.state != Connected || cx.sending == [] || Complete(cx.sending[0])
    ensures DirOk(p - {taken}, calls, x, y, cx, cy, d)
  {
    FlightFrame(p, p - {taken}, cx, cy, cx, cy, d, taken);
  }

  function Advanced(sending: seq<Outgoing>, k: nat): seq<Outgoing>
    requires sending != []
  {
    [sending[0].(sent := sending[0].sent + k)] + sending[1..]
  }

  function Chunk(front: Outgoing, k: nat): Bytes
    requires front.sent + k <= |front.message|
  {
    front.message[front.sent..front.sent + k]
  }

  lemma ChunkStream(sending: seq<Outgoing>, d: Trace, k: nat, d': Trace)
    requires QueueOk(sending, d) && StreamOk([], sending, d) && sending != []
    requires sending[0].sent + k <= |sending[0].message| && d' == d.(flight := d'.flight)
    ensures QueueOk(Advanced(sending, k), d') && StreamOk(Chunk(sending[0], k), Advanced(sending, k), d')
  {
    var front := sending[0];
    assert front.message[..front.sent + k] == front.message[..front.sent] + Chunk(front, k);
    Longer(d.got, Messages(d.log, d.acked), Begun(sending), Chunk(front, k));
  }

  lemma Longer(got: Bytes, m: Bytes, b: Bytes, c: Bytes)
    requires got + [] == m + b
    ensures got + c == m + (b + c)
  {
    assert got == m + b;
  }

  /** handle_send of the next k bytes, with nothing in flight. */
  lemma ChunkSent(p: Pending, q: Pending, calls: seq<Callback>, x: Ref, y: Ref, cx: Conn, cy: Conn, d: Trace,
                  k: nat, taken: Slot, n: Slot) returns (d': Trace)
    requires DirOk(p, calls, x, y, cx, cy, d) && d.flight == None && taken in p && p[taken] == SendTask(x) && n !in p
    requires cx.sending != [] && 0 < k && cx.sending[0].sent + k <= |cx.sending[0].message| && cx.stamp < n.t
    requires q == (p - {taken})[n := MessageTask(cx.local, cy.local, Chunk(cx.sending[0], k))]
    ensures d' == d.(flight := Some(n))
    ensures DirOk(q, calls, x, y, cx.(sending := Advanced(cx.sending, k), stamp := n.t), cy, d')
  {
    d' := d.(flight := Some(n));
    ChunkStream(cx.sending, d, k, d');
    ChunkFlight(p, q, cx, cy, d, k, taken, n, d');
  }

  lemma ChunkFlight(p: Pending, q: Pending, cx: Conn, cy: Conn, d: Trace, k: nat, taken: Slot, n: Slot, d': Trace)
    requires FlightOk(p, cx, cy, d) && d.flight == None && n !in p && d'.flight == Some(n)
    requires cx.sending != [] && 0 < k && cx.sending[0].sent + k <= |cx.sending[0].message|
    requires q == (p - {taken})[n := MessageTask(cx.local, cy.local, Chunk(cx.sending[0], k))]
    ensures FlightOk(q, cx.(sending := Advanced(cx.sending, k), stamp := n.t), cy, d')
    ensures Flying(q, d'.flight) == Chunk(cx.sending[0], k)
  {
    assert Advanced(cx.sending, k)[0].sent == cx.sending[0].sent + k;
  }

  /** handle_send of a begun packet while its earlier part is still in flight: now two are. */
  lemma Pipelined(p: Pending, q: Pending, calls: seq<Callback>, x: Ref, y: Ref, cx: Conn, cy: Conn, d: Trace,
                  taken: Slot, n: Slot, task: Task) returns (other: Slot)
    requires DirOk(p, calls, x, y, cx, cy, d) && d.flight != None && taken in p && p[taken] == SendTask(x) && n !in p
    requires q == (p - {taken})[n := task] && InFlight(task, cx.local)
    ensures other != n && other in q && n in q && InFlight(q[other], cx.local) && InFlight(q[n], cx.local)
  {
    other := d.flight.value;
    FlyingId(p[other], other.t, cx, cy);
  }

  // ----------------------------------------------------------------- delivering

  /** handle_message; what follows is an acknowledgement or the next chunk. */
  lemma Delivered(p: Pending, q: Pending, calls: seq<Callback>, x: Ref, y: Ref, cx: Conn, cy: Conn, d: Trace,
                  msg: Bytes, taken: Slot, r: Slot, n: Slot, cy': Conn) returns (d': Trace)
    requires DirOk(p, calls, x, y, cx, cy, d) && taken in p && p[taken] == MessageTask(cx.local, cy.local, msg)
    requires n !in p && (cy.reading != [] ==> r !in p && r != n) && cx.sending != []
    requires q == WithRead(p - {taken}, y, cy, r)[n := After(x, cx)]
    requires cy' == cy.(received := cy.received + [msg], stamp := cy'.stamp) && cy.stamp <= cy'.stamp
    requires Complete(cx.sending[0]) ==> n.t <= cy'.stamp
    ensures DirOk(q, calls, x, y, cx, cy', d') && d'.got == d.got + msg && d'.log == d.log && d'.acked == d.acked
    ensures d'.asked == d.asked
    ensures d'.flight == if Complete(cx.sending[0]) then Some(n) else None
  {
    d' := d.(got := d.got + msg, flight := if Complete(cx.sending[0]) then Some(n) else None,
             wake := n, readWake := if cy.reading != [] then r else d.readWake);
    assert d.flight == Some(taken);
    DeliveredStream(cx.sending, cy, d, msg, d', cy');
    DeliveredFlight(p, q, x, y, cx, cy, d, msg, taken, r, n, cy', d');
    DeliveredWake(p, q, x, y, cx, cy, taken, r, n, cy', d');
  }

  lemma DeliveredStream(sending: seq<Outgoing>, cy: Conn, d: Trace, msg: Bytes, d': Trace, cy': Conn)
    requires StreamOk(msg, sending, d) && ReceivedOk(cy, d) && msg != []
    requires d'.got == d.got + msg && d'.log == d.log && d'.acked == d.acked && d'.handed == d.handed
    requires cy'.received == cy.received + [msg] && cy'.reading == cy.reading
    ensures StreamOk([], sending, d') && ReceivedOk(cy', d')
  {
    JoinedOne(cy.received, msg);
    assert d'.got + [] == d.got + msg;
    assert d.handed + Partial(cy.reading) + (Joined(cy.received) + msg) ==
           d.handed + Partial(cy.reading) + Joined(cy.received) + msg;
  }

  lemma DeliveredWake(p: Pending, q: Pending, x: Ref, y: Ref, cx: Conn, cy: Conn, taken: Slot, r: Slot, n: Slot,
                      cy': Conn, d': Trace)
    requires n !in p && (cy.reading != [] ==> r !in p && r != n) && cx.sending != []
    requires q == WithRead(p - {taken}, y, cy, r)[n := After(x, cx)] && cy'.reading == cy.reading
    requires d'.flight == (if Complete(cx.sending[0]) then Some(n) else None) && d'.wake == n
             && (cy.reading != [] ==> d'.readWake == r)
    ensures WakeOk(q, x, y, cx, cy', d')
  {
  }

  function WithRead(p: Pending, y: Ref, cy: Conn, r: Slot): Pending {
    if cy.reading != [] then p[r := ReadTask(y)] else p
  }

  function After(x: Ref, cx: Conn): Task
    requires cx.sending != []
  {
    if Complete(cx.sending[0]) then AckTask(cx.local, true) else SendTask(x)
  }

  lemma DeliveredFlight(p: Pending, q: Pending, x: Ref, y: Ref, cx: Conn, cy: Conn, d: Trace,
                        msg: Bytes, taken: Slot, r: Slot, n: Slot, cy': Conn, d': Trace)
    requires FlightOk(p, cx, cy, d) && d.flight == Some(taken) && taken in p
             && p[taken] == MessageTask(cx.local, cy.local, msg)
    requires n !in p && (cy.reading != [] ==> r !in p && r != n) && cx.sending != []
    requires q == WithRead(p - {taken}, y, cy, r)[n := After(x, cx)]
    requires cy'.local == cy.local && (Complete(cx.sending[0]) ==> n.t <= cy'.stamp)
    requires d'.flight == if Complete(cx.sending[0]) then Some(n) else None
    ensures FlightOk(q, cx, cy', d') && Flying(q, d'.flight) == []
  {
  }

  lemma AckedStream(sending: seq<Outgoing>, d: Trace, d': Trace)
    requires QueueOk(sending, d) && StreamOk([], sending, d) && sending != [] && Complete(sending[0])
    requires d'.log == d.log && d'.acked == d.acked + 1 && d'.got == d.got
    ensures QueueOk(sending[1..], d') && StreamOk([], sending[1..], d')
  {
    var front := sending[0];
    assert d.log[d.acked].message == front.message;
    assert front.message[..front.sent] == front.message;
    assert Begun(sending[1..]) == [] by {
      if |sending| > 1 {
        assert sending[1..][0] == sending[1];
      }
    }
    forall k | 0 <= k < |sending[1..]| ensures sending[1..][k] == sending[k + 1] {
    }
  }

  lemma OneMoreReport(calls: seq<Callback>, x: Ref, y: Ref, log: seq<Outgoing>, n: nat, report: Callback)
    requires n < |log| && SentCalls(calls, x) == Reports(log, n, x) && report == Sent(x, log[n].id, true)
    ensures SentCalls(calls + [report], x) == Reports(log, n + 1, x)
    ensures ReadCalls(calls + [report], y) == ReadCalls(calls, y)
  {
    assert (calls + [report])[..|calls|] == calls;
  }

  /** handle_ack: the front packet is done and reported. */
  lemma Acknowledged(p: Pending, q: Pending, calls: seq<Callback>, x: Ref, y: Ref, cx: Conn, cy: Conn, d: Trace,
                     taken: Slot, n: Slot) returns (d': Trace)
    requires DirOk(p, calls, x, y, cx, cy, d) && taken in p && p[taken].AckTask? && p[taken].dest == cx.local && n !in p
    requires q == (p - {taken})[n := SendTask(x)]
    ensures cx.sending != [] && Complete(cx.sending[0]) && p[taken].ok
    ensures DirOk(q, calls + [Sent(x, cx.sending[0].id, true)], x, y, cx.(sending := cx.sending[1..]), cy, d')
    ensures d' == d.(acked := d.acked + 1, flight := None, wake := n)
  {
    assert d.flight == Some(taken);
    d' := d.(acked := d.acked + 1, flight := None, wake := n);
    assert d.log[d.acked].id == cx.sending[0].id;
    AckedStream(cx.sending, d, d');
    OneMoreReport(calls, x, y, d.log, d.acked, Sent(x, cx.sending[0].id, true));
    AckedFlight(p, q, x, cx, cy, d, taken, n, d');
  }

  lemma AckedFlight(p: Pending, q: Pending, x: Ref, cx: Conn, cy: Conn, d: Trace, taken: Slot, n: Slot, d': Trace)
    requires FlightOk(p, cx, cy, d) && QueueOk(cx.sending, d) && d.flight == Some(taken) && d'.flight == None && n !in p
    requires q == (p - {taken})[n := SendTask(x)]
    ensures FlightOk(q, cx.(sending := cx.sending[1..]), cy, d')
  {
    if |cx.sending| > 1 {
      assert cx.sending[1..][0] == cx.sending[1];
    }
  }

  // -------------------------------------------------------------------- reading

  /** handle_read with no data or no reader. */
  lemma NothingRead(p: Pending, calls: seq<Callback>, x: Ref, y: Ref, cx: Conn, cy: Conn, d: Trace, taken: Slot)
    requires DirOk(p, calls, x, y, cx, cy, d) && taken in p && p[taken] == ReadTask(y)
    requires cy.reading == [] || cy.received == []
    ensures DirOk(p - {taken}, calls, x, y, cx, cy, d)
  {
    FlightFrame(p, p - {taken}, cx, cy, cx, cy, d, taken);
  }

  /** handle_read that exhausts the data before the buffer is as full as asked. */
  lemma PartlyRead(p: Pending, calls: seq<Callback>, x: Ref, y: Ref, cx: Conn, cy: Conn, d: Trace,
                   front: Incoming, taken: Slot)
    requires DirOk(p, calls, x, y, cx, cy, d) && taken in p && p[taken] == ReadTask(y) && cy.reading != []
    requires front == cy.reading[0].(data := front.data) && front.data == cy.reading[0].data + Joined(cy.received)
    requires 0 < front.want && |front.data| < front.want
    ensures DirOk(p - {taken}, calls, x, y, cx, cy.(reading := [front] + cy.reading[1..], received := []), d)
  {
    FlightFrame(p, p - {taken}, cx, cy, cx, cy.(reading := [front] + cy.reading[1..], received := []), d, taken);
    assert d.handed + front.data == d.handed + Partial(cy.reading) + Joined(cy.received);
  }

  lemma ServedStream(cy: Conn, d: Trace, data: Bytes, rest: seq<Bytes>, d': Trace)
    requires ReceivedOk(cy, d) && cy.reading != [] && data + Joined(rest) == cy.reading[0].data + Joined(cy.received)
    requires forall k :: 0 <= k < |rest| ==> rest[k] != []
    requires d'.handed == d.handed + data && d'.got == d.got
    ensures ReceivedOk(cy.(reading := cy.reading[1..], received := rest), d')
  {
    assert Partial(cy.reading[1..]) == [] by {
      if |cy.reading| > 1 {
        assert cy.reading[1..][0] == cy.reading[1];
      }
    }
    forall k | 0 <= k < |cy.reading[1..]| ensures cy.reading[1..][k] == cy.reading[k + 1] {
    }
    Handover(d.handed, Partial(cy.reading), Joined(cy.received), data, Joined(rest), d.got);
  }

  lemma Handover(handed: Bytes, part: Bytes, waiting: Bytes, data: Bytes, rest: Bytes, got: Bytes)
    requires handed + part + waiting == got && data + rest == part + waiting
    ensures handed + data + [] + rest == got
  {
    assert handed + part + waiting == handed + (part + waiting);
    assert handed + data + [] + rest == handed + (data + rest);
  }

  lemma AskedPartly(answers: seq<Callback>, reading: seq<Incoming>, asked: seq<Incoming>, front: Incoming)
    requires AskedOk(answers, reading, asked) && reading != [] && front == reading[0].(data := front.data)
    ensures AskedOk(answers, [front] + reading[1..], asked)
  {
    assert AskedFacts(answers, reading, asked, |asked|);
    assert AskedFacts(answers, [front] + reading[1..], asked, |asked|);
  }

  lemma AskedServed(answers: seq<Callback>, reading: seq<Incoming>, asked: seq<Incoming>, call: Callback)
    requires AskedOk(answers, reading, asked) && reading != [] && Meets(reading[0], call)
    ensures AskedOk(answers + [call], reading[1..], asked)
  {
    assert AskedFacts(answers, reading, asked, |asked|);
    assert AskedFacts(answers + [call], reading[1..], asked, |asked|);
  }

  lemma AskedMore(answers: seq<Callback>, reading: seq<Incoming>, asked: seq<Incoming>, packet: Incoming)
    requires AskedOk(answers, reading, asked) && packet.data == []
    ensures AskedOk(answers, reading + [packet], asked + [packet])
  {
    assert AskedFacts(answers, reading, asked, |asked|);
    assert AskedFacts(answers, reading + [packet], asked + [packet], |asked + [packet]|);
  }

  lemma OneMoreRead(calls: seq<Callback>, x: Ref, y: Ref, handed: Bytes, id: nat, data: Bytes)
    requires HandsOn(ReadCalls(calls, y), handed)
    ensures ReadCalls(calls + [Received(y, id, data)], y) == ReadCalls(calls, y) + [Received(y, id, data)]
    ensures HandsOn(ReadCalls(calls + [Received(y, id, data)], y), handed + data)
    ensures SentCalls(calls + [Received(y, id, data)], x) == SentCalls(calls, x)
  {
    assert (calls + [Received(y, id, data)])[..|calls|] == calls;
    var answers := ReadCalls(calls, y);
    assert (answers + [Received(y, id, data)])[..|answers|] == answers;
    assert HandedFacts(answers, handed, |answers|);
    assert HandedFacts(answers + [Received(y, id, data)], handed + data, |answers| + 1);
  }

  /** handle_read that serves the front reader, leaving `rest`. */
  lemma Served(p: Pending, q: Pending, calls: seq<Callback>, x: Ref, y: Ref, cx: Conn, cy: Conn, d: Trace,
               data: Bytes, rest: seq<Bytes>, taken: Slot, n: Slot) returns (d': Trace)
    requires DirOk(p, calls, x, y, cx, cy, d) && taken in p && p[taken] == ReadTask(y) && cy.reading != [] && n !in p
    requires data + Joined(rest) == cy.reading[0].data + Joined(cy.received)
    requires forall k :: 0 <= k < |rest| ==> rest[k] != []
    requires q == (p - {taken})[n := ReadTask(y)]
    ensures DirOk(q, calls + [Received(y, cy.reading[0].id, data)], x, y, cx,
                  cy.(reading := cy.reading[1..], received := rest), d')
    ensures d' == d.(handed := d.handed + data, readWake := n)
  {
    d' := d.(handed := d.handed + data, readWake := n);
    ServedStream(cy, d, data, rest, d');
    OneMoreRead(calls, x, y, d.handed, cy.reading[0].id, data);
    FlightFrame(p, q, cx, cy, cx, cy.(reading := cy.reading[1..], received := rest), d, taken);
  }

  lemma PostedReads(cy: Conn, d: Trace, packet: Incoming, d': Trace)
    requires ReceivedOk(cy, d) && packet.data == [] && packet.want <= packet.size && d'.handed == d.handed
             && d'.got == d.got
    ensures ReceivedOk(cy.(reading := cy.reading + [packet]), d')
  {
    if cy.reading != [] {
      assert (cy.reading + [packet])[0] == cy.reading[0];
    }
    assert Partial(cy.reading + [packet]) == Partial(cy.reading);
  }

  /** async_read. */
  lemma Posted(p: Pending, q: Pending, calls: seq<Callback>, x: Ref, y: Ref, cx: Conn, cy: Conn, d: Trace,
               packet: Incoming, n: Slot) returns (d': Trace)
    requires DirOk(p, calls, x, y, cx, cy, d) && packet.data == [] && packet.want <= packet.size && n !in p
    requires q == if cy.received != [] then p[n := ReadTask(y)] else p
    ensures DirOk(q, calls, x, y, cx, cy.(reading := cy.reading + [packet]), d')
    ensures d' == d.(readWake := n, asked := d.asked + [packet])
  {
    d' := d.(readWake := n, asked := d.asked + [packet]);
    PostedReads(cy, d, packet, d');
    assert Keeps(p, q, n) && NoNewFlight(p, q, cx.local);
    FlightFrame(p, q, cx, cy, cx, cy.(reading := cy.reading + [packet]), d, n);
    PostedWake(p, q, x, y, cx, cy, d, packet, n, d');
  }

  lemma PostedWake(p: Pending, q: Pending, x: Ref, y: Ref, cx: Conn, cy: Conn, d: Trace, packet: Incoming, n: Slot,
                   d': Trace)
    requires WakeOk(p, x, y, cx, cy, d) && n !in p && q == if cy.received != [] then p[n := ReadTask(y)] else p
    requires d'.flight == d.flight && d'.wake == d.wake && d'.readWake == n
    ensures WakeOk(q, x, y, cx, cy.(reading := cy.reading + [packet]), d')
  {
  }

  // ------------------------------------------------------------------- starting

  /** handle_accept: the initiator may now send. */
  lemma Opened(p: Pending, q: Pending, calls: seq<Callback>, calls': seq<Callback>, x: Ref, y: Ref, cx: Conn, cy: Conn,
               d: Trace, taken: Slot, n: Slot) returns (d': Trace)
    requires DirOk(p, calls, x, y, cx, cy, d) && taken in p && p[taken] == AcceptTask(cx.local)
    requires Keeps(p, q, taken) && NoNewFlight(p, q, cx.local) && n in q && q[n] == SendTask(x)
    requires SentCalls(calls', x) == SentCalls(calls, x) && ReadCalls(calls', y) == ReadCalls(calls, y)
    ensures DirOk(q, calls', x, y, cx.(state := Connected), cy, d') && d' == d.(wake := n)
  {
    d' := d.(wake := n);
    FlightFrame(p, q, cx, cy, cx.(state := Connected), cy, d, taken);
  }

  ghost predicate Unsent(sending: seq<Outgoing>) {
    forall k {:trigger sending[k]} :: 0 <= k < |sending| ==> sending[k].sent == 0 && sending[k].message != []
  }

  ghost predicate Unfilled(reading: seq<Incoming>) {
    forall k {:trigger reading[k]} :: 0 <= k < |reading| ==> reading[k].data == [] && reading[k].want <= reading[k].size
  }

  /** A direction between two connections that never exchanged anything. */
  lemma Untouched(p: Pending, calls: seq<Callback>, x: Ref, y: Ref, cx: Conn, cy: Conn, wake: Slot) returns (d: Trace)
    requires Unsent(cx.sending) && Unfilled(cy.reading) && cy.received == []
    requires forall s {:trigger s in p} :: s in p ==> !InFlight(p[s], cx.local)
    requires SentCalls(calls, x) == [] && ReadCalls(calls, y) == []
    requires cx.state == Connected && cx.sending != [] ==> wake in p && p[wake] == SendTask(x)
    ensures DirOk(p, calls, x, y, cx, cy, d) && d == Trace(cx.sending, 0, [], [], None, wake, wake, cy.reading)
  {
    d := Trace(cx.sending, 0, [], [], None, wake, wake, cy.reading);
    assert Begun(cx.sending) == [] && Partial(cy.reading) == [];
    assert StreamOk([], cx.sending, d);
    assert ReceivedOk(cy, d);
    assert HandedFacts([], [], 0);
    assert FlightOk(p, cx, cy, d);
  }
}
