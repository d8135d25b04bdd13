/**
  The values of the network simulator: connections, scheduled tasks and handler callbacks,
  and what it means for a link between two connections to be in good order.
 */
module SimModel {
  import opened Octets

  /** A connection object, as its position among all objects ever made. */
  type Ref = nat

  datatype Outgoing = Outgoing(message: Bytes, sent: nat, id: nat)

  /** `data` is what the buffer of `size` bytes holds so far; want 0 asks for whatever is there. */
  datatype Incoming = Incoming(size: nat, want: nat, id: nat, data: Bytes)

  datatype Status = Disconnected | Connecting | Connected

  datatype Conn = Conn(
    local: nat, remote: nat, address: nat, minLag: nat, maxLag: nat, bandwidth: nat,
    sending: seq<Outgoing>, reading: seq<Incoming>, received: seq<Bytes>, stamp: nat, state: Status)

  datatype Task =
    | SendTask(c: Ref)
    | ReadTask(c: Ref)
    | ClearTask(c: Ref)
    | NoRouteTask(c: Ref)
    | MessageTask(src: nat, dest: nat, msg: Bytes)
    | AckTask(dest: nat, ok: bool)
    | RequestTask(src: nat, address: nat)
    | AcceptTask(dest: nat)
    | RefuseTask(dest: nat)
    | DisconnectTask(dest: nat)

  datatype Callback =
    | Sent(c: Ref, id: nat, ok: bool)
    | Received(c: Ref, id: nat, data: Bytes)
    | Accepted(c: Ref)
    | Established(c: Ref)
    | Closed(c: Ref)
    | Failed(c: Ref)

  /** A scheduled task's place: its time and its position among the tasks of that time. */
  datatype Slot = Slot(t: nat, i: nat)

  type Pending = map<Slot, Task>

  // ------------------------------------------------------------------ streams

  function Joined(chunks: seq<Bytes>): Bytes {
    if chunks == [] then [] else chunks[0] + Joined(chunks[1..])
  }

  lemma {:induction false} JoinedAppend(xs: seq<Bytes>, ys: seq<Bytes>)
    ensures Joined(xs + ys) == Joined(xs) + Joined(ys)
  {
    if xs == [] {
      assert xs + ys == ys;
    } else {
      assert (xs + ys)[1..] == xs[1..] + ys;
      JoinedAppend(xs[1..], ys);
    }
  }

  lemma JoinedOne(xs: seq<Bytes>, y: Bytes)
    ensures Joined(xs + [y]) == Joined(xs) + y
  {
    JoinedAppend(xs, [y]);
    assert Joined([y]) == y + Joined([]);
  }

  /** The first n messages of a log, one after the other. */
  function Messages(log: seq<Outgoing>, n: nat): Bytes
    requires n <= |log|
  {
    if n == 0 then [] else Messages(log, n - 1) + log[n - 1].message
  }

  lemma {:induction false} MessagesStay(log: seq<Outgoing>, more: seq<Outgoing>, n: nat)
    requires n <= |log|
    ensures Messages(log + more, n) == Messages(log, n)
  {
    if n > 0 {
      MessagesStay(log, more, n - 1);
    }
  }

  /** Results of sends reported to the handler of x, in order. */
  function SentCalls(calls: seq<Callback>, x: Ref): seq<Callback> {
    if calls == [] then []
    else SentCalls(calls[..|calls| - 1], x)
         + (if calls[|calls| - 1].Sent? && calls[|calls| - 1].c == x then [calls[|calls| - 1]] else [])
  }

  /** Reads answered to the handler of y, in order. */
  function ReadCalls(calls: seq<Callback>, y: Ref): seq<Callback> {
    if calls == [] then []
    else ReadCalls(calls[..|calls| - 1], y)
         + (if calls[|calls| - 1].Received? && calls[|calls| - 1].c == y then [calls[|calls| - 1]] else [])
  }

  /** The bytes that some answers hand on, one after the other. */
  function Handed(answers: seq<Callback>): Bytes {
    if answers == [] then []
    else Handed(answers[..|answers| - 1]) + (if answers[|answers| - 1].Received? then answers[|answers| - 1].data
                                             else [])
  }

  ghost predicate HandedFacts(answers: seq<Callback>, bytes: Bytes, n: nat) {
    n == |answers| && Handed(answers) == bytes
  }

  /** These answers hand on these bytes; proofs look inside on demand. */
  ghost predicate HandsOn(answers: seq<Callback>, bytes: Bytes) {
    forall n: nat {:trigger HandedFacts(answers, bytes, n)} :: n == |answers| ==> HandedFacts(answers, bytes, n)
  }

  /** One successful report for each of the first n messages of a log. */
  function Reports(log: seq<Outgoing>, n: nat, x: Ref): seq<Callback>
    requires n <= |log|
  {
    if n == 0 then [] else Reports(log, n - 1, x) + [Sent(x, log[n - 1].id, true)]
  }

  lemma {:induction false} ReportsStay(log: seq<Outgoing>, more: seq<Outgoing>, n: nat, x: Ref)
    requires n <= |log|
    ensures Reports(log + more, n, x) == Reports(log, n, x)
  {
    if n > 0 {
      ReportsStay(log, more, n - 1, x);
    }
  }

  // ------------------------------------------------------------- one direction

  /**
    What is known of the direction from x to y: everything asked to be sent, how many of these
    were acknowledged, the bytes y received and those it handed on, the slot of the one
    message or acknowledgement in flight, the slots of tasks that will go on sending and reading, and
    every read that y was asked for.
   */
  datatype Trace = Trace(log: seq<Outgoing>, acked: nat, got: Bytes, handed: Bytes,
                         flight: Option<Slot>, wake: Slot, readWake: Slot, asked: seq<Incoming>)

  predicate InFlight(task: Task, id: nat) {
    (task.MessageTask? && task.src == id) || (task.AckTask? && task.dest == id)
  }

  predicate Complete(p: Outgoing) {
    p.sent == |p.message|
  }

  /** The sending queue holds the unacknowledged part of the log, only its front begun. */
  ghost predicate QueueOk(sending: seq<Outgoing>, d: Trace) {
    && d.acked + |sending| == |d.log|
    && (forall k {:trigger sending[k]} :: 0 <= k < |sending| ==>
          && sending[k].message != []
          && d.log[d.acked + k].id == sending[k].id && d.log[d.acked + k].message == sending[k].message
          && sending[k].sent <= |sending[k].message| && (k > 0 ==> sending[k].sent == 0))
  }

  /** At most one thing is in flight, exactly one while the front packet is completely sent. */
  ghost predicate FlightOk(pend: Pending, cx: Conn, cy: Conn, d: Trace) {
    && (forall s {:trigger s in pend} :: s in pend && InFlight(pend[s], cx.local) ==> d.flight == Some(s))
    && (d.flight.None? ==> cx.sending == [] || !Complete(cx.sending[0]))
    && (d.flight.Some? ==>
          && d.flight.value in pend && cx.sending != [] && cx.sending[0].sent > 0
          && FlyingOk(pend[d.flight.value], d.flight.value.t, cx, cy))
  }

  ghost predicate FlyingOk(task: Task, t: nat, cx: Conn, cy: Conn)
    requires cx.sending != []
  {
    || (task.MessageTask? && task.src == cx.local && task.dest == cy.local && t <= cx.stamp
        && 0 < |task.msg| <= cx.sending[0].sent)
    || (task == AckTask(cx.local, true) && Complete(cx.sending[0]) && t <= cy.stamp)
  }

  function Flying(pend: Pending, flight: Option<Slot>): Bytes {
    if flight.Some? && flight.value in pend && pend[flight.value].MessageTask? then pend[flight.value].msg else []
  }

  function Begun(sending: seq<Outgoing>): Bytes {
    if sending != [] && sending[0].sent <= |sending[0].message| then sending[0].message[..sending[0].sent] else []
  }

  /** Received bytes, and those in flight after them, are those of the acknowledged and begun packets. */
  ghost predicate StreamOk(flying: Bytes, sending: seq<Outgoing>, d: Trace) {
    d.acked <= |d.log| && d.got + flying == Messages(d.log, d.acked) + Begun(sending)
  }

  function Limit(p: Incoming): nat {
    if p.want == 0 then p.size else p.want
  }

  ghost predicate ReadsOk(reading: seq<Incoming>) {
    forall k {:trigger reading[k]} :: 0 <= k < |reading| ==>
      && reading[k].want <= reading[k].size
      && (if k == 0 && reading[k].want > 0 then |reading[k].data| < reading[k].want else reading[k].data == [])
  }

  function Partial(reading: seq<Incoming>): Bytes {
    if reading == [] then [] else reading[0].data
  }

  /** Bytes handed on, then those in the current buffer, then those waiting, are those received. */
  ghost predicate ReceivedOk(cy: Conn, d: Trace) {
    && ReadsOk(cy.reading) && d.handed + Partial(cy.reading) + Joined(cy.received) == d.got
    && forall k :: 0 <= k < |cy.received| ==> cy.received[k] != []
  }

  /** Whatever can go on has a task that will see to it. */
  ghost predicate WakeOk(pend: Pending, x: Ref, y: Ref, cx: Conn, cy: Conn, d: Trace) {
    && (cx.state == Connected && d.flight.None? && cx.sending != [] ==> d.wake in pend && pend[d.wake] == SendTask(x))
    && (cy.reading != [] && cy.received != [] ==> d.readWake in pend && pend[d.readWake] == ReadTask(y))
  }

  ghost predicate CallsOk(calls: seq<Callback>, x: Ref, y: Ref, d: Trace) {
    && d.acked <= |d.log| && SentCalls(calls, x) == Reports(d.log, d.acked, x) && HandsOn(ReadCalls(calls, y), d.handed)
  }

  /** The answer to a read: as many bytes as it wants, or at most as many as its buffer holds. */
  predicate Meets(read: Incoming, call: Callback) {
    && call.Received? && call.id == read.id
    && if read.want == 0 then |call.data| <= read.size else |call.data| == read.want
  }

  ghost predicate AskedFacts(answers: seq<Callback>, reading: seq<Incoming>, asked: seq<Incoming>, n: nat) {
    && n == |asked| == |answers| + |reading|
    && (forall k {:trigger answers[k]} :: 0 <= k < |answers| ==> Meets(asked[k], answers[k]))
    && (forall k {:trigger reading[k]} :: 0 <= k < |reading| ==> reading[k].(data := []) == asked[|answers| + k])
  }

  /** Reads are answered once each and in order, and the others wait; proofs look inside on demand. */
  ghost predicate AskedOk(answers: seq<Callback>, reading: seq<Incoming>, asked: seq<Incoming>) {
    forall n: nat {:trigger AskedFacts(answers, reading, asked, n)} :: n == |asked| ==>
          AskedFacts(answers, reading, asked, n)
  }

  ghost predicate DirOk(pend: Pending, calls: seq<Callback>, x: Ref, y: Ref, cx: Conn, cy: Conn, d: Trace) {
    && QueueOk(cx.sending, d) && FlightOk(pend, cx, cy, d) && StreamOk(Flying(pend, d.flight), cx.sending, d)
    && ReceivedOk(cy, d) && WakeOk(pend, x, y, cx, cy, d) && CallsOk(calls, x, y, d)
  }

  // ------------------------------------------------- what a direction guarantees

  lemma {:induction false} MessagesPrefix(log: seq<Outgoing>, n: nat, k: nat)
    requires n <= k <= |log|
    ensures Messages(log, n) <= Messages(log, k)
    decreases k - n
  {
    if n < k {
      MessagesPrefix(log, n, k - 1);
    }
  }

  /** What has arrived is always a prefix of what was asked to be sent. */
  lemma ReceivedIsPrefix(pend: Pending, calls: seq<Callback>, x: Ref, y: Ref, cx: Conn, cy: Conn, d: Trace)
    requires DirOk(pend, calls, x, y, cx, cy, d)
    ensures d.got <= Messages(d.log, |d.log|) && Handed(ReadCalls(calls, y)) <= Messages(d.log, |d.log|)
  {
    var sofar := Messages(d.log, d.acked);
    assert d.got <= sofar + Begun(cx.sending);
    assert HandedFacts(ReadCalls(calls, y), d.handed, |ReadCalls(calls, y)|);
    assert Handed(ReadCalls(calls, y)) <= d.got;
    if cx.sending != [] {
      assert Messages(d.log, d.acked + 1) == sofar + cx.sending[0].message;
      MessagesPrefix(d.log, d.acked + 1, |d.log|);
      assert sofar + Begun(cx.sending) <= sofar + cx.sending[0].message;
    }
  }

  /** A report of success comes only after the whole message has arrived. */
  lemma ReportedIsReceived(pend: Pending, calls: seq<Callback>, x: Ref, y: Ref, cx: Conn, cy: Conn, d: Trace)
    requires DirOk(pend, calls, x, y, cx, cy, d)
    ensures Messages(d.log, d.acked) <= d.got && SentCalls(calls, x) == Reports(d.log, d.acked, x)
  {
    var sofar := Messages(d.log, d.acked);
    assert |Flying(pend, d.flight)| <= |Begun(cx.sending)|;
    assert d.got == (sofar + Begun(cx.sending))[..|d.got|];
  }
}
