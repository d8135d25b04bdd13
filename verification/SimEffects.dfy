/**
  What each step of the simulator does: to the connections, to the tasks that are scheduled and
  when they are due, and to the callbacks that are queued.
 */
module SimEffects {
  import opened Octets
  import opened SimModel
  import opened SimSteps
  import opened SimLink
  import opened SimScheduler

  datatype Acceptor = Acceptor(accepting: bool, bandwidth: nat)

  function Max(x: nat, y: nat): (m: nat)
    ensures m >= x && m >= y && (m == x || m == y)
  {
    if x > y then x else y
  }

  // ------------------------------------------------------------- time and tasks

  /** A task, and the moments between which it is due. */
  datatype Expected = Expected(from: nat, to: nat, task: Task)

  /** One lag of c and one moment more after `base`: the lag is below the upper limit, unless the limits are equal. */
  predicate Lagged(base: nat, c: Conn, t: nat) {
    base + 1 + c.minLag <= t && (t < base + 1 + c.maxLag || (c.minLag == c.maxLag && t == base + 1 + c.minLag))
  }

  function Delayed(base: nat, c: Conn, task: Task): (d: Expected)
    ensures forall t: nat :: d.from <= t <= d.to <==> Lagged(base, c, t)
  {
    Expected(base + 1 + c.minLag, if c.minLag == c.maxLag then base + 1 + c.minLag else base + c.maxLag, task)
  }

  /** A task for the next moment. */
  function Soon(w: World, task: Task): Expected {
    Expected(w.time + 1, w.time + 1, task)
  }

  /** A task that c causes at a distance, after all that it caused before. */
  function Away(w: World, c: Conn, task: Task): Expected {
    Delayed(Max(w.time, c.stamp), c, task)
  }

  ghost predicate GainedFacts(before: seq<Entry>, after: seq<Entry>, tasks: seq<Expected>) {
    && |after| == |before| + |tasks| && before <= after
    && forall i {:trigger tasks[i]} :: 0 <= i < |tasks| ==>
         var e := after[|before| + i];
         e.task == tasks[i].task && tasks[i].from <= e.t <= tasks[i].to
  }

  /** Exactly these tasks were accepted since `before`, in this order; proofs look inside on demand. */
  ghost predicate Gained(before: seq<Entry>, after: seq<Entry>, tasks: seq<Expected>) {
    forall u: seq<Entry> {:trigger GainedFacts(before, u, tasks)} :: u == after ==> GainedFacts(before, u, tasks)
  }

  lemma GainedNone(before: seq<Entry>)
    ensures Gained(before, before, [])
  {
    assert GainedFacts(before, before, []);
  }

  lemma GainedOne(before: seq<Entry>, e: Entry, d: Expected)
    requires e.task == d.task && d.from <= e.t <= d.to
    ensures Gained(before, before + [e], [d])
  {
    assert GainedFacts(before, before + [e], [d]);
  }

  lemma GainedThen(a: seq<Entry>, b: seq<Entry>, c: seq<Entry>, x: seq<Expected>, y: seq<Expected>)
    requires Gained(a, b, x) && Gained(b, c, y)
    ensures Gained(a, c, x + y)
  {
    assert GainedFacts(a, b, x) && GainedFacts(b, c, y);
    forall i | 0 <= i < |x + y|
      ensures c[|a| + i].task == (x + y)[i].task && (x + y)[i].from <= c[|a| + i].t <= (x + y)[i].to
    {
      if i >= |x| {
        assert (x + y)[i] == y[i - |x|];
      } else {
        assert (x + y)[i] == x[i];
      }
    }
    assert GainedFacts(a, c, x + y);
  }

  lemma GainedTwo(before: seq<Entry>, e: Entry, f: Entry, d: Expected, d': Expected)
    requires e.task == d.task && d.from <= e.t <= d.to && f.task == d'.task && d'.from <= f.t <= d'.to
    ensures Gained(before, before + [e] + [f], [d, d'])
  {
    assert GainedFacts(before, before + [e] + [f], [d, d']);
  }

  // ----------------------------------------------------------------- outcomes

  /** The state after a step, and the two queues before and after it. */
  datatype Outcome = Outcome(pool: seq<Conn>, connections: map<nat, Ref>, uid: nat, before: seq<Entry>,
                             added: seq<Entry>, queue: seq<Callback>, queued: seq<Callback>)
  {
    /** These callbacks were queued, and these tasks accepted. */
    ghost predicate Adds(calls: seq<Callback>, tasks: seq<Expected>) {
      queued == queue + calls && Gained(before, added, tasks)
    }

    /** No name was given or taken away. */
    ghost predicate Keeps(w: World) {
      connections == w.connections && uid == w.uid
    }

    /** Nothing happened. */
    ghost predicate Idles(w: World) {
      pool == w.pool && Keeps(w) && queued == queue && added == before
    }

    /** When the task accepted last is due. */
    ghost function Last(): nat {
      if added == [] then 0 else added[|added| - 1].t
    }
  }

  /** The connection that an id stands for. */
  function Holder(w: World, id: nat): Option<Ref> {
    if id in w.connections && w.connections[id] < |w.pool| then Some(w.connections[id]) else None
  }

  // ------------------------------------------------------------------ sending

  /** The rest of the front packet, or as much of it as the bandwidth allows. */
  function NextChunk(c: Conn): Bytes
    requires c.sending != [] && c.sending[0].sent <= |c.sending[0].message|
  {
    var rest := c.sending[0].message[c.sending[0].sent..];
    if |rest| <= c.bandwidth then rest else rest[..c.bandwidth]
  }

  /** The connection has bytes to send. */
  predicate Transmits(c: Conn) {
    c.state == Connected && c.sending != [] && c.sending[0].sent < |c.sending[0].message|
  }

  /** handle_send; proofs look inside on demand. */
  ghost predicate SendEffect(w: World, x: Ref, o: Outcome) {
    forall u: Ref {:trigger SendFacts(w, u, o)} :: u == x ==> SendFacts(w, u, o)
  }

  /** The next chunk is on its way, to arrive when the new stamp says. */
  ghost predicate SendFacts(w: World, x: Ref, o: Outcome) {
    && x < |w.pool|
    && var c := w.pool[x];
    if Transmits(c) then
      && o.Keeps(w) && o.Adds([], [Away(w, c, MessageTask(c.local, c.remote, NextChunk(c)))])
      && var front := c.sending[0].(sent := c.sending[0].sent + |NextChunk(c)|);
         o.pool == w.pool[x := c.(sending := [front] + c.sending[1..], stamp := o.Last())]
    else o.Idles(w)
  }

  /** The acknowledgement finds a packet to finish. */
  predicate Heard(w: World, dest: nat) {
    dest in w.connections && w.connections[dest] < |w.pool| && w.pool[w.connections[dest]].sending != []
  }

  function PoppedAt(pool: seq<Conn>, x: Ref): seq<Conn>
    requires x < |pool| && pool[x].sending != []
  {
    pool[x := pool[x].(sending := pool[x].sending[1..])]
  }

  /** handle_ack: the front packet is reported, with whatever result, and the next one will be sent. */
  ghost predicate AckEffect(w: World, dest: nat, ok: bool, o: Outcome) {
    if Heard(w, dest) then
      var x := w.connections[dest];
      && o.Keeps(w) && o.pool == PoppedAt(w.pool, x)
      && o.Adds([Sent(x, w.pool[x].sending[0].id, ok)], [Soon(w, SendTask(x))])
    else o.Idles(w)
  }

  // --------------------------------------------------------------- delivering

  /** The message finds a connected peer. */
  predicate Reaches(w: World, dest: nat) {
    dest in w.connections && w.connections[dest] < |w.pool| && w.pool[w.connections[dest]].state == Connected
  }

  /** A message that reached its peer y wakes the reader of y. */
  function Woken(w: World, y: Ref): seq<Expected>
    requires y < |w.pool|
  {
    if w.pool[y].reading != [] then [Soon(w, ReadTask(y))] else []
  }

  /** The sender has sent its front packet completely. */
  predicate Acknowledges(w: World, src: nat) {
    var x := Holder(w, src);
    x.Some? && w.pool[x.value].sending != [] && Complete(w.pool[x.value].sending[0])
  }

  /** From y an acknowledgement if the packet is complete, the next chunk if not; nothing if the sender is gone. */
  function Answered(w: World, y: Ref, src: nat): seq<Expected>
    requires y < |w.pool|
  {
    var x := Holder(w, src);
    if Acknowledges(w, src) then [Away(w, w.pool[y], AckTask(src, true))]
    else if x.Some? && w.pool[x.value].state == Connected then [Soon(w, SendTask(x.value))]
    else []
  }

  function Rejected(w: World, src: nat): seq<Expected> {
    var x := Holder(w, src);
    if x.Some? then [Away(w, w.pool[x.value], AckTask(src, false))] else []
  }

  /** y has one more message to read; its stamp is that of the acknowledgement, if there is one. */
  ghost predicate DeliveredTo(w: World, y: Ref, msg: Bytes, acks: bool, o: Outcome)
    requires y < |w.pool|
  {
    o.pool == w.pool[y := w.pool[y].(received := w.pool[y].received + [msg],
                                     stamp := if acks then o.Last() else w.pool[y].stamp)]
  }

  /** handle_message. */
  ghost predicate MessageEffect(w: World, src: nat, dest: nat, msg: Bytes, o: Outcome) {
    && o.Keeps(w)
    && if Reaches(w, dest) then
         var y := w.connections[dest];
         && o.Adds([], Woken(w, y) + Answered(w, y, src))
         && DeliveredTo(w, y, msg, Acknowledges(w, src), o)
       else o.pool == w.pool && o.Adds([], Rejected(w, src))
  }

  // ------------------------------------------------------------------ reading

  /** What there is for the front reader: its buffer so far, then the bytes that wait. */
  function Available(c: Conn): Bytes
    requires c.reading != []
  {
    c.reading[0].data + Joined(c.received)
  }

  /** What it gets of that: as many bytes as it wants, or as its buffer holds. */
  function Taken(c: Conn): Bytes
    requires c.reading != []
  {
    var most := if c.reading[0].want > 0 then c.reading[0].want else c.reading[0].size;
    if |Available(c)| <= most then Available(c) else Available(c)[..most]
  }

  /** handle_read has bytes for a reader. */
  predicate Reads(c: Conn) {
    c.state == Connected && c.reading != [] && c.received != []
  }

  /** The front reader is answered: it takes what there is, or there is as much as it wants. */
  predicate Answers(c: Conn) {
    Reads(c) && (c.reading[0].want == 0 || |Available(c)| >= c.reading[0].want)
  }

  /** What is left of c after a read: no byte is lost, and an unanswered reader has them all in its buffer. */
  ghost predicate ReadFrom(c: Conn, c': Conn) {
    if !Reads(c) then c' == c
    else if Answers(c) then
      && c' == c.(reading := c.reading[1..], received := c'.received)
      && Taken(c) + Joined(c'.received) == Available(c)
    else c' == c.(reading := [c.reading[0].(data := Available(c))] + c.reading[1..], received := [])
  }

  /** handle_read: an answered reader hears of it, and the next one will be looked after. */
  ghost predicate ReadEffect(w: World, y: Ref, o: Outcome) {
    && y < |w.pool| == |o.pool| && o.Keeps(w) && o.pool == w.pool[y := o.pool[y]] && ReadFrom(w.pool[y], o.pool[y])
    && if Answers(w.pool[y]) then
         o.Adds([Received(y, w.pool[y].reading[0].id, Taken(w.pool[y]))], [Soon(w, ReadTask(y))])
       else o.Adds([], [])
  }

  // ------------------------------------------------- connecting and disconnecting

  /** connect; proofs look inside on demand. */
  ghost predicate ConnectEffect(w: World, x: Ref, o: Outcome) {
    forall u: Ref {:trigger ConnectFacts(w, u, o)} :: u == x ==> ConnectFacts(w, u, o)
  }

  /** A new id, and a request under way; nothing without an address. */
  ghost predicate ConnectFacts(w: World, x: Ref, o: Outcome) {
    && x < |w.pool|
    && var c := w.pool[x];
    if c.address == 0 then o.Idles(w)
    else
      && o.uid == w.uid + 1 && o.connections == w.connections[w.uid + 1 := x]
      && o.pool == w.pool[x := c.(state := Connecting, local := w.uid + 1, stamp := o.Last())]
      && o.Adds([], [Away(w, c, RequestTask(w.uid + 1, c.address))])
  }

  function Smaller(a: nat, b: nat): (m: nat)
    ensures m <= a && m <= b && (m == a || m == b)
  {
    if a < b then a else b
  }

  /** The end that a granted request makes, with stamp t, and what it makes of the one that asked. */
  ghost predicate Peered(pool: seq<Conn>, pool': seq<Conn>, x: Ref, limit: nat, id: nat, t: nat)
    requires x < |pool|
  {
    var bandwidth := Smaller(limit, pool[x].bandwidth);
    pool' == pool[x := pool[x].(bandwidth := bandwidth, remote := id)]
             + [Conn(id, pool[x].local, 0, pool[x].minLag, pool[x].maxLag, bandwidth, [], [], [], t, Connected)]
  }

  /** An acceptor that is not accepting is reported. */
  function Warned(acceptor: Acceptor, x: Ref, t: nat): seq<Expected> {
    if acceptor.accepting then [] else [Expected(t, t, NoRouteTask(x))]
  }

  /** The tasks that follow a decision: those that start the new end, or a refusal. */
  function Decision(w: World, src: nat, granted: bool, t: nat): seq<Expected> {
    if granted then [Soon(w, ReadTask(|w.pool|)), Soon(w, SendTask(|w.pool|)), Expected(t, t, AcceptTask(src))]
    else [Expected(t, t, RefuseTask(src))]
  }

  /** What a decision makes of the connections, and who hears of it. */
  ghost predicate Settled(w: World, x: Ref, limit: nat, granted: bool, t: nat, o: Outcome)
    requires x < |w.pool|
  {
    if granted then
      && o.uid == w.uid + 1 && o.connections == w.connections[w.uid + 1 := |w.pool|]
      && Peered(w.pool, o.pool, x, limit, w.uid + 1, t)
      && o.queued == o.queue + [Accepted(|w.pool|), Established(|w.pool|)]
    else o.Keeps(w) && o.pool == w.pool && o.queued == o.queue
  }

  /** handle_request, for a request that finds its connection and an acceptor: all answers are due at one time t. */
  ghost predicate RequestEffect(w: World, src: nat, acceptor: Acceptor, granted: bool, t: nat, o: Outcome) {
    var x := Holder(w, src);
    && x.Some? && Lagged(w.time, w.pool[x.value], t) && Settled(w, x.value, acceptor.bandwidth, granted, t, o)
    && Gained(o.before, o.added, Warned(acceptor, x.value, t) + Decision(w, src, granted, t))
  }

  /** handle_accept: the end is connected, hears of it, and will look for something to read and to send. */
  ghost predicate AcceptEffect(w: World, dest: nat, o: Outcome) {
    var x := Holder(w, dest);
    if x.None? then o.Idles(w)
    else
      && o.Keeps(w) && o.pool == w.pool[x.value := w.pool[x.value].(state := Connected)]
      && o.Adds([Established(x.value)], [Soon(w, ReadTask(x.value)), Soon(w, SendTask(x.value))])
  }

  /** handle_refuse: the end hears of it, and will drop its queues. */
  ghost predicate RefuseEffect(w: World, dest: nat, o: Outcome) {
    var x := Holder(w, dest);
    if x.None? then o.Idles(w)
    else
      && o.Keeps(w) && o.pool == w.pool[x.value := w.pool[x.value].(state := Disconnected)]
      && o.Adds([Failed(x.value)], [Soon(w, ClearTask(x.value))])
  }

  /** x without its id and its peer. */
  function Closing(w: World, x: Ref, stamp: nat): seq<Conn>
    requires x < |w.pool|
  {
    w.pool[x := w.pool[x].(local := 0, remote := 0, state := Disconnected, stamp := stamp)]
  }

  /** disconnect: the connection hears of it and will drop its queues; the peer hears after all it was sent. */
  ghost predicate DisconnectEffect(w: World, x: Ref, o: Outcome) {
    && x < |w.pool|
    && var c := w.pool[x];
    if c.state != Connected then o.Idles(w)
    else
      && o.uid == w.uid && o.connections == w.connections - {c.local} && o.pool == Closing(w, x, o.Last())
      && o.Adds([Closed(x)], [Soon(w, ClearTask(x)), Away(w, c, DisconnectTask(c.remote))])
  }

  /** handle_disconnect: the other end closed.  An end that is not connected yet is left alone. */
  ghost predicate PeerClosedEffect(w: World, dest: nat, o: Outcome) {
    var x := Holder(w, dest);
    if x.None? || w.pool[x.value].state == Connecting then o.Idles(w)
    else
      && o.uid == w.uid && o.connections == w.connections - {w.pool[x.value].local}
      && o.pool == Closing(w, x.value, w.pool[x.value].stamp)
      && o.Adds([Closed(x.value)], [Soon(w, ClearTask(x.value))])
  }

  /** One report of failure for each packet, in order. */
  function Cancelled(x: Ref, sending: seq<Outgoing>): seq<Callback> {
    if sending == [] then [] else [Callback.Sent(x, sending[0].id, false)] + Cancelled(x, sending[1..])
  }

  /** One error for each of n reads. */
  function Aborted(x: Ref, n: nat): seq<Callback> {
    if n == 0 then [] else Aborted(x, n - 1) + [Failed(x)]
  }

  /** cancel_operations and clear_queues. */
  ghost predicate ClearEffect(w: World, x: Ref, o: Outcome) {
    && x < |w.pool| && o.Keeps(w) && o.added == o.before
    && o.pool == w.pool[x := w.pool[x].(sending := [], reading := [], received := [])]
    && o.queued == o.queue + Cancelled(x, w.pool[x].sending) + Aborted(x, |w.pool[x].reading|)
  }

  // ---------------------------------------------------------------- every task

  /** What a task does when it runs; `granted` is what an acceptor's handler says, and t when it is heard. */
  ghost predicate Effect(w: World, task: Task, acceptors: map<nat, Acceptor>, granted: bool, t: nat, o: Outcome) {
    match task
    case SendTask(c) => SendEffect(w, c, o)
    case ReadTask(c) => ReadEffect(w, c, o)
    case ClearTask(c) => ClearEffect(w, c, o)
    case NoRouteTask(c) => o.pool == w.pool && o.Keeps(w) && o.added == o.before && o.queued == o.queue + [Failed(c)]
    case MessageTask(src, dest, msg) => MessageEffect(w, src, dest, msg, o)
    case AckTask(dest, ok) => AckEffect(w, dest, ok, o)
    case RequestTask(src, address) =>
      address in acceptors && RequestEffect(w, src, acceptors[address], granted, t, o)
    case AcceptTask(dest) => AcceptEffect(w, dest, o)
    case RefuseTask(dest) => RefuseEffect(w, dest, o)
    case DisconnectTask(dest) => PeerClosedEffect(w, dest, o)
  }
}
