/** The state of the whole simulation, and one link in it from request to disconnection. */
module SimLink {
  import opened Octets
  import opened SimModel
  import opened SimSteps

  /**
    `calls` lists the callbacks queued for handlers since the watch began, and `ids` the ids that
    anything still speaks of.
   */
  datatype World = World(time: nat, pend: Pending, pool: seq<Conn>, connections: map<nat, Ref>, uid: nat,
                         ids: set<nat>, calls: seq<Callback>)

  // ------------------------------------------------------------- all connections

  ghost predicate PacketsOk(sending: seq<Outgoing>) {
    forall k {:trigger sending[k]} :: 0 <= k < |sending| ==>
      sending[k].message != [] && sending[k].sent <= |sending[k].message|
  }

  ghost predicate ConnOk(c: Conn, ids: set<nat>) {
    && c.local in ids && c.remote in ids && c.bandwidth > 0 && c.minLag <= c.maxLag
    && PacketsOk(c.sending) && ReadsOk(c.reading) && (forall k :: 0 <= k < |c.received| ==> c.received[k] != [])
  }

  /** Tasks speak of connections and ids that exist. */
  predicate RefsOk(task: Task, n: nat, ids: set<nat>) {
    match task
    case SendTask(c) => c < n
    case ReadTask(c) => c < n
    case ClearTask(c) => c < n
    case NoRouteTask(c) => c < n
    case MessageTask(src, dest, msg) => src in ids && dest in ids && msg != []
    case AckTask(dest, _) => dest in ids
    case RequestTask(src, _) => src in ids
    case AcceptTask(dest) => dest in ids
    case RefuseTask(dest) => dest in ids
    case DisconnectTask(dest) => dest in ids
  }

  ghost predicate TasksOk(time: nat, pend: Pending, n: nat, ids: set<nat>) {
    forall s {:trigger s in pend} :: s in pend ==> time <= s.t && RefsOk(pend[s], n, ids)
  }

  /**
    The id that a connection carries names it.  (An id that it carried before may, too: a connection
    that connects again gets a new id and does not give up the old one.)
   */
  ghost predicate IdsOk(pool: seq<Conn>, connections: map<nat, Ref>, uid: nat, ids: set<nat>) {
    && (0 in ids && forall i {:trigger i in ids} :: i in ids ==> i <= uid)
    && (forall i {:trigger i in connections} :: i in connections ==> 0 < i <= uid && connections[i] < |pool|)
    && (forall z {:trigger pool[z]} :: 0 <= z < |pool| && pool[z].local != 0 ==>
          pool[z].local in connections && connections[pool[z].local] == z)
  }

  ghost predicate CallersOk(calls: seq<Callback>, n: nat) {
    forall k {:trigger calls[k]} :: 0 <= k < |calls| ==> calls[k].c < n
  }

  ghost predicate BaseOk(w: World) {
    && TasksOk(w.time, w.pend, |w.pool|, w.ids) && IdsOk(w.pool, w.connections, w.uid, w.ids)
    && CallersOk(w.calls, |w.pool|)
    && forall z {:trigger w.pool[z]} :: 0 <= z < |w.pool| ==> ConnOk(w.pool[z], w.ids)
  }

  // -------------------------------------------------------------- a pair of ends

  /** Each names the other as its remote. */
  ghost predicate Wired(w: World, x: Ref, y: Ref) {
    && x < |w.pool| && y < |w.pool| && x != y
    && w.pool[x].local != 0 && w.pool[y].local != 0
    && w.pool[x].remote == w.pool[y].local && w.pool[y].remote == w.pool[x].local
    && w.pool[x].state != Disconnected && w.pool[y].state != Disconnected
    && w.pool[x].stamp > 0 && w.pool[y].stamp > 0
  }

  /** No one else names either. */
  ghost predicate Private(pool: seq<Conn>, x: Ref, y: Ref)
    requires x < |pool| && y < |pool|
  {
    forall z {:trigger pool[z]} :: 0 <= z < |pool| ==>
      (z != y ==> pool[z].remote != pool[x].local) && (z != x ==> pool[z].remote != pool[y].local)
  }

  /** Nothing pending would end the link or bring bytes into it from outside. */
  predicate QuietTask(task: Task, x: Ref, y: Ref, ix: nat, iy: nat) {
    match task
    case ClearTask(c) => c != x && c != y
    case MessageTask(src, dest, _) => (dest == ix ==> src == iy) && (dest == iy ==> src == ix)
    case RequestTask(src, _) => src != ix && src != iy
    case RefuseTask(dest) => dest != ix && dest != iy
    case DisconnectTask(dest) => dest != ix && dest != iy
    case _ => true
  }

  ghost predicate Quiet(pend: Pending, x: Ref, y: Ref, ix: nat, iy: nat) {
    forall s {:trigger s in pend} :: s in pend ==> QuietTask(pend[s], x, y, ix, iy)
  }

  ghost predicate PairFacts(w: World, x: Ref, y: Ref, d: Trace, e: Trace) {
    && Wired(w, x, y) && Private(w.pool, x, y) && Quiet(w.pend, x, y, w.pool[x].local, w.pool[y].local)
    && DirOk(w.pend, w.calls, x, y, w.pool[x], w.pool[y], d)
    && DirOk(w.pend, w.calls, y, x, w.pool[y], w.pool[x], e)
    && AskedOk(ReadCalls(w.calls, y), w.pool[y].reading, d.asked)
    && AskedOk(ReadCalls(w.calls, x), w.pool[x].reading, e.asked)
  }

  /** Both directions of a link in good order; d is from x to y.  Stated so that proofs look inside on demand. */
  ghost predicate PairOk(w: World, x: Ref, y: Ref, d: Trace, e: Trace) {
    forall u: World {:trigger PairFacts(u, x, y, d, e)} :: u == w ==> PairFacts(u, x, y, d, e)
  }

  lemma PairSwap(w: World, x: Ref, y: Ref, d: Trace, e: Trace)
    requires PairOk(w, x, y, d, e)
    ensures PairOk(w, y, x, e, d)
  {
    assert PairFacts(w, x, y, d, e);
    QuietSwap(w.pend, x, y, w.pool[x].local, w.pool[y].local);
    assert PairFacts(w, y, x, e, d);
  }

  lemma QuietSwap(pend: Pending, x: Ref, y: Ref, ix: nat, iy: nat)
    requires Quiet(pend, x, y, ix, iy)
    ensures Quiet(pend, y, x, iy, ix)
  {
  }

  lemma PairWired(w: World, x: Ref, y: Ref, d: Trace, e: Trace)
    requires PairOk(w, x, y, d, e)
    ensures Wired(w, x, y) && Private(w.pool, x, y) && Quiet(w.pend, x, y, w.pool[x].local, w.pool[y].local)
  {
    assert PairFacts(w, x, y, d, e);
  }

  /**
    Until the initiator a has heard that it is accepted, at `accept`, it sends nothing, and
    whatever is on its way to it comes later.
   */
  ghost predicate OpeningOk(w: World, a: Ref, b: Ref, f: Trace, g: Trace, accept: Slot)
    requires a < |w.pool| && b < |w.pool|
  {
    && w.pool[b].state == Connected
    && (w.pool[a].state == Connecting ==>
          && accept in w.pend && w.pend[accept] == AcceptTask(w.pool[a].local) && accept.t <= w.pool[b].stamp
          && f.flight == None && f.acked == 0 && Unsent(w.pool[a].sending) && w.pool[a].received == []
          && Unfilled(w.pool[a].reading)
          && (g.flight.Some? ==>
                && accept.t < g.flight.value.t && g.flight.value in w.pend
                && w.pend[g.flight.value].MessageTask?))
  }

  /** The link that a asked for: not made yet, in operation with b, or no longer of interest. */
  datatype Link =
    | NotYet(request: Option<Slot>)
    | Live(b: Ref, f: Trace, g: Trace, accept: Slot)
    | Over

  predicate Names(task: Task, id: nat) {
    match task
    case MessageTask(src, dest, _) => src == id || dest == id
    case AckTask(dest, _) => dest == id
    case RequestTask(src, _) => src == id
    case AcceptTask(dest) => dest == id
    case RefuseTask(dest) => dest == id
    case DisconnectTask(dest) => dest == id
    case _ => false
  }

  /** a has asked for nothing, or its request is on its way, or it was refused. */
  ghost predicate NotYetFacts(w: World, a: Ref, request: Option<Slot>) {
    && SentCalls(w.calls, a) == [] && ReadCalls(w.calls, a) == []
    && (request.Some? ==>
          && a < |w.pool| && w.pool[a].state == Connecting && w.pool[a].local != 0
          && request.value in w.pend && w.pend[request.value].RequestTask?
              && w.pend[request.value].src == w.pool[a].local)
    && (a < |w.pool| ==>
          && w.pool[a].state != Connected && w.pool[a].remote == 0
          && w.pool[a].received == [] && Unsent(w.pool[a].sending) && Unfilled(w.pool[a].reading)
          && (w.pool[a].local != 0 ==> w.pool[a].stamp > 0)
          && Unasked(w, a, request))
  }

  ghost predicate Unasked(w: World, a: Ref, request: Option<Slot>)
    requires a < |w.pool|
  {
    && (w.pool[a].local != 0 ==>
          && (forall s {:trigger s in w.pend} :: s in w.pend && Names(w.pend[s], w.pool[a].local) ==>
                if request.Some? then request == Some(s) && w.pend[s].RequestTask? else w.pend[s].RefuseTask?)
          && (forall z {:trigger w.pool[z]} :: 0 <= z < |w.pool| ==> w.pool[z].remote != w.pool[a].local))
    && (forall s {:trigger s in w.pend} :: s in w.pend ==> w.pend[s] != ClearTask(a))
  }

  ghost predicate NotYetOk(w: World, a: Ref, request: Option<Slot>) {
    forall u: World {:trigger NotYetFacts(u, a, request)} :: u == w ==> NotYetFacts(u, a, request)
  }

  ghost predicate LiveOk(w: World, a: Ref, b: Ref, f: Trace, g: Trace, accept: Slot) {
    Wired(w, a, b) && PairOk(w, a, b, f, g) && OpeningOk(w, a, b, f, g, accept)
  }

  ghost predicate LinkOk(w: World, a: Ref, link: Link) {
    match link
    case NotYet(request) => NotYetOk(w, a, request)
    case Live(b, f, g, accept) => LiveOk(w, a, b, f, g, accept)
    case Over => true
  }

  // ------------------------------------------------------ steps beside the pair

  /** From w to w' nothing happens to x, y or what is under way between them. */
  ghost predicate Aside(w: World, w': World, x: Ref, y: Ref, taken: Slot)
    requires x < |w.pool| && y < |w.pool|
  {
    && |w.pool| <= |w'.pool| && w'.pool[x] == w.pool[x] && w'.pool[y] == w.pool[y] && Private(w'.pool, x, y)
    && AsideTasks(w.pend, w'.pend, x, y, w.pool[x].local, w.pool[y].local, taken)
    && SentCalls(w'.calls, x) == SentCalls(w.calls, x) && ReadCalls(w'.calls, x) == ReadCalls(w.calls, x)
    && SentCalls(w'.calls, y) == SentCalls(w.calls, y) && ReadCalls(w'.calls, y) == ReadCalls(w.calls, y)
  }

  predicate Moving(task: Task, x: Ref, ix: nat) {
    task == SendTask(x) || task == ReadTask(x) || InFlight(task, ix)
  }

  ghost predicate AsideTasks(p: Pending, q: Pending, x: Ref, y: Ref, ix: nat, iy: nat, taken: Slot) {
    && Keeps(p, q, taken)
    && (taken in p ==> taken !in q && !Moving(p[taken], x, ix) && !Moving(p[taken], y, iy))
    && (forall s {:trigger s in q} :: s in q && s !in p ==>
          QuietTask(q[s], x, y, ix, iy) && !InFlight(q[s], ix) && !InFlight(q[s], iy))
  }

  lemma PairAside(w: World, w': World, x: Ref, y: Ref, d: Trace, e: Trace, taken: Slot)
    requires Wired(w, x, y) && PairOk(w, x, y, d, e) && Aside(w, w', x, y, taken)
    ensures PairOk(w', x, y, d, e)
  {
    assert PairFacts(w, x, y, d, e);
    var cx, cy := w.pool[x], w.pool[y];
    DirFrame(w.pend, w'.pend, w.calls, w'.calls, x, y, cx, cy, cx, cy, d, taken);
    DirFrame(w.pend, w'.pend, w.calls, w'.calls, y, x, cy, cx, cy, cx, e, taken);
    assert PairFacts(w', x, y, d, e);
  }

  lemma OpeningAside(w: World, w': World, a: Ref, b: Ref, f: Trace, g: Trace, accept: Slot, taken: Slot)
    requires Wired(w, a, b) && PairOk(w, a, b, f, g) && OpeningOk(w, a, b, f, g, accept) && Aside(w, w', a, b, taken)
    requires taken in w.pend ==> w.pend[taken] != AcceptTask(w.pool[a].local)
    ensures OpeningOk(w', a, b, f, g, accept)
  {
    assert PairFacts(w, a, b, f, g);
    if g.flight.Some? {
      FlyingId(w.pend[g.flight.value], g.flight.value.t, w.pool[b], w.pool[a]);
    }
  }

  // ------------------------------------------------------ steps within the pair

  /** Only the connection x changes, and in nothing that others can see. */
  lemma PrivateUpdate(pool: seq<Conn>, x: Ref, y: Ref, z: Ref, c: Conn)
    requires x < |pool| && y < |pool| && z < |pool| && Private(pool, x, y)
    requires c.local == pool[z].local && c.remote == pool[z].remote
    ensures Private(pool[z := c], x, y)
  {
    var pool' := pool[z := c];
    forall k | 0 <= k < |pool'| ensures pool'[k].local == pool[k].local && pool'[k].remote == pool[k].remote {
    }
  }

  lemma PairQueued(w: World, w': World, x: Ref, y: Ref, d: Trace, e: Trace, packet: Outgoing, n: Slot)
    returns (d': Trace)
    requires Wired(w, x, y) && PairOk(w, x, y, d, e) && packet.message != [] && packet.sent == 0 && n !in w.pend
    requires w' == w.(pend := if w.pool[x].state == Connected then w.pend[n := SendTask(x)] else w.pend,
                      pool := w.pool[x := w.pool[x].(sending := w.pool[x].sending + [packet])])
    ensures PairOk(w', x, y, d', e) && d' == d.(log := d.log + [packet], wake := n)
  {
    assert PairFacts(w, x, y, d, e);
    var cx, cy := w.pool[x], w.pool[y];
    d' := QueuedDirs(w.pend, w'.pend, w.calls, x, y, cx, cy, d, e, packet, n);
    PrivateUpdate(w.pool, x, y, x, w'.pool[x]);
    assert PairFacts(w', x, y, d', e);
  }

  lemma QueuedDirs(p: Pending, q: Pending, calls: seq<Callback>, x: Ref, y: Ref, cx: Conn, cy: Conn, d: Trace, e: Trace,
                   packet: Outgoing, n: Slot) returns (d': Trace)
    requires DirOk(p, calls, x, y, cx, cy, d) && DirOk(p, calls, y, x, cy, cx, e)
    requires packet.message != [] && packet.sent == 0 && n !in p
    requires q == if cx.state == Connected then p[n := SendTask(x)] else p
    ensures d' == d.(log := d.log + [packet], wake := n)
    ensures DirOk(q, calls, x, y, cx.(sending := cx.sending + [packet]), cy, d')
    ensures DirOk(q, calls, y, x, cy, cx.(sending := cx.sending + [packet]), e)
  {
    d' := Queued(p, q, calls, x, y, cx, cy, d, packet, n);
    DirFrame(p, q, calls, calls, y, x, cy, cx, cy, cx.(sending := cx.sending + [packet]), e, n);
  }

  lemma PairNothingSent(w: World, w': World, x: Ref, y: Ref, d: Trace, e: Trace, taken: Slot)
    requires Wired(w, x, y) && PairOk(w, x, y, d, e) && taken in w.pend && w.pend[taken] == SendTask(x)
    requires w.pool[x].state != Connected || w.pool[x].sending == [] || Complete(w.pool[x].sending[0])
    requires w' == w.(pend := w.pend - {taken})
    ensures PairOk(w', x, y, d, e)
  {
    assert PairFacts(w, x, y, d, e);
    var cx, cy := w.pool[x], w.pool[y];
    NothingSent(w.pend, w.calls, x, y, cx, cy, d, taken);
    DirFrame(w.pend, w'.pend, w.calls, w.calls, y, x, cy, cx, cy, cx, e, taken);
    assert PairFacts(w', x, y, d, e);
  }

  lemma PairChunk(w: World, w': World, x: Ref, y: Ref, d: Trace, e: Trace, k: nat, taken: Slot, n: Slot)
    returns (d': Trace)
    requires Wired(w, x, y) && PairOk(w, x, y, d, e) && d.flight == None && taken in w.pend
             && w.pend[taken] == SendTask(x) && n !in w.pend
    requires var cx := w.pool[x];
             && cx.sending != [] && 0 < k && cx.sending[0].sent + k <= |cx.sending[0].message| && cx.stamp < n.t
             && w' == w.(pend := (w.pend - {taken})[n := MessageTask(cx.local, cx.remote, Chunk(cx.sending[0], k))],
                         pool := w.pool[x := cx.(sending := Advanced(cx.sending, k), stamp := n.t)])
    ensures PairOk(w', x, y, d', e) && d' == d.(flight := Some(n))
  {
    assert PairFacts(w, x, y, d, e);
    var cx, cy := w.pool[x], w.pool[y];
    d' := ChunkSent(w.pend, w'.pend, w.calls, x, y, cx, cy, d, k, taken, n);
    DirFrame(w.pend, w'.pend, w.calls, w.calls, y, x, cy, cx, cy, w'.pool[x], e, taken);
    PrivateUpdate(w.pool, x, y, x, w'.pool[x]);
    assert PairFacts(w', x, y, d', e);
  }

  lemma PairDelivered(w: World, w': World, x: Ref, y: Ref, d: Trace, e: Trace, msg: Bytes, taken: Slot, r: Slot,
                      n: Slot, stamp: nat)
    returns (d': Trace)
    requires Wired(w, x, y) && PairOk(w, x, y, d, e) && taken in w.pend && n !in w.pend
    requires w.pool[y].reading != [] ==> r !in w.pend && r != n
    requires w.pend[taken] == MessageTask(w.pool[x].local, w.pool[y].local, msg) && w.pool[x].sending != []
    requires w.pool[y].stamp <= stamp && (Complete(w.pool[x].sending[0]) ==> n.t <= stamp)
    requires w' == w.(pend := WithRead(w.pend - {taken}, y, w.pool[y], r)[n := After(x, w.pool[x])],
                      pool := w.pool[y := w.pool[y].(received := w.pool[y].received + [msg], stamp := stamp)])
    ensures PairOk(w', x, y, d', e) && d'.got == d.got + msg && d'.log == d.log && d'.acked == d.acked
    ensures d'.asked == d.asked
    ensures d'.flight == if Complete(w.pool[x].sending[0]) then Some(n) else None
  {
    assert PairFacts(w, x, y, d, e);
    var cx, cy := w.pool[x], w.pool[y];
    var cy' := cy.(received := cy.received + [msg], stamp := stamp);
    d' := Delivered(w.pend, w'.pend, w.calls, x, y, cx, cy, d, msg, taken, r, n, cy');
    DeliveredTasks(w.pend, w'.pend, x, y, cx, cy, taken, r, n);
    DirFrame(w.pend, w'.pend, w.calls, w.calls, y, x, cy, cx, cy', cx, e, taken);
    PrivateUpdate(w.pool, x, y, y, cy');
    assert PairFacts(w', x, y, d', e);
  }

  lemma DeliveredTasks(p: Pending, q: Pending, x: Ref, y: Ref, cx: Conn, cy: Conn, taken: Slot, r: Slot, n: Slot)
    requires Quiet(p, x, y, cx.local, cy.local) && n !in p && (cy.reading != [] ==> r !in p && r != n)
             && cx.sending != [] && cx.local != cy.local
    requires q == WithRead(p - {taken}, y, cy, r)[n := After(x, cx)]
    ensures Keeps(p, q, taken) && NoNewFlight(p, q, cy.local) && Quiet(q, x, y, cx.local, cy.local)
  {
  }

  lemma ReportAside(calls: seq<Callback>, call: Callback, x: Ref, y: Ref)
    requires call.Sent? && call.c == x != y
    ensures SentCalls(calls + [call], y) == SentCalls(calls, y)
    ensures ReadCalls(calls + [call], x) == ReadCalls(calls, x) && ReadCalls(calls + [call], y) == ReadCalls(calls, y)
  {
    assert (calls + [call])[..|calls|] == calls;
  }

  lemma PairAcked(w: World, w': World, x: Ref, y: Ref, d: Trace, e: Trace, taken: Slot, n: Slot) returns (d': Trace)
    requires Wired(w, x, y) && PairOk(w, x, y, d, e) && taken in w.pend && n !in w.pend
    requires w.pend[taken].AckTask? && w.pend[taken].dest == w.pool[x].local && w.pool[x].sending != []
    requires w' == w.(pend := (w.pend - {taken})[n := SendTask(x)],
                      pool := w.pool[x := w.pool[x].(sending := w.pool[x].sending[1..])],
                      calls := w.calls + [Sent(x, w.pool[x].sending[0].id, w.pend[taken].ok)])
    ensures PairOk(w', x, y, d', e) && d' == d.(acked := d.acked + 1, flight := None, wake := n)
    ensures w.pend[taken].ok && Complete(w.pool[x].sending[0])
  {
    assert PairFacts(w, x, y, d, e);
    var cx, cy := w.pool[x], w.pool[y];
    d' := Acknowledged(w.pend, w'.pend, w.calls, x, y, cx, cy, d, taken, n);
    ReportAside(w.calls, w'.calls[|w.calls|], x, y);
    DirFrame(w.pend, w'.pend, w.calls, w'.calls, y, x, cy, cx, cy, w'.pool[x], e, taken);
    PrivateUpdate(w.pool, x, y, x, w'.pool[x]);
    assert PairFacts(w', x, y, d', e);
  }

  lemma PairNothingRead(w: World, w': World, x: Ref, y: Ref, d: Trace, e: Trace, taken: Slot)
    requires Wired(w, x, y) && PairOk(w, x, y, d, e) && taken in w.pend && w.pend[taken] == ReadTask(y)
    requires w.pool[y].reading == [] || w.pool[y].received == []
    requires w' == w.(pend := w.pend - {taken})
    ensures PairOk(w', x, y, d, e)
  {
    assert PairFacts(w, x, y, d, e);
    var cx, cy := w.pool[x], w.pool[y];
    NothingRead(w.pend, w.calls, x, y, cx, cy, d, taken);
    DirFrame(w.pend, w'.pend, w.calls, w.calls, y, x, cy, cx, cy, cx, e, taken);
    assert PairFacts(w', x, y, d, e);
  }

  lemma PairPartlyRead(w: World, w': World, x: Ref, y: Ref, d: Trace, e: Trace, front: Incoming, taken: Slot)
    requires Wired(w, x, y) && PairOk(w, x, y, d, e) && taken in w.pend && w.pend[taken] == ReadTask(y)
             && w.pool[y].reading != []
    requires front == w.pool[y].reading[0].(data := w.pool[y].reading[0].data + Joined(w.pool[y].received))
    requires 0 < front.want && |front.data| < front.want
    requires w' == w.(pend := w.pend - {taken},
                      pool := w.pool[y := w.pool[y].(reading := [front] + w.pool[y].reading[1..], received := [])])
    ensures PairOk(w', x, y, d, e)
  {
    assert PairFacts(w, x, y, d, e);
    var cx, cy := w.pool[x], w.pool[y];
    PartlyRead(w.pend, w.calls, x, y, cx, cy, d, front, taken);
    AskedPartly(ReadCalls(w.calls, y), cy.reading, d.asked, front);
    DirFrame(w.pend, w'.pend, w.calls, w.calls, y, x, cy, cx, w'.pool[y], cx, e, taken);
    PrivateUpdate(w.pool, x, y, y, w'.pool[y]);
    assert PairFacts(w', x, y, d, e);
  }

  lemma PairServed(w: World, w': World, x: Ref, y: Ref, d: Trace, e: Trace, data: Bytes, rest: seq<Bytes>,
                   taken: Slot, n: Slot) returns (d': Trace)
    requires Wired(w, x, y) && PairOk(w, x, y, d, e) && taken in w.pend && w.pend[taken] == ReadTask(y) && n !in w.pend
    requires w.pool[y].reading != [] && data + Joined(rest) == w.pool[y].reading[0].data + Joined(w.pool[y].received)
    requires Meets(w.pool[y].reading[0], Received(y, w.pool[y].reading[0].id, data))
    requires forall k :: 0 <= k < |rest| ==> rest[k] != []
    requires w' == w.(pend := (w.pend - {taken})[n := ReadTask(y)],
                      pool := w.pool[y := w.pool[y].(reading := w.pool[y].reading[1..], received := rest)],
                      calls := w.calls + [Received(y, w.pool[y].reading[0].id, data)])
    ensures PairOk(w', x, y, d', e) && d' == d.(handed := d.handed + data, readWake := n)
  {
    assert PairFacts(w, x, y, d, e);
    var cx, cy := w.pool[x], w.pool[y];
    d' := Served(w.pend, w'.pend, w.calls, x, y, cx, cy, d, data, rest, taken, n);
    AskedServed(ReadCalls(w.calls, y), cy.reading, d.asked, Received(y, cy.reading[0].id, data));
    OneMoreRead(w.calls, x, y, d.handed, cy.reading[0].id, data);
    assert w'.calls[..|w.calls|] == w.calls;
    DirFrame(w.pend, w'.pend, w.calls, w'.calls, y, x, cy, cx, w'.pool[y], cx, e, taken);
    PrivateUpdate(w.pool, x, y, y, w'.pool[y]);
    assert PairFacts(w', x, y, d', e);
  }

  lemma PairPosted(w: World, w': World, x: Ref, y: Ref, d: Trace, e: Trace, packet: Incoming, n: Slot)
    returns (d': Trace)
    requires Wired(w, x, y) && PairOk(w, x, y, d, e) && packet.data == [] && packet.want <= packet.size && n !in w.pend
    requires w' == w.(pend := if w.pool[y].received != [] then w.pend[n := ReadTask(y)] else w.pend,
                      pool := w.pool[y := w.pool[y].(reading := w.pool[y].reading + [packet])])
    ensures PairOk(w', x, y, d', e) && d' == d.(readWake := n, asked := d.asked + [packet])
  {
    assert PairFacts(w, x, y, d, e);
    var cx, cy := w.pool[x], w.pool[y];
    d' := Posted(w.pend, w'.pend, w.calls, x, y, cx, cy, d, packet, n);
    AskedMore(ReadCalls(w.calls, y), cy.reading, d.asked, packet);
    DirFrame(w.pend, w'.pend, w.calls, w.calls, y, x, cy, cx, w'.pool[y], cx, e, n);
    PrivateUpdate(w.pool, x, y, y, w'.pool[y]);
    assert PairFacts(w', x, y, d', e);
  }

  lemma OpenedTasks(p: Pending, q: Pending, x: Ref, y: Ref, ix: nat, iy: nat, taken: Slot, r: Slot, n: Slot)
    requires Quiet(p, x, y, ix, iy) && n !in p && r !in p && r != n
    requires q == (p - {taken})[r := ReadTask(x)][n := SendTask(x)]
    ensures Keeps(p, q, taken) && NoNewFlight(p, q, ix) && NoNewFlight(p, q, iy) && Quiet(q, x, y, ix, iy)
    ensures n in q && q[n] == SendTask(x)
  {
  }

  /** A callback that reports neither a send nor a read. */
  lemma NeutralCall(calls: seq<Callback>, call: Callback, x: Ref)
    requires !call.Sent? && !call.Received?
    ensures SentCalls(calls + [call], x) == SentCalls(calls, x) && ReadCalls(calls + [call], x) == ReadCalls(calls, x)
  {
    assert (calls + [call])[..|calls|] == calls;
  }

  lemma PairOpened(w: World, w': World, x: Ref, y: Ref, d: Trace, e: Trace, taken: Slot, r: Slot, n: Slot,
                   call: Callback)
    returns (d': Trace)
    requires Wired(w, x, y) && PairOk(w, x, y, d, e) && taken in w.pend && w.pend[taken] == AcceptTask(w.pool[x].local)
    requires n !in w.pend && r !in w.pend && r != n && !call.Sent? && !call.Received?
    requires w' == w.(pend := (w.pend - {taken})[r := ReadTask(x)][n := SendTask(x)],
                      pool := w.pool[x := w.pool[x].(state := Connected)], calls := w.calls + [call])
    ensures PairOk(w', x, y, d', e) && d' == d.(wake := n)
  {
    assert PairFacts(w, x, y, d, e);
    var cx, cy, q := w.pool[x], w.pool[y], w'.pend;
    var cx' := cx.(state := Connected);
    OpenedTasks(w.pend, q, x, y, cx.local, cy.local, taken, r, n);
    NeutralCall(w.calls, call, x);
    NeutralCall(w.calls, call, y);
    d' := PairOpenedDirs(w.pend, q, w.calls, w'.calls, x, y, cx, cy, d, e, taken, n);
    PrivateUpdate(w.pool, x, y, x, cx');
    assert PairFacts(w', x, y, d', e);
  }

  lemma PairOpenedDirs(p: Pending, q: Pending, calls: seq<Callback>, calls': seq<Callback>, x: Ref, y: Ref,
                       cx: Conn, cy: Conn, d: Trace, e: Trace, taken: Slot, n: Slot) returns (d': Trace)
    requires DirOk(p, calls, x, y, cx, cy, d) && DirOk(p, calls, y, x, cy, cx, e)
    requires taken in p && p[taken] == AcceptTask(cx.local) && n in q && q[n] == SendTask(x)
    requires Keeps(p, q, taken) && NoNewFlight(p, q, cx.local) && NoNewFlight(p, q, cy.local)
    requires SentCalls(calls', x) == SentCalls(calls, x) && ReadCalls(calls', x) == ReadCalls(calls, x)
    requires SentCalls(calls', y) == SentCalls(calls, y) && ReadCalls(calls', y) == ReadCalls(calls, y)
    ensures d' == d.(wake := n) && DirOk(q, calls', x, y, cx.(state := Connected), cy, d')
    ensures DirOk(q, calls', y, x, cy, cx.(state := Connected), e)
  {
    d' := Opened(p, q, calls, calls', x, y, cx, cy, d, taken, n);
    DirFrame(p, q, calls, calls', y, x, cy, cx, cy, cx.(state := Connected), e, taken);
  }
}
