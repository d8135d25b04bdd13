/** The invariant of the simulation, and what each event does to it. */
module SimSound {
  import opened Octets
  import opened SimModel
  import opened SimSteps
  import opened SimLink
  import opened SimRuns

  /** Every packet waiting is within the bandwidth of its connection, and sent whole or not at all. */
  ghost predicate AllFit(pool: seq<Conn>) {
    forall z {:trigger pool[z]} :: 0 <= z < |pool| ==> QueueFits(pool[z])
  }

  ghost predicate QueueFits(c: Conn) {
    forall k {:trigger c.sending[k]} :: 0 <= k < |c.sending| ==>
          |c.sending[k].message| <= c.bandwidth && Fits(c.sending[k])
  }

  /** Whatever is spoken of by an id of an end is spoken of by the id that the end carries. */
  ghost predicate OwnIds(w: World, a: Ref, link: Link) {
    forall i {:trigger i in w.connections} ::
      i in w.connections && i in w.ids && End(link, a, w.connections[i]) && w.connections[i] < |w.pool| ==>
        w.pool[w.connections[i]].local == i
  }

  ghost predicate Facts(w: World, a: Ref, link: Link, fit: bool) {
    BaseOk(w) && LinkOk(w, a, link) && OwnIds(w, a, link) && (fit ==> AllFit(w.pool))
  }

  /** The invariant, for the link that the connection a asks for; proofs look inside on demand. */
  ghost predicate Sound(w: World, a: Ref, link: Link, fit: bool) {
    forall u: World {:trigger Facts(u, a, link, fit)} :: u == w ==> Facts(u, a, link, fit)
  }

  // ---------------------------------------------------------------- looking inside

  lemma SoundTask(w: World, a: Ref, link: Link, fit: bool, s: Slot)
    requires Sound(w, a, link, fit) && s in w.pend
    ensures RefsOk(w.pend[s], |w.pool|, w.ids) && w.time <= s.t
  {
    assert Facts(w, a, link, fit);
  }

  lemma SoundId(w: World, a: Ref, link: Link, fit: bool, i: nat)
    requires Sound(w, a, link, fit)
    ensures i in w.connections ==> 0 < i <= w.uid && w.connections[i] < |w.pool|
    ensures i in w.connections && i in w.ids && End(link, a, w.connections[i]) ==> w.pool[w.connections[i]].local == i
  {
    assert Facts(w, a, link, fit);
  }

  lemma SoundConn(w: World, a: Ref, link: Link, fit: bool, z: Ref)
    requires Sound(w, a, link, fit) && z < |w.pool|
    ensures ConnOk(w.pool[z], w.ids)
  {
    assert Facts(w, a, link, fit);
  }

  lemma SoundLag(w: World, a: Ref, link: Link, fit: bool, z: Ref)
    requires Sound(w, a, link, fit) && z < |w.pool|
    ensures w.pool[z].minLag <= w.pool[z].maxLag
  {
    SoundConn(w, a, link, fit, z);
  }

  lemma SoundFront(w: World, a: Ref, link: Link, fit: bool, z: Ref)
    requires Sound(w, a, link, fit) && z < |w.pool|
    ensures w.pool[z].bandwidth > 0 && w.pool[z].minLag <= w.pool[z].maxLag
    ensures w.pool[z].sending != [] ==> w.pool[z].sending[0].sent <= |w.pool[z].sending[0].message|
  {
    SoundConn(w, a, link, fit, z);
  }

  // ----------------------------------------------------- small edits, for everyone

  lemma BaseAdd(w: World, w': World, n: Slot, task: Task)
    requires BaseOk(w) && w' == w.(pend := w.pend[n := task]) && w.time <= n.t && RefsOk(task, |w.pool|, w.ids)
    ensures BaseOk(w')
  {
  }

  lemma BaseTake(w: World, w': World, s: Slot)
    requires BaseOk(w) && w' == w.(pend := w.pend - {s})
    ensures BaseOk(w')
  {
  }

  lemma BaseSet(w: World, w': World, z: Ref, c: Conn)
    requires BaseOk(w) && z < |w.pool| && w' == w.(pool := w.pool[z := c]) && ConnOk(c, w.ids)
             && c.local == w.pool[z].local
    ensures BaseOk(w')
  {
    assert forall k :: 0 <= k < |w'.pool| && k != z ==> w'.pool[k] == w.pool[k];
  }

  lemma BaseCall(w: World, w': World, call: Callback)
    requires BaseOk(w) && w' == w.(calls := w.calls + [call]) && call.c < |w.pool|
    ensures BaseOk(w')
  {
  }

  lemma FitSet(pool: seq<Conn>, z: Ref, c: Conn, fit: bool)
    requires z < |pool| && (fit ==> AllFit(pool) && QueueFits(c))
    ensures fit ==> AllFit(pool[z := c])
  {
  }

  // -------------------------------------------------------------- edits put aside

  /** Adding a task that speaks of no end of the link. */
  lemma AddAside(w: World, w': World, a: Ref, link: Link, fit: bool, n: Slot, task: Task)
    requires Sound(w, a, link, fit) && n !in w.pend && w' == w.(pend := w.pend[n := task]) && w.time <= n.t
    requires RefsOk(task, |w.pool|, w.ids)
    requires forall x {:trigger FreeOf(w, x, task)} :: End(link, a, x) ==> FreeOf(w, x, task)
    ensures Sound(w', a, link, fit)
  {
    assert Facts(w, a, link, fit);
    BaseAdd(w, w', n, task);
    LinkAdd(w, w', a, link, n, task);
    assert Facts(w', a, link, fit);
  }

  lemma TakeAside(w: World, w': World, a: Ref, link: Link, fit: bool, s: Slot)
    requires Sound(w, a, link, fit) && s in w.pend && w' == w.(pend := w.pend - {s})
    requires forall x {:trigger FreeOf(w, x, w.pend[s])} :: End(link, a, x) ==> FreeOf(w, x, w.pend[s])
    requires link.Live? && (w.pend[s].SendTask? || w.pend[s].ReadTask?) ==> !End(link, a, w.pend[s].c)
    ensures Sound(w', a, link, fit)
  {
    assert Facts(w, a, link, fit);
    BaseTake(w, w', s);
    LinkTake(w, w', a, link, s);
    assert Facts(w', a, link, fit);
  }

  /** A connection that is no end changes, but for its ids. */
  lemma SetAside(w: World, w': World, a: Ref, link: Link, fit: bool, z: Ref, c: Conn)
    requires Sound(w, a, link, fit) && z < |w.pool| && !End(link, a, z) && w' == w.(pool := w.pool[z := c])
    requires ConnOk(c, w.ids) && c.local == w.pool[z].local && c.remote == w.pool[z].remote && (fit ==> QueueFits(c))
    ensures Sound(w', a, link, fit)
  {
    assert Facts(w, a, link, fit);
    BaseSet(w, w', z, c);
    LinkSet(w, w', a, link, z, c);
    FitSet(w.pool, z, c, fit);
    assert Facts(w', a, link, fit);
  }

  lemma CallAside(w: World, w': World, a: Ref, link: Link, fit: bool, call: Callback)
    requires Sound(w, a, link, fit) && w' == w.(calls := w.calls + [call]) && call.c < |w.pool|
    requires (call.Sent? || call.Received?) ==> !End(link, a, call.c)
    ensures Sound(w', a, link, fit)
  {
    assert Facts(w, a, link, fit);
    BaseCall(w, w', call);
    LinkCall(w, w', a, link, call);
    assert Facts(w', a, link, fit);
  }

  /** Neither id of a connection that is no end is that of an end. */
  lemma Strangers(w: World, a: Ref, link: Link, fit: bool, z: Ref)
    requires Sound(w, a, link, fit) && z < |w.pool| && !End(link, a, z)
    ensures forall x: Ref {:trigger End(link, a, x)} :: End(link, a, x) ==>
              StrangerTo(w, x, w.pool[z].local) && StrangerTo(w, x, w.pool[z].remote)
  {
    assert Facts(w, a, link, fit);
    match link
    case NotYet(request) =>
      assert NotYetFacts(w, a, request);
    case Live(b, f, g, accept) =>
      PairWired(w, a, b, f, g);
    case Over =>
  }

  // ------------------------------------------------------------------ user events

  /** async_send. */
  lemma AfterQueued(w: World, w': World, a: Ref, link: Link, fit: bool, x: Ref, packet: Outgoing, n: Slot)
    returns (link': Link)
    requires Sound(w, a, link, fit) && x < |w.pool| && packet.message != [] && packet.sent == 0 && n !in w.pend
             && w.time <= n.t
    requires w' == w.(pend := if w.pool[x].state == Connected then w.pend[n := SendTask(x)] else w.pend,
                      pool := w.pool[x := w.pool[x].(sending := w.pool[x].sending + [packet])])
    ensures Sound(w', a, link', fit && |packet.message| <= w.pool[x].bandwidth)
    ensures if End(link, a, x) then LinkQueued(link, link', a, x, packet) else link' == link
    ensures link.Live? && End(link, a, x) ==> Outbound(link', a, x).flight == Outbound(link, a, x).flight
  {
    assert Facts(w, a, link, fit);
    var c := w.pool[x].(sending := w.pool[x].sending + [packet]);
    var fit' := fit && |packet.message| <= w.pool[x].bandwidth;
    var mid := w.(pool := w.pool[x := c]);
    link' := link;
    QueuedConn(w.pool[x], w.ids, packet, fit');
    BaseSet(w, mid, x, c);
    FitSet(w.pool, x, c, fit');
    if w.pool[x].state == Connected {
      BaseAdd(mid, w', n, SendTask(x));
    }
    if End(link, a, x) {
      link' := EndQueued(w, w', a, link, x, packet, n);
    } else {
      LinkSet(w, mid, a, link, x, c);
      if w.pool[x].state == Connected {
        LinkAdd(mid, w', a, link, n, SendTask(x));
      }
    }
    assert Facts(w', a, link', fit');
  }

  lemma QueuedConn(c: Conn, ids: set<nat>, packet: Outgoing, fit: bool)
    requires ConnOk(c, ids) && packet.message != [] && packet.sent == 0
             && (fit ==> QueueFits(c) && |packet.message| <= c.bandwidth)
    ensures ConnOk(c.(sending := c.sending + [packet]), ids) && (fit ==> QueueFits(c.(sending := c.sending + [packet])))
  {
  }

  /** async_read. */
  lemma AfterPosted(w: World, w': World, a: Ref, link: Link, fit: bool, y: Ref, packet: Incoming, n: Slot)
    returns (link': Link)
    requires Sound(w, a, link, fit) && y < |w.pool| && packet.data == [] && packet.want <= packet.size && n !in w.pend
             && w.time <= n.t
    requires w' == w.(pend := if w.pool[y].received != [] then w.pend[n := ReadTask(y)] else w.pend,
                      pool := w.pool[y := w.pool[y].(reading := w.pool[y].reading + [packet])])
    ensures Sound(w', a, link', fit)
    ensures if End(link, a, y) then LinkPosted(link, link', a, y, packet) else link' == link
  {
    assert Facts(w, a, link, fit);
    var c := w.pool[y].(reading := w.pool[y].reading + [packet]);
    var mid := w.(pool := w.pool[y := c]);
    link' := link;
    BaseSet(w, mid, y, c);
    FitSet(w.pool, y, c, fit);
    if w.pool[y].received != [] {
      BaseAdd(mid, w', n, ReadTask(y));
    }
    if End(link, a, y) {
      link' := EndPosted(w, w', a, link, y, packet, n);
    } else {
      LinkSet(w, mid, a, link, y, c);
      if w.pool[y].received != [] {
        LinkAdd(mid, w', a, link, n, ReadTask(y));
      }
    }
    assert Facts(w', a, link', fit);
  }

  // --------------------------------------------------------------------- sending

  /** handle_send with nothing to do. */
  lemma AfterNothingSent(w: World, w': World, a: Ref, link: Link, fit: bool, x: Ref, s: Slot)
    requires Sound(w, a, link, fit) && x < |w.pool| && s in w.pend && w.pend[s] == SendTask(x)
    requires w.pool[x].state != Connected || w.pool[x].sending == [] || Complete(w.pool[x].sending[0])
    requires w' == w.(pend := w.pend - {s})
    ensures Sound(w', a, link, fit)
  {
    assert Facts(w, a, link, fit);
    BaseTake(w, w', s);
    if End(link, a, x) {
      EndNothingSent(w, w', a, link, x, s);
    } else {
      LinkTake(w, w', a, link, s);
    }
    assert Facts(w', a, link, fit);
  }

  /** The guarantee ends where a begun packet is sent on while something is in flight. */
  ghost predicate Pipes(link: Link, a: Ref, x: Ref) {
    link.Live? && End(link, a, x) && Outbound(link, a, x).flight != None
  }

  lemma AdvancedConn(c: Conn, ids: set<nat>, k: nat, stamp: nat, fit: bool)
    requires ConnOk(c, ids) && c.sending != [] && 0 < k && c.sending[0].sent + k <= |c.sending[0].message|
    requires k == c.bandwidth || c.sending[0].sent + k == |c.sending[0].message|
    requires fit ==> QueueFits(c) && c.sending[0].sent == 0
    ensures ConnOk(c.(sending := Advanced(c.sending, k), stamp := stamp), ids)
    ensures fit ==> QueueFits(c.(sending := Advanced(c.sending, k), stamp := stamp))
  {
    var c' := c.(sending := Advanced(c.sending, k), stamp := stamp);
    assert forall i :: 1 <= i < |c'.sending| ==> c'.sending[i] == c.sending[i];
  }

  /** handle_send of a chunk of k bytes. */
  lemma AfterChunk(w: World, w': World, a: Ref, link: Link, fit: bool, x: Ref, k: nat, s: Slot, n: Slot)
    returns (link': Link)
    requires Sound(w, a, link, fit) && x < |w.pool| && s in w.pend && w.pend[s] == SendTask(x) && n !in w.pend
             && w.time <= n.t
    requires var c := w.pool[x];
             && c.state == Connected && c.sending != [] && !Complete(c.sending[0]) && 0 < k
             && c.sending[0].sent + k <= |c.sending[0].message| && c.stamp < n.t
             && (k == c.bandwidth || c.sending[0].sent + k == |c.sending[0].message|)
             && w' == w.(pend := (w.pend - {s})[n := MessageTask(c.local, c.remote, Chunk(c.sending[0], k))],
                         pool := w.pool[x := c.(sending := Advanced(c.sending, k), stamp := n.t)])
    ensures Sound(w', a, link', fit)
    ensures !Pipes(link, a, x) ==> SameLink(link, link')
    ensures !Pipes(link, a, x) && link.Live? && End(link, a, x) ==> Outbound(link', a, x).flight == Some(n)
    ensures Pipes(link, a, x) ==> !fit && link' == Over && TwoInFlight(w'.pend, w.pool[x].local)
  {
    assert Facts(w, a, link, fit);
    var c := w.pool[x];
    var c' := c.(sending := Advanced(c.sending, k), stamp := n.t);
    var task := MessageTask(c.local, c.remote, Chunk(c.sending[0], k));
    var w1 := w.(pend := w.pend - {s});
    var w2 := w1.(pool := w.pool[x := c']);
    AdvancedConn(c, w.ids, k, n.t, fit);
    BaseTake(w, w1, s);
    BaseSet(w1, w2, x, c');
    BaseAdd(w2, w', n, task);
    FitSet(w.pool, x, c', fit);
    if End(link, a, x) {
      link' := AfterEndChunk(w, w', a, link, fit, x, k, s, n);
    } else {
      link' := link;
      Strangers(w, a, link, fit, x);
      LinkTake(w, w1, a, link, s);
      LinkSet(w1, w2, a, link, x, c');
      LinkAdd(w2, w', a, link, n, task);
    }
    assert Facts(w', a, link', fit);
  }

  /** handle_send has something to send. */
  predicate Sends(c: Conn) {
    c.state == Connected && c.sending != [] && !Complete(c.sending[0])
  }

  /** How much of it goes out at once. */
  function ChunkSize(c: Conn): nat
    requires c.sending != []
  {
    var left := |c.sending[0].message| - c.sending[0].sent;
    if c.bandwidth >= left >= 0 then left else c.bandwidth
  }

  /** After handle_send from c to c' at an end of the link. */
  ghost predicate SentOn(link: Link, a: Ref, x: Ref, link': Link, c: Conn, c': Conn, pend: Pending, piped: bool) {
    link.Live? && End(link, a, x) && Sends(c) ==>
      if Pipes(link, a, x) then piped && TwoInFlight(pend, c.local)
      else && link'.Live? && link'.b == link.b && Outbound(link', a, x).flight != None
           && c' == c.(sending := Advanced(c.sending, ChunkSize(c)), stamp := c'.stamp)
  }

  lemma ConnectedIsLive(w: World, a: Ref, link: Link, x: Ref)
    requires LinkOk(w, a, link) && End(link, a, x) && x < |w.pool| && w.pool[x].state == Connected
    ensures link.Live?
  {
    if link.NotYet? {
      NotYetConn(w, a, link.request);
    }
  }

  lemma NotYetConn(w: World, a: Ref, request: Option<Slot>)
    requires NotYetOk(w, a, request) && a < |w.pool|
    ensures w.pool[a].state != Connected && w.pool[a].received == []
  {
    assert NotYetFacts(w, a, request);
  }

  lemma AfterEndChunk(w: World, w': World, a: Ref, link: Link, fit: bool, x: Ref, k: nat, s: Slot, n: Slot)
    returns (link': Link)
    requires LinkOk(w, a, link) && End(link, a, x) && x < |w.pool| && s in w.pend && w.pend[s] == SendTask(x)
             && n !in w.pend
    requires fit ==> AllFit(w.pool)
    requires var c := w.pool[x];
             && c.state == Connected && c.sending != [] && !Complete(c.sending[0]) && 0 < k
             && c.sending[0].sent + k <= |c.sending[0].message| && c.stamp < n.t
             && w' == w.(pend := (w.pend - {s})[n := MessageTask(c.local, c.remote, Chunk(c.sending[0], k))],
                         pool := w.pool[x := c.(sending := Advanced(c.sending, k), stamp := n.t)])
    ensures LinkOk(w', a, link')
    ensures !Pipes(link, a, x) ==> SameLink(link, link')
    ensures !Pipes(link, a, x) && link.Live? && End(link, a, x) ==> Outbound(link', a, x).flight == Some(n)
    ensures Pipes(link, a, x) ==> !fit && link' == Over && TwoInFlight(w'.pend, w.pool[x].local)
  {
    ConnectedIsLive(w, a, link, x);
    if Pipes(link, a, x) {
      if fit {
        assert QueueFits(w.pool[x]);
        FittingNeverPipelined(w, a, link, x);
      }
      EndPipelined(w, w', a, link, x, s, n, MessageTask(w.pool[x].local, w.pool[x].remote,
                                                        Chunk(w.pool[x].sending[0], k)));
      link' := Over;
    } else {
      link' := EndChunk(w, w', a, link, x, k, s, n);
    }
  }

  // ------------------------------------------------------------------ delivering

  /** The message at s passes between ends of the link. */
  ghost predicate Inside(w: World, a: Ref, link: Link, s: Slot)
    requires s in w.pend
  {
    exists x: Ref {:trigger End(link, a, x)} :: link.Live? && End(link, a, x) && Arrives(w, a, link, x, s)
  }

  /** Otherwise it speaks of no end. */
  lemma MessageOutside(w: World, a: Ref, link: Link, fit: bool, s: Slot)
    requires Sound(w, a, link, fit) && s in w.pend && w.pend[s].MessageTask? && s.t == w.time && !Inside(w, a, link, s)
    ensures forall x: Ref {:trigger End(link, a, x)} :: End(link, a, x) ==>
              FreeOf(w, x, w.pend[s]) && StrangerTo(w, x, w.pend[s].src) && StrangerTo(w, x, w.pend[s].dest)
  {
    assert Facts(w, a, link, fit);
    match link
    case NotYet(request) =>
      assert NotYetFacts(w, a, request);
    case Live(b, f, g, accept) =>
      EndReached(w, a, link, s);
    case Over =>
  }

  /** handle_message that is between ends: it arrives, and an acknowledgement or the next chunk follows. */
  lemma AfterArrival(w: World, w': World, a: Ref, link: Link, fit: bool, x: Ref, y: Ref, s: Slot, r: Slot, n: Slot,
                     stamp: nat)
    returns (link': Link)
    requires Sound(w, a, link, fit) && s in w.pend && s.t == w.time && n !in w.pend
    requires w.time <= n.t && w.time <= r.t && link.Live? && End(link, a, x) && Arrives(w, a, link, x, s)
             && y == Other(link, a, x)
    requires w.pool[y].reading != [] ==> r !in w.pend && r != n
    requires w.pool[y].stamp <= stamp && (Complete(w.pool[x].sending[0]) ==> n.t <= stamp)
    requires w' == w.(pend := WithRead(w.pend - {s}, y, w.pool[y], r)[n := After(x, w.pool[x])],
                      pool := w.pool[y := w.pool[y].(received := w.pool[y].received + [w.pend[s].msg], stamp := stamp)])
    ensures Sound(w', a, link', fit) && SameLink(link, link')
  {
    assert Facts(w, a, link, fit);
    var c' := w.pool[y].(received := w.pool[y].received + [w.pend[s].msg], stamp := stamp);
    link' := EndDelivered(w, w', a, link, x, w.pend[s].msg, s, r, n, stamp);
    BaseReceived(w, w.(pend := WithRead(w.pend - {s}, y, w.pool[y], r), pool := w.pool[y := c']), y, s, r, stamp);
    BaseAdd(w.(pend := WithRead(w.pend - {s}, y, w.pool[y], r), pool := w.pool[y := c']), w', n, After(x, w.pool[x]));
    FitSet(w.pool, y, c', fit);
    assert Facts(w', a, link', fit);
  }

  /** A message reaches y, whose reader, if any, will be told. */
  lemma BaseReceived(w: World, w': World, y: Ref, s: Slot, r: Slot, stamp: nat)
    requires BaseOk(w) && s in w.pend && w.pend[s].MessageTask? && y < |w.pool| && w.time <= r.t
    requires w' == w.(pend := WithRead(w.pend - {s}, y, w.pool[y], r),
                      pool := w.pool[y := w.pool[y].(received := w.pool[y].received + [w.pend[s].msg], stamp := stamp)])
    ensures BaseOk(w')
  {
    var w1 := w.(pend := w.pend - {s});
    var w2 := w1.(pool := w'.pool);
    assert RefsOk(w.pend[s], |w.pool|, w.ids);
    BaseTake(w, w1, s);
    BaseSet(w1, w2, y, w'.pool[y]);
    if w.pool[y].reading != [] {
      BaseAdd(w2, w', r, ReadTask(y));
    }
  }

  /** What a task that names an end can be. */
  lemma TaskKinds(w: World, a: Ref, link: Link, fit: bool, s: Slot, x: Ref)
    requires Sound(w, a, link, fit) && s in w.pend && End(link, a, x) && x < |w.pool|
    requires w.pool[x].local != 0 && Names(w.pend[s], w.pool[x].local)
    ensures link.Live? ==> w.pend[s].MessageTask? || w.pend[s].AckTask? || w.pend[s].AcceptTask?
    ensures link.NotYet? ==> (w.pend[s].RequestTask? && link.request == Some(s)) || w.pend[s].RefuseTask?
  {
    assert Facts(w, a, link, fit);
    match link
    case NotYet(request) =>
      assert NotYetFacts(w, a, request);
    case Live(b, f, g, accept) =>
      PairWired(w, a, b, f, g);
    case Over =>
  }

  lemma NoClear(w: World, a: Ref, link: Link, fit: bool, s: Slot)
    requires Sound(w, a, link, fit) && s in w.pend && w.pend[s].ClearTask?
    ensures !End(link, a, w.pend[s].c)
  {
    assert Facts(w, a, link, fit);
    match link
    case NotYet(request) =>
      assert NotYetFacts(w, a, request);
    case Live(b, f, g, accept) =>
      PairWired(w, a, b, f, g);
    case Over =>
  }

  /** An id in use by no end, or by nobody, is strange to all ends. */
  lemma IdOutside(w: World, a: Ref, link: Link, fit: bool, i: nat)
    requires Sound(w, a, link, fit) && (i in w.connections ==> !End(link, a, w.connections[i]))
    ensures forall x: Ref {:trigger End(link, a, x)} :: End(link, a, x) ==> StrangerTo(w, x, i)
  {
    assert Facts(w, a, link, fit);
  }

  /** The link is no longer watched. */
  lemma Forget(w: World, a: Ref, link: Link, fit: bool)
    requires Sound(w, a, link, fit)
    ensures Sound(w, a, Over, fit)
  {
    assert Facts(w, a, link, fit);
    assert Facts(w, a, Over, fit);
  }

  /** The link is in order again. */
  lemma Recall(w: World, a: Ref, link: Link, fit: bool)
    requires Sound(w, a, Over, fit) && LinkOk(w, a, link) && OwnIds(w, a, link)
    ensures Sound(w, a, link, fit)
  {
    assert Facts(w, a, Over, fit);
    assert Facts(w, a, link, fit);
  }

  /** handle_ack. */
  lemma AfterAck(w: World, w': World, a: Ref, link: Link, fit: bool, x: Ref, s: Slot, n: Slot) returns (link': Link)
    requires Sound(w, a, link, fit) && s in w.pend && w.pend[s].AckTask? && n !in w.pend && w.time <= n.t
    requires x < |w.pool| && w.pend[s].dest in w.connections && w.connections[w.pend[s].dest] == x
             && w.pool[x].sending != []
    requires w' == w.(pend := (w.pend - {s})[n := SendTask(x)],
                      pool := w.pool[x := w.pool[x].(sending := w.pool[x].sending[1..])],
                      calls := w.calls + [Sent(x, w.pool[x].sending[0].id, w.pend[s].ok)])
    ensures Sound(w', a, link', fit) && SameLink(link, link') && (End(link, a, x) ==> w.pend[s].ok)
  {
    assert Facts(w, a, link, fit);
    var c, call := w.pool[x].(sending := w.pool[x].sending[1..]), Sent(x, w.pool[x].sending[0].id, w.pend[s].ok);
    var w1 := w.(pend := w.pend - {s});
    var w2 := w1.(pool := w.pool[x := c]);
    var w3 := w2.(calls := w.calls + [call]);
    PoppedConn(w.pool[x], w.ids, fit);
    link' := link;
    if End(link, a, x) {
      assert RefsOk(w.pend[s], |w.pool|, w.ids);
      TaskKinds(w, a, link, fit, s, x);
      link' := EndAcked(w, w', a, link, x, s, n);
      BaseTake(w, w1, s);
      BaseSet(w1, w2, x, c);
      BaseCall(w2, w3, call);
      BaseAdd(w3, w', n, SendTask(x));
      FitSet(w.pool, x, c, fit);
      assert Facts(w', a, link', fit);
    } else {
      IdOutside(w, a, link, fit, w.pend[s].dest);
      TakeAside(w, w1, a, link, fit, s);
      SetAside(w1, w2, a, link, fit, x, c);
      CallAside(w2, w3, a, link, fit, call);
      AddAside(w3, w', a, link, fit, n, SendTask(x));
    }
  }

  lemma PoppedConn(c: Conn, ids: set<nat>, fit: bool)
    requires ConnOk(c, ids) && c.sending != [] && (fit ==> QueueFits(c))
    ensures ConnOk(c.(sending := c.sending[1..]), ids) && (fit ==> QueueFits(c.(sending := c.sending[1..])))
  {
    assert forall k :: 0 <= k < |c.sending[1..]| ==> c.sending[1..][k] == c.sending[k + 1];
  }

  // --------------------------------------------------------------------- reading

  /** handle_read with nothing to do. */
  lemma AfterNothingRead(w: World, w': World, a: Ref, link: Link, fit: bool, y: Ref, s: Slot)
    requires Sound(w, a, link, fit) && y < |w.pool| && s in w.pend && w.pend[s] == ReadTask(y)
    requires w.pool[y].state != Connected || w.pool[y].reading == [] || w.pool[y].received == []
    requires w' == w.(pend := w.pend - {s})
    ensures Sound(w', a, link, fit)
  {
    assert Facts(w, a, link, fit);
    BaseTake(w, w', s);
    if End(link, a, y) {
      EndNothingRead(w, w', a, link, y, s);
    } else {
      LinkTake(w, w', a, link, s);
    }
    assert Facts(w', a, link, fit);
  }

  /** handle_read that empties the data into the buffer. */
  lemma AfterPartlyRead(w: World, w': World, a: Ref, link: Link, fit: bool, y: Ref, front: Incoming, s: Slot)
    requires Sound(w, a, link, fit) && y < |w.pool| && s in w.pend && w.pend[s] == ReadTask(y)
    requires w.pool[y].state == Connected && w.pool[y].reading != [] && 0 < front.want && |front.data| < front.want
    requires front == w.pool[y].reading[0].(data := w.pool[y].reading[0].data + Joined(w.pool[y].received))
    requires w' == w.(pend := w.pend - {s},
                      pool := w.pool[y := w.pool[y].(reading := [front] + w.pool[y].reading[1..], received := [])])
    ensures Sound(w', a, link, fit)
  {
    assert Facts(w, a, link, fit);
    var c := w.pool[y].(reading := [front] + w.pool[y].reading[1..], received := []);
    var w1 := w.(pend := w.pend - {s});
    assert ConnOk(c, w.ids) && (fit ==> QueueFits(c)) by {
      assert ConnOk(w.pool[y], w.ids) && (fit ==> QueueFits(w.pool[y]));
    }
    if End(link, a, y) {
      ConnectedIsLive(w, a, link, y);
      EndPartlyRead(w, w', a, link, y, front, s);
      BaseTake(w, w1, s);
      BaseSet(w1, w', y, c);
      FitSet(w.pool, y, c, fit);
      assert Facts(w', a, link, fit);
    } else {
      TakeAside(w, w1, a, link, fit, s);
      SetAside(w1, w', a, link, fit, y, c);
    }
  }

  /** handle_read that serves the front reader. */
  lemma AfterServed(w: World, w': World, a: Ref, link: Link, fit: bool, y: Ref, data: Bytes, rest: seq<Bytes>, s: Slot,
                    n: Slot)
    returns (link': Link)
    requires Sound(w, a, link, fit) && y < |w.pool| && s in w.pend && w.pend[s] == ReadTask(y) && n !in w.pend
             && w.time <= n.t
    requires w.pool[y].state == Connected && w.pool[y].reading != []
    requires data + Joined(rest) == w.pool[y].reading[0].data + Joined(w.pool[y].received)
    requires Meets(w.pool[y].reading[0], Received(y, w.pool[y].reading[0].id, data))
    requires forall k :: 0 <= k < |rest| ==> rest[k] != []
    requires w' == w.(pend := (w.pend - {s})[n := ReadTask(y)],
                      pool := w.pool[y := w.pool[y].(reading := w.pool[y].reading[1..], received := rest)],
                      calls := w.calls + [Received(y, w.pool[y].reading[0].id, data)])
    ensures Sound(w', a, link', fit) && SameLink(link, link')
  {
    assert Facts(w, a, link, fit);
    var c, call := w.pool[y].(reading := w.pool[y].reading[1..], received := rest), Received(y, w.pool[y].reading[0].id,
                                                                                             data);
    var w1 := w.(pend := w.pend - {s});
    var w2 := w1.(pool := w.pool[y := c]);
    var w3 := w2.(calls := w.calls + [call]);
    ServedConn(w.pool[y], w.ids, rest, fit);
    link' := link;
    if End(link, a, y) {
      ConnectedIsLive(w, a, link, y);
      link' := EndServed(w, w', a, link, y, data, rest, s, n);
      BaseTake(w, w1, s);
      BaseSet(w1, w2, y, c);
      BaseCall(w2, w3, call);
      BaseAdd(w3, w', n, ReadTask(y));
      FitSet(w.pool, y, c, fit);
      assert Facts(w', a, link', fit);
    } else {
      TakeAside(w, w1, a, link, fit, s);
      SetAside(w1, w2, a, link, fit, y, c);
      CallAside(w2, w3, a, link, fit, call);
      AddAside(w3, w', a, link, fit, n, ReadTask(y));
    }
  }

  lemma ServedConn(c: Conn, ids: set<nat>, rest: seq<Bytes>, fit: bool)
    requires ConnOk(c, ids) && c.reading != [] && (fit ==> QueueFits(c)) && forall k :: 0 <= k < |rest| ==>
               rest[k] != []
    ensures ConnOk(c.(reading := c.reading[1..], received := rest), ids)
    ensures fit ==> QueueFits(c.(reading := c.reading[1..], received := rest))
  {
    assert forall k :: 0 <= k < |c.reading[1..]| ==> c.reading[1..][k] == c.reading[k + 1];
  }

  // --------------------------------------------------------- ids, time, new ones

  /** The link does not depend on the id table or the clock. */
  lemma LinkIds(w: World, w': World, a: Ref, link: Link)
    requires LinkOk(w, a, link) && w'.pend == w.pend && w'.pool == w.pool && w'.calls == w.calls
    ensures LinkOk(w', a, link)
  {
    match link
    case NotYet(request) =>
      assert NotYetFacts(w, a, request);
      assert NotYetFacts(w', a, request);
    case Live(b, f, g, accept) =>
      assert PairFacts(w, a, b, f, g);
      assert PairFacts(w', a, b, f, g);
    case Over =>
  }

  /** set_time, with nothing left before t. */
  lemma AfterTime(w: World, w': World, a: Ref, link: Link, fit: bool, t: nat)
    requires Sound(w, a, link, fit) && w' == w.(time := t)
    requires forall s {:trigger s in w.pend} :: s in w.pend ==> t <= s.t
    ensures Sound(w', a, link, fit)
  {
    assert Facts(w, a, link, fit);
    LinkIds(w, w', a, link);
    assert Facts(w', a, link, fit);
  }

  predicate Idle(c: Conn) {
    && c.state == Disconnected && c.local == 0 && c.remote == 0 && c.stamp == 0
    && c.sending == [] && c.reading == [] && c.received == [] && c.bandwidth > 0 && c.minLag <= c.maxLag
  }

  /** A connection object is made. */
  lemma AfterNew(w: World, w': World, a: Ref, link: Link, fit: bool, c: Conn)
    requires Sound(w, a, link, fit) && Idle(c) && w' == w.(pool := w.pool + [c])
    ensures Sound(w', a, link, fit)
  {
    assert Facts(w, a, link, fit);
    assert forall k :: 0 <= k < |w.pool| ==> w'.pool[k] == w.pool[k];
    if link.NotYet? && |w.pool| == a {
      NotYetNew(w, w', a, link.request, c);
    } else {
      LinkGrow(w, w', a, link, c);
    }
    BaseNew(w, w', c);
    assert Facts(w', a, link, fit);
  }

  lemma NotYetNew(w: World, w': World, a: Ref, request: Option<Slot>, c: Conn)
    requires BaseOk(w) && NotYetOk(w, a, request) && |w.pool| == a && Idle(c) && w' == w.(pool := w.pool + [c])
    ensures NotYetOk(w', a, request)
  {
    assert NotYetFacts(w, a, request);
    forall s | s in w.pend ensures w.pend[s] != ClearTask(a) {
      assert RefsOk(w.pend[s], |w.pool|, w.ids);
    }
    assert NotYetFacts(w', a, request);
  }

  lemma RefsGrow(time: nat, pend: Pending, n: nat, ids: set<nat>, n': nat, ids': set<nat>)
    requires TasksOk(time, pend, n, ids) && n <= n' && ids <= ids'
    ensures TasksOk(time, pend, n', ids')
  {
    forall s | s in pend ensures RefsOk(pend[s], n', ids') {
      assert RefsOk(pend[s], n, ids);
    }
  }

  lemma BaseNew(w: World, w': World, c: Conn)
    requires BaseOk(w) && Idle(c) && w' == w.(pool := w.pool + [c])
    ensures BaseOk(w')
  {
    assert forall k :: 0 <= k < |w.pool| ==> w'.pool[k] == w.pool[k];
    RefsGrow(w.time, w.pend, |w.pool|, w.ids, |w'.pool|, w.ids);
  }

  /** add_connection. */
  lemma BaseRegister(w: World, w': World, z: Ref, c: Conn)
    requires BaseOk(w) && z < |w.pool| && c.local == w.uid + 1 && ConnOk(c, w.ids + {w.uid + 1})
    requires w' == w.(pool := w.pool[z := c], connections := w.connections[w.uid + 1 := z], uid := w.uid + 1,
                      ids := w.ids + {w.uid + 1})
    ensures BaseOk(w')
  {
    RefsGrow(w.time, w.pend, |w.pool|, w.ids, |w.pool|, w'.ids);
    forall k | 0 <= k < |w'.pool| && k != z ensures w'.pool[k] == w.pool[k] && ConnOk(w'.pool[k], w'.ids) {
      assert ConnOk(w.pool[k], w.ids);
    }
  }

  /** remove_connection, and the id forgotten. */
  lemma BaseDrop(w: World, w': World, z: Ref, c: Conn)
    requires BaseOk(w) && z < |w.pool| && c.local == 0 && ConnOk(c, w.ids)
    requires w' == w.(pool := w.pool[z := c], connections := w.connections - {w.pool[z].local})
    ensures BaseOk(w')
  {
    assert forall k :: 0 <= k < |w'.pool| && k != z ==> w'.pool[k] == w.pool[k];
  }

  /** A connection that is no end gives up its id and its peer. */
  lemma DropAside(w: World, w': World, a: Ref, link: Link, fit: bool, z: Ref, c: Conn)
    requires Sound(w, a, link, fit) && z < |w.pool| && !End(link, a, z)
    requires c == w.pool[z].(local := 0, remote := 0, state := Disconnected, stamp := c.stamp)
    requires w' == w.(pool := w.pool[z := c], connections := w.connections - {w.pool[z].local})
    ensures Sound(w', a, link, fit)
  {
    assert Facts(w, a, link, fit);
    assert ConnOk(w.pool[z], w.ids);
    BaseDrop(w, w', z, c);
    DropStranger(w, a, link);
    LinkSet(w, w.(pool := w'.pool), a, link, z, c);
    LinkIds(w.(pool := w'.pool), w', a, link);
    FitSet(w.pool, z, c, fit);
    assert Facts(w', a, link, fit);
  }

  lemma DropStranger(w: World, a: Ref, link: Link)
    requires LinkOk(w, a, link)
    ensures forall x {:trigger StrangerTo(w, x, 0)} :: End(link, a, x) ==> StrangerTo(w, x, 0)
  {
  }

  /** connect. */
  lemma AfterConnect(w: World, w': World, a: Ref, link: Link, fit: bool, x: Ref, n: Slot, address: nat)
    returns (link': Link)
    requires Sound(w, a, link, fit) && x < |w.pool|
    requires n !in w.pend && w.time < n.t
    requires w' == w.(pend := w.pend[n := RequestTask(w.uid + 1, address)],
                      pool := w.pool[x := w.pool[x].(state := Connecting, local := w.uid + 1, stamp := n.t)],
                      connections := w.connections[w.uid + 1 := x], uid := w.uid + 1, ids := w.ids + {w.uid + 1})
    ensures Sound(w', a, link', fit)
    ensures link' == if !End(link, a, x) then link else if w.pool[x].local == 0 then NotYet(Some(n)) else Over
  {
    assert Facts(w, a, link, fit);
    var c := w.pool[x].(state := Connecting, local := w.uid + 1, stamp := n.t);
    var task := RequestTask(w.uid + 1, address);
    var w1 := w.(pool := w.pool[x := c]);
    var w2 := w1.(connections := w.connections[w.uid + 1 := x], uid := w.uid + 1, ids := w.ids + {w.uid + 1});
    assert ConnOk(c, w.ids + {w.uid + 1}) by {
      assert ConnOk(w.pool[x], w.ids);
    }
    BaseRegister(w, w2, x, c);
    BaseAdd(w2, w', n, task);
    FitSet(w.pool, x, c, fit);
    if End(link, a, x) && w.pool[x].local != 0 {
      link' := Over;
    } else if End(link, a, x) {
      ConnectIsFirst(w, a, link, x);
      assert NotYetFacts(w, a, None);
      EndRequested(w, w', a, c, n, address);
      link' := NotYet(Some(n));
    } else {
      link' := link;
      LinkSet(w, w1, a, link, x, c);
      LinkIds(w1, w2, a, link);
      NewIdStrange(w, w2, a, link, x, task);
      LinkAdd(w2, w', a, link, n, task);
    }
    assert Facts(w', a, link', fit);
  }

  lemma ConnectIsFirst(w: World, a: Ref, link: Link, x: Ref)
    requires LinkOk(w, a, link) && End(link, a, x) && x < |w.pool| && w.pool[x].local == 0
    ensures link == NotYet(None)
  {
    if link.NotYet? {
      RequestHasId(w, a, link.request);
    }
  }

  lemma RequestHasId(w: World, a: Ref, request: Option<Slot>)
    requires NotYetOk(w, a, request) && a < |w.pool|
    ensures request.Some? ==> w.pool[a].local != 0
  {
    assert NotYetFacts(w, a, request);
  }

  /** A new id names no end. */
  lemma NewIdStrange(w: World, w': World, a: Ref, link: Link, x: Ref, task: Task)
    requires BaseOk(w) && !End(link, a, x) && x < |w.pool| && task.RequestTask? && task.src == w.uid + 1
    requires |w'.pool| == |w.pool| && forall k :: 0 <= k < |w.pool| && k != x ==> w'.pool[k] == w.pool[k]
    ensures forall k {:trigger FreeOf(w', k, task)} :: End(link, a, k) ==> FreeOf(w', k, task)
  {
    forall k: Ref | End(link, a, k) && k < |w.pool| ensures w'.pool[k].local <= w.uid {
      assert ConnOk(w.pool[k], w.ids);
    }
  }

  /** handle_accept. */
  lemma AfterOpened(w: World, w': World, a: Ref, link: Link, fit: bool, x: Ref, s: Slot, r: Slot, n: Slot)
    returns (link': Link)
    requires Sound(w, a, link, fit) && x < |w.pool| && s in w.pend && w.pend[s].AcceptTask?
             && w.pend[s].dest in w.connections && w.connections[w.pend[s].dest] == x
    requires n !in w.pend && r !in w.pend && r != n && w.time <= n.t && w.time <= r.t
    requires w' == w.(pend := (w.pend - {s})[r := ReadTask(x)][n := SendTask(x)],
                      pool := w.pool[x := w.pool[x].(state := Connected)], calls := w.calls + [Established(x)])
    ensures Sound(w', a, link', fit) && SameLink(link, link')
  {
    assert Facts(w, a, link, fit);
    var c := w.pool[x].(state := Connected);
    var w1 := w.(pend := w.pend - {s});
    var w2 := w1.(pool := w.pool[x := c]);
    var w3 := w2.(calls := w.calls + [Established(x)]);
    var w4 := w3.(pend := w1.pend[r := ReadTask(x)]);
    assert ConnOk(w.pool[x], w.ids) && (fit ==> QueueFits(w.pool[x]));
    link' := link;
    if End(link, a, x) {
      assert RefsOk(w.pend[s], |w.pool|, w.ids);
      TaskKinds(w, a, link, fit, s, x);
      link' := EndOpened(w, w', a, link, x, s, r, n, Established(x));
      BaseTake(w, w1, s);
      BaseSet(w1, w2, x, c);
      BaseCall(w2, w3, Established(x));
      BaseAdd(w3, w4, r, ReadTask(x));
      BaseAdd(w4, w', n, SendTask(x));
      FitSet(w.pool, x, c, fit);
      assert Facts(w', a, link', fit);
    } else {
      IdOutside(w, a, link, fit, w.pend[s].dest);
      TakeAside(w, w1, a, link, fit, s);
      SetAside(w1, w2, a, link, fit, x, c);
      CallAside(w2, w3, a, link, fit, Established(x));
      AddAside(w3, w4, a, link, fit, r, ReadTask(x));
      AddAside(w4, w', a, link, fit, n, SendTask(x));
    }
  }

  // -------------------------------------------------------------------- requests

  /** handle_request, refused. */
  lemma AfterRefusal(w: World, w': World, a: Ref, link: Link, fit: bool, x: Ref, s: Slot, n: Slot) returns (link': Link)
    requires Sound(w, a, link, fit) && s in w.pend && w.pend[s].RequestTask? && n !in w.pend && w.time <= n.t
    requires x < |w.pool| && w.pend[s].src in w.connections && w.connections[w.pend[s].src] == x
    requires w' == w.(pend := (w.pend - {s})[n := RefuseTask(w.pend[s].src)])
    ensures Sound(w', a, link', fit) && (link.Live? ==> link' == link)
  {
    assert Facts(w, a, link, fit);
    var task := RefuseTask(w.pend[s].src);
    var w1 := w.(pend := w.pend - {s});
    assert RefsOk(w.pend[s], |w.pool|, w.ids);
    link' := link;
    BaseTake(w, w1, s);
    BaseAdd(w1, w', n, task);
    if End(link, a, x) {
      TaskKinds(w, a, link, fit, s, x);
      EndRefused(w, w', a, s, n);
      link' := NotYet(None);
    } else {
      IdOutside(w, a, link, fit, w.pend[s].src);
      LinkTake(w, w1, a, link, s);
      LinkAdd(w1, w', a, link, n, task);
    }
    assert Facts(w', a, link', fit);
  }

  /** The connections after a request of x was granted to the new connection cb. */
  lemma BaseGranted(w: World, w': World, x: Ref, cx: Conn, cb: Conn)
    requires BaseOk(w) && x < |w.pool| && cx.local == w.pool[x].local && ConnOk(cx, w.ids + {w.uid + 1})
    requires cb.local == w.uid + 1 && ConnOk(cb, w.ids + {w.uid + 1})
    requires w' == w.(pool := w.pool[x := cx] + [cb], connections := w.connections[w.uid + 1 := |w.pool|],
                      uid := w.uid + 1, ids := w.ids + {w.uid + 1})
    ensures BaseOk(w')
  {
    RefsGrow(w.time, w.pend, |w.pool|, w.ids, |w'.pool|, w'.ids);
    forall k | 0 <= k < |w.pool| && k != x ensures w'.pool[k] == w.pool[k] && ConnOk(w'.pool[k], w'.ids) {
      assert ConnOk(w.pool[k], w.ids);
    }
  }

  /** A granted request beside the link. */
  lemma GrantAside(w: World, w': World, a: Ref, link: Link, fit: bool, x: Ref, cx: Conn, cb: Conn) returns (link': Link)
    requires Sound(w, a, link, fit) && x < |w.pool| && !End(link, a, x)
    requires cx == w.pool[x].(bandwidth := cx.bandwidth, remote := w.uid + 1) && cx.bandwidth > 0
    requires cb.local == w.uid + 1 && ConnOk(cb, w.ids + {w.uid + 1}) && cb.sending == []
             && cb.remote == w.pool[x].local
    requires fit ==> QueueFits(cx)
    requires w' == w.(pool := w.pool[x := cx] + [cb], connections := w.connections[w.uid + 1 := |w.pool|],
                      uid := w.uid + 1, ids := w.ids + {w.uid + 1})
    ensures Sound(w', a, link', fit) && (link' == link || (link.NotYet? && link' == Over))
  {
    assert Facts(w, a, link, fit);
    assert ConnOk(w.pool[x], w.ids);
    BaseGranted(w, w', x, cx, cb);
    var w1 := w.(pool := w.pool[x := cx]);
    var w2 := w1.(pool := w'.pool);
    link' := if link.NotYet? && |w.pool| == a then Over else link;
    Forget(w, a, link, fit);
    if link' == link {
      Strangers(w, a, link, fit, x);
      FutureStrange(w, a, link);
      LinkSet(w, w1, a, link, x, cx);
      assert forall k: Ref :: k < |w.pool| ==> w1.pool[k].local == w.pool[k].local;
      LinkGrow(w1, w2, a, link, cb);
      LinkIds(w2, w', a, link);
    }
    FitSet(w.pool, x, cx, fit);
    assert Facts(w', a, link', fit);
  }

  lemma FutureStrange(w: World, a: Ref, link: Link)
    requires BaseOk(w)
    ensures forall x {:trigger StrangerTo(w, x, w.uid + 1)} :: End(link, a, x) ==> StrangerTo(w, x, w.uid + 1)
  {
    forall x: Ref | End(link, a, x) && x < |w.pool| ensures w.pool[x].local <= w.uid {
      assert ConnOk(w.pool[x], w.ids);
    }
  }

  /** Sender and receiver of a message between ends are in the id table. */
  lemma InsideIds(w: World, a: Ref, link: Link, fit: bool, s: Slot)
    requires Sound(w, a, link, fit) && s in w.pend && w.pend[s].MessageTask? && Inside(w, a, link, s)
    ensures w.pend[s].src in w.connections && w.pend[s].dest in w.connections
    ensures var x, y := w.connections[w.pend[s].src], w.connections[w.pend[s].dest];
            && link.Live? && End(link, a, x) && y == Other(link, a, x) && x < |w.pool| && y < |w.pool|
            && Arrives(w, a, link, x, s)
  {
    assert Facts(w, a, link, fit);
  }

  /** A message outside the link reaches no end. */
  lemma OutsideRefs(w: World, a: Ref, link: Link, fit: bool, i: nat)
    requires Sound(w, a, link, fit) && i in w.connections && i in w.ids
    requires forall x: Ref {:trigger End(link, a, x)} :: End(link, a, x) ==> StrangerTo(w, x, i)
    ensures !End(link, a, w.connections[i])
  {
    SoundId(w, a, link, fit, i);
  }

  lemma ReceivedConn(c: Conn, ids: set<nat>, msg: Bytes, fit: bool)
    requires ConnOk(c, ids) && msg != [] && (fit ==> QueueFits(c))
    ensures ConnOk(c.(received := c.received + [msg]), ids) && (fit ==> QueueFits(c.(received := c.received + [msg])))
  {
  }

  /** A message outside the link arrives. */
  lemma ReceiveAside(w: World, w': World, a: Ref, link: Link, fit: bool, y: Ref, s: Slot, r: Slot)
    requires Sound(w, a, link, fit) && s in w.pend && w.pend[s].MessageTask? && s.t == w.time && !Inside(w, a, link, s)
    requires w.time <= r.t && w.pend[s].dest in w.connections && y < |w.pool|
             && (w.pool[y].reading != [] ==> r !in w.pend)
    requires y == w.connections[w.pend[s].dest]
    requires w' == w.(pend := WithRead(w.pend - {s}, y, w.pool[y], r),
                      pool := w.pool[y := w.pool[y].(received := w.pool[y].received + [w.pend[s].msg])])
    ensures Sound(w', a, link, fit) && !End(link, a, y)
  {
    MessageOutside(w, a, link, fit, s);
    SoundTask(w, a, link, fit, s);
    OutsideRefs(w, a, link, fit, w.pend[s].dest);
    assert Facts(w, a, link, fit);
    ReceivedConn(w.pool[y], w.ids, w.pend[s].msg, fit);
    var w1 := w.(pend := w.pend - {s});
    var w2 := w1.(pool := w'.pool);
    TakeAside(w, w1, a, link, fit, s);
    SetAside(w1, w2, a, link, fit, y, w'.pool[y]);
    if w.pool[y].reading != [] {
      AddAside(w2, w', a, link, fit, r, ReadTask(y));
    }
  }

  /** A later time stamp for a connection that is no end. */
  lemma SoundStamp(w: World, w': World, a: Ref, link: Link, fit: bool, z: Ref, stamp: nat)
    requires Sound(w, a, link, fit) && z < |w.pool| && !End(link, a, z)
             && w' == w.(pool := w.pool[z := w.pool[z].(stamp := stamp)])
    ensures Sound(w', a, link, fit)
  {
    assert Facts(w, a, link, fit);
    assert ConnOk(w.pool[z], w.ids) && (fit ==> QueueFits(w.pool[z]));
    SetAside(w, w', a, link, fit, z, w'.pool[z]);
  }

  /** An acknowledgement for nobody, or for nothing, is not meant for an end. */
  lemma AckUnheard(w: World, a: Ref, link: Link, fit: bool, s: Slot)
    requires Sound(w, a, link, fit) && s in w.pend && w.pend[s].AckTask?
    requires w.pend[s].dest in w.connections ==>
               w.connections[w.pend[s].dest] < |w.pool| && w.pool[w.connections[w.pend[s].dest]].sending == []
    ensures forall x {:trigger FreeOf(w, x, w.pend[s])} :: End(link, a, x) ==> FreeOf(w, x, w.pend[s])
  {
    assert Facts(w, a, link, fit);
    forall x: Ref | End(link, a, x) ensures FreeOf(w, x, w.pend[s]) {
      if x < |w.pool| && w.pool[x].local != 0 && w.pool[x].local == w.pend[s].dest {
        TaskKinds(w, a, link, fit, s, x);
        AckFlies(w, a, link, x, s);
      }
    }
  }

  lemma SoundReads(w: World, a: Ref, link: Link, fit: bool, y: Ref)
    requires Sound(w, a, link, fit) && y < |w.pool|
    ensures w.pool[y].reading != [] ==> |w.pool[y].reading[0].data| <= Limit(w.pool[y].reading[0])
    ensures forall k :: 0 <= k < |w.pool[y].received| ==> w.pool[y].received[k] != []
  {
    SoundConn(w, a, link, fit, y);
  }

  /** A connection that is no end closes. */
  lemma SoundState(w: World, w': World, a: Ref, link: Link, fit: bool, z: Ref)
    requires Sound(w, a, link, fit) && z < |w.pool| && !End(link, a, z)
             && w' == w.(pool := w.pool[z := w.pool[z].(state := Disconnected)])
    ensures Sound(w', a, link, fit)
  {
    assert Facts(w, a, link, fit);
    assert ConnOk(w.pool[z], w.ids) && (fit ==> QueueFits(w.pool[z]));
    SetAside(w, w', a, link, fit, z, w'.pool[z]);
  }

  /** An acknowledgement for a message outside the link; w is the state before that message. */
  lemma AckAside(w: World, w1: World, w': World, a: Ref, link: Link, fit: bool, y: Ref, s: Slot, n: Slot)
    requires Sound(w, a, link, fit) && s in w.pend && w.pend[s].MessageTask? && s.t == w.time && !Inside(w, a, link, s)
    requires Sound(w1, a, link, fit) && y < |w.pool| && !End(link, a, y) && n !in w1.pend && w1.time <= n.t
             && w1.ids == w.ids
    requires |w1.pool| == |w.pool| && w1.pool == w.pool[y := w1.pool[y]]
    requires w' == w1.(pend := w1.pend[n := AckTask(w.pend[s].src, true)],
                       pool := w1.pool[y := w1.pool[y].(stamp := n.t)])
    ensures Sound(w', a, link, fit)
  {
    var w2 := w1.(pool := w'.pool);
    MessageOutside(w, a, link, fit, s);
    SoundTask(w, a, link, fit, s);
    SoundStamp(w1, w2, a, link, fit, y, n.t);
    AddAside(w2, w', a, link, fit, n, AckTask(w.pend[s].src, true));
  }

  /** The tasks of a granted request, for the new connection b and for the one that asked. */
  function GrantTasks(p: Pending, b: Ref, id: nat, r: Slot, m: Slot, n: Slot): Pending {
    p[r := ReadTask(b)][m := SendTask(b)][n := AcceptTask(id)]
  }

  /** The world after a request of x is granted, with the new end cb. */
  ghost function GrantedWorld(w: World, x: Ref, src: nat, cx: Conn, cb: Conn, r: Slot, m: Slot, n: Slot): World
    requires x < |w.pool|
  {
    World(w.time, GrantTasks(w.pend, |w.pool|, src, r, m, n), w.pool[x := cx] + [cb],
          w.connections[w.uid + 1 := |w.pool|], w.uid + 1, w.ids + {w.uid + 1},
          w.calls + [Accepted(|w.pool|), Established(|w.pool|)])
  }

  /** handle_request, granted. */
  lemma AfterGranted(w: World, w': World, a: Ref, link: Link, fit: bool, x: Ref, cx: Conn, cb: Conn, s: Slot, r: Slot,
                     m: Slot, n: Slot)
    returns (link': Link)
    requires Sound(w, a, link, fit) && s in w.pend && x < |w.pool| && w.pend[s].RequestTask?
             && w.pend[s].src in w.connections && w.connections[w.pend[s].src] == x
    requires r !in w.pend && m !in w.pend && n !in w.pend && r != m && r != n && m != n && w.time <= r.t
             && w.time <= m.t && w.time < n.t
    requires cx == w.pool[x].(bandwidth := cx.bandwidth, remote := w.uid + 1) && cx.bandwidth > 0
    requires cb == Conn(w.uid + 1, w.pool[x].local, 0, w.pool[x].minLag, w.pool[x].maxLag, cx.bandwidth, [], [], [],
                        n.t, Connected)
    requires w' == GrantedWorld(w.(pend := w.pend - {s}), x, w.pend[s].src, cx, cb, r, m, n)
    ensures Sound(w', a, link', fit && QueueFits(cx))
    ensures link.NotYet? && x == a ==> Begins(link', w.pool[x]) && link'.b == |w.pool|
    ensures link.Live? ==> link' == link
  {
    var fit' := fit && QueueFits(cx);
    Loosen(w, a, link, fit, fit');
    SoundTask(w, a, link, fit, s);
    SoundId(w, a, link, fit, w.pend[s].src);
    if End(link, a, x) {
      TaskKinds(w, a, link, fit, s, x);
      Forget(w, a, link, fit');
      var over := GrantSteps(w, w', a, Over, fit', x, cx, cb, s, r, m, n);
      assert Facts(w, a, link, fit);
      GrantedIsGranted(w.pend, w'.pend, |w.pool|, w.pend[s].src, s, r, m, n);
      link' := EndGranted(w, w', a, s, n, cx, cb);
      Recall(w', a, link', fit');
    } else {
      link' := GrantSteps(w, w', a, link, fit', x, cx, cb, s, r, m, n);
    }
  }

  lemma Loosen(w: World, a: Ref, link: Link, fit: bool, fit': bool)
    requires Sound(w, a, link, fit) && (fit' ==> fit)
    ensures Sound(w, a, link, fit')
  {
    assert Facts(w, a, link, fit);
    assert Facts(w, a, link, fit');
  }

  lemma GrantedIsGranted(p: Pending, q: Pending, b: Ref, id: nat, s: Slot, r: Slot, m: Slot, n: Slot)
    requires s in p && r !in p && m !in p && n !in p && r != m && r != n && m != n
             && q == GrantTasks(p - {s}, b, id, r, m, n)
    ensures GrantedTasks(p, q, s, n, id)
  {
  }

  /** A granted request, one small edit after the other. */
  lemma GrantSteps(w: World, w': World, a: Ref, link: Link, fit: bool, x: Ref, cx: Conn, cb: Conn, s: Slot, r: Slot,
                   m: Slot, n: Slot)
    returns (link': Link)
    requires Sound(w, a, link, fit) && !End(link, a, x) && (fit ==> QueueFits(cx))
    requires s in w.pend && x < |w.pool| && w.pend[s].RequestTask?
             && w.pend[s].src in w.connections && w.connections[w.pend[s].src] == x
    requires r !in w.pend && m !in w.pend && n !in w.pend && r != m && r != n && m != n && w.time <= r.t
             && w.time <= m.t && w.time < n.t
    requires cx == w.pool[x].(bandwidth := cx.bandwidth, remote := w.uid + 1) && cx.bandwidth > 0
    requires cb == Conn(w.uid + 1, w.pool[x].local, 0, w.pool[x].minLag, w.pool[x].maxLag, cx.bandwidth, [], [], [],
                        n.t, Connected)
    requires w' == GrantedWorld(w.(pend := w.pend - {s}), x, w.pend[s].src, cx, cb, r, m, n)
    ensures Sound(w', a, link', fit) && (link' == link || (link.NotYet? && link' == Over))
  {
    var b, i := |w.pool|, w.pend[s].src;
    SoundConn(w, a, link, fit, x);
    SoundTask(w, a, link, fit, s);
    SoundId(w, a, link, fit, i);
    IdOutside(w, a, link, fit, i);
    var w1 := w.(pend := w.pend - {s});
    TakeAside(w, w1, a, link, fit, s);
    var w2 := w1.(pool := w'.pool, connections := w'.connections, uid := w'.uid, ids := w'.ids);
    link' := GrantAside(w1, w2, a, link, fit, x, cx, cb);
    var w3 := w2.(pend := w1.pend[r := ReadTask(b)]);
    AddAside(w2, w3, a, link', fit, r, ReadTask(b));
    var w4 := w3.(pend := w3.pend[m := SendTask(b)]);
    AddAside(w3, w4, a, link', fit, m, SendTask(b));
    var w5 := w4.(pend := w'.pend);
    AcceptAside(w4, w5, a, link', fit, x, i, n);
    var w6 := w5.(calls := w.calls + [Accepted(b)]);
    CallAside(w5, w6, a, link', fit, Accepted(b));
    assert w'.calls == w6.calls + [Established(b)];
    CallAside(w6, w', a, link', fit, Established(b));
  }

  /** The acceptance of a request from outside the link is no end's business. */
  lemma AcceptAside(w: World, w': World, a: Ref, link: Link, fit: bool, x: Ref, i: nat, n: Slot)
    requires Sound(w, a, link, fit) && i in w.connections && w.connections[i] == x && i in w.ids && !End(link, a, x)
    requires n !in w.pend && w.time <= n.t && w' == w.(pend := w.pend[n := AcceptTask(i)])
    ensures Sound(w', a, link, fit)
  {
    IdOutside(w, a, link, fit, i);
    AddAside(w, w', a, link, fit, n, AcceptTask(i));
  }

  /** A warning for x that there is no route, seen as sent before the task at s was taken. */
  lemma NoRouteFirst(w: World, w': World, a: Ref, link: Link, fit: bool, s: Slot, n: Slot, x: Ref)
    requires Sound(w, a, link, fit) && s in w.pend && n !in w.pend && n != s && w.time <= n.t && x < |w.pool|
    requires w' == w.(pend := w.pend[n := NoRouteTask(x)])
    ensures Sound(w', a, link, fit) && s in w'.pend && w'.pend[s] == w.pend[s]
    ensures w'.pend - {s} == (w.pend - {s})[n := NoRouteTask(x)]
  {
    AddAside(w, w', a, link, fit, n, NoRouteTask(x));
  }

  /** Whatever an end has sent is due no later than its time stamp. */
  lemma FlightStamp(w: World, a: Ref, link: Link, fit: bool, x: Ref)
    requires Sound(w, a, link, fit) && link.Live? && End(link, a, x)
    ensures x < |w.pool|
    ensures forall s {:trigger s in w.pend} ::
            s in w.pend && w.pend[s].MessageTask? && w.pend[s].src == w.pool[x].local ==> s.t <= w.pool[x].stamp
  {
    assert Facts(w, a, link, fit);
    Face(w, a, link, x);
    var y := Other(link, a, x);
    assert PairFacts(w, x, y, Outbound(link, a, x), Outbound(link, a, y));
  }

  lemma ClearedConn(w: World, a: Ref, link: Link, fit: bool, z: Ref)
    requires Sound(w, a, link, fit) && z < |w.pool|
    ensures ConnOk(w.pool[z].(sending := [], reading := [], received := []), w.ids)
    ensures QueueFits(w.pool[z].(sending := [], reading := [], received := []))
    ensures w.pool[z].sending != [] ==> ConnOk(w.pool[z].(sending := w.pool[z].sending[1..]), w.ids)
    ensures w.pool[z].sending != [] && fit ==> QueueFits(w.pool[z].(sending := w.pool[z].sending[1..]))
  {
    assert Facts(w, a, link, fit);
    assert fit ==> QueueFits(w.pool[z]);
    if w.pool[z].sending != [] {
      PoppedConn(w.pool[z], w.ids, fit);
    }
  }

  // ------------------------------------------------------------- watching anew

  ghost predicate UnspokenFacts(w: World, x: Ref) {
    forall i {:trigger i in w.connections} ::
      i in w.connections && w.connections[i] == x && (x < |w.pool| ==> w.pool[x].local != i) ==>
        && (forall s {:trigger s in w.pend} :: s in w.pend ==> !Names(w.pend[s], i))
        && (forall z {:trigger w.pool[z]} :: 0 <= z < |w.pool| ==> w.pool[z].remote != i)
  }

  /** Nothing speaks of x by an id that it does not carry any more; proofs look inside on demand. */
  ghost predicate Unspoken(w: World, x: Ref) {
    forall u: Ref {:trigger UnspokenFacts(w, u)} :: u == x ==> UnspokenFacts(w, u)
  }

  ghost function Spoken(w: World, x: Ref): set<nat> {
    set i | i in w.ids && (i in w.connections && w.connections[i] == x && x < |w.pool| ==> w.pool[x].local == i)
  }

  lemma Afresh(w: World, w': World, a: Ref, link: Link, fit: bool, x: Ref, request: Option<Slot>)
    requires Sound(w, a, link, fit) && NotYetOk(w.(calls := []), x, request) && Unspoken(w, x)
    requires w' == w.(calls := [], ids := Spoken(w, x))
    ensures Sound(w', x, NotYet(request), fit)
  {
    assert Facts(w, a, link, fit) && UnspokenFacts(w, x);
    forall s | s in w.pend ensures RefsOk(w.pend[s], |w.pool|, w'.ids) {
      assert RefsOk(w.pend[s], |w.pool|, w.ids);
    }
    forall z | 0 <= z < |w.pool| ensures ConnOk(w.pool[z], w'.ids) {
      assert ConnOk(w.pool[z], w.ids);
    }
    LinkIds(w.(calls := []), w', x, NotYet(request));
    assert Facts(w', x, NotYet(request), fit);
  }

  /** A watch can begin: x has asked for nothing, or its request is on its way, and nothing else is due for x. */
  ghost predicate Watchable(w: World, x: Ref, request: Option<Slot>) {
    NotYetOk(w.(calls := []), x, request) && Unspoken(w, x)
  }

  /** Nothing speaks of x by the id it carries. */
  ghost predicate Silent(w: World, x: Ref) {
    x < |w.pool| && w.pool[x].local != 0 ==>
      && (forall s {:trigger s in w.pend} :: s in w.pend ==> !Names(w.pend[s], w.pool[x].local))
      && (forall z {:trigger w.pool[z]} :: 0 <= z < |w.pool| ==> w.pool[z].remote != w.pool[x].local)
  }

  /** A connection that is closed or refused, and cleared, can be watched again. */
  lemma ClosedIsWatchable(w: World, x: Ref)
    requires x < |w.pool| && w.pool[x].state == Disconnected && w.pool[x].remote == 0 && Silent(w, x) && Unspoken(w, x)
    requires w.pool[x].local != 0 ==> w.pool[x].stamp > 0
    requires Unsent(w.pool[x].sending) && Unfilled(w.pool[x].reading) && w.pool[x].received == []
    requires forall s {:trigger s in w.pend} :: s in w.pend ==> w.pend[s] != ClearTask(x)
    ensures Watchable(w, x, None)
  {
    assert NotYetFacts(w.(calls := []), x, None);
  }

  /** And still can after it connects, even if it keeps an id from before. */
  lemma ConnectIsWatchable(w: World, w': World, a: Ref, link: Link, fit: bool, x: Ref, n: Slot, address: nat)
    requires Sound(w, a, link, fit) && x < |w.pool| && n !in w.pend && n.t > 0 && Watchable(w, x, None) && Silent(w, x)
    requires w' == w.(pend := w.pend[n := RequestTask(w.uid + 1, address)],
                      pool := w.pool[x := w.pool[x].(state := Connecting, local := w.uid + 1, stamp := n.t)],
                      connections := w.connections[w.uid + 1 := x], uid := w.uid + 1, ids := w.ids + {w.uid + 1})
    ensures Watchable(w', x, Some(n))
  {
    assert Facts(w, a, link, fit) && UnspokenFacts(w, x) && NotYetFacts(w.(calls := []), x, None);
    assert forall k :: 0 <= k < |w'.pool| && k != x ==> w'.pool[k] == w.pool[k];
    forall s | s in w.pend ensures !Names(w.pend[s], w.uid + 1) {
      assert RefsOk(w.pend[s], |w.pool|, w.ids);
    }
    forall z | 0 <= z < |w.pool| ensures w.pool[z].remote <= w.uid {
      assert ConnOk(w.pool[z], w.ids);
    }
    assert NotYetFacts(w'.(calls := []), x, Some(n));
    assert UnspokenFacts(w', x);
  }
}
