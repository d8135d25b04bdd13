/** Every event keeps the watched link in order, whichever connection it happens to. */
module SimRuns {
  import opened Octets
  import opened SimModel
  import opened SimSteps
  import opened SimLink

  /** x is an end of the link, made or still asked for. */
  predicate End(link: Link, a: Ref, x: Ref) {
    match link
    case NotYet(_) => x == a
    case Live(b, _, _, _) => x == a || x == b
    case Over => false
  }

  // ------------------------------------------------------------ small edits aside

  predicate Free(task: Task, x: Ref, ix: nat) {
    task != ClearTask(x) && (ix == 0 || !Names(task, ix))
  }

  /** The task is none of x's business. */
  ghost predicate FreeOf(w: World, x: Ref, task: Task) {
    x < |w.pool| ==> Free(task, x, w.pool[x].local)
  }

  lemma LiveAside(w: World, w': World, a: Ref, b: Ref, f: Trace, g: Trace, accept: Slot, taken: Slot)
    requires LiveOk(w, a, b, f, g, accept) && Aside(w, w', a, b, taken)
    requires taken in w.pend ==> w.pend[taken] != AcceptTask(w.pool[a].local)
    ensures LiveOk(w', a, b, f, g, accept)
  {
    PairAside(w, w', a, b, f, g, taken);
    PairWired(w', a, b, f, g);
    OpeningAside(w, w', a, b, f, g, accept, taken);
  }

  lemma LiveAdd(w: World, w': World, a: Ref, b: Ref, f: Trace, g: Trace, accept: Slot, n: Slot, task: Task)
    requires LiveOk(w, a, b, f, g, accept) && n !in w.pend && w' == w.(pend := w.pend[n := task])
    requires FreeOf(w, a, task) && FreeOf(w, b, task)
    ensures LiveOk(w', a, b, f, g, accept)
  {
    PairWired(w, a, b, f, g);
    LiveAside(w, w', a, b, f, g, accept, n);
  }

  lemma NotYetAdd(w: World, w': World, a: Ref, request: Option<Slot>, n: Slot, task: Task)
    requires NotYetOk(w, a, request) && n !in w.pend && w' == w.(pend := w.pend[n := task]) && FreeOf(w, a, task)
    ensures NotYetOk(w', a, request)
  {
    assert NotYetFacts(w, a, request);
    assert NotYetFacts(w', a, request);
  }

  lemma LinkAdd(w: World, w': World, a: Ref, link: Link, n: Slot, task: Task)
    requires LinkOk(w, a, link) && n !in w.pend && w' == w.(pend := w.pend[n := task])
    requires forall x {:trigger FreeOf(w, x, task)} :: End(link, a, x) ==> FreeOf(w, x, task)
    ensures LinkOk(w', a, link)
  {
    match link
    case NotYet(request) =>
      assert FreeOf(w, a, task);
      NotYetAdd(w, w', a, request, n, task);
    case Live(b, f, g, accept) =>
      assert FreeOf(w, a, task) && FreeOf(w, b, task);
      LiveAdd(w, w', a, b, f, g, accept, n, task);
    case Over =>
  }

  lemma LiveTake(w: World, w': World, a: Ref, b: Ref, f: Trace, g: Trace, accept: Slot, s: Slot)
    requires LiveOk(w, a, b, f, g, accept) && s in w.pend && w' == w.(pend := w.pend - {s})
    requires FreeOf(w, a, w.pend[s]) && FreeOf(w, b, w.pend[s])
    requires w.pend[s].SendTask? || w.pend[s].ReadTask? ==> w.pend[s].c != a && w.pend[s].c != b
    ensures LiveOk(w', a, b, f, g, accept)
  {
    PairWired(w, a, b, f, g);
    LiveAside(w, w', a, b, f, g, accept, s);
  }

  lemma NotYetTake(w: World, w': World, a: Ref, request: Option<Slot>, s: Slot)
    requires NotYetOk(w, a, request) && s in w.pend && w' == w.(pend := w.pend - {s}) && request != Some(s)
    ensures NotYetOk(w', a, request)
  {
    assert NotYetFacts(w, a, request);
    assert NotYetFacts(w', a, request);
  }

  lemma RequestNames(w: World, a: Ref, request: Option<Slot>)
    requires NotYetOk(w, a, request)
    ensures request.Some? ==> request.value in w.pend && !FreeOf(w, a, w.pend[request.value])
  {
    assert NotYetFacts(w, a, request);
  }

  lemma LinkTake(w: World, w': World, a: Ref, link: Link, s: Slot)
    requires LinkOk(w, a, link) && s in w.pend && w' == w.(pend := w.pend - {s})
    requires forall x {:trigger FreeOf(w, x, w.pend[s])} :: End(link, a, x) ==> FreeOf(w, x, w.pend[s])
    requires link.Live? && (w.pend[s].SendTask? || w.pend[s].ReadTask?) ==> !End(link, a, w.pend[s].c)
    ensures LinkOk(w', a, link)
  {
    match link
    case NotYet(request) =>
      assert FreeOf(w, a, w.pend[s]);
      RequestNames(w, a, request);
      NotYetTake(w, w', a, request, s);
    case Live(b, f, g, accept) =>
      assert FreeOf(w, a, w.pend[s]) && FreeOf(w, b, w.pend[s]);
      LiveTake(w, w', a, b, f, g, accept, s);
    case Over =>
  }

  lemma Unused(p: Pending, time: nat) returns (s: Slot)
    ensures s !in p && time <= s.t
  {
    var keys, t: nat := p.Keys, time;
    while keys != {}
      invariant keys <= p.Keys && time <= t && forall k {:trigger k in p} :: k in p && k !in keys ==> k.t < t
      decreases keys
    {
      var k :| k in keys;
      if k.t >= t {
        t := k.t + 1;
      }
      keys := keys - {k};
    }
    s := Slot(t, 0);
  }

  /** The id is not that of x. */
  ghost predicate StrangerTo(w: World, x: Ref, id: nat) {
    x < |w.pool| && w.pool[x].local != 0 ==> w.pool[x].local != id
  }

  lemma LiveSet(w: World, w': World, a: Ref, b: Ref, f: Trace, g: Trace, accept: Slot, z: Ref, c: Conn)
    requires LiveOk(w, a, b, f, g, accept) && z < |w.pool| && z != a && z != b && w' == w.(pool := w.pool[z := c])
    requires c.remote == w.pool[z].remote || (StrangerTo(w, a, c.remote) && StrangerTo(w, b, c.remote))
    ensures LiveOk(w', a, b, f, g, accept)
  {
    var none := Unused(w.pend, 0);
    PairWired(w, a, b, f, g);
    assert forall k :: 0 <= k < |w'.pool| && k != z ==> w'.pool[k] == w.pool[k];
    LiveAside(w, w', a, b, f, g, accept, none);
  }

  lemma NotYetSet(w: World, w': World, a: Ref, request: Option<Slot>, z: Ref, c: Conn)
    requires NotYetOk(w, a, request) && z < |w.pool| && z != a && w' == w.(pool := w.pool[z := c])
    requires c.remote == w.pool[z].remote || StrangerTo(w, a, c.remote)
    ensures NotYetOk(w', a, request)
  {
    assert NotYetFacts(w, a, request);
    assert forall k :: 0 <= k < |w'.pool| && k != z ==> w'.pool[k] == w.pool[k];
    assert NotYetFacts(w', a, request);
  }

  /** Another connection changes; its remote names no end that it did not name before. */
  lemma LinkSet(w: World, w': World, a: Ref, link: Link, z: Ref, c: Conn)
    requires LinkOk(w, a, link) && z < |w.pool| && !End(link, a, z) && w' == w.(pool := w.pool[z := c])
    requires c.remote == w.pool[z].remote || forall x {:trigger StrangerTo(w, x, c.remote)} :: End(link, a, x) ==>
               StrangerTo(w, x, c.remote)
    ensures LinkOk(w', a, link)
  {
    match link
    case NotYet(request) =>
      assert StrangerTo(w, a, c.remote) || c.remote == w.pool[z].remote;
      NotYetSet(w, w', a, request, z, c);
    case Live(b, f, g, accept) =>
      assert (StrangerTo(w, a, c.remote) && StrangerTo(w, b, c.remote)) || c.remote == w.pool[z].remote;
      LiveSet(w, w', a, b, f, g, accept, z, c);
    case Over =>
  }

  lemma OtherCall(calls: seq<Callback>, call: Callback, x: Ref)
    requires (call.Sent? || call.Received?) ==> call.c != x
    ensures SentCalls(calls + [call], x) == SentCalls(calls, x) && ReadCalls(calls + [call], x) == ReadCalls(calls, x)
  {
    assert (calls + [call])[..|calls|] == calls;
  }

  lemma LinkCall(w: World, w': World, a: Ref, link: Link, call: Callback)
    requires LinkOk(w, a, link) && w' == w.(calls := w.calls + [call])
    requires (call.Sent? || call.Received?) ==> !End(link, a, call.c)
    ensures LinkOk(w', a, link)
  {
    match link
    case NotYet(request) =>
      OtherCall(w.calls, call, a);
      assert NotYetFacts(w, a, request);
      assert NotYetFacts(w', a, request);
    case Live(b, f, g, accept) =>
      OtherCall(w.calls, call, a);
      OtherCall(w.calls, call, b);
      var none := Unused(w.pend, 0);
      PairWired(w, a, b, f, g);
      LiveAside(w, w', a, b, f, g, accept, none);
    case Over =>
  }

  lemma LiveGrow(w: World, w': World, a: Ref, b: Ref, f: Trace, g: Trace, accept: Slot, c: Conn)
    requires LiveOk(w, a, b, f, g, accept) && w' == w.(pool := w.pool + [c])
    requires StrangerTo(w, a, c.remote) && StrangerTo(w, b, c.remote)
    ensures LiveOk(w', a, b, f, g, accept)
  {
    var none := Unused(w.pend, 0);
    PairWired(w, a, b, f, g);
    assert forall k :: 0 <= k < |w.pool| ==> w'.pool[k] == w.pool[k];
    LiveAside(w, w', a, b, f, g, accept, none);
  }

  /** A new connection that is not a itself and names no end. */
  lemma LinkGrow(w: World, w': World, a: Ref, link: Link, c: Conn)
    requires LinkOk(w, a, link) && w' == w.(pool := w.pool + [c])
    requires forall x {:trigger StrangerTo(w, x, c.remote)} :: End(link, a, x) ==> StrangerTo(w, x, c.remote)
    requires link.NotYet? ==> |w.pool| != a
    ensures LinkOk(w', a, link)
  {
    match link
    case NotYet(request) =>
      assert StrangerTo(w, a, c.remote);
      assert NotYetFacts(w, a, request);
      assert forall k :: 0 <= k < |w.pool| ==> w'.pool[k] == w.pool[k];
      assert NotYetFacts(w', a, request);
    case Live(b, f, g, accept) =>
      assert StrangerTo(w, a, c.remote) && StrangerTo(w, b, c.remote);
      LiveGrow(w, w', a, b, f, g, accept, c);
    case Over =>
  }

  // ----------------------------------------------------------- events at the ends

  /** The same stage of the same link. */
  predicate SameLink(link: Link, link': Link) {
    match link
    case NotYet(r) => link' == NotYet(r)
    case Live(b, f, g, accept) => link'.Live? && link'.b == b && link'.accept == accept && SameBooks(f, link'.f)
        && SameBooks(g, link'.g)
    case Over => link' == Over
  }

  /** Neither is anything new asked to be sent, nor any new read. */
  predicate SameBooks(d: Trace, d': Trace) {
    d'.log == d.log && d'.asked == d.asked
  }

  /** A new link: what c was asked for before it was connected is asked for now. */
  predicate Begins(link: Link, c: Conn) {
    link.Live? && link.f.log == c.sending && link.f.asked == [] && link.g.log == [] && link.g.asked == c.reading
  }

  /** At an end x the packet is asked to be sent, and nothing else is asked for. */
  predicate LinkQueued(link: Link, link': Link, a: Ref, x: Ref, packet: Outgoing) {
    if !link.Live? then link' == link
    else
      && link'.Live? && link'.b == link.b && link'.accept == link.accept
      && SameBooks(Outbound(link, a, x).(log := Outbound(link, a, x).log + [packet]), Outbound(link', a, x))
      && SameBooks(Outbound(link, a, Other(link, a, x)), Outbound(link', a, Other(link, a, x)))
  }

  /** At an end y the read is asked for, and nothing else. */
  predicate LinkPosted(link: Link, link': Link, a: Ref, y: Ref, read: Incoming) {
    if !link.Live? then link' == link
    else
      var x := Other(link, a, y);
      && link'.Live? && link'.b == link.b && link'.accept == link.accept
      && SameBooks(Outbound(link, a, x).(asked := Outbound(link, a, x).asked + [read]), Outbound(link', a, x))
      && SameBooks(Outbound(link, a, y), Outbound(link', a, y))
  }

  function Turned(link: Link, a: Ref, x: Ref, d: Trace): Link
    requires link.Live?
  {
    if x == a then link.(f := d) else link.(g := d)
  }

  /** What is known of the direction that starts at x. */
  function Outbound(link: Link, a: Ref, x: Ref): Trace
    requires link.Live?
  {
    if x == a then link.f else link.g
  }

  /** The other end. */
  function Other(link: Link, a: Ref, x: Ref): Ref
    requires link.Live?
  {
    if x == a then link.b else a
  }

  lemma Face(w: World, a: Ref, link: Link, x: Ref)
    requires LinkOk(w, a, link) && link.Live? && End(link, a, x)
    ensures Wired(w, x, Other(link, a, x))
    ensures PairOk(w, x, Other(link, a, x), Outbound(link, a, x), Outbound(link, a, Other(link, a, x)))
  {
    if x != a {
      PairSwap(w, a, link.b, link.f, link.g);
    }
  }

  /** After a step that keeps the pair, and its opening, in order. */
  lemma Unface(w: World, a: Ref, link: Link, x: Ref, d: Trace)
    requires link.Live? && End(link, a, x) && a != link.b
    requires PairOk(w, x, Other(link, a, x), d, Outbound(link, a, Other(link, a, x)))
    requires var l := Turned(link, a, x, d); a < |w.pool| && l.b < |w.pool| && OpeningOk(w, a, l.b, l.f, l.g, l.accept)
    ensures LinkOk(w, a, Turned(link, a, x, d))
  {
    PairWired(w, x, Other(link, a, x), d, Outbound(link, a, Other(link, a, x)));
    if x != a {
      PairSwap(w, link.b, a, d, link.f);
    }
  }

  /** async_send at an end. */
  lemma EndQueued(w: World, w': World, a: Ref, link: Link, x: Ref, packet: Outgoing, n: Slot) returns (link': Link)
    requires LinkOk(w, a, link) && End(link, a, x) && x < |w.pool| && packet.message != [] && packet.sent == 0
             && n !in w.pend
    requires w' == w.(pend := if w.pool[x].state == Connected then w.pend[n := SendTask(x)] else w.pend,
                      pool := w.pool[x := w.pool[x].(sending := w.pool[x].sending + [packet])])
    ensures LinkOk(w', a, link') && LinkQueued(link, link', a, x, packet)
    ensures link.Live? ==> Outbound(link', a, x).flight == Outbound(link, a, x).flight
  {
    if link.Live? {
      Face(w, a, link, x);
      var y := Other(link, a, x);
      var d := PairQueued(w, w', x, y, Outbound(link, a, x), Outbound(link, a, y), packet, n);
      link' := Turned(link, a, x, d);
      Unface(w', a, link, x, d);
    } else {
      link' := link;
      NotYetQueued(w, w', a, link.request, packet, n);
    }
  }

  lemma NotYetQueued(w: World, w': World, a: Ref, request: Option<Slot>, packet: Outgoing, n: Slot)
    requires NotYetOk(w, a, request) && a < |w.pool| && packet.message != [] && packet.sent == 0
    requires w' == w.(pend := if w.pool[a].state == Connected then w.pend[n := SendTask(a)] else w.pend,
                      pool := w.pool[a := w.pool[a].(sending := w.pool[a].sending + [packet])])
    ensures NotYetOk(w', a, request)
  {
    assert NotYetFacts(w, a, request);
    assert forall k :: 0 <= k < |w'.pool| && k != a ==> w'.pool[k] == w.pool[k];
    assert NotYetFacts(w', a, request);
  }

  /** async_read at an end. */
  lemma EndPosted(w: World, w': World, a: Ref, link: Link, y: Ref, packet: Incoming, n: Slot) returns (link': Link)
    requires LinkOk(w, a, link) && End(link, a, y) && y < |w.pool| && packet.data == [] && packet.want <= packet.size
             && n !in w.pend
    requires w' == w.(pend := if w.pool[y].received != [] then w.pend[n := ReadTask(y)] else w.pend,
                      pool := w.pool[y := w.pool[y].(reading := w.pool[y].reading + [packet])])
    ensures LinkOk(w', a, link') && LinkPosted(link, link', a, y, packet)
  {
    if link.Live? {
      var x := Other(link, a, y);
      Face(w, a, link, x);
      var d := PairPosted(w, w', x, y, Outbound(link, a, x), Outbound(link, a, y), packet, n);
      link' := Turned(link, a, x, d);
      Unface(w', a, link, x, d);
    } else {
      link' := link;
      NotYetPosted(w, w', a, link.request, packet, n);
    }
  }

  lemma NotYetPosted(w: World, w': World, a: Ref, request: Option<Slot>, packet: Incoming, n: Slot)
    requires NotYetOk(w, a, request) && a < |w.pool| && packet.data == [] && packet.want <= packet.size
    requires w' == w.(pend := if w.pool[a].received != [] then w.pend[n := ReadTask(a)] else w.pend,
                      pool := w.pool[a := w.pool[a].(reading := w.pool[a].reading + [packet])])
    ensures NotYetOk(w', a, request)
  {
    assert NotYetFacts(w, a, request);
    assert forall k :: 0 <= k < |w'.pool| && k != a ==> w'.pool[k] == w.pool[k];
    assert NotYetFacts(w', a, request);
  }

  /** handle_send at an end with nothing to do. */
  lemma EndNothingSent(w: World, w': World, a: Ref, link: Link, x: Ref, s: Slot)
    requires LinkOk(w, a, link) && End(link, a, x) && x < |w.pool| && s in w.pend && w.pend[s] == SendTask(x)
    requires w.pool[x].state != Connected || w.pool[x].sending == [] || Complete(w.pool[x].sending[0])
    requires w' == w.(pend := w.pend - {s})
    ensures LinkOk(w', a, link)
  {
    if link.Live? {
      Face(w, a, link, x);
      var y := Other(link, a, x);
      PairNothingSent(w, w', x, y, Outbound(link, a, x), Outbound(link, a, y), s);
      Unface(w', a, link, x, Outbound(link, a, x));
    } else {
      RequestNames(w, a, link.request);
      NotYetTake(w, w', a, link.request, s);
    }
  }

  /** handle_send of the next chunk at an end. */
  lemma EndChunk(w: World, w': World, a: Ref, link: Link, x: Ref, k: nat, s: Slot, n: Slot) returns (link': Link)
    requires LinkOk(w, a, link) && link.Live? && End(link, a, x) && Outbound(link, a, x).flight == None
    requires s in w.pend && w.pend[s] == SendTask(x) && n !in w.pend && w.pool[x].state == Connected
    requires var cx := w.pool[x];
             && cx.sending != [] && 0 < k && cx.sending[0].sent + k <= |cx.sending[0].message| && cx.stamp < n.t
             && w' == w.(pend := (w.pend - {s})[n := MessageTask(cx.local, cx.remote, Chunk(cx.sending[0], k))],
                         pool := w.pool[x := cx.(sending := Advanced(cx.sending, k), stamp := n.t)])
    ensures LinkOk(w', a, link') && SameLink(link, link') && Outbound(link', a, x).flight == Some(n)
  {
    Face(w, a, link, x);
    var y := Other(link, a, x);
    var d := PairChunk(w, w', x, y, Outbound(link, a, x), Outbound(link, a, y), k, s, n);
    link' := Turned(link, a, x, d);
    Unface(w', a, link, x, d);
  }

  /** handle_send of a begun packet while something of it is in flight: the guarantee is lost. */
  lemma EndPipelined(w: World, w': World, a: Ref, link: Link, x: Ref, s: Slot, n: Slot, task: Task)
    requires LinkOk(w, a, link) && link.Live? && End(link, a, x) && Outbound(link, a, x).flight != None
    requires s in w.pend && w.pend[s] == SendTask(x) && n !in w.pend && InFlight(task, w.pool[x].local)
    requires w'.pend == (w.pend - {s})[n := task]
    ensures TwoInFlight(w'.pend, w.pool[x].local)
  {
    Face(w, a, link, x);
    var y := Other(link, a, x);
    assert PairFacts(w, x, y, Outbound(link, a, x), Outbound(link, a, y));
    var other := Pipelined(w.pend, w'.pend, w.calls, x, y, w.pool[x], w.pool[y], Outbound(link, a, x), s, n, task);
  }

  ghost predicate TwoInFlight(pend: Pending, id: nat) {
    exists s, r :: s in pend && r in pend && s != r && InFlight(pend[s], id) && InFlight(pend[r], id)
  }

  /** While packets fit the bandwidth, no packet is begun twice. */
  lemma FittingNeverPipelined(w: World, a: Ref, link: Link, x: Ref)
    requires LinkOk(w, a, link) && link.Live? && End(link, a, x) && w.pool[x].sending != []
    requires Fits(w.pool[x].sending[0]) && !Complete(w.pool[x].sending[0])
    ensures Outbound(link, a, x).flight == None
  {
    Face(w, a, link, x);
    assert PairFacts(w, x, Other(link, a, x), Outbound(link, a, x), Outbound(link, a, Other(link, a, x)));
  }

  /** Sent whole or not at all. */
  predicate Fits(p: Outgoing) {
    p.sent == 0 || Complete(p)
  }

  /** A message for an end of the link comes from the other end, and only after that end is connected. */
  lemma EndReached(w: World, a: Ref, link: Link, s: Slot)
    requires LinkOk(w, a, link) && link.Live? && s in w.pend && w.pend[s].MessageTask?
    requires forall r {:trigger r in w.pend} :: r in w.pend ==> s.t <= r.t
    ensures forall x: Ref :: End(link, a, x) && (w.pend[s].src == w.pool[x].local
                                                 || w.pend[s].dest == w.pool[x].local) ==>
              exists z: Ref :: End(link, a, z) && Arrives(w, a, link, z, s)
  {
    forall x: Ref | End(link, a, x) && (w.pend[s].src == w.pool[x].local || w.pend[s].dest == w.pool[x].local)
      ensures exists z: Ref :: End(link, a, z) && Arrives(w, a, link, z, s)
    {
      var z := if w.pend[s].src == w.pool[x].local then x else Other(link, a, x);
      Face(w, a, link, z);
      ArrivesFacts(w, a, link, z, s);
    }
  }

  /** The message at s goes from the end z to the other one, which is ready for it. */
  ghost predicate Arrives(w: World, a: Ref, link: Link, z: Ref, s: Slot)
    requires link.Live? && s in w.pend
  {
    var y := Other(link, a, z);
    && z < |w.pool| && y < |w.pool| && z != y
    && w.pend[s].MessageTask? && w.pend[s].src == w.pool[z].local && w.pend[s].dest == w.pool[y].local
    && w.pool[y].state == Connected && w.pool[z].state == Connected && w.pool[z].sending != []
    && Outbound(link, a, z).flight == Some(s) && w.pool[z].local != 0 && w.pool[y].local != 0
  }

  lemma ArrivesFacts(w: World, a: Ref, link: Link, z: Ref, s: Slot)
    requires LinkOk(w, a, link) && link.Live? && End(link, a, z) && s in w.pend && w.pend[s].MessageTask?
    requires forall r {:trigger r in w.pend} :: r in w.pend ==> s.t <= r.t
    requires w.pend[s].src == w.pool[z].local || w.pend[s].dest == w.pool[Other(link, a, z)].local
    ensures Arrives(w, a, link, z, s)
  {
    Face(w, a, link, z);
    var y := Other(link, a, z);
    var d, e := Outbound(link, a, z), Outbound(link, a, y);
    assert PairFacts(w, z, y, d, e);
    assert InFlight(w.pend[s], w.pool[z].local);
    assert d.flight == Some(s);
  }

  /** handle_message between the ends. */
  lemma EndDelivered(w: World, w': World, a: Ref, link: Link, x: Ref, msg: Bytes, s: Slot, r: Slot, n: Slot, stamp: nat)
    returns (link': Link)
    requires LinkOk(w, a, link) && link.Live? && End(link, a, x) && s in w.pend && n !in w.pend
    requires Arrives(w, a, link, x, s) && w.pend[s].msg == msg
    requires var y := Other(link, a, x);
             && (w.pool[y].reading != [] ==> r !in w.pend && r != n)
             && w.pool[y].stamp <= stamp && (Complete(w.pool[x].sending[0]) ==> n.t <= stamp)
             && w' == w.(pend := WithRead(w.pend - {s}, y, w.pool[y], r)[n := After(x, w.pool[x])],
                         pool := w.pool[y := w.pool[y].(received := w.pool[y].received + [msg], stamp := stamp)])
    ensures LinkOk(w', a, link') && SameLink(link, link')
    ensures Outbound(link', a, x).got == Outbound(link, a, x).got + msg
  {
    Face(w, a, link, x);
    var y := Other(link, a, x);
    var d := PairDelivered(w, w', x, y, Outbound(link, a, x), Outbound(link, a, y), msg, s, r, n, stamp);
    link' := Turned(link, a, x, d);
    Unface(w', a, link, x, d);
  }

  /** handle_ack at an end. */
  lemma EndAcked(w: World, w': World, a: Ref, link: Link, x: Ref, s: Slot, n: Slot) returns (link': Link)
    requires LinkOk(w, a, link) && link.Live? && End(link, a, x) && s in w.pend && n !in w.pend
    requires w.pend[s].AckTask? && w.pend[s].dest == w.pool[x].local && w.pool[x].sending != []
    requires w' == w.(pend := (w.pend - {s})[n := SendTask(x)],
                      pool := w.pool[x := w.pool[x].(sending := w.pool[x].sending[1..])],
                      calls := w.calls + [Sent(x, w.pool[x].sending[0].id, w.pend[s].ok)])
    ensures LinkOk(w', a, link') && SameLink(link, link') && w.pend[s].ok
  {
    Face(w, a, link, x);
    var y := Other(link, a, x);
    AckFlies(w, a, link, x, s);
    var d := PairAcked(w, w', x, y, Outbound(link, a, x), Outbound(link, a, y), s, n);
    link' := Turned(link, a, x, d);
    Unface(w', a, link, x, d);
  }

  /** An acknowledgement for an end is the one thing it has in flight. */
  lemma AckFlies(w: World, a: Ref, link: Link, x: Ref, s: Slot)
    requires LinkOk(w, a, link) && link.Live? && End(link, a, x) && s in w.pend
    requires w.pend[s].AckTask? && w.pend[s].dest == w.pool[x].local
    ensures Outbound(link, a, x).flight == Some(s) && w.pool[x].sending != [] && w.pool[a].state == Connected
  {
    Face(w, a, link, x);
    assert PairFacts(w, x, Other(link, a, x), Outbound(link, a, x), Outbound(link, a, Other(link, a, x)));
  }

  /** handle_read at an end: nothing to do, a buffer partly filled, or a reader served. */
  lemma EndNothingRead(w: World, w': World, a: Ref, link: Link, y: Ref, s: Slot)
    requires LinkOk(w, a, link) && End(link, a, y) && y < |w.pool| && s in w.pend && w.pend[s] == ReadTask(y)
    requires w.pool[y].reading == [] || w.pool[y].received == [] || w.pool[y].state != Connected
    requires w' == w.(pend := w.pend - {s})
    ensures LinkOk(w', a, link)
  {
    if link.Live? {
      var x := Other(link, a, y);
      Face(w, a, link, x);
      PairNothingRead(w, w', x, y, Outbound(link, a, x), Outbound(link, a, y), s);
      Unface(w', a, link, x, Outbound(link, a, x));
    } else {
      RequestNames(w, a, link.request);
      NotYetTake(w, w', a, link.request, s);
    }
  }

  lemma EndPartlyRead(w: World, w': World, a: Ref, link: Link, y: Ref, front: Incoming, s: Slot)
    requires LinkOk(w, a, link) && link.Live? && End(link, a, y) && s in w.pend && w.pend[s] == ReadTask(y)
    requires w.pool[y].state == Connected && w.pool[y].reading != [] && 0 < front.want && |front.data| < front.want
    requires front == w.pool[y].reading[0].(data := w.pool[y].reading[0].data + Joined(w.pool[y].received))
    requires w' == w.(pend := w.pend - {s},
                      pool := w.pool[y := w.pool[y].(reading := [front] + w.pool[y].reading[1..], received := [])])
    ensures LinkOk(w', a, link)
  {
    var x := Other(link, a, y);
    Face(w, a, link, x);
    PairPartlyRead(w, w', x, y, Outbound(link, a, x), Outbound(link, a, y), front, s);
    Unface(w', a, link, x, Outbound(link, a, x));
  }

  lemma EndServed(w: World, w': World, a: Ref, link: Link, y: Ref, data: Bytes, rest: seq<Bytes>, s: Slot, n: Slot)
    returns (link': Link)
    requires LinkOk(w, a, link) && link.Live? && End(link, a, y) && s in w.pend && w.pend[s] == ReadTask(y)
             && n !in w.pend
    requires w.pool[y].state == Connected && w.pool[y].reading != []
    requires data + Joined(rest) == w.pool[y].reading[0].data + Joined(w.pool[y].received)
    requires Meets(w.pool[y].reading[0], Received(y, w.pool[y].reading[0].id, data))
    requires forall k :: 0 <= k < |rest| ==> rest[k] != []
    requires w' == w.(pend := (w.pend - {s})[n := ReadTask(y)],
                      pool := w.pool[y := w.pool[y].(reading := w.pool[y].reading[1..], received := rest)],
                      calls := w.calls + [Received(y, w.pool[y].reading[0].id, data)])
    ensures LinkOk(w', a, link') && SameLink(link, link')
  {
    var x := Other(link, a, y);
    Face(w, a, link, x);
    var d := PairServed(w, w', x, y, Outbound(link, a, x), Outbound(link, a, y), data, rest, s, n);
    link' := Turned(link, a, x, d);
    Unface(w', a, link, x, d);
  }

  /** handle_accept at an end. */
  lemma EndOpened(w: World, w': World, a: Ref, link: Link, x: Ref, s: Slot, r: Slot, n: Slot, call: Callback)
    returns (link': Link)
    requires LinkOk(w, a, link) && link.Live? && End(link, a, x) && s in w.pend
             && w.pend[s] == AcceptTask(w.pool[x].local)
    requires n !in w.pend && r !in w.pend && r != n && !call.Sent? && !call.Received?
    requires w' == w.(pend := (w.pend - {s})[r := ReadTask(x)][n := SendTask(x)],
                      pool := w.pool[x := w.pool[x].(state := Connected)], calls := w.calls + [call])
    ensures LinkOk(w', a, link') && SameLink(link, link')
  {
    Face(w, a, link, x);
    var y := Other(link, a, x);
    PairWired(w, x, y, Outbound(link, a, x), Outbound(link, a, y));
    assert w.pool[x].local != w.pool[x].remote;
    var d := PairOpened(w, w', x, y, Outbound(link, a, x), Outbound(link, a, y), s, r, n, call);
    link' := Turned(link, a, x, d);
    Unface(w', a, link, x, d);
  }

  // ------------------------------------------------------------- making the link

  /** connect. */
  lemma EndRequested(w: World, w': World, a: Ref, c: Conn, n: Slot, address: nat)
    requires BaseOk(w) && NotYetOk(w, a, None) && a < |w.pool| && w.pool[a].local == 0 && n !in w.pend && n.t > 0
    requires c == w.pool[a].(state := Connecting, local := w.uid + 1, stamp := n.t)
    requires w'.pend == w.pend[n := RequestTask(w.uid + 1, address)] && w'.pool == w.pool[a := c] && w'.calls == w.calls
    ensures NotYetOk(w', a, Some(n))
  {
    assert NotYetFacts(w, a, None);
    assert forall k :: 0 <= k < |w'.pool| && k != a ==> w'.pool[k] == w.pool[k];
    forall s | s in w.pend ensures !Names(w.pend[s], w.uid + 1) {
      assert RefsOk(w.pend[s], |w.pool|, w.ids);
    }
    assert NotYetFacts(w', a, Some(n));
  }

  /** handle_request, refused. */
  lemma EndRefused(w: World, w': World, a: Ref, s: Slot, n: Slot)
    requires NotYetOk(w, a, Some(s)) && a < |w.pool| && n !in w.pend && s in w.pend
    requires w' == w.(pend := (w.pend - {s})[n := RefuseTask(w.pool[a].local)])
    ensures NotYetOk(w', a, None)
  {
    assert NotYetFacts(w, a, Some(s));
    assert NotYetFacts(w', a, None);
  }

  lemma {:induction false} NoCallsYet(calls: seq<Callback>, x: Ref)
    requires forall k {:trigger calls[k]} :: 0 <= k < |calls| ==> calls[k].c != x
    ensures SentCalls(calls, x) == [] && ReadCalls(calls, x) == []
  {
    if calls != [] {
      NoCallsYet(calls[..|calls| - 1], x);
    }
  }

  /** The tasks after a request at s was granted: for b to start, for a to hear of it at n. */
  ghost predicate GrantedTasks(p: Pending, q: Pending, s: Slot, n: Slot, ia: nat) {
    && Keeps(p, q, s) && s !in q && n !in p && n in q && q[n] == AcceptTask(ia)
    && forall k {:trigger k in q} :: k in q && k !in p && k != n ==>
          q[k].SendTask? || q[k].ReadTask? || q[k].NoRouteTask?
  }

  lemma GrantedQuiet(p: Pending, q: Pending, s: Slot, n: Slot, a: Ref, b: Ref, ia: nat, ib: nat, ids: set<nat>)
    requires GrantedTasks(p, q, s, n, ia) && ia in ids && ib !in ids
    requires forall k {:trigger k in p} :: k in p ==>
               RefsOk(p[k], b, ids) && p[k] != ClearTask(a) && (k != s ==> !Names(p[k], ia))
    ensures Quiet(q, a, b, ia, ib) && forall k {:trigger k in q} :: k in q ==>
              !InFlight(q[k], ia) && !InFlight(q[k], ib)
  {
  }

  /** Two connections wired to each other that have nothing under way. */
  lemma FreshPair(w: World, a: Ref, b: Ref, n: Slot) returns (f: Trace, g: Trace)
    requires Wired(w, a, b) && Private(w.pool, a, b) && Quiet(w.pend, a, b, w.pool[a].local, w.pool[b].local)
    requires forall k {:trigger k in w.pend} :: k in w.pend ==>
               !InFlight(w.pend[k], w.pool[a].local) && !InFlight(w.pend[k], w.pool[b].local)
    requires SentCalls(w.calls, a) == [] && ReadCalls(w.calls, a) == []
    requires SentCalls(w.calls, b) == [] && ReadCalls(w.calls, b) == []
    requires w.pool[a].state == Connecting && Unsent(w.pool[a].sending) && Unfilled(w.pool[a].reading)
             && w.pool[a].received == []
    requires w.pool[b].sending == [] && w.pool[b].reading == [] && w.pool[b].received == []
    ensures PairOk(w, a, b, f, g) && f.flight == None && f.acked == 0 && g.flight == None
    ensures f.log == w.pool[a].sending && f.asked == [] && g.log == [] && g.asked == w.pool[a].reading
  {
    f := Untouched(w.pend, w.calls, a, b, w.pool[a], w.pool[b], n);
    g := Untouched(w.pend, w.calls, b, a, w.pool[b], w.pool[a], n);
    assert AskedFacts([], w.pool[a].reading, g.asked, |g.asked|)
           && AskedFacts([], w.pool[b].reading, f.asked, |f.asked|);
    assert PairFacts(w, a, b, f, g);
  }

  /** handle_request, granted: from here on the link is live. */
  lemma EndGranted(w: World, w': World, a: Ref, s: Slot, n: Slot, ca: Conn, cb: Conn) returns (link: Link)
    requires BaseOk(w) && NotYetOk(w, a, Some(s)) && a < |w.pool| && s in w.pend
    requires ca == w.pool[a].(bandwidth := ca.bandwidth, remote := w.uid + 1)
    requires cb.local == w.uid + 1 && cb.remote == w.pool[a].local && cb.state == Connected && cb.stamp == n.t > 0
    requires cb.sending == [] && cb.reading == [] && cb.received == []
    requires w'.pool == w.pool[a := ca] + [cb] && GrantedTasks(w.pend, w'.pend, s, n, w.pool[a].local)
    requires w'.calls == w.calls + [Accepted(|w.pool|), Established(|w.pool|)]
    ensures LinkOk(w', a, link) && link.Live? && link.b == |w.pool| && Begins(link, w.pool[a])
  {
    var b, q := |w.pool|, w'.pend;
    RequestFacts(w, a, s);
    GrantedQuiet(w.pend, q, s, n, a, b, ca.local, cb.local, w.ids);
    GrantedCalls(w, w', a);
    GrantedPrivate(w, w', a, ca, cb);
    assert w'.pool[a] == ca && w'.pool[b] == cb;
    var f, g := FreshPair(w', a, b, n);
    link := Live(b, f, g, n);
  }

  /** What is known of a connection whose request is on its way. */
  lemma RequestFacts(w: World, a: Ref, s: Slot)
    requires BaseOk(w) && NotYetOk(w, a, Some(s)) && a < |w.pool| && s in w.pend
    ensures SentCalls(w.calls, a) == [] && ReadCalls(w.calls, a) == []
    ensures var c := w.pool[a];
            && c.state == Connecting && 0 < c.local <= w.uid && c.stamp > 0
            && Unsent(c.sending) && Unfilled(c.reading) && c.received == []
            && w.pend[s].RequestTask? && w.pend[s].src == c.local
    ensures forall k {:trigger k in w.pend} :: k in w.pend ==>
              && RefsOk(w.pend[k], |w.pool|, w.ids) && w.pend[k] != ClearTask(a)
              && (k != s ==> !Names(w.pend[k], w.pool[a].local))
    ensures forall z {:trigger w.pool[z]} :: 0 <= z < |w.pool| ==> w.pool[z].remote != w.pool[a].local
  {
    assert NotYetFacts(w, a, Some(s));
    assert ConnOk(w.pool[a], w.ids);
  }

  lemma GrantedCalls(w: World, w': World, a: Ref)
    requires CallersOk(w.calls, |w.pool|) && SentCalls(w.calls, a) == [] && ReadCalls(w.calls, a) == []
    requires w'.calls == w.calls + [Accepted(|w.pool|), Established(|w.pool|)]
    ensures SentCalls(w'.calls, a) == [] && ReadCalls(w'.calls, a) == []
    ensures SentCalls(w'.calls, |w.pool|) == [] && ReadCalls(w'.calls, |w.pool|) == []
  {
    var b := |w.pool|;
    NoCallsYet(w.calls, b);
    assert w'.calls == w.calls + [Accepted(b)] + [Established(b)];
    NeutralCall(w.calls, Accepted(b), a);
    NeutralCall(w.calls, Accepted(b), b);
    NeutralCall(w.calls + [Accepted(b)], Established(b), a);
    NeutralCall(w.calls + [Accepted(b)], Established(b), b);
  }

  lemma GrantedPrivate(w: World, w': World, a: Ref, ca: Conn, cb: Conn)
    requires BaseOk(w) && a < |w.pool| && ca.local == w.pool[a].local && ca.remote == w.uid + 1
             && cb.remote == ca.local <= w.uid
    requires cb.local == w.uid + 1 && w'.pool == w.pool[a := ca] + [cb]
    requires forall z {:trigger w.pool[z]} :: 0 <= z < |w.pool| ==> w.pool[z].remote != ca.local
    ensures Private(w'.pool, a, |w.pool|)
  {
    forall z | 0 <= z < |w.pool| && z != a ensures w'.pool[z] == w.pool[z] && w.pool[z].remote <= w.uid {
      assert ConnOk(w.pool[z], w.ids);
    }
  }
}
