/**
  The discrete-event network simulator: connections exchange messages and acknowledgements
  through tasks that a time-slotted scheduler runs.
 */
module NetworkSimulation {
  import opened Octets
  import opened SimModel
  import opened SimSteps
  import opened SimLink
  import opened SimRuns
  import opened SimScheduler
  import opened SimSound
  import opened SimEffects

  ghost predicate AccountedFacts(past: seq<Callback>, calls: seq<Callback>, called: seq<Callback>,
                                 queue: seq<Callback>)
  {
    past + calls == called + queue
  }

  /** Callbacks ever queued are those called and those in the queue; proofs look inside on demand. */
  ghost predicate Accounted(past: seq<Callback>, calls: seq<Callback>, called: seq<Callback>, queue: seq<Callback>) {
    forall u: seq<Callback> {:trigger AccountedFacts(u, calls, called, queue)} :: u == past ==>
      AccountedFacts(u, calls, called, queue)
  }

  lemma OneMoreQueued(past: seq<Callback>, calls: seq<Callback>, called: seq<Callback>, queue: seq<Callback>,
                      call: Callback)
    requires Accounted(past, calls, called, queue)
    ensures Accounted(past, calls + [call], called, queue + [call])
  {
    assert AccountedFacts(past, calls, called, queue);
    assert past + (calls + [call]) == (past + calls) + [call];
    assert called + (queue + [call]) == (called + queue) + [call];
    assert AccountedFacts(past, calls + [call], called, queue + [call]);
  }

  lemma OneMoreCalled(past: seq<Callback>, calls: seq<Callback>, called: seq<Callback>, queue: seq<Callback>)
    requires Accounted(past, calls, called, queue) && queue != []
    ensures Accounted(past, calls, called + [queue[0]], queue[1..])
  {
    assert AccountedFacts(past, calls, called, queue);
    assert called + queue == (called + [queue[0]]) + queue[1..];
    assert AccountedFacts(past, calls, called + [queue[0]], queue[1..]);
  }

  lemma AllPast(past: seq<Callback>, calls: seq<Callback>, called: seq<Callback>, queue: seq<Callback>)
    requires Accounted(past, calls, called, queue)
    ensures Accounted(past + calls, [], called, queue)
  {
    assert AccountedFacts(past, calls, called, queue);
    assert (past + calls) + [] == past + calls;
    assert AccountedFacts(past + calls, [], called, queue);
  }

  /** What is watched, and the callbacks queued before. */
  datatype Watching = Watching(on: Ref, past: seq<Callback>)

  class Simulation {
    var time: nat
    var tasks: Slots
    var pool: seq<Conn>
    var connections: map<nat, Ref>
    var uid: nat
    var acceptors: map<nat, Acceptor>
    var handlerTasks: seq<Callback>

    /** Tasks still to run, all tasks accepted, all tasks run, and how far the current slot has got. */
    ghost var pend: Pending
    ghost var added: seq<Entry>
    ghost var ran: seq<Entry>
    ghost var cursor: nat

    /** All callbacks queued since the watch began, and all those ever called. */
    ghost var calls: seq<Callback>
    ghost var called: seq<Callback>

    /** The ids that anything still speaks of. */
    ghost var ids: set<nat>

    /**
      The link under watch is the one that the connection `watch.on`, any at all, asks for.
      `fit` says that no packet has exceeded its bandwidth, `piped` that the link had two things
      in flight in one direction.
     */
    ghost var watch: Watching
    ghost var link: Link
    ghost var fit: bool
    ghost var piped: bool

    ghost function View(): World
      reads `time, `pend, `pool, `connections, `uid, `ids, `calls
    {
      World(time, pend, pool, connections, uid, ids, calls)
    }

    /** What has become of the state since the two queues were these. */
    ghost function Since(before: seq<Entry>, queue: seq<Callback>): Outcome
      reads `pool, `connections, `uid, `added, `handlerTasks
    {
      Outcome(pool, connections, uid, before, added, queue, handlerTasks)
    }

    ghost predicate OnSchedule()
      reads `time, `cursor, `tasks, `pend, `added, `ran
    {
      Scheduled(time, cursor, tasks, pend, added, ran)
    }

    /** No callback is lost or called twice. */
    ghost predicate Booked()
      reads `watch, `calls, `called, `handlerTasks
    {
      Accounted(watch.past, calls, called, handlerTasks)
    }

    ghost predicate Valid()
      reads this
    {
      OnSchedule() && Sound(View(), watch.on, link, fit) && (piped ==> !fit) && Booked()
    }

    /** In the middle of a task: w is the state before the task at s was taken. */
    ghost predicate Running(w: World, s: Slot)
      reads this
    {
      && OnSchedule() && Sound(w, watch.on, link, fit) && (piped ==> !fit) && Booked()
      && s in w.pend && s.t == w.time && View() == w.(pend := w.pend - {s})
    }

    constructor (on: Ref)
      ensures Valid() && time == 0 && added == [] && ran == [] && pool == [] && link == NotYet(None) && fit && !piped
      ensures watch == Watching(on, [])
    {
      time, tasks, pool, connections, uid, acceptors, handlerTasks := 0, map[], [], map[], 0, map[], [];
      pend, added, ran, cursor, calls, called, ids := map[], [], [], 0, [], [], {0};
      watch := Watching(on, []);
      link, fit, piped := NotYet(None), true, false;
      new;
      assert Plan(time, cursor, tasks, pend, added, ran);
      assert NotYetFacts(View(), on, None);
      assert Facts(View(), on, link, fit);
    }

    /** add_task: a task for the present or the past is put off to the next moment. */
    method AddTask(tm: nat, task: Task) returns (ghost n: Slot)
      requires OnSchedule()
      modifies `tasks, `pend, `added
      ensures OnSchedule() && n !in old(pend) && pend == old(pend)[n := task]
      ensures n.t == if tm <= time then time + 1 else tm
      ensures added == old(added) + [Entry(n.t, task)] && TasksAt(tasks, time) == old(TasksAt(tasks, time))
      ensures time in tasks <==> time in old(tasks)
    {
      var t := if tm <= time then time + 1 else tm;
      ghost var tasks' := tasks[t := TasksAt(tasks, t) + [task]];
      n := Accept(time, cursor, tasks, pend, added, ran, t, task, tasks');
      tasks := tasks[t := TasksAt(tasks, t) + [task]];
      pend := pend[n := task];
      added := added + [Entry(t, task)];
    }

    method AddHandlersTask(call: Callback)
      modifies `handlerTasks, `calls
      ensures handlerTasks == old(handlerTasks) + [call] && calls == old(calls) + [call]
      ensures old(Booked()) ==> Booked()
    {
      if Booked() {
        OneMoreQueued(watch.past, calls, called, handlerTasks, call);
      }
      handlerTasks := handlerTasks + [call];
      calls := calls + [call];
    }

    /** Any lag within the limits of the connection. */
    method GetLag(c: Conn) returns (lag: nat)
      requires c.minLag <= c.maxLag
      ensures c.minLag <= lag && (lag < c.maxLag || lag == c.minLag == c.maxLag)
    {
      if c.minLag == c.maxLag {
        return c.minLag;
      }
      lag :| c.minLag <= lag < c.maxLag;
    }

    // ------------------------------------------------------------- user operations

    method NewConnection(address: nat, minLag: nat, maxLag: nat, bandwidth: nat) returns (x: Ref)
      requires Valid() && minLag <= maxLag && bandwidth > 0
      modifies `pool
      ensures Valid() && x == |old(pool)|
      ensures pool == old(pool) + [Conn(0, 0, address, minLag, maxLag, bandwidth, [], [], [], 0, Disconnected)]
    {
      ghost var w := View();
      x := |pool|;
      var c := Conn(0, 0, address, minLag, maxLag, bandwidth, [], [], [], 0, Disconnected);
      pool := pool + [c];
      AfterNew(w, View(), watch.on, link, fit, c);
    }

    /** async_send: nothing happens for an empty message or a disconnected connection. */
    method AsyncSend(x: Ref, message: Bytes, id: nat)
      requires Valid() && x < |pool|
      modifies `tasks, `pend, `added, `pool, `link, `fit
      ensures Valid() && (time in tasks <==> time in old(tasks))
      ensures !End(old(link), watch.on, x) ==> link == old(link)
      ensures message != [] && old(pool[x]).state != Disconnected && End(old(link), watch.on, x) ==>
                LinkQueued(old(link), link, watch.on, x, Outgoing(message, 0, id))
      ensures message == [] || old(pool[x]).state == Disconnected ==> pool == old(pool) && link == old(link)
      ensures old(fit) && |message| <= old(pool[x]).bandwidth ==> fit
      ensures message != [] && old(pool[x]).state != Disconnected ==>
                pool == old(pool)[x := old(pool[x]).(sending := old(pool[x]).sending + [Outgoing(message, 0, id)])]
      ensures added == old(added) +
                if message != [] && old(pool[x]).state == Connected then [Entry(time + 1, SendTask(x))] else []
      ensures old(link).Live? && End(old(link), watch.on, x) ==>
                Outbound(link, watch.on, x).flight == Outbound(old(link), watch.on, x).flight
    {
      if message == [] || pool[x].state == Disconnected {
        return;
      }
      ghost var w := View();
      var packet := Outgoing(message, 0, id);
      ghost var n := Enqueue(x, packet);
      link := AfterQueued(w, View(), watch.on, link, fit, x, packet, n);
      fit := fit && |message| <= w.pool[x].bandwidth;
    }

    method Enqueue(x: Ref, packet: Outgoing) returns (ghost n: Slot)
      requires OnSchedule() && x < |pool|
      modifies `tasks, `pend, `added, `pool
      ensures OnSchedule() && (time in tasks <==> time in old(tasks)) && n !in old(pend) && n.t >= time
      ensures pool[..] == old(pool)[x := old(pool[x]).(sending := old(pool[x]).sending + [packet])]
      ensures View() == old(View()).(pend := if old(pool[x]).state == Connected then old(pend)[n := SendTask(x)]
                                     else old(pend), pool := pool)
      ensures added == old(added) + if old(pool[x]).state == Connected then [Entry(time + 1, SendTask(x))] else []
    {
      pool := pool[x := pool[x].(sending := pool[x].sending + [packet])];
      n := Unused(pend, time);
      if pool[x].state == Connected {
        n := AddTask(time + 1, SendTask(x));
      }
    }

    /** async_read: refused when the buffer is too small for what is asked. */
    method AsyncRead(y: Ref, size: nat, want: nat, id: nat)
      requires Valid() && y < |pool|
      modifies `tasks, `pend, `added, `pool, `link
      ensures Valid() && (!End(old(link), watch.on, y) ==> link == old(link))
      ensures want <= size && End(old(link), watch.on, y) ==>
                LinkPosted(old(link), link, watch.on, y, Incoming(size, want, id, []))
      ensures want > size ==> pool == old(pool) && link == old(link)
      ensures want <= size ==>
                pool == old(pool)[y := old(pool[y]).(reading := old(pool[y]).reading + [Incoming(size, want, id, [])])]
      ensures added == old(added) +
                if want <= size && old(pool[y]).received != [] then [Entry(time + 1, ReadTask(y))] else []
    {
      if want > size {
        return;
      }
      ghost var w := View();
      var packet := Incoming(size, want, id, []);
      ghost var n := Post(y, packet);
      link := AfterPosted(w, View(), watch.on, link, fit, y, packet, n);
    }

    method Post(y: Ref, packet: Incoming) returns (ghost n: Slot)
      requires OnSchedule() && y < |pool|
      modifies `tasks, `pend, `added, `pool
      ensures OnSchedule() && n !in old(pend) && n.t >= time
      ensures View() == old(View()).(
                pend := if old(pool[y]).received != [] then old(pend)[n := ReadTask(y)] else old(pend),
                pool := old(pool)[y := old(pool[y]).(reading := old(pool[y]).reading + [packet])])
      ensures added == old(added) + if old(pool[y]).received != [] then [Entry(time + 1, ReadTask(y))] else []
    {
      pool := pool[y := pool[y].(reading := pool[y].reading + [packet])];
      n := Unused(pend, time);
      if pool[y].received != [] {
        n := AddTask(time + 1, ReadTask(y));
      }
    }

    /**
      connect, at any time; nothing happens without an address.  A connection that still holds an id
      keeps it beside the new one, and is no longer watch.on until Watch begins anew.
     */
    method Connect(x: Ref) returns (ghost n: Slot)
      requires Valid() && x < |pool|
      modifies `tasks, `pend, `added, `pool, `connections, `uid, `ids, `link
      ensures Valid() && ConnectEffect(old(View()), x, Since(old(added), handlerTasks))
      ensures old(pool[x]).address == 0 ==> link == old(link)
      ensures old(pool[x]).address != 0 && End(old(link), watch.on, x) ==>
                if old(pool[x]).local == 0 then link.NotYet? && link.request.Some? else link == Over
      ensures !End(old(link), watch.on, x) ==> link == old(link)
      ensures old(pool[x]).address != 0 && old(Watchable(View(), x, None) && Silent(View(), x)) ==>
                Watchable(View(), x, Some(n))
    {
      n := Slot(0, 0);
      if pool[x].address == 0 {
        assert ConnectFacts(View(), x, Since(added, handlerTasks));
        return;
      }
      ghost var w := View();
      SoundLag(w, watch.on, link, fit, x);
      n := Register(x);
      if Watchable(w, x, None) && Silent(w, x) {
        ConnectIsWatchable(w, View(), watch.on, link, fit, x, n, pool[x].address);
      }
      link := AfterConnect(w, View(), watch.on, link, fit, x, n, pool[x].address);
    }

    /** A new id for x, and its request under way. */
    method Register(x: Ref) returns (ghost n: Slot)
      requires OnSchedule() && x < |pool| && pool[x].minLag <= pool[x].maxLag
      modifies `tasks, `pend, `added, `pool, `connections, `uid, `ids
      ensures OnSchedule() && n !in old(pend) && n.t > time
      ensures Lagged(Max(time, old(pool[x]).stamp), old(pool[x]), n.t)
      ensures old(pool[x]).address != 0 ==> ConnectEffect(old(View()), x, Since(old(added), handlerTasks))
      ensures View() == old(View()).(pend := old(pend)[n := RequestTask(old(uid) + 1, old(pool[x]).address)],
                                     pool := old(pool)[x :=
                                                       old(pool[x]).(state := Connecting, local := old(uid) + 1,
                                                                     stamp := n.t)],
                                     connections := old(connections)[old(uid) + 1 := x], uid := old(uid) + 1,
                                     ids := old(ids) + {old(uid) + 1})
    {
      var lag := GetLag(pool[x]);
      var tm := Max(time, pool[x].stamp) + 1 + lag;
      uid := uid + 1;
      ids := ids + {uid};
      connections := connections[uid := x];
      pool := pool[x := pool[x].(state := Connecting, local := uid, stamp := tm)];
      n := AddTask(tm, RequestTask(uid, pool[x].address));
      GainedOne(old(added), Entry(tm, RequestTask(uid, old(pool[x]).address)),
                Away(old(View()), old(pool[x]), RequestTask(uid, old(pool[x]).address)));
      assert old(pool[x]).address != 0 ==> ConnectFacts(old(View()), x, Since(old(added), handlerTasks));
    }

    /**
      From now on the watch is on the next link of x, or on the one it has asked for.
     */
    ghost method Watch(x: Ref, request: Option<Slot>)
      requires Valid() && Watchable(View(), x, request)
      modifies `watch, `link, `piped, `calls, `ids
      ensures Valid() && watch == Watching(x, old(watch.past) + old(calls)) && calls == []
      ensures link == NotYet(request) && !piped
    {
      var w := View();
      AllPast(watch.past, calls, called, handlerTasks);
      ids := Spoken(w, x);
      watch, calls, link, piped := Watching(x, watch.past + calls), [], NotYet(request), false;
      Afresh(w, View(), old(watch.on), old(link), fit, x, request);
    }

    // --------------------------------------------------------------------- sending

    /** handle_send. */
    method HandleSend(x: Ref, ghost w: World, ghost s: Slot)
      requires Running(w, s) && w.pend[s] == SendTask(x) && x < |pool|
      modifies `tasks, `pend, `added, `pool, `link, `piped
      ensures Valid() && TasksAt(tasks, time) == old(TasksAt(tasks, time))
      ensures old(fit) ==> SameLink(old(link), link) && piped == old(piped)
      ensures piped && !old(piped) ==> TwoInFlight(pend, w.pool[x].local) && End(old(link), watch.on, x)
      ensures !old(piped) && !piped ==> SameLink(old(link), link)
      ensures |pool| == |w.pool| && SentOn(old(link), watch.on, x, link, w.pool[x], pool[x], pend, piped)
      ensures SendEffect(w, x, Since(old(added), handlerTasks))
    {
      SoundFront(w, watch.on, link, fit, x);
      var c := pool[x];
      if c.state != Connected || c.sending == [] || Complete(c.sending[0]) {
        AfterNothingSent(w, View(), watch.on, link, fit, x, s);
        assert SendFacts(w, x, Since(added, handlerTasks));
        return;
      }
      var k := ChunkSize(c);
      ghost var n := SendChunk(x, k);
      ChunkIsNext(w, x, n, Since(old(added), handlerTasks));
      piped := piped || Pipes(link, watch.on, x);
      link := AfterChunk(w, View(), watch.on, link, fit, x, k, s, n);
    }

    /** The next k bytes of the front packet are on their way, later than anything sent before. */
    method SendChunk(x: Ref, k: nat) returns (ghost n: Slot)
      requires OnSchedule() && x < |pool| && pool[x].minLag <= pool[x].maxLag
      requires pool[x].sending != [] && pool[x].sending[0].sent + k <= |pool[x].sending[0].message|
      modifies `tasks, `pend, `added, `pool
      ensures OnSchedule() && TasksAt(tasks, time) == old(TasksAt(tasks, time)) && n !in old(pend) && n.t > time
      ensures Lagged(Max(time, old(pool[x]).stamp), old(pool[x]), n.t)
      ensures added == old(added) +
              [Entry(n.t, MessageTask(old(pool[x]).local, old(pool[x]).remote, Chunk(old(pool[x]).sending[0], k)))]
      ensures View() == old(View()).(
                pend := old(pend)[n := MessageTask(old(pool[x]).local, old(pool[x]).remote,
                                                   Chunk(old(pool[x]).sending[0], k))],
                pool := old(pool)[x := old(pool[x]).(sending := Advanced(old(pool[x]).sending, k), stamp := n.t)])
    {
      var c := pool[x];
      var lag := GetLag(c);
      var tm := Max(time, c.stamp) + 1 + lag;
      pool := pool[x := c.(sending := Advanced(c.sending, k), stamp := tm)];
      n := AddTask(tm, MessageTask(c.local, c.remote, Chunk(c.sending[0], k)));
    }

    // ------------------------------------------------------------------ delivering

    /** handle_message. */
    method HandleMessage(src: nat, dest: nat, msg: Bytes, ghost w: World, ghost s: Slot)
      requires Running(w, s) && w.pend[s] == MessageTask(src, dest, msg)
      modifies `tasks, `pend, `added, `pool, `link
      ensures Valid() && SameLink(old(link), link) && TasksAt(tasks, time) == old(TasksAt(tasks, time))
      ensures MessageEffect(w, src, dest, msg, Since(old(added), handlerTasks))
    {
      SoundId(w, watch.on, link, fit, src);
      SoundId(w, watch.on, link, fit, dest);
      ghost var inside := Inside(w, watch.on, link, s);
      if inside {
        InsideIds(w, watch.on, link, fit, s);
      }
      if dest !in connections || pool[connections[dest]].state != Connected {
        Bounce(src, w, s);
      } else {
        Deliver(src, dest, connections[dest], msg, w, s);
      }
    }

    /** The peer y has the message; what follows depends on the sender. */
    method Deliver(src: nat, dest: nat, y: Ref, msg: Bytes, ghost w: World, ghost s: Slot)
      requires Running(w, s) && w.pend[s] == MessageTask(src, dest, msg)
      requires dest in w.connections && y == w.connections[dest] < |w.pool| && w.pool[y].state == Connected
      requires src in w.connections ==> w.connections[src] < |w.pool|
      requires Inside(w, watch.on, link, s) ==>
                 && src in w.connections && link.Live? && End(link, watch.on, w.connections[src])
                 && y == Other(link, watch.on, w.connections[src])
                 && Arrives(w, watch.on, link, w.connections[src], s)
      modifies `tasks, `pend, `added, `pool, `link
      ensures Valid() && SameLink(old(link), link) && TasksAt(tasks, time) == old(TasksAt(tasks, time))
      ensures DeliveredTo(w, y, msg, Acknowledges(w, src), Since(old(added), handlerTasks))
      ensures Gained(old(added), added, Woken(w, y) + Answered(w, y, src))
    {
      ghost var r := Receive(y, msg, w, s);
      ghost var mid := added;
      if !Inside(w, watch.on, link, s) {
        ReceiveAside(w, View(), watch.on, link, fit, y, s, r);
      }
      GainedNone(added);
      if src in connections {
        Reply(connections[src], y, src, w, s, r);
      }
      GainedThen(old(added), mid, added, Woken(w, y), Answered(w, y, src));
    }

    /** The peer is gone: the sender will be told. */
    method Bounce(src: nat, ghost w: World, ghost s: Slot)
      requires Running(w, s) && w.pend[s].MessageTask? && w.pend[s].src == src && !Inside(w, watch.on, link, s)
      requires src in connections ==> connections[src] < |pool|
      modifies `tasks, `pend, `added
      ensures Valid() && TasksAt(tasks, time) == old(TasksAt(tasks, time))
      ensures Gained(old(added), added, Rejected(w, src))
    {
      MessageOutside(w, watch.on, link, fit, s);
      GainedNone(added);
      TakeAside(w, View(), watch.on, link, fit, s);
      if src in connections {
        ghost var w1 := View();
        SoundTask(w, watch.on, link, fit, s);
        SoundLag(w, watch.on, link, fit, connections[src]);
        var c := pool[connections[src]];
        var lag := GetLag(c);
        ghost var n := AddTask(Max(time, c.stamp) + 1 + lag, AckTask(src, false));
        GainedOne(old(added), Entry(n.t, AckTask(src, false)), Away(w, c, AckTask(src, false)));
        AddAside(w1, View(), watch.on, link, fit, n, AckTask(src, false));
      }
    }

    method Receive(y: Ref, msg: Bytes, ghost w: World, ghost s: Slot) returns (ghost r: Slot)
      requires OnSchedule() && View() == w.(pend := w.pend - {s}) && s in w.pend && s.t == w.time && y < |pool|
      modifies `tasks, `pend, `added, `pool
      ensures OnSchedule() && TasksAt(tasks, time) == old(TasksAt(tasks, time)) && time <= r.t
      ensures w.pool[y].reading != [] ==> r !in w.pend && r in pend
      ensures View() == w.(pend := WithRead(w.pend - {s}, y, w.pool[y], r),
                           pool := w.pool[y := w.pool[y].(received := w.pool[y].received + [msg])])
      ensures Gained(old(added), added, Woken(w, y))
    {
      pool := pool[y := pool[y].(received := pool[y].received + [msg])];
      if pool[y].reading != [] {
        r := AddTask(time + 1, ReadTask(y));
        GainedOne(old(added), Entry(r.t, ReadTask(y)), Soon(w, ReadTask(y)));
      } else {
        r := s;
        GainedNone(added);
      }
    }

    /** After delivery: an acknowledgement for a packet that is completely sent, or the next chunk. */
    method Reply(x: Ref, y: Ref, src: nat, ghost w: World, ghost s: Slot, ghost r: Slot)
      requires OnSchedule() && Sound(w, watch.on, link, fit) && (piped ==> !fit) && Booked()
      requires s in w.pend && s.t == w.time && time <= r.t && x < |w.pool| && y < |w.pool|
      requires w.pool[y].reading != [] ==> r !in w.pend
      requires w.pend[s].MessageTask? && w.pend[s].src == src && src in w.connections && w.connections[src] == x
      requires View() == w.(pend := WithRead(w.pend - {s}, y, w.pool[y], r),
                            pool := w.pool[y := w.pool[y].(received := w.pool[y].received + [w.pend[s].msg])])
      requires if Inside(w, watch.on, link, s) then link.Live? && End(link, watch.on, x)
               && y == Other(link, watch.on, x)
               && Arrives(w, watch.on, link, x, s)
               else Sound(View(), watch.on, link, fit) && !End(link, watch.on, y)
      modifies `tasks, `pend, `added, `pool, `link
      ensures Valid() && SameLink(old(link), link) && TasksAt(tasks, time) == old(TasksAt(tasks, time))
      ensures DeliveredTo(w, y, w.pend[s].msg, Acknowledges(w, src), Since(old(added), handlerTasks))
      ensures Gained(old(added), added, Answered(w, y, src))
    {
      GainedNone(added);
      if pool[x].sending != [] && Complete(pool[x].sending[0]) {
        Acknowledge(x, y, src, w, s, r);
      } else if pool[x].state == Connected {
        SendNext(x, y, w, s, r);
      }
    }

    method SendNext(x: Ref, y: Ref, ghost w: World, ghost s: Slot, ghost r: Slot)
      requires OnSchedule() && Sound(w, watch.on, link, fit) && (piped ==> !fit) && Booked()
      requires s in w.pend && s.t == w.time && time <= r.t && x < |w.pool| && y < |w.pool|
      requires w.pool[y].reading != [] ==> r !in w.pend
      requires w.pend[s].MessageTask? && !(w.pool[x].sending != [] && Complete(w.pool[x].sending[0]))
      requires View() == w.(pend := WithRead(w.pend - {s}, y, w.pool[y], r),
                            pool := w.pool[y := w.pool[y].(received := w.pool[y].received + [w.pend[s].msg])])
      requires if Inside(w, watch.on, link, s) then link.Live? && End(link, watch.on, x)
               && y == Other(link, watch.on, x)
               && Arrives(w, watch.on, link, x, s)
               else Sound(View(), watch.on, link, fit) && !End(link, watch.on, y)
      modifies `tasks, `pend, `added, `link
      ensures Valid() && SameLink(old(link), link) && TasksAt(tasks, time) == old(TasksAt(tasks, time))
      ensures Gained(old(added), added, [Soon(w, SendTask(x))])
    {
      ghost var w1 := View();
      ghost var n := AddTask(time + 1, SendTask(x));
      GainedOne(old(added), Entry(n.t, SendTask(x)), Soon(w, SendTask(x)));
      if Inside(w, watch.on, link, s) {
        link := AfterArrival(w, View(), watch.on, link, fit, x, y, s, r, n, w.pool[y].stamp);
      } else {
        AddAside(w1, View(), watch.on, link, fit, n, SendTask(x));
      }
    }

    method Acknowledge(x: Ref, y: Ref, src: nat, ghost w: World, ghost s: Slot, ghost r: Slot)
      requires OnSchedule() && Sound(w, watch.on, link, fit) && (piped ==> !fit) && Booked()
      requires s in w.pend && s.t == w.time && time <= r.t && x < |w.pool| && y < |w.pool|
      requires w.pool[y].reading != [] ==> r !in w.pend
      requires w.pend[s].MessageTask? && w.pend[s].src == src && w.pool[x].sending != []
               && Complete(w.pool[x].sending[0])
      requires View() == w.(pend := WithRead(w.pend - {s}, y, w.pool[y], r),
                            pool := w.pool[y := w.pool[y].(received := w.pool[y].received + [w.pend[s].msg])])
      requires if Inside(w, watch.on, link, s) then link.Live? && End(link, watch.on, x)
               && y == Other(link, watch.on, x)
               && Arrives(w, watch.on, link, x, s)
               else Sound(View(), watch.on, link, fit) && !End(link, watch.on, y)
      modifies `tasks, `pend, `added, `pool, `link
      ensures Valid() && SameLink(old(link), link) && TasksAt(tasks, time) == old(TasksAt(tasks, time))
      ensures DeliveredTo(w, y, w.pend[s].msg, true, Since(old(added), handlerTasks))
      ensures Gained(old(added), added, [Away(w, w.pool[y], AckTask(src, true))])
    {
      ghost var w1 := View();
      SoundLag(w, watch.on, link, fit, y);
      ghost var n := SendAck(y, src);
      GainedOne(old(added), Entry(n.t, AckTask(src, true)), Away(w, w.pool[y], AckTask(src, true)));
      if Inside(w, watch.on, link, s) {
        link := AfterArrival(w, View(), watch.on, link, fit, x, y, s, r, n, n.t);
      } else {
        AckAside(w, w1, View(), watch.on, link, fit, y, s, n);
      }
    }

    /** y acknowledges, later than anything it sent before. */
    method SendAck(y: Ref, src: nat) returns (ghost n: Slot)
      requires OnSchedule() && y < |pool| && pool[y].minLag <= pool[y].maxLag
      modifies `tasks, `pend, `added, `pool
      ensures OnSchedule() && TasksAt(tasks, time) == old(TasksAt(tasks, time)) && n !in old(pend) && n.t > time
      ensures Lagged(Max(time, old(pool[y]).stamp), old(pool[y]), n.t)
      ensures View() == old(View()).(pend := old(pend)[n := AckTask(src, true)],
                                     pool := old(pool)[y := old(pool[y]).(stamp := n.t)])
      ensures added == old(added) + [Entry(n.t, AckTask(src, true))]
    {
      var lag := GetLag(pool[y]);
      var tm := Max(time, pool[y].stamp) + 1 + lag;
      pool := pool[y := pool[y].(stamp := tm)];
      n := AddTask(tm, AckTask(src, true));
    }

    /** handle_ack: the packet at the front is done, with whatever result. */
    method HandleAck(dest: nat, ok: bool, ghost w: World, ghost s: Slot)
      requires Running(w, s) && w.pend[s] == AckTask(dest, ok)
      modifies `tasks, `pend, `added, `pool, `link, `handlerTasks, `calls
      ensures Valid() && SameLink(old(link), link) && TasksAt(tasks, time) == old(TasksAt(tasks, time))
      ensures AckEffect(w, dest, ok, Since(old(added), old(handlerTasks)))
    {
      SoundId(w, watch.on, link, fit, dest);
      if dest in connections && pool[connections[dest]].sending != [] {
        var x := connections[dest];
        ghost var n := PopFront(x, ok);
        GainedOne(old(added), Entry(n.t, SendTask(x)), Soon(w, SendTask(x)));
        link := AfterAck(w, View(), watch.on, link, fit, x, s, n);
      } else {
        AckUnheard(w, watch.on, link, fit, s);
        TakeAside(w, View(), watch.on, link, fit, s);
      }
    }

    method PopFront(x: Ref, ok: bool) returns (ghost n: Slot)
      requires OnSchedule() && x < |pool| && pool[x].sending != []
      modifies `tasks, `pend, `added, `pool, `handlerTasks, `calls
      ensures old(Booked()) ==> Booked()
      ensures OnSchedule() && TasksAt(tasks, time) == old(TasksAt(tasks, time)) && n !in old(pend) && n.t == time + 1
      ensures added == old(added) + [Entry(n.t, SendTask(x))]
      ensures handlerTasks == old(handlerTasks) + [Sent(x, old(pool[x]).sending[0].id, ok)]
      ensures View() == old(View()).(pend := old(pend)[n := SendTask(x)],
                                     pool := old(pool)[x := old(pool[x]).(sending := old(pool[x]).sending[1..])],
                                     calls := old(calls) + [Sent(x, old(pool[x]).sending[0].id, ok)])
    {
      var id := pool[x].sending[0].id;
      pool := pool[x := pool[x].(sending := pool[x].sending[1..])];
      AddHandlersTask(Sent(x, id, ok));
      n := AddTask(time + 1, SendTask(x));
    }

    // --------------------------------------------------------------------- reading

    /** handle_read: the front reader gets what it asked for, or all there is. */
    method HandleRead(y: Ref, ghost w: World, ghost s: Slot)
      requires Running(w, s) && w.pend[s] == ReadTask(y) && y < |pool|
      modifies `tasks, `pend, `added, `pool, `link, `handlerTasks, `calls
      ensures Valid() && SameLink(old(link), link) && TasksAt(tasks, time) == old(TasksAt(tasks, time))
      ensures ReadEffect(w, y, Since(old(added), old(handlerTasks)))
    {
      GainedNone(added);
      var c := pool[y];
      if c.state != Connected || c.reading == [] || c.received == [] {
        AfterNothingRead(w, View(), watch.on, link, fit, y, s);
        return;
      }
      SoundReads(w, watch.on, link, fit, y);
      var front := c.reading[0];
      var data, rest := Fill(front, c.received);
      FilledIsTaken(c, data, rest);
      if front.want == 0 || |data| == front.want {
        Serve(y, data, rest, w, s);
      } else {
        NothingLeft(data, rest, front.data + Joined(c.received));
        pool := pool[y := c.(reading := [front.(data := data)] + c.reading[1..], received := rest)];
        AfterPartlyRead(w, View(), watch.on, link, fit, y, front.(data := data), s);
      }
    }

    method Serve(y: Ref, data: Bytes, rest: seq<Bytes>, ghost w: World, ghost s: Slot)
      requires Running(w, s) && w.pend[s] == ReadTask(y) && y < |pool| && pool[y].state == Connected
               && pool[y].reading != []
      requires data + Joined(rest) == pool[y].reading[0].data + Joined(pool[y].received)
      requires Meets(pool[y].reading[0], Received(y, pool[y].reading[0].id, data))
      requires forall k :: 0 <= k < |rest| ==> rest[k] != []
      modifies `tasks, `pend, `added, `pool, `link, `handlerTasks, `calls
      ensures Valid() && SameLink(old(link), link) && TasksAt(tasks, time) == old(TasksAt(tasks, time))
      ensures handlerTasks == old(handlerTasks) + [Received(y, old(pool[y]).reading[0].id, data)]
      ensures pool == old(pool)[y := old(pool[y]).(reading := old(pool[y]).reading[1..], received := rest)]
      ensures Gained(old(added), added, [Soon(w, ReadTask(y))])
    {
      ghost var n := HandOver(y, data, rest);
      GainedOne(old(added), Entry(n.t, ReadTask(y)), Soon(w, ReadTask(y)));
      link := AfterServed(w, View(), watch.on, link, fit, y, data, rest, s, n);
    }

    method HandOver(y: Ref, data: Bytes, rest: seq<Bytes>) returns (ghost n: Slot)
      requires OnSchedule() && y < |pool| && pool[y].reading != []
      modifies `tasks, `pend, `added, `pool, `handlerTasks, `calls
      ensures old(Booked()) ==> Booked()
      ensures OnSchedule() && TasksAt(tasks, time) == old(TasksAt(tasks, time)) && n !in old(pend) && n.t == time + 1
      ensures added == old(added) + [Entry(n.t, ReadTask(y))]
      ensures handlerTasks == old(handlerTasks) + [Received(y, old(pool[y]).reading[0].id, data)]
      ensures View() == old(View()).(pend := old(pend)[n := ReadTask(y)],
                                     pool := old(pool)[y :=
                                                       old(pool[y]).(reading := old(pool[y]).reading[1..],
                                                                     received := rest)],
                                     calls := old(calls) + [Received(y, old(pool[y]).reading[0].id, data)])
    {
      var id := pool[y].reading[0].id;
      pool := pool[y := pool[y].(reading := pool[y].reading[1..], received := rest)];
      n := AddTask(time + 1, ReadTask(y));
      AddHandlersTask(Received(y, id, data));
    }

    // ------------------------------------------------- connecting and disconnecting

    /** handle_accept. */
    method HandleAccept(dest: nat, ghost w: World, ghost s: Slot)
      requires Running(w, s) && w.pend[s] == AcceptTask(dest)
      modifies `tasks, `pend, `added, `pool, `link, `handlerTasks, `calls
      ensures Valid() && SameLink(old(link), link) && TasksAt(tasks, time) == old(TasksAt(tasks, time))
      ensures AcceptEffect(w, dest, Since(old(added), old(handlerTasks)))
    {
      SoundId(w, watch.on, link, fit, dest);
      if dest !in connections {
        IdOutside(w, watch.on, link, fit, dest);
        TakeAside(w, View(), watch.on, link, fit, s);
        return;
      }
      var x := connections[dest];
      ghost var r, n := Start(x);
      GainedTwo(old(added), Entry(r.t, ReadTask(x)), Entry(n.t, SendTask(x)), Soon(w, ReadTask(x)),
                Soon(w, SendTask(x)));
      link := AfterOpened(w, View(), watch.on, link, fit, x, s, r, n);
    }

    /** x is connected, and will look for something to read and to send. */
    method Start(x: Ref) returns (ghost r: Slot, ghost n: Slot)
      requires OnSchedule() && x < |pool|
      modifies `tasks, `pend, `added, `pool, `handlerTasks, `calls
      ensures old(Booked()) ==> Booked()
      ensures OnSchedule() && TasksAt(tasks, time) == old(TasksAt(tasks, time))
      ensures n !in old(pend) && r !in old(pend) && r != n && n.t == r.t == time + 1
      ensures added == old(added) + [Entry(r.t, ReadTask(x))] + [Entry(n.t, SendTask(x))]
      ensures handlerTasks == old(handlerTasks) + [Established(x)]
      ensures View() == old(View()).(pend := old(pend)[r := ReadTask(x)][n := SendTask(x)],
                                     pool := old(pool)[x := old(pool[x]).(state := Connected)],
                                     calls := old(calls) + [Established(x)])
    {
      pool := pool[x := pool[x].(state := Connected)];
      AddHandlersTask(Established(x));
      r := AddTask(time + 1, ReadTask(x));
      n := AddTask(time + 1, SendTask(x));
    }

    /** handle_refuse. */
    method HandleRefuse(dest: nat, ghost w: World, ghost s: Slot)
      requires Running(w, s) && w.pend[s] == RefuseTask(dest)
      modifies `tasks, `pend, `added, `pool, `link, `handlerTasks, `calls
      ensures Valid() && (old(link).Live? ==> link == old(link)) && TasksAt(tasks, time) == old(TasksAt(tasks, time))
      ensures RefuseEffect(w, dest, Since(old(added), old(handlerTasks)))
    {
      SoundTask(w, watch.on, link, fit, s);
      SoundId(w, watch.on, link, fit, dest);
      if dest in connections && End(link, watch.on, connections[dest]) {
        TaskKinds(w, watch.on, link, fit, s, connections[dest]);
        Forget(w, watch.on, link, fit);
        link := Over;
      }
      IdOutside(w, watch.on, link, fit, dest);
      TakeAside(w, View(), watch.on, link, fit, s);
      if dest !in connections {
        return;
      }
      Fail(connections[dest]);
      GainedOne(old(added), Entry(time + 1, ClearTask(connections[dest])), Soon(w, ClearTask(connections[dest])));
    }

    method Fail(x: Ref)
      requires Valid() && x < |pool| && !End(link, watch.on, x)
      modifies `tasks, `pend, `added, `pool, `handlerTasks, `calls
      ensures Valid() && TasksAt(tasks, time) == old(TasksAt(tasks, time))
      ensures pool == old(pool)[x := old(pool[x]).(state := Disconnected)]
      ensures added == old(added) + [Entry(time + 1, ClearTask(x))] && handlerTasks == old(handlerTasks) + [Failed(x)]
    {
      ghost var w := View();
      pool := pool[x := pool[x].(state := Disconnected)];
      SoundState(w, View(), watch.on, link, fit, x);
      ghost var w1 := View();
      ghost var n := AddTask(time + 1, ClearTask(x));
      AddAside(w1, View(), watch.on, link, fit, n, ClearTask(x));
      Tell(Failed(x));
    }

    /** handle_request; the acceptor's handler decides.  False where the code would follow a null pointer. */
    method HandleRequest(src: nat, address: nat, granted: bool, ghost w: World, ghost s: Slot)
      returns (ok: bool, ghost tm: nat)
      requires Running(w, s) && w.pend[s] == RequestTask(src, address)
               && (address in acceptors ==> acceptors[address].bandwidth > 0)
      modifies `tasks, `pend, `added, `pool, `connections, `uid, `ids, `link, `fit, `handlerTasks, `calls
      ensures ok ==> Valid() && (old(link).Live? ==> link == old(link)) && (fit ==> old(fit))
      ensures ok ==> TasksAt(tasks, time) == old(TasksAt(tasks, time))
      ensures ok <==> src in w.connections && address in acceptors
      ensures !ok ==> Since(old(added), old(handlerTasks)).Idles(w)
      ensures ok ==> RequestEffect(w, src, acceptors[address], granted, tm, Since(old(added), old(handlerTasks)))
    {
      if src !in connections || address !in acceptors {
        return false, 0;
      }
      SoundId(w, watch.on, link, fit, src);
      var x := connections[src];
      SoundLag(w, watch.on, link, fit, x);
      var lag := GetLag(pool[x]);
      var due := time + lag + 1;
      ok, tm := true, due;
      AnswerRequest(x, src, acceptors[address], granted, due, w, s);
    }

    /** Whatever there is to say about the request is said at the same time. */
    method AnswerRequest(x: Ref, src: nat, acceptor: Acceptor, granted: bool, tm: nat, ghost w: World, ghost s: Slot)
      requires Running(w, s) && x < |pool| && w.pend[s].RequestTask? && w.pend[s].src == src
      requires src in connections && connections[src] == x && tm > time && acceptor.bandwidth > 0
      modifies `tasks, `pend, `added, `pool, `connections, `uid, `ids, `link, `fit, `handlerTasks, `calls
      ensures Valid() && (old(link).Live? ==> link == old(link)) && (fit ==> old(fit))
      ensures TasksAt(tasks, time) == old(TasksAt(tasks, time))
      ensures Settled(w, x, acceptor.bandwidth, granted, tm, Since(old(added), old(handlerTasks)))
      ensures Gained(old(added), added, Warned(acceptor, x, tm) + Decision(w, src, granted, tm))
    {
      ghost var w1 := w;
      GainedNone(added);
      if !acceptor.accepting {
        w1 := WarnNoRoute(x, tm, w, s);
      }
      ghost var mid := added;
      Decide(x, src, acceptor.bandwidth, granted, tm, w1, s);
      GainedThen(old(added), mid, added, Warned(acceptor, x, tm), Decision(w, src, granted, tm));
    }

    /** The request is granted or refused. */
    method Decide(x: Ref, src: nat, limit: nat, granted: bool, tm: nat, ghost w: World, ghost s: Slot)
      requires Running(w, s) && x < |pool| && w.pend[s].RequestTask? && w.pend[s].src == src
      requires src in connections && connections[src] == x && tm > time && limit > 0
      modifies `tasks, `pend, `added, `pool, `connections, `uid, `ids, `link, `fit, `handlerTasks, `calls
      ensures Valid() && (old(link).Live? ==> link == old(link)) && (fit ==> old(fit))
      ensures TasksAt(tasks, time) == old(TasksAt(tasks, time))
      ensures Settled(w, x, limit, granted, tm, Since(old(added), old(handlerTasks)))
      ensures Gained(old(added), added, Decision(w, src, granted, tm))
    {
      if granted {
        GrantRequest(x, src, limit, tm, w, s);
      } else {
        RefuseRequest(x, src, tm, w, s);
      }
    }

    /** An acceptor that is not accepting is reported, and then asked all the same. */
    method WarnNoRoute(x: Ref, tm: nat, ghost w: World, ghost s: Slot) returns (ghost w1: World)
      requires Running(w, s) && x < |pool| && tm > time
      modifies `tasks, `pend, `added
      ensures Running(w1, s) && w1.pend[s] == w.pend[s] && TasksAt(tasks, time) == old(TasksAt(tasks, time))
      ensures Gained(old(added), added, [Expected(tm, tm, NoRouteTask(x))]) && w1 == w.(pend := w1.pend)
    {
      ghost var n := AddTask(tm, NoRouteTask(x));
      GainedOne(old(added), Entry(n.t, NoRouteTask(x)), Expected(tm, tm, NoRouteTask(x)));
      w1 := w.(pend := w.pend[n := NoRouteTask(x)]);
      NoRouteFirst(w, w1, watch.on, link, fit, s, n, x);
    }

    method RefuseRequest(x: Ref, src: nat, tm: nat, ghost w: World, ghost s: Slot)
      requires Running(w, s) && x < |pool| && w.pend[s].RequestTask? && w.pend[s].src == src
               && src in connections && connections[src] == x && tm > time
      modifies `tasks, `pend, `added, `link
      ensures Valid() && (old(link).Live? ==> link == old(link)) && TasksAt(tasks, time) == old(TasksAt(tasks, time))
      ensures Gained(old(added), added, [Expected(tm, tm, RefuseTask(src))])
    {
      ghost var n := AddTask(tm, RefuseTask(src));
      GainedOne(old(added), Entry(n.t, RefuseTask(src)), Expected(tm, tm, RefuseTask(src)));
      link := AfterRefusal(w, View(), watch.on, link, fit, x, s, n);
    }

    method GrantRequest(x: Ref, src: nat, limit: nat, tm: nat, ghost w: World, ghost s: Slot)
      requires Running(w, s) && x < |pool| && w.pend[s].RequestTask? && w.pend[s].src == src
               && src in connections && connections[src] == x && tm > time && limit > 0
      modifies `tasks, `pend, `added, `pool, `connections, `uid, `ids, `link, `fit, `handlerTasks, `calls
      ensures Valid() && (old(link).Live? ==> link == old(link)) && (fit ==> old(fit))
      ensures old(link).NotYet? && x == watch.on ==> Begins(link, old(pool[x])) && link.b == |old(pool)|
      ensures TasksAt(tasks, time) == old(TasksAt(tasks, time))
      ensures Settled(w, x, limit, true, tm, Since(old(added), old(handlerTasks)))
      ensures Gained(old(added), added, Decision(w, src, true, tm))
    {
      SoundFront(w, watch.on, link, fit, x);
      var bandwidth := if limit < pool[x].bandwidth then limit else pool[x].bandwidth;
      ghost var cx := pool[x].(bandwidth := bandwidth, remote := uid + 1);
      ghost var cb := Conn(uid + 1, pool[x].local, 0, pool[x].minLag, pool[x].maxLag, bandwidth, [], [], [], tm,
                           Connected);
      ghost var r, m, n := MakePeer(x, src, limit, bandwidth, tm, w);
      Settle(x, src, cx, cb, w, s, r, m, n);
    }

    /** What a granted request means for the link under watch. */
    ghost method Settle(x: Ref, src: nat, cx: Conn, cb: Conn, w: World, s: Slot, r: Slot, m: Slot, n: Slot)
      requires OnSchedule() && Sound(w, watch.on, link, fit) && (piped ==> !fit) && Booked()
      requires s in w.pend && x < |w.pool| && w.pend[s].RequestTask? && w.pend[s].src == src
      requires src in w.connections && w.connections[src] == x
      requires r !in w.pend && m !in w.pend && n !in w.pend && r != m && r != n && m != n
      requires w.time <= r.t && w.time <= m.t && w.time < n.t
      requires cx == w.pool[x].(bandwidth := cx.bandwidth, remote := w.uid + 1) && cx.bandwidth > 0
      requires cb == Conn(w.uid + 1, w.pool[x].local, 0, w.pool[x].minLag, w.pool[x].maxLag, cx.bandwidth, [], [], [],
                          n.t,
                          Connected)
      requires View() == GrantedWorld(w.(pend := w.pend - {s}), x, src, cx, cb, r, m, n)
      modifies `link, `fit
      ensures Valid() && (old(link).Live? ==> link == old(link)) && (fit ==> old(fit))
      ensures old(link).NotYet? && x == watch.on ==> Begins(link, w.pool[x]) && link.b == |w.pool|
    {
      link := AfterGranted(w, View(), watch.on, link, fit, x, cx, cb, s, r, m, n);
      fit := fit && QueueFits(cx);
    }

    /** The acceptor's handler hears of the new end b, and so does b's own. */
    method Announce(b: Ref)
      modifies `handlerTasks, `calls
      ensures handlerTasks == old(handlerTasks) + [Accepted(b), Established(b)]
      ensures calls == old(calls) + [Accepted(b), Established(b)]
      ensures old(Booked()) ==> Booked()
    {
      AddHandlersTask(Accepted(b));
      AddHandlersTask(Established(b));
    }

    /** The tasks that start the new end b, and the one that tells the asking end. */
    method Begin(b: Ref, src: nat, tm: nat, ghost w: World) returns (ghost r: Slot, ghost m: Slot, ghost n: Slot)
      requires OnSchedule() && tm > time == w.time && b == |w.pool|
      modifies `tasks, `pend, `added
      ensures OnSchedule() && TasksAt(tasks, time) == old(TasksAt(tasks, time))
      ensures r !in old(pend) && m !in old(pend) && n !in old(pend) && r != m && r != n && m != n
      ensures r.t > time && m.t > time && n.t == tm && pend == GrantTasks(old(pend), b, src, r, m, n)
      ensures Gained(old(added), added, Decision(w, src, true, tm))
    {
      r := AddTask(time + 1, ReadTask(b));
      m := AddTask(time + 1, SendTask(b));
      ghost var mid := added;
      n := AddTask(tm, AcceptTask(src));
      GainedTwo(old(added), Entry(r.t, ReadTask(b)), Entry(m.t, SendTask(b)), Soon(w, ReadTask(b)),
                Soon(w, SendTask(b)));
      GainedOne(mid, Entry(n.t, AcceptTask(src)), Expected(tm, tm, AcceptTask(src)));
      GainedThen(old(added), mid, added, [Soon(w, ReadTask(b)), Soon(w, SendTask(b))],
                 [Expected(tm, tm, AcceptTask(src))]);
      assert Decision(w, src, true, tm) ==
             [Soon(w, ReadTask(b)), Soon(w, SendTask(b))] + [Expected(tm, tm, AcceptTask(src))];
    }

    /** The other end of the link, with the smaller of the bandwidths, and the tasks that start it. */
    method MakePeer(x: Ref, src: nat, limit: nat, bandwidth: nat, tm: nat, ghost w: World)
      returns (ghost r: Slot, ghost m: Slot, ghost n: Slot)
      requires OnSchedule() && x < |pool| && tm > time && View() == w.(pend := pend)
      requires bandwidth == if limit < pool[x].bandwidth then limit else pool[x].bandwidth
      modifies `tasks, `pend, `added, `pool, `connections, `uid, `ids, `handlerTasks, `calls
      ensures old(Booked()) ==> Booked()
      ensures OnSchedule() && TasksAt(tasks, time) == old(TasksAt(tasks, time))
      ensures r !in old(pend) && m !in old(pend) && n !in old(pend) && r != m && r != n && m != n
      ensures r.t > time && m.t > time && n.t == tm
      ensures View() == GrantedWorld(old(View()), x, src, old(pool[x]).(bandwidth := bandwidth, remote := old(uid) + 1),
                                     Conn(old(uid) + 1, old(pool[x]).local, 0, old(pool[x]).minLag, old(pool[x]).maxLag,
                                          bandwidth, [], [], [], tm, Connected), r, m, n)
      ensures Gained(old(added), added, Decision(w, src, true, tm))
      ensures Settled(w, x, limit, true, tm, Since(old(added), old(handlerTasks)))
    {
      var b, c := |pool|, pool[x];
      uid := uid + 1;
      ids := ids + {uid};
      connections := connections[uid := b];
      pool := pool[x := c.(bandwidth := bandwidth, remote := uid)]
              + [Conn(uid, c.local, 0, c.minLag, c.maxLag, bandwidth, [], [], [], tm, Connected)];
      Announce(b);
      r, m, n := Begin(b, src, tm, w);
    }

    /** disconnect: the peer hears of it after everything that was sent to it. */
    method Disconnect(x: Ref) returns (ghost n: Slot)
      requires Valid() && x < |pool|
      modifies `tasks, `pend, `added, `pool, `connections, `link, `handlerTasks, `calls
      ensures Valid() && DisconnectEffect(old(View()), x, Since(old(added), old(handlerTasks)))
      ensures old(pool[x]).state != Connected ==> link == old(link)
      ensures old(pool[x]).state == Connected ==> n in pend && pend[n] == DisconnectTask(old(pool[x]).remote)
      ensures old(pool[x]).state == Connected && old(link).Live? && End(old(link), watch.on, x) ==>
                forall s {:trigger s in old(pend)} ::
                  s in old(pend) && old(pend)[s].MessageTask? && old(pend)[s].src == old(pool[x]).local ==> s.t < n.t
      ensures !End(old(link), watch.on, x) ==> link == old(link)
    {
      n := Slot(0, 0);
      if pool[x].state != Connected {
        return;
      }
      ghost var w := View();
      if link.Live? && End(link, watch.on, x) {
        FlightStamp(w, watch.on, link, fit, x);
      }
      if End(link, watch.on, x) {
        Forget(w, watch.on, link, fit);
        link := Over;
      }
      n := Close(x);
      GainedTwo(old(added), Entry(time + 1, ClearTask(x)), Entry(n.t, DisconnectTask(w.pool[x].remote)),
                Soon(w, ClearTask(x)), Away(w, w.pool[x], DisconnectTask(w.pool[x].remote)));
    }

    /** The connection gives up its id and its peer, tells the peer, and will drop its queues. */
    method Close(x: Ref) returns (ghost n: Slot)
      requires Valid() && x < |pool| && !End(link, watch.on, x)
      modifies `tasks, `pend, `added, `pool, `connections, `handlerTasks, `calls
      ensures Valid() && connections == old(connections) - {old(pool[x]).local}
      ensures pool == Closing(old(View()), x, n.t) && handlerTasks == old(handlerTasks) + [Closed(x)]
      ensures n in pend && pend[n] == DisconnectTask(old(pool[x]).remote)
      ensures Lagged(Max(time, old(pool[x]).stamp), old(pool[x]), n.t)
      ensures added == old(added) + [Entry(time + 1, ClearTask(x))] + [Entry(n.t, DisconnectTask(old(pool[x]).remote))]
    {
      ghost var w := View();
      SoundLag(w, watch.on, link, fit, x);
      Strangers(w, watch.on, link, fit, x);
      SoundConn(w, watch.on, link, fit, x);
      var remote := pool[x].remote;
      var lag := GetLag(pool[x]);
      var tm := Max(time, pool[x].stamp) + 1 + lag;
      Drop(x, tm);
      ghost var w2 := View();
      n := AddTask(tm, DisconnectTask(remote));
      AddAside(w2, View(), watch.on, link, fit, n, DisconnectTask(remote));
    }

    method RemoveConnection(x: Ref, stamp: nat)
      requires Valid() && x < |pool| && !End(link, watch.on, x)
      modifies `pool, `connections
      ensures Valid() && connections == old(connections) - {old(pool[x]).local}
      ensures pool == old(pool)[x := old(pool[x]).(local := 0, remote := 0, state := Disconnected, stamp := stamp)]
    {
      ghost var w := View();
      connections := connections - {pool[x].local};
      pool := pool[x := pool[x].(local := 0, remote := 0, state := Disconnected, stamp := stamp)];
      DropAside(w, View(), watch.on, link, fit, x, pool[x]);
    }

    /** remove_connection, the callback, and the task that will clear the queues. */
    method Drop(x: Ref, stamp: nat)
      requires Valid() && x < |pool| && !End(link, watch.on, x)
      modifies `tasks, `pend, `added, `pool, `connections, `handlerTasks, `calls
      ensures Valid() && TasksAt(tasks, time) == old(TasksAt(tasks, time))
      ensures connections == old(connections) - {old(pool[x]).local}
      ensures pool == old(pool)[x := old(pool[x]).(local := 0, remote := 0, state := Disconnected, stamp := stamp)]
      ensures added == old(added) + [Entry(time + 1, ClearTask(x))] && handlerTasks == old(handlerTasks) + [Closed(x)]
    {
      RemoveConnection(x, stamp);
      ghost var w1 := View();
      ghost var n := AddTask(time + 1, ClearTask(x));
      AddAside(w1, View(), watch.on, link, fit, n, ClearTask(x));
      Tell(Closed(x));
    }

    /** handle_disconnect: the other end closed.  An end that is not connected yet is left alone. */
    method HandleDisconnect(dest: nat, ghost w: World, ghost s: Slot)
      requires Running(w, s) && w.pend[s] == DisconnectTask(dest)
      modifies `tasks, `pend, `added, `pool, `connections, `handlerTasks, `calls
      ensures Valid() && TasksAt(tasks, time) == old(TasksAt(tasks, time))
      ensures PeerClosedEffect(w, dest, Since(old(added), old(handlerTasks)))
    {
      SoundTask(w, watch.on, link, fit, s);
      SoundId(w, watch.on, link, fit, dest);
      if dest in connections && End(link, watch.on, connections[dest]) {
        TaskKinds(w, watch.on, link, fit, s, connections[dest]);
      }
      IdOutside(w, watch.on, link, fit, dest);
      TakeAside(w, View(), watch.on, link, fit, s);
      if dest in connections && pool[connections[dest]].state != Connecting {
        var x := connections[dest];
        Drop(x, pool[x].stamp);
        GainedOne(old(added), Entry(time + 1, ClearTask(x)), Soon(w, ClearTask(x)));
      }
    }

    /** cancel_operations and clear_queues. */
    method HandleClear(x: Ref, ghost w: World, ghost s: Slot)
      requires Running(w, s) && w.pend[s] == ClearTask(x) && x < |pool|
      modifies `pool, `handlerTasks, `calls
      ensures Valid() && ClearEffect(w, x, Since(added, old(handlerTasks)))
    {
      NoClear(w, watch.on, link, fit, s);
      TakeAside(w, View(), watch.on, link, fit, s);
      CancelSends(x);
      CancelReads(x);
      ghost var w1 := View();
      ClearedConn(w1, watch.on, link, fit, x);
      pool := pool[x := pool[x].(sending := [], reading := [], received := [])];
      SetAside(w1, View(), watch.on, link, fit, x, pool[x]);
    }

    method CancelSends(x: Ref)
      requires Valid() && x < |pool| && !End(link, watch.on, x)
      modifies `pool, `handlerTasks, `calls
      ensures Valid() && pool == old(pool)[x := old(pool[x]).(sending := [])]
      ensures handlerTasks == old(handlerTasks) + Cancelled(x, old(pool[x]).sending)
    {
      while pool[x].sending != []
        invariant Valid() && |pool| == |old(pool)|
        invariant pool == old(pool)[x := old(pool[x]).(sending := pool[x].sending)]
        invariant handlerTasks + Cancelled(x, pool[x].sending) == old(handlerTasks) + Cancelled(x, old(pool[x]).sending)
        decreases |pool[x].sending|
      {
        Tell(Sent(x, pool[x].sending[0].id, false));
        ghost var w1 := View();
        ClearedConn(w1, watch.on, link, fit, x);
        pool := pool[x := pool[x].(sending := pool[x].sending[1..])];
        SetAside(w1, View(), watch.on, link, fit, x, pool[x]);
      }
    }

    method CancelReads(x: Ref)
      requires Valid() && x < |pool|
      modifies `handlerTasks, `calls
      ensures Valid() && handlerTasks == old(handlerTasks) + Aborted(x, |pool[x].reading|)
    {
      for i := 0 to |pool[x].reading|
        invariant Valid() && handlerTasks == old(handlerTasks) + Aborted(x, i)
      {
        Tell(Failed(x));
      }
    }

    // ------------------------------------------------------------------ the clock

    ghost predicate AcceptorsOk()
      reads `acceptors
    {
      forall i {:trigger i in acceptors} :: i in acceptors ==> acceptors[i].bandwidth > 0
    }

    /** The last task to run asked for a connection from an id, or to an acceptor, that is not there. */
    ghost predicate Stranded()
      reads `ran, `connections, `acceptors
    {
      && ran != [] && ran[|ran| - 1].task.RequestTask?
      && (ran[|ran| - 1].task.src !in connections || ran[|ran| - 1].task.address !in acceptors)
    }

    /** One task, whichever it is; `granted` is what an acceptor's handler says if it is asked. */
    method RunTask(task: Task, granted: bool, ghost w: World, ghost s: Slot) returns (ok: bool, ghost tm: nat)
      requires Running(w, s) && w.pend[s] == task && AcceptorsOk()
      modifies `tasks, `pend, `added, `pool, `connections, `uid, `ids, `link, `fit, `piped, `handlerTasks, `calls
      ensures ok ==> Valid() && TasksAt(tasks, time) == old(TasksAt(tasks, time)) && (fit ==> old(fit))
      ensures ok && fit ==> piped == old(piped)
      ensures ok ==> Effect(w, task, acceptors, granted, tm, Since(old(added), old(handlerTasks)))
      ensures task.SendTask? ==> ok && task.c < |w.pool| == |pool|
      ensures task.SendTask? ==> SentOn(old(link), watch.on, task.c, link, w.pool[task.c], pool[task.c], pend, piped)
      ensures ok <==> (task.RequestTask? ==> task.src in w.connections && task.address in acceptors)
      ensures !ok ==> Since(old(added), old(handlerTasks)).Idles(w)
    {
      ok, tm := true, 0;
      SoundTask(w, watch.on, link, fit, s);
      match task
      case SendTask(c) => HandleSend(c, w, s);
      case ReadTask(c) => HandleRead(c, w, s);
      case ClearTask(c) => HandleClear(c, w, s);
      case NoRouteTask(c) =>
        TakeAside(w, View(), watch.on, link, fit, s);
        Tell(Failed(c));
      case MessageTask(src, dest, msg) => HandleMessage(src, dest, msg, w, s);
      case AckTask(dest, good) => HandleAck(dest, good, w, s);
      case RequestTask(src, address) => ok, tm := HandleRequest(src, address, granted, w, s);
      case AcceptTask(dest) => HandleAccept(dest, w, s);
      case RefuseTask(dest) => HandleRefuse(dest, w, s);
      case DisconnectTask(dest) => HandleDisconnect(dest, w, s);
    }

    /** The task at position i of the present slot, which the cursor has reached. */
    method RunNext(i: nat) returns (ok: bool, ghost said: bool, ghost tm: nat)
      requires Valid() && AcceptorsOk() && time in tasks && cursor == i < |tasks[time]|
      modifies `tasks, `pend, `added, `pool, `connections, `uid, `ids, `link, `fit, `piped, `handlerTasks, `calls
      modifies `cursor, `ran
      ensures ok ==> Valid() && TasksAt(tasks, time) == old(TasksAt(tasks, time)) && cursor == i + 1
      ensures ok ==> (fit ==> old(fit)) && (fit ==> piped == old(piped))
      ensures !ok ==> Stranded()
      ensures ok ==>
                Effect(old(View()), old(tasks[time][i]), acceptors, said, tm, Since(old(added), old(handlerTasks)))
      ensures ran == old(ran) + [Entry(time, old(tasks[time][i]))]
      ensures old(tasks[time][i]).SendTask? ==>
                && ok && old(tasks[time][i]).c < |pool| == |old(pool)|
                && var x := old(tasks[time][i]).c; SentOn(old(link), watch.on, x, link, old(pool)[x], pool[x], pend,
                                                          piped)
    {
      var task, granted: bool := tasks[time][i], *;
      ghost var w := View();
      ghost var s := Take(time, cursor, tasks, pend, added, ran);
      pend, cursor, ran := pend - {s}, cursor + 1, ran + [Entry(time, task)];
      said := granted;
      ok, tm := RunTask(task, granted, w, s);
    }

    /** The tasks of the present moment, one after the other; those they add come later. */
    method RunSlot() returns (ok: bool)
      requires Valid() && AcceptorsOk() && time in tasks && cursor == 0
      modifies this
      ensures AcceptorsOk() && time == old(time) && acceptors == old(acceptors)
      ensures watch == old(watch)
      ensures ok ==> Valid() && time !in tasks && (fit ==> old(fit)) && (fit ==> piped == old(piped))
      ensures !ok ==> Stranded()
    {
      var i := 0;
      while i < |tasks[time]|
        invariant Valid() && AcceptorsOk() && time == old(time) && acceptors == old(acceptors) && time in tasks
        invariant watch == old(watch)
        invariant cursor == i <= |tasks[time]| && tasks[time] == old(tasks[time])
        invariant (fit ==> old(fit)) && (fit ==> piped == old(piped))
        decreases |old(tasks[time])| - i
      {
        i := i + 1;
        ghost var said, tm;
        ok, said, tm := RunNext(i - 1);
        if !ok {
          return;
        }
      }
      Finish(time, cursor, tasks, pend, added, ran);
      tasks := tasks - {time};
      ok := true;
    }

    /**
      process: everything due up to `until` runs, in order of time and, within one moment, of
      acceptance, exactly once; nothing due by then is left.
     */
    method Process(until: nat) returns (ok: bool)
      requires Valid() && AcceptorsOk() && time !in tasks
      modifies this
      ensures AcceptorsOk() && acceptors == old(acceptors) && watch == old(watch)
      ensures ok ==> Valid() && time == Max(old(time), until) && time !in tasks
      ensures ok ==> ran == Before(added, time + 1) && forall s {:trigger s in pend} :: s in pend ==> s.t > time
      ensures ok && fit ==> old(fit) && piped == old(piped)
      ensures !ok ==> Stranded() && time <= until
    {
      var current := time;
      while current <= until
        invariant Valid() && AcceptorsOk() && time !in tasks && acceptors == old(acceptors)
        invariant watch == old(watch)
        invariant current == time || current == time + 1
        invariant time == old(time) || time <= until
        invariant current <= until || time == Max(old(time), until)
        invariant (fit ==> old(fit)) && (fit ==> piped == old(piped))
      {
        SetTime(current);
        if current in tasks {
          ok := RunSlot();
          if !ok {
            return;
          }
        }
        current := current + 1;
      }
      AllRan(time, cursor, tasks, pend, added, ran);
      ok := true;
    }

    /** set_time, one moment on or not at all. */
    method SetTime(t: nat)
      requires Valid() && time !in tasks && (t == time || t == time + 1)
      modifies `time, `cursor
      ensures Valid() && time == t && (t in tasks ==> cursor == 0)
    {
      if t > time {
        ghost var w := View();
        Advance(time, cursor, tasks, pend, added, ran);
        time, cursor := t, 0;
        AfterTime(w, View(), watch.on, link, fit, t);
      }
    }

    /** process_handlers takes the callbacks in the order they were queued. */
    method NextCallback() returns (call: Option<Callback>)
      requires Valid()
      modifies `handlerTasks, `called
      ensures Valid() && (call.None? <==> old(handlerTasks) == [])
      ensures call.Some? ==> old(handlerTasks) == [call.value] + handlerTasks && called == old(called) + [call.value]
    {
      if handlerTasks == [] {
        return None;
      }
      OneMoreCalled(watch.past, calls, called, handlerTasks);
      call := Some(handlerTasks[0]);
      called := called + [handlerTasks[0]];
      handlerTasks := handlerTasks[1..];
    }

    // ------------------------------------------------------------- what is promised

    /**
      The bandwidth is a real limit: from any idle state of a link, a message that exceeds it, followed
      by another one before it is sent, gets two of its chunks in flight at once.
     */
    method Overrun(x: Ref, first: Bytes, second: Bytes)
      requires Valid() && AcceptorsOk() && link.Live? && End(link, watch.on, x) && x < |pool|
               && pool[x].state == Connected
      requires pool[x].sending == [] && pend == map[] && time !in tasks && !piped
      requires pool[x].bandwidth < |first| && second != []
      modifies this
      ensures piped && !fit && TwoInFlight(pend, old(pool)[x].local)
    {
      IdleFlight(x);
      NothingDue(time, cursor, tasks, pend, added, ran);
      ghost var before := added;
      SendTwo(x, first, second);
      TwiceNext(before, SendTask(x), time, cursor, tasks, pend, added, ran);
      SetTime(time + 1);
      SendTwice(x);
    }

    /** Two send tasks in a row, for a packet that is too large to be sent at once. */
    method SendTwice(x: Ref)
      requires Valid() && AcceptorsOk() && time in tasks && tasks[time] == [SendTask(x), SendTask(x)] && cursor == 0
      requires link.Live? && End(link, watch.on, x) && x < |pool| && Outbound(link, watch.on, x).flight == None
               && !piped
      requires pool[x].state == Connected && pool[x].sending != [] && pool[x].sending[0].sent == 0
               && pool[x].bandwidth < |pool[x].sending[0].message|
      modifies this
      ensures piped && !fit && TwoInFlight(pend, old(pool)[x].local)
    {
      ghost var said, tm;
      var ok;
      ok, said, tm := RunNext(0);
      ok, said, tm := RunNext(1);
    }

    method SendTwo(x: Ref, first: Bytes, second: Bytes)
      requires Valid() && link.Live? && End(link, watch.on, x) && x < |pool| && pool[x].state == Connected
      requires pool[x].sending == [] && time !in tasks && first != [] && second != []
      modifies `tasks, `pend, `added, `pool, `link, `fit
      ensures Valid() && time !in tasks
      ensures added == old(added) + [Entry(time + 1, SendTask(x))] + [Entry(time + 1, SendTask(x))]
      ensures link.Live? && End(link, watch.on, x)
              && Outbound(link, watch.on, x).flight == Outbound(old(link), watch.on, x).flight
      ensures pool[..] == old(pool)[x := old(pool[x]).(sending := [Outgoing(first, 0, 1), Outgoing(second, 0, 2)])]
    {
      TwoPackets(pool[x], Outgoing(first, 0, 1), Outgoing(second, 0, 2));
      SendOne(x, first, 1);
      SendOne(x, second, 2);
    }

    /** async_send at a connected end. */
    method SendOne(x: Ref, message: Bytes, id: nat)
      requires Valid() && link.Live? && End(link, watch.on, x) && x < |pool| && pool[x].state == Connected
      requires time !in tasks && message != []
      modifies `tasks, `pend, `added, `pool, `link, `fit
      ensures Valid() && time !in tasks && added == old(added) + [Entry(time + 1, SendTask(x))]
      ensures link.Live? && End(link, watch.on, x)
              && Outbound(link, watch.on, x).flight == Outbound(old(link), watch.on, x).flight
      ensures pool == old(pool)[x := old(pool[x]).(sending := old(pool[x]).sending + [Outgoing(message, 0, id)])]
    {
      AsyncSend(x, message, id);
    }

    lemma IdleFlight(x: Ref)
      requires Valid() && link.Live? && End(link, watch.on, x) && pend == map[]
      ensures Outbound(link, watch.on, x).flight == None
    {
      assert Facts(View(), watch.on, link, fit);
      Face(View(), watch.on, link, x);
      assert PairFacts(View(), x, Other(link, watch.on, x), Outbound(link, watch.on, x),
                       Outbound(link, watch.on, Other(link, watch.on, x)));
    }

    /** Stop and wait: in each direction of a live link at most one message or acknowledgement is in flight. */
    lemma AtMostOneInFlight(x: Ref, s: Slot, r: Slot)
      requires Valid() && link.Live? && End(link, watch.on, x) && x < |pool| && s in pend && r in pend
      requires InFlight(pend[s], pool[x].local) && InFlight(pend[r], pool[x].local)
      ensures s == r && pool[x].sending != []
      ensures pend[s].AckTask? ==> Complete(pool[x].sending[0])
    {
      assert Facts(View(), watch.on, link, fit);
      Face(View(), watch.on, link, x);
      assert PairFacts(View(), x, Other(link, watch.on, x), Outbound(link, watch.on, x),
                       Outbound(link, watch.on, Other(link, watch.on, x)));
    }

    /** A completely sent front packet has something in flight, and nothing else has while packets fit. */
    lemma CompleteIsInFlight(x: Ref)
      requires Valid() && link.Live? && End(link, watch.on, x) && x < |pool|
      ensures pool[x].sending != [] && Complete(pool[x].sending[0]) ==>
                exists s :: s in pend && InFlight(pend[s], pool[x].local)
      ensures fit && (exists s :: s in pend && InFlight(pend[s], pool[x].local)) ==>
                pool[x].sending != [] && Complete(pool[x].sending[0])
    {
      assert Facts(View(), watch.on, link, fit);
      Face(View(), watch.on, link, x);
      var d := Outbound(link, watch.on, x);
      assert PairFacts(View(), x, Other(link, watch.on, x), d, Outbound(link, watch.on, Other(link, watch.on, x)));
      if pool[x].sending != [] && Complete(pool[x].sending[0]) {
        assert d.flight.Some? && InFlight(pend[d.flight.value], pool[x].local);
      }
      if fit {
        assert QueueFits(pool[x]);
      }
    }

    /**
      What the other end was handed is a prefix of what this end was asked to send; reports come after
      arrival, in order.
     */
    lemma NothingLost(x: Ref)
      requires Valid() && link.Live? && End(link, watch.on, x)
      ensures var d, y := Outbound(link, watch.on, x), Other(link, watch.on, x);
              && Handed(ReadCalls(calls, y)) <= d.got <= Messages(d.log, |d.log|)
              && d.acked <= |d.log| && SentCalls(calls, x) == Reports(d.log, d.acked, x)
                  && Messages(d.log, d.acked) <= d.got
    {
      assert Facts(View(), watch.on, link, fit);
      Face(View(), watch.on, link, x);
      var d, y := Outbound(link, watch.on, x), Other(link, watch.on, x);
      assert PairFacts(View(), x, y, d, Outbound(link, watch.on, y));
      assert HandedFacts(ReadCalls(calls, y), d.handed, |ReadCalls(calls, y)|);
      ReceivedIsPrefix(pend, calls, x, y, pool[x], pool[y], d);
      ReportedIsReceived(pend, calls, x, y, pool[x], pool[y], d);
    }

    /**
      Reading conserves: bytes handed on, then the current buffer, then those waiting, are the bytes
      received.  Reads are answered once each, in order, with exactly what they asked for; the others wait.
     */
    lemma ReadsConserved(x: Ref)
      requires Valid() && link.Live? && End(link, watch.on, x)
      ensures var d, y := Outbound(link, watch.on, x), Other(link, watch.on, x);
              var answers := ReadCalls(calls, y);
              && y < |pool| && Handed(answers) + Partial(pool[y].reading) + Joined(pool[y].received) == d.got
              && ReadsOk(pool[y].reading) && |d.asked| == |answers| + |pool[y].reading|
              && (forall k :: 0 <= k < |answers| ==> Meets(d.asked[k], answers[k]))
              && (forall k :: 0 <= k < |pool[y].reading| ==>
                    pool[y].reading[k].(data := []) == d.asked[|answers| + k])
    {
      assert Facts(View(), watch.on, link, fit);
      Face(View(), watch.on, link, x);
      var d, y := Outbound(link, watch.on, x), Other(link, watch.on, x);
      assert PairFacts(View(), x, y, d, Outbound(link, watch.on, y));
      assert HandedFacts(ReadCalls(calls, y), d.handed, |ReadCalls(calls, y)|);
      assert AskedFacts(ReadCalls(calls, y), pool[y].reading, d.asked, |d.asked|);
    }

    /** No deadlock: once no task is left, everything has been sent, received and reported, and read as far as asked. */
    lemma Quiescent(x: Ref)
      requires Valid() && link.Live? && End(link, watch.on, x) && pend == map[]
      ensures var d, y := Outbound(link, watch.on, x), Other(link, watch.on, x);
              && x < |pool| && y < |pool| && pool[x].sending == [] && d.acked == |d.log|
                  && d.got == Messages(d.log, |d.log|)
              && SentCalls(calls, x) == Reports(d.log, |d.log|, x)
              && (pool[y].reading == [] || pool[y].received == [])
    {
      assert Facts(View(), watch.on, link, fit);
      Face(View(), watch.on, link, x);
      var d, y := Outbound(link, watch.on, x), Other(link, watch.on, x);
      assert PairFacts(View(), x, y, d, Outbound(link, watch.on, y));
      assert pool[x].sending == [] && Begun(pool[x].sending) == [] && Flying(pend, d.flight) == [];
      assert d.got + [] == d.got && Messages(d.log, d.acked) + [] == Messages(d.log, d.acked);
    }

    /** A callback that reports neither a send nor a read, or is for a connection outside the link. */
    method Tell(call: Callback)
      requires Valid() && call.c < |pool| && (call.Sent? || call.Received? ==> !End(link, watch.on, call.c))
      modifies `handlerTasks, `calls
      ensures Valid() && handlerTasks == old(handlerTasks) + [call]
    {
      ghost var w := View();
      AddHandlersTask(call);
      CallAside(w, View(), watch.on, link, fit, call);
    }
  }

  /** The chunk that handle_send cuts out is the next one. */
  lemma ChunkIsNext(w: World, x: Ref, n: Slot, o: Outcome)
    requires x < |w.pool| && Sends(w.pool[x]) && w.pool[x].sending[0].sent <= |w.pool[x].sending[0].message|
    requires var c := w.pool[x];
             var k := ChunkSize(c);
             && c.sending[0].sent + k <= |c.sending[0].message| && Lagged(Max(w.time, c.stamp), c, n.t)
             && o.added == o.before + [Entry(n.t, MessageTask(c.local, c.remote, Chunk(c.sending[0], k)))]
             && o.pool == w.pool[x := c.(sending := Advanced(c.sending, k), stamp := n.t)]
    requires o.Keeps(w) && o.queued == o.queue
    ensures SendEffect(w, x, o)
  {
    var c := w.pool[x];
    assert Chunk(c.sending[0], ChunkSize(c)) == NextChunk(c);
    GainedOne(o.before, o.added[|o.before|], Away(w, c, MessageTask(c.local, c.remote, NextChunk(c))));
    assert SendFacts(w, x, o);
  }

  /** The copying loop of handle_read. */
  method Fill(front: Incoming, received: seq<Bytes>) returns (data: Bytes, rest: seq<Bytes>)
    requires |front.data| <= Limit(front) && forall k :: 0 <= k < |received| ==> received[k] != []
    ensures data + Joined(rest) == front.data + Joined(received)
    ensures |data| <= Limit(front) && (rest == [] || |data| == Limit(front))
    ensures forall k :: 0 <= k < |rest| ==> rest[k] != []
  {
    data, rest := front.data, received;
    while rest != [] && |data| < Limit(front)
      invariant data + Joined(rest) == front.data + Joined(received)
      invariant |data| <= Limit(front) && forall k :: 0 <= k < |rest| ==> rest[k] != []
      decreases |rest|, Limit(front) - |data|
    {
      var left := Limit(front) - |data|;
      var message := rest[0];
      Split(data, rest, left);
      if left >= |message| {
        data, rest := data + message, rest[1..];
      } else {
        data, rest := data + message[..left], [message[left..]] + rest[1..];
      }
    }
  }

  /** Moving the first bytes from the waiting chunks to the buffer loses nothing. */
  lemma Split(data: Bytes, rest: seq<Bytes>, left: nat)
    requires rest != []
    ensures (data + rest[0]) + Joined(rest[1..]) == data + Joined(rest)
    ensures left <= |rest[0]| ==>
              (data + rest[0][..left]) + Joined([rest[0][left..]] + rest[1..]) == data + Joined(rest)
  {
    Regroup(data, rest[0], Joined(rest[1..]));
    if left <= |rest[0]| {
      var head, tail := rest[0][..left], rest[0][left..];
      assert ([tail] + rest[1..])[1..] == rest[1..];
      assert rest[0] == head + tail;
      Regroup(data, head, tail + Joined(rest[1..]));
      Regroup(head, tail, Joined(rest[1..]));
    }
  }

  /** The loop fills the buffer with what there is, up to its limit. */
  lemma FilledIsTaken(c: Conn, data: Bytes, rest: seq<Bytes>)
    requires c.reading != [] && data + Joined(rest) == Available(c)
    requires |data| <= Limit(c.reading[0]) && (rest == [] || |data| == Limit(c.reading[0]))
    ensures data == Taken(c)
  {
    if rest == [] {
      NothingLeft(data, rest, Available(c));
    } else {
      assert data == Available(c)[..|data|];
    }
  }

  lemma NothingLeft(data: Bytes, rest: seq<Bytes>, all: Bytes)
    requires data + Joined(rest) == all && rest == []
    ensures data == all
  {
  }

  lemma TwoPackets(c: Conn, p: Outgoing, q: Outgoing)
    requires c.sending == []
    ensures c.sending + [p] + [q] == [p, q]
  {
  }

  lemma Regroup(x: Bytes, y: Bytes, z: Bytes)
    ensures (x + y) + z == x + (y + z)
  {
  }
}
