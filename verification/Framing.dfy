/**
  The node's framing: every blob travels behind a three-byte length, and the receiving side
  alternates between reading a header and reading a message of the announced size.
 */
module Framing {
  import opened Octets
  import AbiSpec
  import opened SimModel
  import opened SimLink
  import opened SimRuns
  import opened NetworkSimulation

  const MAX_MESSAGE_SIZE: nat := 256
  const HEADER_SIZE: nat := 3
  const WAITING_HEADER: nat := 1
  const WAITING_MESSAGE: nat := 2

  predicate Sendable(blob: Bytes) {
    1 <= |blob| <= MAX_MESSAGE_SIZE
  }

  function Header(n: nat): (h: Bytes)
    ensures |h| == HEADER_SIZE
  {
    [n / 0x10000 % 256, n / 0x100 % 256, n % 256]
  }

  function HeaderValue(h: Bytes): nat
    requires |h| == HEADER_SIZE
  {
    var high: int, middle: int, low: int := h[0], h[1], h[2];
    low + middle * 0x100 + high * 0x10000
  }

  lemma HeaderRoundTrip(n: nat)
    requires n < 0x1000000
    ensures HeaderValue(Header(n)) == n
  {
  }

  lemma HeaderIsBigEndian(h: Bytes)
    requires |h| == HEADER_SIZE
    ensures HeaderValue(h) == AbiSpec.FromBigEndian(h)
  {
    var high: int, middle: int := h[0], h[1];
    assert h[..2][..1] == h[..1];
    assert AbiSpec.FromBigEndian(h[..1]) == high;
    assert AbiSpec.FromBigEndian(h[..2]) == high * 0x100 + middle;
  }

  /** send_blob: three bytes whose value is the size of the blob, and the blob; None when it is too big. */
  method SendBlob(blob: Bytes) returns (frame: Option<Bytes>)
    ensures frame.None? <==> |blob| > 256
    ensures frame.Some? ==> |frame.value| == 3 + |blob| && AbiSpec.FromBigEndian(frame.value[..3]) == |blob|
    ensures frame.Some? ==> frame.value[3..] == blob && frame.value == Frame(blob)
  {
    if |blob| > MAX_MESSAGE_SIZE {
      return None;
    }
    HeaderRoundTrip(|blob|);
    HeaderIsBigEndian(Header(|blob|));
    frame := Some(Header(|blob|) + blob);
  }

  function Frame(blob: Bytes): Bytes {
    Header(|blob|) + blob
  }

  /** Blobs from position i on, framed one after the other. */
  function Frames(blobs: seq<Bytes>, i: nat): Bytes
    requires i <= |blobs|
    decreases |blobs| - i
  {
    if i == |blobs| then [] else Frame(blobs[i]) + Frames(blobs, i + 1)
  }

  /** The receiving side of one peer: chunks not read yet, the read under way, and the blobs handed on. */
  class Reader {
    var received: seq<Bytes>
    var packet: Incoming
    var blobs: seq<Bytes>
    var open: bool

    /** What the peer was asked to send, and the bytes of it still to come. */
    ghost const sent: seq<Bytes>
    ghost var future: Bytes

    /** The read under way and everything after it make up the frames not handed on yet. */
    ghost predicate Valid()
      reads this
    {
      && (forall k :: 0 <= k < |sent| ==> Sendable(sent[k]))
      && (forall k :: 0 <= k < |received| ==> received[k] != [])
      && open && |blobs| <= |sent| && blobs == sent[..|blobs|]
      && packet.size == MAX_MESSAGE_SIZE && |packet.data| < packet.want <= packet.size
      && packet.data + (Joined(received) + future) == Remaining(packet.id, packet.want, sent, |blobs|)
      && (packet.id == WAITING_HEADER || packet.id == WAITING_MESSAGE)
      && (packet.id == WAITING_HEADER ==> packet.want == HEADER_SIZE)
      && (packet.id == WAITING_MESSAGE ==> |blobs| < |sent| && packet.want == |sent[|blobs|]|)
    }

    /** on_connected: the first header is asked for. */
    constructor (ghost sent: seq<Bytes>)
      requires forall k :: 0 <= k < |sent| ==> Sendable(sent[k])
      ensures Valid() && blobs == [] && received == [] && this.sent == sent && future == Frames(sent, 0)
    {
      received, blobs, open := [], [], true;
      packet := Incoming(MAX_MESSAGE_SIZE, HEADER_SIZE, WAITING_HEADER, []);
      this.sent, future := sent, Frames(sent, 0);
      new;
      assert packet.data + (Joined(received) + future) == future;
    }

    /** on_message_received: a header asks for its message, a message is handed on and the next header asked for. */
    method OnMessageReceived(data: Bytes, id: nat)
      modifies `packet, `blobs, `open
      ensures id == WAITING_MESSAGE ==>
                && blobs == old(blobs) + [data] && open == old(open)
                && packet == Incoming(MAX_MESSAGE_SIZE, HEADER_SIZE, WAITING_HEADER, [])
      ensures id == WAITING_HEADER && |data| == HEADER_SIZE && 1 <= HeaderValue(data) <= MAX_MESSAGE_SIZE ==>
                && blobs == old(blobs) && open == old(open)
                && packet == Incoming(MAX_MESSAGE_SIZE, HeaderValue(data), WAITING_MESSAGE, [])
      ensures id == WAITING_HEADER && !(|data| == HEADER_SIZE && 1 <= HeaderValue(data) <= MAX_MESSAGE_SIZE) ==>
                !open && blobs == old(blobs) && packet == old(packet)
      ensures id != WAITING_HEADER && id != WAITING_MESSAGE ==>
                open == old(open) && blobs == old(blobs) && packet == old(packet)
    {
      if id == WAITING_HEADER {
        if |data| != HEADER_SIZE {
          open := false;
          return;
        }
        var size := HeaderValue(data);
        if size == 0 || size > MAX_MESSAGE_SIZE {
          open := false;
        } else {
          packet := Incoming(MAX_MESSAGE_SIZE, size, WAITING_MESSAGE, []);
        }
      } else if id == WAITING_MESSAGE {
        packet := Incoming(MAX_MESSAGE_SIZE, HEADER_SIZE, WAITING_HEADER, []);
        blobs := blobs + [data];
      }
    }

    /** A chunk arrives and waits. */
    method Arrive(chunk: Bytes)
      requires Valid() && chunk != [] && chunk <= future
      modifies `received, `future
      ensures Valid() && received == old(received) + [chunk] && future == old(future)[|chunk|..]
    {
      JoinedOne(received, chunk);
      future := future[|chunk|..];
      received := received + [chunk];
      assert old(Joined(received) + future) == Joined(received) + future by {
        Regroup(old(Joined(received)), chunk, future);
        assert chunk + future == old(future);
      }
    }

    /** Reads are served, at most so many of them, as long as there is something to read. */
    method Drain(limit: nat)
      requires Valid()
      modifies `received, `packet, `blobs, `open
      ensures Valid() && old(blobs) <= blobs && (limit >= |old(Joined(received))| ==> received == [])
    {
      var left := limit;
      while received != [] && left > 0
        invariant Valid() && old(blobs) <= blobs && limit - left <= |old(Joined(received))| - |Joined(received)|
        decreases left
      {
        Read();
        left := left - 1;
      }
      if received != [] {
        assert Joined(received) == received[0] + Joined(received[1..]);
      }
    }

    /** handle_read, and the handler's reaction when the read is complete. */
    method Read()
      requires Valid() && received != []
      modifies `received, `packet, `blobs, `open
      ensures Valid() && old(blobs) <= blobs && |Joined(received)| < |old(Joined(received))|
    {
      var data, rest := Fill(packet, received);
      Regroup(packet.data, Joined(received), future);
      Regroup(data, Joined(rest), future);
      if |data| == packet.want {
        Answer(data, rest);
      } else {
        packet, received := packet.(data := data), rest;
      }
    }

    /** The read is complete. */
    method Answer(data: Bytes, rest: seq<Bytes>)
      requires Valid() && |data| == packet.want && forall k :: 0 <= k < |rest| ==> rest[k] != []
      requires data + (Joined(rest) + future) == packet.data + (Joined(received) + future)
      modifies `received, `packet, `blobs, `open
      ensures Valid() && old(blobs) <= blobs && received == rest
    {
      if packet.id == WAITING_HEADER {
        HeaderRead(data, Joined(rest) + future, sent, |blobs|);
      } else {
        Cut(data, Joined(rest) + future, sent[|blobs|], Frames(sent, |blobs| + 1));
      }
      received := rest;
      OnMessageReceived(data, packet.id);
    }

    /** Chunk by chunk, whatever the chunks: once all has arrived, exactly the blobs sent were handed on. */
    lemma AllDelivered()
      requires Valid() && received == [] && future == []
      ensures blobs == sent
    {
      assert packet.data + (Joined(received) + future) == packet.data;
    }
  }

  lemma Cut(x: Bytes, y: Bytes, u: Bytes, v: Bytes)
    requires x + y == u + v && |x| == |u|
    ensures x == u && y == v
  {
    assert x == (x + y)[..|x|] && y == (x + y)[|x|..] && u == (u + v)[..|u|] && v == (u + v)[|u|..];
  }

  /** Three bytes at the start of framed blobs announce the first of them. */
  lemma HeaderRead(data: Bytes, more: Bytes, sent: seq<Bytes>, i: nat)
    requires i <= |sent| && |data| == HEADER_SIZE && data + more == Frames(sent, i)
    requires forall k :: 0 <= k < |sent| ==> Sendable(sent[k])
    ensures i < |sent| && HeaderValue(data) == |sent[i]| && more == sent[i] + Frames(sent, i + 1)
  {
    assert |data + more| >= HEADER_SIZE;
    var blob := sent[i];
    Regroup(Header(|blob|), blob, Frames(sent, i + 1));
    Cut(data, more, Header(|blob|), blob + Frames(sent, i + 1));
    HeaderRoundTrip(|blob|);
  }

  function Remaining(id: nat, want: nat, sent: seq<Bytes>, i: nat): Bytes
    requires i <= |sent|
  {
    if id == WAITING_HEADER || i == |sent| then Frames(sent, i) else sent[i] + Frames(sent, i + 1)
  }

  /**
    Any way of cutting the framed stream into chunks delivers exactly the blobs, however many reads run
    after each chunk before the next one arrives.
   */
  method Transfer(blobs: seq<Bytes>, chunks: seq<Bytes>, pace: nat -> nat) returns (got: seq<Bytes>)
    requires forall k :: 0 <= k < |blobs| ==> Sendable(blobs[k])
    requires (forall k :: 0 <= k < |chunks| ==> chunks[k] != []) && Joined(chunks) == Frames(blobs, 0)
    ensures got == blobs
  {
    var reader := new Reader(blobs);
    assert chunks[0..] == chunks;
    for i := 0 to |chunks|
      invariant reader.Valid() && fresh(reader) && reader.sent == blobs && reader.future == Joined(chunks[i..])
    {
      assert chunks[i..][1..] == chunks[i + 1..];
      reader.Arrive(chunks[i]);
      reader.Drain(pace(i));
    }
    assert chunks[|chunks|..] == [];
    reader.Drain(|Joined(reader.received)|);
    reader.AllDelivered();
    got := reader.blobs;
  }

  // ------------------------------------------------------ over a simulated link

  function ReadHeader(): Incoming {
    Incoming(MAX_MESSAGE_SIZE, HEADER_SIZE, WAITING_HEADER, [])
  }

  /** The read that the handler asks for after an answer; None where it closes the connection. */
  function NextRead(answer: Callback): Option<Incoming>
    requires answer.Received?
  {
    if answer.id == WAITING_MESSAGE then Some(ReadHeader())
    else if |answer.data| == HEADER_SIZE && 1 <= HeaderValue(answer.data) <= MAX_MESSAGE_SIZE
      then Some(Incoming(MAX_MESSAGE_SIZE, HeaderValue(answer.data), WAITING_MESSAGE, []))
    else None
  }

  /** The reads asked for are those of a node: a header first, and then one after each answer, at once or later. */
  ghost predicate NodeReads(asked: seq<Incoming>, answers: seq<Callback>) {
    && |answers| <= |asked| <= |answers| + 1
    && (forall k {:trigger asked[k]} :: 0 <= k < |asked| ==> Asks(asked[k], answers[..k]))
  }

  /** This is the read that a node asks for after these answers. */
  ghost predicate Asks(read: Incoming, answers: seq<Callback>) {
    if answers == [] then read == ReadHeader()
    else answers[|answers| - 1].Received? && NextRead(answers[|answers| - 1]) == Some(read)
  }

  /** The blobs that a node is handed by its answers. */
  function BlobsOf(answers: seq<Callback>): seq<Bytes> {
    if answers == [] then []
    else BlobsOf(answers[..|answers| - 1])
         + (if answers[|answers| - 1].Received? && answers[|answers| - 1].id == WAITING_MESSAGE
            then [answers[|answers| - 1].data] else [])
  }

  /** What is left of the frames when i blobs, and perhaps the header of the next one, were read. */
  function Rest(blobs: seq<Bytes>, i: nat, header: bool): Bytes
    requires i <= |blobs| && (header ==> i < |blobs|)
  {
    if header then blobs[i] + Frames(blobs, i + 1) else Frames(blobs, i)
  }

  /** The answers are the headers and contents of the first i blobs, and perhaps the header of the next one. */
  ghost predicate Aligned(blobs: seq<Bytes>, answers: seq<Callback>, i: nat, header: bool) {
    && i <= |blobs| && (header ==> i < |blobs|) && BlobsOf(answers) == blobs[..i]
    && Handed(answers) + Rest(blobs, i, header) == Frames(blobs, 0)
    && (header ==> answers != [] && Announces(answers[|answers| - 1], blobs[i]))
    && (!header && answers != [] ==> answers[|answers| - 1].Received? && answers[|answers| - 1].id == WAITING_MESSAGE)
  }

  predicate Announces(answer: Callback, blob: Bytes) {
    answer.Received? && answer.id == WAITING_HEADER && |answer.data| == HEADER_SIZE
        && HeaderValue(answer.data) == |blob|
  }

  lemma {:induction false} AnswersAlign(blobs: seq<Bytes>, asked: seq<Incoming>, answers: seq<Callback>)
    returns (i: nat, header: bool)
    requires forall k :: 0 <= k < |blobs| ==> Sendable(blobs[k])
    requires NodeReads(asked, answers) && Handed(answers) <= Frames(blobs, 0)
    requires forall k :: 0 <= k < |answers| ==> Meets(asked[k], answers[k])
    ensures Aligned(blobs, answers, i, header)
    decreases |answers|
  {
    if answers == [] {
      i, header := 0, false;
      assert Handed(answers) + Rest(blobs, 0, false) == Frames(blobs, 0);
    } else {
      var n := |answers| - 1;
      var before := answers[..n];
      assert answers == before + [answers[n]];
      assert Meets(asked[n], answers[n]);
      OneMoreAnswer(before, answers[n]);
      FewerReads(asked, answers);
      i, header := AnswersAlign(blobs, asked[..n + 1], before);
      i, header := NextAligned(blobs, before, asked[n], answers[n], i, header);
    }
  }

  lemma FewerReads(asked: seq<Incoming>, answers: seq<Callback>)
    requires NodeReads(asked, answers) && answers != []
    ensures NodeReads(asked[..|answers|], answers[..|answers| - 1])
    ensures Asks(asked[|answers| - 1], answers[..|answers| - 1])
  {
    var before := answers[..|answers| - 1];
    forall k | 0 <= k < |answers| ensures Asks(asked[k], before[..k]) {
      assert before[..k] == answers[..k];
    }
  }

  lemma NextAligned(blobs: seq<Bytes>, before: seq<Callback>, read: Incoming, answer: Callback, i: nat, header: bool)
    returns (i': nat, header': bool)
    requires (forall k :: 0 <= k < |blobs| ==> Sendable(blobs[k])) && Aligned(blobs, before, i, header)
    requires Meets(read, answer) && Asks(read, before) && Handed(before) + answer.data <= Frames(blobs, 0)
    ensures Aligned(blobs, before + [answer], i', header')
  {
    var more := Frames(blobs, 0)[|Handed(before) + answer.data|..];
    AnswerCut(Handed(before), answer.data, more, Rest(blobs, i, header), Frames(blobs, 0));
    OneMoreAnswer(before, answer);
    if header {
      i', header' := i + 1, false;
      Cut(answer.data, more, blobs[i], Frames(blobs, i + 1));
      MessageAligned(blobs, before, answer, i);
    } else {
      i', header' := i, true;
      HeaderRead(answer.data, more, blobs, i);
      HeaderAligned(blobs, before, answer, i);
    }
  }

  lemma HeaderAligned(blobs: seq<Bytes>, before: seq<Callback>, answer: Callback, i: nat)
    requires i < |blobs| && BlobsOf(before) == blobs[..i] && Announces(answer, blobs[i])
    requires BlobsOf(before + [answer]) == BlobsOf(before)
    requires Handed(before + [answer]) + (blobs[i] + Frames(blobs, i + 1)) == Frames(blobs, 0)
    ensures Aligned(blobs, before + [answer], i, true)
  {
  }

  lemma MessageAligned(blobs: seq<Bytes>, before: seq<Callback>, answer: Callback, i: nat)
    requires i < |blobs| && BlobsOf(before) == blobs[..i]
    requires answer.Received? && answer.id == WAITING_MESSAGE && answer.data == blobs[i]
    requires BlobsOf(before + [answer]) == BlobsOf(before) + [answer.data]
    requires Handed(before + [answer]) + Frames(blobs, i + 1) == Frames(blobs, 0)
    ensures Aligned(blobs, before + [answer], i + 1, false)
  {
    assert blobs[..i + 1] == blobs[..i] + [blobs[i]];
  }

  lemma AnswerCut(handed: Bytes, data: Bytes, more: Bytes, rest: Bytes, all: Bytes)
    requires handed + rest == all && handed + data <= all && more == all[|handed + data|..]
    ensures data + more == rest && (handed + data) + more == all
  {
    Regroup(handed, data, more);
    Cut(handed, data + more, handed, rest);
  }

  lemma OneMoreAnswer(before: seq<Callback>, answer: Callback)
    requires answer.Received?
    ensures Handed(before + [answer]) == Handed(before) + answer.data
    ensures BlobsOf(before + [answer]) == BlobsOf(before) + if answer.id == WAITING_MESSAGE then [answer.data] else []
  {
    assert (before + [answer])[..|before|] == before;
  }

  lemma {:induction false} FramesAreMessages(log: seq<Outgoing>, blobs: seq<Bytes>, n: nat)
    requires n <= |log| == |blobs| && forall k :: 0 <= k < |log| ==> log[k].message == Frame(blobs[k])
    ensures Messages(log, n) + Frames(blobs, n) == Frames(blobs, 0)
  {
    if n > 0 {
      FramesAreMessages(log, blobs, n - 1);
      Regroup(Messages(log, n - 1), log[n - 1].message, Frames(blobs, n));
    }
  }

  /**
    Node to node over a simulated link, whatever its bandwidth, lag and traffic: the blobs handed on are
    always a prefix of those sent, and when the simulation has nothing left to do they are all of them.
   */
  lemma DeliveredOverLink(sim: Simulation, x: Ref, blobs: seq<Bytes>)
    requires sim.Valid() && sim.link.Live? && End(sim.link, sim.watch.on, x)
    requires var d, y := Outbound(sim.link, sim.watch.on, x), Other(sim.link, sim.watch.on, x);
             && |d.log| == |blobs| && (forall k :: 0 <= k < |blobs| ==> d.log[k].message == Frame(blobs[k]))
             && NodeReads(d.asked, ReadCalls(sim.calls, y))
    requires forall k :: 0 <= k < |blobs| ==> Sendable(blobs[k])
    ensures var d, y := Outbound(sim.link, sim.watch.on, x), Other(sim.link, sim.watch.on, x);
            var answers := ReadCalls(sim.calls, y);
            && BlobsOf(answers) <= blobs
            && (sim.pend == map[] && |d.asked| == |answers| + 1 ==> BlobsOf(answers) == blobs)
  {
    var d, y := Outbound(sim.link, sim.watch.on, x), Other(sim.link, sim.watch.on, x);
    var answers := ReadCalls(sim.calls, y);
    sim.NothingLost(x);
    sim.ReadsConserved(x);
    FramedPrefix(d.log, blobs, d.asked, answers);
    if sim.pend == map[] && |d.asked| == |answers| + 1 {
      AllReadOverLink(sim, x);
      FramedAll(d.log, blobs, d.asked, answers, sim.pool[y].reading[0]);
    }
  }

  /** Without tasks, what was handed on and what is in the waiting buffer is all that was sent. */
  lemma AllReadOverLink(sim: Simulation, x: Ref)
    requires sim.Valid() && sim.link.Live? && End(sim.link, sim.watch.on, x) && sim.pend == map[]
    requires var d, y := Outbound(sim.link, sim.watch.on, x), Other(sim.link, sim.watch.on, x);
             |d.asked| == |ReadCalls(sim.calls, y)| + 1
    ensures var d, y := Outbound(sim.link, sim.watch.on, x), Other(sim.link, sim.watch.on, x);
            && y < |sim.pool| && |sim.pool[y].reading| == 1
            && Handed(ReadCalls(sim.calls, y)) + sim.pool[y].reading[0].data == Messages(d.log, |d.log|)
  {
    sim.ReadsConserved(x);
    sim.Quiescent(x);
    var y := Other(sim.link, sim.watch.on, x);
    assert Joined(sim.pool[y].received) == [];
  }

  lemma FramedPrefix(log: seq<Outgoing>, blobs: seq<Bytes>, asked: seq<Incoming>, answers: seq<Callback>)
    requires |log| == |blobs| && forall k :: 0 <= k < |blobs| ==>
               log[k].message == Frame(blobs[k]) && Sendable(blobs[k])
    requires NodeReads(asked, answers) && Handed(answers) <= Messages(log, |log|)
    requires forall k :: 0 <= k < |answers| ==> Meets(asked[k], answers[k])
    ensures BlobsOf(answers) <= blobs
  {
    FramesAreMessages(log, blobs, |blobs|);
    assert Messages(log, |log|) == Frames(blobs, 0);
    var i, header := AnswersAlign(blobs, asked, answers);
  }

  lemma FramedAll(log: seq<Outgoing>, blobs: seq<Bytes>, asked: seq<Incoming>, answers: seq<Callback>, front: Incoming)
    requires |log| == |blobs| && forall k :: 0 <= k < |blobs| ==>
               log[k].message == Frame(blobs[k]) && Sendable(blobs[k])
    requires NodeReads(asked, answers) && Handed(answers) + front.data == Messages(log, |log|)
    requires forall k :: 0 <= k < |answers| ==> Meets(asked[k], answers[k])
    requires |asked| == |answers| + 1 && front.(data := []) == asked[|answers|]
             && (front.want > 0 ==> |front.data| < front.want)
    ensures BlobsOf(answers) == blobs
  {
    FramesAreMessages(log, blobs, |blobs|);
    assert Messages(log, |log|) == Frames(blobs, 0);
    var i, header := AnswersAlign(blobs, asked, answers);
    assert answers[..|answers|] == answers && Asks(asked[|answers|], answers);
    AllAnswered(blobs, asked, answers, front, i, header);
  }

  /** A node that has read all there is, and waits for more than what is in its buffer, has handed on all blobs. */
  lemma AllAnswered(blobs: seq<Bytes>, asked: seq<Incoming>, answers: seq<Callback>, front: Incoming, i: nat,
                    header: bool)
    requires Aligned(blobs, answers, i, header) && NodeReads(asked, answers) && |asked| == |answers| + 1
    requires front.(data := []) == asked[|answers|] && |front.data| < front.want
    requires Handed(answers) + front.data == Frames(blobs, 0)
    ensures BlobsOf(answers) == blobs
  {
    Cut(Handed(answers), front.data, Handed(answers), Rest(blobs, i, header));
    assert answers[..|answers|] == answers && Asks(asked[|answers|], answers);
    assert blobs[..|blobs|] == blobs;
  }
}
