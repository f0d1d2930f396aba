/**
 Whole runs of a machine's TCP sockets, and of two machines joined by a network
 that loses, duplicates, reorders and delays segments.

 A run drives every socket of a host with any sequence of events: listeners,
 handshakes, segments (any slice of the peer's stream, any 32-bit
 acknowledgement), application calls, timers, resets and driver refusals. Each
 connection that ever existed has a record of what its application wrote and
 read and of every frame that left for it.
 */
module TcpEndToEnd {
  import opened Machine
  import opened SequenceNumbers
  import opened Sockets
  import opened TcpSend
  import opened TcpStack
  import opened TcpHost
  import R = TcpReceive

  // A frame on the wire: its offset in the application's stream, and how many
  // of the application's bytes were acknowledged when it left.
  datatype Sent = Sent(frame: Frame, offset: nat, acknowledged: int)

  // One connection, from its SYN on: the two initial sequence numbers, what was
  // written here and acknowledged by the peer, what left; what the peer sends,
  // how much of it was received in order and read.
  datatype Connection = Connection(
    local: u32,
    written: seq<u8>,
    una: int,
    log: seq<Sent>,
    remote: u32,
    stream: seq<u8>,
    received: nat,
    output: seq<u8>,
    ended: bool)

  ghost function FlowOf(c: Connection): Flow {
    Flow(c.local + 1, c.written, c.una)
  }

  // The frame carries the application's own bytes at their sequence number; a
  // FIN comes right after the last of them, with all of them acknowledged.
  ghost predicate Genuine(c: Connection, l: Sent) {
    FrameMatches(l.frame, l.offset, FlowOf(c)) && (l.frame.finish ==> |c.written| <= l.acknowledged)
  }

  ghost predicate Faithful(c: Connection) {
    && (forall k :: 0 <= k < |c.log| ==> Genuine(c, c.log[k]))
    && c.output <= c.stream && (c.ended ==> c.output == c.stream)
  }

  ghost predicate FinLogged(c: Connection) {
    exists k :: 0 <= k < |c.log| && c.log[k].frame.finish
  }

  // The record describes socket h.
  ghost predicate Linked(v: Halves, h: nat, c: Connection)
    requires Sized(v) && h < SOCKET_CAPACITY
  {
    && v.flows[h] == FlowOf(c)
    && v.peers[h].start == c.remote + 1 && v.peers[h].stream == c.stream && v.peers[h].taken <= |c.stream|
    && c.received == R.Position(v.slots[h], v.peers[h])
    && (!v.slots[h].readClosed ==> c.output == c.stream[..v.peers[h].taken])
    && (FinLogged(c) ==> v.sockets[h].sendClosed)
  }

  // Every open connection has its own record, and every record ever made is
  // faithful.
  ghost predicate World(v: Halves, owner: seq<nat>, conns: seq<Connection>) {
    && Sized(v) && |owner| == SOCKET_CAPACITY
    && (forall h :: 0 <= h < SOCKET_CAPACITY ==> Recorded(v, owner, conns, h))
    && (forall h, k :: 0 <= h < k < SOCKET_CAPACITY ==> OwnRecords(v, owner, h, k))
    && (forall i :: 0 <= i < |conns| ==> Faithful(conns[i]))
  }

  ghost predicate Recorded(v: Halves, owner: seq<nat>, conns: seq<Connection>, h: nat)
    requires Sized(v) && |owner| == SOCKET_CAPACITY && h < SOCKET_CAPACITY
  {
    Attached(v.sockets[h].state) ==> owner[h] < |conns| && Linked(v, h, conns[owner[h]])
  }

  ghost predicate OwnRecords(v: Halves, owner: seq<nat>, h: nat, k: nat)
    requires Sized(v) && |owner| == SOCKET_CAPACITY && h < SOCKET_CAPACITY && k < SOCKET_CAPACITY
  {
    Attached(v.sockets[h].state) && Attached(v.sockets[k].state) ==> owner[h] != owner[k]
  }

  lemma {:induction false} OwnRecord(v: Halves, owner: seq<nat>, conns: seq<Connection>, h: nat, k: nat)
    requires World(v, owner, conns) && h < SOCKET_CAPACITY && k < SOCKET_CAPACITY && h != k
    ensures OwnRecords(v, owner, h, k)
  {
    if h < k {
      assert OwnRecords(v, owner, h, k);
    } else {
      assert OwnRecords(v, owner, k, h);
    }
  }

  // Socket h moved on and its record with it.
  lemma {:induction false} WorldMoves(v: Halves, v': Halves, owner: seq<nat>, conns: seq<Connection>, h: nat,
                                      c: Connection)
    requires World(v, owner, conns) && Elsewhere(v, v', h) && h < SOCKET_CAPACITY && Attached(v.sockets[h].state)
    requires Faithful(c) && (Attached(v'.sockets[h].state) ==> Linked(v', h, c))
    ensures owner[h] < |conns| && World(v', owner, conns[owner[h] := c])
  {
    assert Recorded(v, owner, conns, h);
    var conns' := conns[owner[h] := c];
    forall k | 0 <= k < SOCKET_CAPACITY ensures Recorded(v', owner, conns', k) {
      if k != h {
        assert SameAt(v, v', k) && Recorded(v, owner, conns, k);
        OwnRecord(v, owner, conns, h, k);
      }
    }
    forall i, k | 0 <= i < k < SOCKET_CAPACITY ensures OwnRecords(v', owner, i, k) {
      OwnRecord(v, owner, conns, i, k);
      assert i != h ==> SameAt(v, v', i);
      assert k != h ==> SameAt(v, v', k);
    }
  }

  // Socket h changed and is no open connection, before or after.
  lemma {:induction false} WorldIdles(v: Halves, v': Halves, owner: seq<nat>, conns: seq<Connection>, h: nat)
    requires World(v, owner, conns) && Elsewhere(v, v', h) && (h < SOCKET_CAPACITY ==> !Attached(v'.sockets[h].state))
    ensures World(v', owner, conns)
  {
    forall k | 0 <= k < SOCKET_CAPACITY ensures Recorded(v', owner, conns, k) {
      if k != h {
        assert SameAt(v, v', k) && Recorded(v, owner, conns, k);
      }
    }
    forall i, k | 0 <= i < k < SOCKET_CAPACITY ensures OwnRecords(v', owner, i, k) {
      OwnRecord(v, owner, conns, i, k);
      assert i != h ==> SameAt(v, v', i);
      assert k != h ==> SameAt(v, v', k);
    }
  }

  // Socket h became a new connection.
  lemma {:induction false} WorldOpens(v: Halves, v': Halves, owner: seq<nat>, conns: seq<Connection>, h: nat,
                                      c: Connection)
    requires World(v, owner, conns) && Elsewhere(v, v', h) && h < SOCKET_CAPACITY && Faithful(c) && Linked(v', h, c)
    ensures World(v', owner[h := |conns|], conns + [c])
  {
    var owner', conns' := owner[h := |conns|], conns + [c];
    forall k | 0 <= k < SOCKET_CAPACITY ensures Recorded(v', owner', conns', k) {
      if k != h {
        assert SameAt(v, v', k) && Recorded(v, owner, conns, k);
      }
    }
    forall i, k | 0 <= i < k < SOCKET_CAPACITY ensures OwnRecords(v', owner', i, k) {
      OwnRecord(v, owner, conns, i, k);
      assert Recorded(v, owner, conns, i) && Recorded(v, owner, conns, k);
      assert i != h ==> SameAt(v, v', i);
      assert k != h ==> SameAt(v, v', k);
    }
  }

  lemma {:induction false} WorldLosesListener(v: Halves, v': Halves, owner: seq<nat>, conns: seq<Connection>, h: nat)
    requires World(v, owner, conns) && ListenerClosed(v, v', h, SOCKET_CAPACITY)
    ensures World(v', owner, conns)
  {
    forall k | 0 <= k < SOCKET_CAPACITY ensures Recorded(v', owner, conns, k) {
      assert ClosedAt(v, v', h, SOCKET_CAPACITY, k) && Recorded(v, owner, conns, k);
    }
    forall i, k | 0 <= i < k < SOCKET_CAPACITY ensures OwnRecords(v', owner, i, k) {
      OwnRecord(v, owner, conns, i, k);
      assert ClosedAt(v, v', h, SOCKET_CAPACITY, i) && ClosedAt(v, v', h, SOCKET_CAPACITY, k);
    }
  }

  // ---- How a record moves ----

  function Logs(frames: seq<Frame>, origin: nat, starts: seq<nat>, una: int): (r: seq<Sent>)
    requires |frames| == |starts|
    ensures |r| == |frames|
  {
    seq(|frames|, k requires 0 <= k < |frames| => Sent(frames[k], origin + starts[k], una))
  }

  function AfterWrite(c: Connection, bytes: seq<u8>, frames: seq<Frame>, starts: seq<nat>): Connection
    requires |frames| == |starts|
  {
    c.(written := c.written + bytes, log := c.log + Logs(frames, |c.written|, starts, c.una))
  }

  lemma {:induction false} GenuineStill(c: Connection, l: Sent, bytes: seq<u8>)
    requires Genuine(c, l) && (bytes != [] ==> !l.frame.finish)
    ensures FrameMatches(l.frame, l.offset, FlowOf(c).(written := c.written + bytes))
    ensures l.frame.finish ==> |c.written + bytes| <= l.acknowledged
  {
  }

  lemma {:induction false} WriteFaithful(c: Connection, bytes: seq<u8>, frames: seq<Frame>, starts: seq<nat>)
    requires Faithful(c) && (bytes != [] ==> !FinLogged(c)) && |frames| == |starts|
    requires DataFrames(frames, |c.written|, starts, FlowOf(c).(written := c.written + bytes))
    ensures var r := AfterWrite(c, bytes, frames, starts); Faithful(r) && (FinLogged(r) ==> FinLogged(c))
  {
    var r := AfterWrite(c, bytes, frames, starts);
    forall k | 0 <= k < |r.log| ensures Genuine(r, r.log[k]) && (k >= |c.log| ==> !r.log[k].frame.finish) {
      if k < |c.log| {
        GenuineStill(c, c.log[k], bytes);
        assert r.log[k] == c.log[k];
      } else {
        assert r.log[k] == Logs(frames, |c.written|, starts, c.una)[k - |c.log|];
      }
    }
  }

  // Frames sent for bytes that were written before.
  function AfterRepeat(c: Connection, frames: seq<Frame>): Connection {
    var offset := if c.una < 0 then 0 else c.una;
    c.(log := c.log + seq(|frames|, k requires 0 <= k < |frames| => Sent(frames[k], offset, c.una)))
  }

  lemma {:induction false} RepeatFaithful(c: Connection, frames: seq<Frame>, starts: seq<nat>)
    requires Faithful(c) && 0 <= c.una && DataFrames(frames, c.una, starts, FlowOf(c))
             && forall k :: 0 <= k < |starts| ==> starts[k] == 0
    ensures var r := AfterRepeat(c, frames); Faithful(r) && (FinLogged(r) ==> FinLogged(c))
  {
    var r := AfterRepeat(c, frames);
    forall k | 0 <= k < |r.log| ensures Genuine(r, r.log[k]) && (k >= |c.log| ==> !r.log[k].frame.finish) {
      if k < |c.log| {
        assert Genuine(c, c.log[k]);
      } else {
        assert starts[k - |c.log|] == 0;
      }
    }
  }

  // FIN frames are logged at the end of the written bytes.
  function AfterFin(c: Connection, frames: seq<Frame>): Connection {
    c.(log := c.log + seq(|frames|, k requires 0 <= k < |frames| => Sent(frames[k], |c.written|, c.una)))
  }

  lemma {:induction false} FinFaithful(c: Connection, frames: seq<Frame>)
    requires Faithful(c) && (frames == [] || (frames == [FinFrame(FlowOf(c))] && |c.written| <= c.una))
    ensures var r := AfterFin(c, frames); Faithful(r) && (FinLogged(r) ==> FinLogged(c) || frames != [])
  {
    var r := AfterFin(c, frames);
    forall k | 0 <= k < |r.log| ensures Genuine(r, r.log[k]) {
      if k < |c.log| {
        assert Genuine(c, c.log[k]);
      }
    }
    if FinLogged(r) && frames == [] {
      assert r.log == c.log;
    }
  }

  lemma {:induction false} MovedFaithful(c: Connection, una: int, received: nat)
    requires Faithful(c)
    ensures var r := c.(una := una, received := received); Faithful(r) && (FinLogged(r) <==> FinLogged(c))
  {
    var r := c.(una := una, received := received);
    forall k | 0 <= k < |r.log| ensures Genuine(r, r.log[k]) {
      assert Genuine(c, c.log[k]);
    }
  }

  lemma {:induction false} ReadFaithful(c: Connection, output: seq<u8>, ended: bool)
    requires Faithful(c) && output <= c.stream && (ended ==> output == c.stream)
    ensures var r := c.(output := output, ended := ended); Faithful(r) && (FinLogged(r) <==> FinLogged(c))
  {
    var r := c.(output := output, ended := ended);
    forall k | 0 <= k < |r.log| ensures Genuine(r, r.log[k]) {
      assert Genuine(c, c.log[k]);
    }
  }

  // ---- Events ----

  datatype Event =
    | Listen(backlog: nat)
    | Syn(listener: nat, remoteSequence: u32, localSequence: u32, peerWindow: u32, peerMss: nat, stream: seq<u8>)
    | Arrive(to: nat, offset: nat, size: nat, finish: bool, ack: u32, window: Option<u32>, accept: bool)
    | AcceptOn(acceptor: nat)
    | Write(writer: nat, input: seq<u8>, congestion: u32, driver: seq<bool>)
    | Read(reader: nat, size: nat)
    | ShutdownRead(handle: nat)
    | ShutdownWrite(handle: nat, accept: bool)
    | Close(handle: nat, accept: bool)
    | FinTimer(handle: nat, accept: bool)
    | RetransmitTimer(due: seq<bool>, accept: bool)
    | TimeWaitOver(handle: nat)
    | Abort(handle: nat, failure: SocketResult)

  method StepSyn(host: Host, owner: seq<nat>, conns: seq<Connection>, listener: nat, remoteSequence: u32,
                 localSequence: u32,
                 peerWindow: u32, peerMss: nat, stream: seq<u8>)
    returns (owner': seq<nat>, conns': seq<Connection>)
    requires host.Valid() && World(host.View(), owner, conns) && 0 < peerMss <= SEGMENT_CAPACITY
    modifies host.table, host.table.slots, host.stack, host.stack.sockets
    ensures host.Valid() && World(host.View(), owner', conns')
  {
    ghost var v := host.View();
    owner', conns' := owner, conns;
    var result, h := host.Syn(listener, remoteSequence, localSequence, peerWindow, peerMss, stream);
    if result == Success {
      var c := Connection(localSequence, [], -1, [], remoteSequence, stream, 0, [], false);
      WorldOpens(v, host.View(), owner, conns, h, c);
      owner', conns' := owner[h := |conns|], conns + [c];
    }
  }

  method StepEstablish(host: Host, owner: seq<nat>, conns: seq<Connection>, h: nat, ack: u32)
    returns (conns': seq<Connection>)
    requires host.Valid() && World(host.View(), owner, conns) && h < SOCKET_CAPACITY
             && host.stack.sockets[h].state == SynReceived
    modifies host.table.slots, host.stack, host.stack.sockets
    ensures host.Valid() && World(host.View(), owner, conns') && |conns'| == |conns|
  {
    ghost var v := host.View();
    assert Recorded(v, owner, conns, h);
    var c := conns[owner[h]];
    conns' := conns;
    var result := host.Establish(h, ack);
    if result == Success {
      MovedFaithful(c, 0, c.received);
      WorldMoves(v, host.View(), owner, conns, h, c.(una := 0));
      conns' := conns[owner[h] := c.(una := 0)];
    }
  }

  method StepSegment(host: Host, owner: seq<nat>, conns: seq<Connection>, h: nat, offset: nat, size: nat, finish: bool,
                     ack: u32, window: Option<u32>, accept: bool)
    returns (conns': seq<Connection>)
    requires host.Valid() && World(host.View(), owner, conns) && h < SOCKET_CAPACITY
    requires Synchronized(host.stack.sockets[h].state) && host.stack.sockets[h].state != TimeWait && owner[h] < |conns|
    requires offset + size <= |conns[owner[h]].stream| && size < HALF
             && -HALF <= offset - conns[owner[h]].received < HALF
    requires finish ==> offset + size == |conns[owner[h]].stream|
    modifies host.table, host.table.slots, host.table.reassembly, host.stack, host.stack.sockets,
      host.stack.transmissions
    ensures host.Valid() && World(host.View(), owner, conns')
  {
    ghost var v := host.View();
    assert Recorded(v, owner, conns, h);
    var c := conns[owner[h]];
    host.Held(h);
    var sequence := Wrap((c.remote as int) + 1 + offset);
    var frames, moved, total := host.Segment(h, sequence, c.stream[offset..offset + size], finish, ack, window,
                                             accept, offset);
    if host.stack.sockets[h].state == Free {
      WorldIdles(v, host.View(), owner, conns, h);
      return conns;
    }
    host.Held(h);
    var c' := AfterFin(c.(una := c.una + moved, received := c.received + total), frames);
    SegmentLinked(v, host.View(), h, c, frames, moved, total);
    WorldMoves(v, host.View(), owner, conns, h, c');
    conns' := conns[owner[h] := c'];
  }

  lemma {:induction false} SegmentLinked(v: Halves, v': Halves, h: nat, c: Connection, frames: seq<Frame>,
                                         moved: nat, total: nat)
    requires SegmentTaken(v, v', h, frames, moved, total) && v'.sockets[h].state != Free && Linked(v, h, c)
             && Faithful(c)
    requires R.InStep(v'.slots[h], v'.peers[h])
    ensures var c' := AfterFin(c.(una := c.una + moved, received := c.received + total), frames);
            Linked(v', h, c') && Faithful(c')
  {
    var m := c.(una := c.una + moved, received := c.received + total);
    MovedFaithful(c, m.una, m.received);
    assert v'.flows[h] == FlowOf(m);
    FinFaithful(m, frames);
  }

  // A slice of the peer's stream reaches its connection, which it may establish.
  method StepArrive(host: Host, owner: seq<nat>, conns: seq<Connection>, h: nat, offset: nat, size: nat, finish: bool,
                    ack: u32, window: Option<u32>, accept: bool)
    returns (conns': seq<Connection>)
    requires host.Valid() && World(host.View(), owner, conns) && h < SOCKET_CAPACITY
             && Attached(host.stack.sockets[h].state)
    modifies host.table, host.table.slots, host.table.reassembly, host.stack, host.stack.sockets,
      host.stack.transmissions
    ensures host.Valid() && World(host.View(), owner, conns')
  {
    assert Recorded(host.View(), owner, conns, h);
    conns' := conns;
    var sequence := Wrap((conns[owner[h]].remote as int) + 1 + offset);
    if host.stack.sockets[h].state == SynReceived && sequence == host.table.slots[h].receiveNext {
      conns' := StepEstablish(host, owner, conns, h, ack);
    }
    var state := host.stack.sockets[h].state;
    assert Recorded(host.View(), owner, conns', h);
    var c := conns'[owner[h]];
    if IsConnection(state) && state != SynReceived && state != Reset && state != TimeWait
       && offset + size <= |c.stream| && size < HALF && -HALF <= offset - c.received < HALF {
      conns' := StepSegment(host, owner, conns', h, offset, size, finish
                            && offset + size == |c.stream|, ack, window, accept);
    }
  }

  method StepWrite(host: Host, owner: seq<nat>, conns: seq<Connection>, h: nat, input: seq<u8>, congestion: u32,
                   driver: seq<bool>)
    returns (conns': seq<Connection>)
    requires host.Valid() && World(host.View(), owner, conns) && h < SOCKET_CAPACITY
    requires Attached(host.stack.sockets[h].state) && host.stack.sockets[h].accepted
    modifies host.stack, host.stack.sockets, host.stack.transmissions
    ensures host.Valid() && World(host.View(), owner, conns')
  {
    ghost var v := host.View();
    assert Recorded(v, owner, conns, h);
    var c := conns[owner[h]];
    var result, count, frames, starts := host.Write(h, input, congestion, driver);
    WriteLinked(v, host.View(), h, c, input[..count], frames, starts);
    WorldMoves(v, host.View(), owner, conns, h, AfterWrite(c, input[..count], frames, starts));
    conns' := conns[owner[h] := AfterWrite(c, input[..count], frames, starts)];
  }

  lemma {:induction false} WriteLinked(v: Halves, v': Halves, h: nat, c: Connection, bytes: seq<u8>,
                                       frames: seq<Frame>, starts: seq<nat>)
    requires DataWritten(v, v', h, bytes, frames, starts) && Linked(v, h, c) && Faithful(c)
    ensures |frames| == |starts|
    ensures var c' := AfterWrite(c, bytes, frames, starts); Linked(v', h, c') && Faithful(c')
  {
    WriteFaithful(c, bytes, frames, starts);
  }

  method StepRead(host: Host, owner: seq<nat>, conns: seq<Connection>, h: nat, size: nat)
    returns (conns': seq<Connection>)
    requires host.Valid() && World(host.View(), owner, conns) && h < SOCKET_CAPACITY
             && Attached(host.stack.sockets[h].state)
    modifies host.table, host.table.slots, host.table.reassembly
    ensures host.Valid() && World(host.View(), owner, conns')
  {
    ghost var v := host.View();
    assert Recorded(v, owner, conns, h);
    var c, open := conns[owner[h]], !host.table.slots[h].readClosed;
    host.Holding(h);
    var result, bytes := host.Read(h, size);
    var c' := c.(output := c.output + bytes, ended := c.ended || (open && result == EndOfFile));
    ReadLinked(v, host.View(), h, c, size, result, bytes);
    WorldMoves(v, host.View(), owner, conns, h, c');
    conns' := conns[owner[h] := c'];
  }

  lemma {:induction false} ReadLinked(v: Halves, v': Halves, h: nat, c: Connection, size: nat, result: SocketResult,
                                      bytes: seq<u8>)
    requires DataRead(v, v', h, size, result, bytes) && Linked(v, h, c) && Faithful(c)
    requires R.InStep(v.slots[h], v.peers[h]) && Attached(v.slots[h].state)
    ensures var c' := c.(output := c.output + bytes, ended := c.ended
                         || (!v.slots[h].readClosed && result == EndOfFile));
            Linked(v', h, c') && Faithful(c')
  {
    var taken := v.peers[h].taken;
    if v.slots[h].readClosed {
      assert c.output + bytes == c.output;
    } else {
      assert c.output + bytes == c.stream[..taken + |bytes|];
    }
    ReadFaithful(c, c.output + bytes, c.ended || (!v.slots[h].readClosed && result == EndOfFile));
  }

  method StepShutdownRead(host: Host, owner: seq<nat>, conns: seq<Connection>, h: nat)
    requires host.Valid() && World(host.View(), owner, conns) && h < SOCKET_CAPACITY
             && Synchronized(host.stack.sockets[h].state)
    modifies host.table, host.table.slots
    ensures host.Valid() && World(host.View(), owner, conns)
  {
    ghost var v := host.View();
    assert Recorded(v, owner, conns, h);
    host.Held(h);
    host.ShutdownRead(h);
    WorldMoves(v, host.View(), owner, conns, h, conns[owner[h]]);
    assert conns[owner[h] := conns[owner[h]]] == conns;
  }

  // shutdown or close: the FIN leaves now or waits for the acknowledgements.
  method StepFinish(host: Host, owner: seq<nat>, conns: seq<Connection>, h: nat, detach: bool, accept: bool)
    returns (conns': seq<Connection>)
    requires host.Valid() && World(host.View(), owner, conns) && h < SOCKET_CAPACITY
             && Attached(host.stack.sockets[h].state)
    requires !detach ==> Synchronized(host.stack.sockets[h].state)
    modifies host.table, host.table.slots, host.table.reassembly, host.stack, host.stack.sockets,
      host.stack.transmissions
    ensures host.Valid() && World(host.View(), owner, conns')
  {
    ghost var v := host.View();
    assert Recorded(v, owner, conns, h);
    var c := conns[owner[h]];
    var frames;
    if detach {
      frames := host.Close(h, accept);
    } else {
      frames := host.ShutdownWrite(h, accept);
    }
    if host.stack.sockets[h].state == Free {
      WorldIdles(v, host.View(), owner, conns, h);
      return conns;
    }
    FinishLinked(v, host.View(), h, c, detach, accept, frames);
    WorldMoves(v, host.View(), owner, conns, h, AfterFin(c, frames));
    conns' := conns[owner[h] := AfterFin(c, frames)];
  }

  lemma {:induction false} FinishLinked(v: Halves, v': Halves, h: nat, c: Connection, detach: bool, accept: bool,
                                        frames: seq<Frame>)
    requires WriteClosed(v, v', h, detach, accept, frames) && Linked(v, h, c) && Faithful(c)
    ensures Linked(v', h, AfterFin(c, frames)) && Faithful(AfterFin(c, frames))
  {
    FinFaithful(c, frames);
  }

  method StepFinTimer(host: Host, owner: seq<nat>, conns: seq<Connection>, h: nat, accept: bool)
    returns (conns': seq<Connection>)
    requires host.Valid() && World(host.View(), owner, conns) && h < SOCKET_CAPACITY
    requires Synchronized(host.stack.sockets[h].state) && host.stack.sockets[h].sendClosed
    modifies host.stack.sockets
    ensures host.Valid() && World(host.View(), owner, conns')
  {
    ghost var v := host.View();
    assert Recorded(v, owner, conns, h);
    var c := conns[owner[h]];
    var frames := host.SendFin(h, accept);
    FinFaithful(c, frames);
    WorldMoves(v, host.View(), owner, conns, h, AfterFin(c, frames));
    conns' := conns[owner[h] := AfterFin(c, frames)];
  }

  method StepRetransmit(host: Host, owner: seq<nat>, conns: seq<Connection>, due: seq<bool>, accept: bool)
    returns (conns': seq<Connection>)
    requires host.Valid() && World(host.View(), owner, conns) && |due| == TRANSMIT_CAPACITY
    modifies host.stack
    ensures host.Valid() && World(host.View(), owner, conns')
  {
    ghost var v := host.View();
    var sent, frames := host.Retransmit(due, accept);
    if sent.None? {
      return conns;
    }
    var h := sent.value;
    assert Recorded(v, owner, conns, h);
    var c := conns[owner[h]];
    RepeatFaithful(c, frames, if accept then [0] else []);
    WorldMoves(v, host.View(), owner, conns, h, AfterRepeat(c, frames));
    conns' := conns[owner[h] := AfterRepeat(c, frames)];
  }

  method StepOver(host: Host, owner: seq<nat>, conns: seq<Connection>, h: nat)
    requires host.Valid() && World(host.View(), owner, conns) && h < SOCKET_CAPACITY
             && host.stack.sockets[h].state == TimeWait
    modifies host.table.slots, host.table.reassembly, host.stack.sockets
    ensures host.Valid() && World(host.View(), owner, conns)
  {
    ghost var v := host.View();
    assert Recorded(v, owner, conns, h);
    host.Expire(h);
    WorldMoves(v, host.View(), owner, conns, h, conns[owner[h]]);
    assert conns[owner[h] := conns[owner[h]]] == conns;
  }

  // ---- Whole runs ----

  // The application owns the socket: accept() returned it, close() did not.
  predicate Owned(s: Socket) {
    Attached(s.state) && s.accepted && !s.detached
  }

  // Events of the network and of the timers; one that does not apply to the
  // state of its socket changes nothing.
  method NetworkStep(host: Host, owner: seq<nat>, conns: seq<Connection>, event: Event)
    returns (owner': seq<nat>, conns': seq<Connection>)
    requires host.Valid() && World(host.View(), owner, conns)
    modifies host.table, host.table.slots, host.table.reassembly, host.stack, host.stack.sockets,
      host.stack.transmissions
    ensures host.Valid() && World(host.View(), owner', conns')
  {
    owner', conns' := owner, conns;
    match event {
      case Syn(listener, remoteSequence, localSequence, peerWindow, peerMss, stream) =>
        if 0 < peerMss <= SEGMENT_CAPACITY {
          owner', conns' := StepSyn(host, owner, conns, listener, remoteSequence, localSequence, peerWindow, peerMss,
                                    stream);
        }
      case Arrive(h, offset, size, finish, ack, window, accept) =>
        if h < SOCKET_CAPACITY && Attached(host.stack.sockets[h].state) {
          conns' := StepArrive(host, owner, conns, h, offset, size, finish, ack, window, accept);
        }
      case _ => conns' := TimerStep(host, owner, conns, event);
    }
  }

  // What the clock brings, and a connection given up.
  method TimerStep(host: Host, owner: seq<nat>, conns: seq<Connection>, event: Event) returns (conns': seq<Connection>)
    requires host.Valid() && World(host.View(), owner, conns)
    modifies host.table, host.table.slots, host.table.reassembly, host.stack, host.stack.sockets,
      host.stack.transmissions
    ensures host.Valid() && World(host.View(), owner, conns')
  {
    ghost var v := host.View();
    conns' := conns;
    match event {
      case FinTimer(h, accept) =>
        if h < SOCKET_CAPACITY && Synchronized(host.stack.sockets[h].state)
           && host.stack.sockets[h].sendClosed && !host.stack.sockets[h].finAcked {
          conns' := StepFinTimer(host, owner, conns, h, accept);
        }
      case RetransmitTimer(due, accept) =>
        if |due| == TRANSMIT_CAPACITY {
          conns' := StepRetransmit(host, owner, conns, due, accept);
        }
      case TimeWaitOver(h) =>
        if h < SOCKET_CAPACITY && host.stack.sockets[h].state == TimeWait {
          StepOver(host, owner, conns, h);
        }
      case Abort(h, failure) =>
        if h < SOCKET_CAPACITY && Attached(host.stack.sockets[h].state)
           && host.stack.sockets[h].state != TimeWait && host.stack.sockets[h].state != Closed {
          host.Abort(h, failure);
          WorldIdles(v, host.View(), owner, conns, h);
        }
      case _ =>
    }
  }

  // Calls of the application.
  method CallStep(host: Host, owner: seq<nat>, conns: seq<Connection>, event: Event) returns (conns': seq<Connection>)
    requires host.Valid() && World(host.View(), owner, conns)
    modifies host.table, host.table.slots, host.table.reassembly, host.stack, host.stack.sockets,
      host.stack.transmissions
    ensures host.Valid() && World(host.View(), owner, conns')
  {
    conns' := conns;
    match event {
      case Listen(_) | AcceptOn(_) =>
        OpeningStep(host, owner, conns, event);
      case Write(h, input, congestion, driver) =>
        if h < SOCKET_CAPACITY && Owned(host.stack.sockets[h]) {
          conns' := StepWrite(host, owner, conns, h, input, congestion, driver);
        }
      case Read(h, size) =>
        if h < SOCKET_CAPACITY && Owned(host.stack.sockets[h]) {
          conns' := StepRead(host, owner, conns, h, size);
        }
      case ShutdownRead(h) =>
        if h < SOCKET_CAPACITY && Owned(host.stack.sockets[h]) && Synchronized(host.stack.sockets[h].state) {
          StepShutdownRead(host, owner, conns, h);
        }
      case ShutdownWrite(h, accept) =>
        if h < SOCKET_CAPACITY && Owned(host.stack.sockets[h]) && Synchronized(host.stack.sockets[h].state) {
          conns' := StepFinish(host, owner, conns, h, false, accept);
        }
      case Close(h, accept) =>
        if h < SOCKET_CAPACITY {
          conns' := ClosingStep(host, owner, conns, h, accept);
        }
      case _ =>
    }
  }

  method OpeningStep(host: Host, owner: seq<nat>, conns: seq<Connection>, event: Event)
    requires host.Valid() && World(host.View(), owner, conns) && (event.Listen? || event.AcceptOn?)
    modifies host.table.slots, host.stack.sockets
    ensures host.Valid() && World(host.View(), owner, conns)
  {
    ghost var v := host.View();
    if event.Listen? {
      var h := host.Listen(event.backlog);
      WorldIdles(v, host.View(), owner, conns, h);
    } else {
      var result, h := host.Accept(event.acceptor);
      if result == Success {
        StillLinked(v, host.View(), owner, conns, h);
      }
    }
  }

  lemma {:induction false} StillLinked(v: Halves, v': Halves, owner: seq<nat>, conns: seq<Connection>, h: nat)
    requires World(v, owner, conns) && Elsewhere(v, v', h) && h < SOCKET_CAPACITY
    requires v'.sockets[h] == v.sockets[h].(accepted := true) && v'.slots == v.slots && v'.peers == v.peers
             && v'.flows == v.flows
    ensures World(v', owner, conns)
  {
    assert Recorded(v, owner, conns, h);
    if Attached(v.sockets[h].state) {
      WorldMoves(v, v', owner, conns, h, conns[owner[h]]);
      assert conns[owner[h] := conns[owner[h]]] == conns;
    } else {
      WorldIdles(v, v', owner, conns, h);
    }
  }

  method ClosingStep(host: Host, owner: seq<nat>, conns: seq<Connection>, h: nat, accept: bool)
    returns (conns': seq<Connection>)
    requires host.Valid() && World(host.View(), owner, conns) && h < SOCKET_CAPACITY
    modifies host.table, host.table.slots, host.table.reassembly, host.stack, host.stack.sockets,
      host.stack.transmissions
    ensures host.Valid() && World(host.View(), owner, conns')
  {
    ghost var v := host.View();
    conns' := conns;
    if host.stack.sockets[h].state == Listening {
      host.CloseListener(h);
      WorldLosesListener(v, host.View(), owner, conns, h);
    } else if Owned(host.stack.sockets[h]) {
      conns' := StepFinish(host, owner, conns, h, true, accept);
    } else if host.stack.sockets[h].state == Reset {
      var frames := host.Close(h, accept);
      WorldIdles(v, host.View(), owner, conns, h);
    }
  }

  // Every run of a machine, over all its sockets and the two queues they share:
  // every frame ever sent for a connection carries its own application's bytes
  // at their sequence numbers, FIN leaves only after all of them were
  // acknowledged and right behind the last, and every application reads a
  // prefix of its own peer's stream, with end-of-file only after all of it. The
  // state of every socket agrees with its flags.
  method Run(events: seq<Event>) returns (conns: seq<Connection>, sockets: seq<Socket>)
    ensures forall i :: 0 <= i < |conns| ==> Faithful(conns[i])
    ensures |sockets| == SOCKET_CAPACITY && forall h :: 0 <= h < SOCKET_CAPACITY ==> StateAgrees(sockets[h])
  {
    var host := new Host();
    var owner: seq<nat> := seq(SOCKET_CAPACITY, _ => 0);
    conns := [];
    Nobody(host.View(), owner);
    for i := 0 to |events|
      invariant fresh(host.table) && fresh(host.table.slots) && fresh(host.table.reassembly)
      invariant fresh(host.stack) && fresh(host.stack.sockets) && fresh(host.stack.transmissions)
      invariant host.Valid() && World(host.View(), owner, conns)
    {
      owner, conns := NetworkStep(host, owner, conns, events[i]);
      conns := CallStep(host, owner, conns, events[i]);
    }
    sockets := host.stack.sockets[..];
    forall h | 0 <= h < SOCKET_CAPACITY ensures StateAgrees(sockets[h]) {
      host.Agreeing(h);
    }
  }

  lemma {:induction false} Nobody(v: Halves, owner: seq<nat>)
    requires Sized(v) && |owner| == SOCKET_CAPACITY
             && forall h :: 0 <= h < SOCKET_CAPACITY ==> v.sockets[h] == FREE_SOCKET
    ensures World(v, owner, [])
  {
    forall h | 0 <= h < SOCKET_CAPACITY ensures Recorded(v, owner, [], h) {
    }
    forall h, k | 0 <= h < k < SOCKET_CAPACITY ensures OwnRecords(v, owner, h, k) {
    }
  }

  datatype Delivery = Arrival(index: nat) | ReadSome(size: nat)

  // Two machines. The sender runs through any events (acknowledgements are
  // arbitrary, so its behaviour does not depend on what arrives); the receiver
  // then gets any frames of one of its connections, in any order, any number of
  // times (their offsets staying within 2^31 of its position). Its application
  // reads a prefix of what the sender's wrote, and sees end-of-file only after
  // all of it.
  method Exchange(events: seq<Event>, which: nat, deliveries: seq<Delivery>)
    returns (written: seq<u8>, output: seq<u8>, ended: bool)
    ensures output <= written
    ensures ended ==> output == written
  {
    var conns, sockets := Run(events);
    if which >= |conns| {
      return [], [], false;
    }
    assert Faithful(conns[which]);
    written, output, ended := Deliver(conns[which], deliveries);
  }

  method Deliver(c: Connection, deliveries: seq<Delivery>) returns (written: seq<u8>, output: seq<u8>, ended: bool)
    requires Faithful(c)
    ensures written == c.written && output <= written && (ended ==> output == written)
  {
    written := c.written;
    var t := new R.SocketTable();
    R.OpenOne(t, 0, c.local, written);
    output, ended := [], false;
    for i := 0 to |deliveries|
      invariant fresh(t) && fresh(t.slots) && fresh(t.reassembly) && t.Valid()
      invariant R.Connected(t.slots[0], t.peers[0], c.local, written, output, ended)
    {
      match deliveries[i] {
        case Arrival(index) =>
          if index < |c.log| {
            var l := c.log[index];
            assert Genuine(c, l);
            var position := |output| + |t.slots[0].buffer|;
            if |l.frame.payload| < HALF && -HALF <= l.offset - position < HALF {
              R.DeliverSlice(t, 0, c.local, written, l.offset, |l.frame.payload|, l.frame.finish, output, ended);
            }
          }
        case ReadSome(size) =>
          output, ended := R.ReadSlice(t, 0, c.local, written, size, output, ended);
      }
    }
  }
}
