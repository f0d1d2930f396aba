/**
 The sockets of one machine. The source keeps one record a socket; its receive
 half and its send half are two machines here, and every operation of the
 network stack moves both. Both copies of the state, of the closed flag and of
 the failure agree after every operation.
 */
module TcpHost {
  import opened Machine
  import opened SequenceNumbers
  import opened Sockets
  import opened SegmentQueues
  import opened TcpSend
  import opened TcpStack
  import R = TcpReceive

  // Both halves of every socket, with the streams behind them.
  datatype Halves = Halves(slots: seq<R.Slot>, peers: seq<R.Peer>, sockets: seq<Socket>, flows: seq<Flow>)

  // A connection that exchanges data, or is about to.
  predicate Attached(state: SocketState) {
    Live(state) || state == SynReceived
  }

  ghost predicate Sized(v: Halves) {
    |v.slots| == |v.peers| == |v.sockets| == |v.flows| == SOCKET_CAPACITY
  }

  // The two halves of a socket agree, and nothing is written on a connection
  // that no application has yet.
  ghost predicate Agrees(v: Halves, h: nat)
    requires Sized(v) && h < SOCKET_CAPACITY
  {
    && v.slots[h].state == v.sockets[h].state && v.slots[h].receiveClosed == v.sockets[h].receiveClosed
    && v.slots[h].failure == v.sockets[h].failure
    && (Attached(v.sockets[h].state) && !v.sockets[h].accepted ==> v.flows[h].written == [])
  }

  ghost predicate AllAgree(v: Halves) {
    Sized(v) && forall h :: 0 <= h < SOCKET_CAPACITY ==> Agrees(v, h)
  }

  // Only socket h differs.
  ghost predicate Elsewhere(v: Halves, v': Halves, h: nat) {
    && Sized(v) && Sized(v') && forall k :: 0 <= k < SOCKET_CAPACITY && k != h ==> SameAt(v, v', k)
  }

  ghost predicate SameAt(v: Halves, v': Halves, k: nat)
    requires Sized(v) && Sized(v') && k < SOCKET_CAPACITY
  {
    v'.slots[k] == v.slots[k] && v'.peers[k] == v.peers[k] && v'.sockets[k] == v.sockets[k] && v'.flows[k] == v.flows[k]
  }

  lemma {:induction false} AgreeAfter(v: Halves, v': Halves, h: nat)
    requires AllAgree(v) && Elsewhere(v, v', h) && (h < SOCKET_CAPACITY ==> Agrees(v', h))
    ensures AllAgree(v')
  {
    forall k | 0 <= k < SOCKET_CAPACITY ensures Agrees(v', k) {
      if k != h {
        assert SameAt(v, v', k) && Agrees(v, k);
      }
    }
  }

  lemma {:induction false} ElsewhereThen(v: Halves, v1: Halves, v2: Halves, h: nat)
    requires Elsewhere(v, v1, h) && Elsewhere(v1, v2, h)
    ensures Elsewhere(v, v2, h)
  {
    forall k | 0 <= k < SOCKET_CAPACITY && k != h ensures SameAt(v, v2, k) {
      assert SameAt(v, v1, k) && SameAt(v1, v2, k);
    }
  }

  class Host {
    const table: R.SocketTable
    const stack: Stack

    ghost function View(): Halves
      reads table, table.slots, stack, stack.sockets
    {
      Halves(table.slots[..], table.peers, stack.sockets[..], stack.flows)
    }

    // Each half is consistent for itself. Both are behind a quantifier so that a
    // proof unfolds them only by naming Half.
    ghost predicate Halved()
      reads table, table.slots, table.reassembly, stack, stack.sockets, stack.transmissions
    {
      table.reassembly != stack.transmissions && forall receiving :: Half(receiving)
    }

    ghost predicate Half(receiving: bool)
      reads table, table.slots, table.reassembly, stack, stack.sockets, stack.transmissions
    {
      if receiving then table.Valid() else stack.Valid()
    }

    ghost predicate Valid()
      reads table, table.slots, table.reassembly, stack, stack.sockets, stack.transmissions
    {
      Halved() && AllAgree(View())
    }

    constructor ()
      ensures Valid() && fresh(table) && fresh(table.slots) && fresh(table.reassembly)
      ensures fresh(stack) && fresh(stack.sockets) && fresh(stack.transmissions)
      ensures forall h :: 0 <= h < SOCKET_CAPACITY ==> stack.sockets[h] == FREE_SOCKET
    {
      table := new R.SocketTable();
      stack := new Stack();
      new;
      assert Half(true) && Half(false);
      forall h | 0 <= h < SOCKET_CAPACITY ensures Agrees(View(), h) {
        assert stack.sockets[h] == FREE_SOCKET && table.slots[h] == R.FREE_SLOT;
      }
    }

    // A live connection is in step with its peer's stream and with what was
    // written.
    lemma Held(h: nat)
      requires Valid() && h < SOCKET_CAPACITY && Live(stack.sockets[h].state)
      ensures R.InStep(table.slots[h], table.peers[h]) && 0 <= stack.flows[h].una
    {
      assert Half(true) && Half(false) && Agrees(View(), h);
      stack.Here(h);
    }

    lemma Agreeing(h: nat)
      requires Valid() && h < SOCKET_CAPACITY
      ensures StateAgrees(stack.sockets[h])
    {
      assert Half(false);
      stack.Here(h);
    }

    lemma Holding(h: nat)
      requires Valid() && h < SOCKET_CAPACITY && Attached(stack.sockets[h].state)
      ensures R.InStep(table.slots[h], table.peers[h]) && table.slots[h].state == stack.sockets[h].state
    {
      assert Half(true) && Agrees(View(), h);
      assert R.SlotMatches(table.slots[..][h], table.peers[h]);
    }

    // ---- Opening ----

    method FindFree() returns (h: nat)
      requires Valid()
      ensures h <= SOCKET_CAPACITY && (h < SOCKET_CAPACITY ==> stack.sockets[h].state == Free)
      ensures forall k :: 0 <= k < h ==> stack.sockets[k].state != Free
    {
      h := 0;
      while h < SOCKET_CAPACITY && stack.sockets[h].state != Free
        invariant h <= SOCKET_CAPACITY && forall k :: 0 <= k < h ==> stack.sockets[k].state != Free
      {
        h := h + 1;
      }
    }

    method Listen(backlog: nat) returns (h: nat)
      requires Valid()
      modifies table.slots, stack.sockets
      ensures Valid() && Elsewhere(old(View()), View(), h) && h <= SOCKET_CAPACITY
      ensures h == SOCKET_CAPACITY <==> forall k :: 0 <= k < SOCKET_CAPACITY ==> old(stack.sockets[k]).state != Free
      ensures h < SOCKET_CAPACITY ==> stack.sockets[h] == FREE_SOCKET.(state := Listening, backlog := backlog)
    {
      ghost var v := View();
      h := FindFree();
      if h < SOCKET_CAPACITY {
        assert Agrees(v, h) && Half(true) && Half(false);
        table.Listen(h);
        stack.Listen(h, backlog);
        assert Half(true) && Half(false);
        AgreeAfter(v, View(), h);
      }
    }

    // A SYN for a listening socket with room in its backlog.
    method Syn(listener: nat, remoteSequence: u32, localSequence: u32, peerWindow: u32, peerMss: nat,
               ghost stream: seq<u8>)
      returns (result: SocketResult, h: nat)
      requires Valid() && 0 < peerMss <= SEGMENT_CAPACITY
      modifies table, table.slots, stack, stack.sockets
      ensures Valid() && Elsewhere(old(View()), View(), h) && h <= SOCKET_CAPACITY
      ensures result == NotListening <==> listener >= SOCKET_CAPACITY || old(stack.sockets[listener]).state != Listening
      ensures result == NoSpace <==>
                result != NotListening && (PendingOn(old(stack.sockets[..]),
                                                     listener) >= old(stack.sockets[listener]).backlog
                                           || forall k :: 0 <= k < SOCKET_CAPACITY ==>
                                                old(stack.sockets[k]).state != Free)
      ensures result == NotListening || result == NoSpace || result == Success
      ensures result != Success ==> View() == old(View())
      ensures result == Success ==> h < SOCKET_CAPACITY
                                    && Begun(old(View()), View(), h, remoteSequence, localSequence, stream)
    {
      ghost var v := View();
      if listener >= SOCKET_CAPACITY || stack.sockets[listener].state != Listening {
        return NotListening, SOCKET_CAPACITY;
      }
      var pending := CountPending(listener);
      if pending >= stack.sockets[listener].backlog {
        return NoSpace, SOCKET_CAPACITY;
      }
      h := FindFree();
      if h == SOCKET_CAPACITY {
        return NoSpace, h;
      }
      assert Agrees(v, h);
      Begin(h, listener, remoteSequence, localSequence, peerWindow, peerMss, stream);
      AgreeAfter(v, View(), h);
      result := Success;
    }

    method Begin(h: nat, listener: nat, remoteSequence: u32, localSequence: u32, peerWindow: u32, peerMss: nat,
                 ghost stream: seq<u8>)
      requires Valid() && 0 < peerMss <= SEGMENT_CAPACITY && h < SOCKET_CAPACITY && stack.sockets[h].state == Free
      requires forall k :: 0 <= k < h ==> stack.sockets[k].state != Free
      modifies table, table.slots, stack, stack.sockets
      ensures Halved() && Elsewhere(old(View()), View(), h) && Agrees(View(), h)
      ensures Begun(old(View()), View(), h, remoteSequence, localSequence, stream)
    {
      ghost var v := View();
      assert Half(true) && Half(false);
      forall k | 0 <= k < SOCKET_CAPACITY ensures table.slots[k].state == stack.sockets[k].state {
        assert Agrees(v, k);
      }
      var slot := table.BeginConnection(remoteSequence, stream);
      assert slot == h;
      stack.BeginConnection(h, listener, localSequence, peerWindow, peerMss);
      assert Half(true) && Half(false);
    }

    // pending(): connections of a listener that were not accepted yet.
    method CountPending(listener: nat) returns (n: nat)
      requires Valid()
      ensures n == PendingOn(stack.sockets[..], listener)
    {
      n := 0;
      for k := 0 to SOCKET_CAPACITY
        invariant n == PendingOn(stack.sockets[..k], listener)
      {
        assert stack.sockets[..k + 1][..k] == stack.sockets[..k];
        if stack.sockets[k].listener == listener && !stack.sockets[k].accepted {
          n := n + 1;
        }
      }
      assert stack.sockets[..SOCKET_CAPACITY] == stack.sockets[..];
    }

    // The acknowledgement that completes the handshake.
    method Establish(h: nat, ack: u32) returns (result: SocketResult)
      requires Valid() && h < SOCKET_CAPACITY && stack.sockets[h].state == SynReceived
      modifies table.slots, stack, stack.sockets
      ensures Valid() && Elsewhere(old(View()), View(), h)
      ensures result == (if ack == old(stack.sockets[h]).sendNext then Success else InvalidArgument)
      ensures result != Success ==> View() == old(View())
      ensures result == Success ==>
                && stack.sockets[h] == old(stack.sockets[h]).(state := Established, sendUnacked := ack)
                && stack.flows[h] == old(stack.flows[h]).(una := 0)
                && table.slots[h] == old(table.slots[h]).(state := Established) && table.peers[h] == old(table.peers[h])
    {
      ghost var v := View();
      assert Agrees(v, h) && Half(true) && Half(false);
      result := stack.Establish(h, ack);
      if result == Success {
        var mirrored := table.Establish(h, true);
      }
      assert Half(true) && Half(false);
      if result == Success {
        AgreeAfter(v, View(), h);
      }
    }

    // accept(): the first connection of the listener that is ready.
    method Accept(listener: nat) returns (result: SocketResult, h: nat)
      requires Valid()
      modifies stack.sockets
      ensures Valid() && Elsewhere(old(View()), View(), h) && h <= SOCKET_CAPACITY
      ensures result == BadHandle <==> listener >= SOCKET_CAPACITY || old(stack.sockets[listener]).state == Free
      ensures result == NotListening <==> result != BadHandle && old(stack.sockets[listener]).state != Listening
      ensures result == WouldBlock <==>
                && result != BadHandle && result != NotListening
                && forall k :: 0 <= k < SOCKET_CAPACITY ==> !Ready(old(stack.sockets[k]), listener)
      ensures result == Success ==>
                && h < SOCKET_CAPACITY && Ready(old(stack.sockets[h]), listener)
                && (forall k :: 0 <= k < h ==> !Ready(old(stack.sockets[k]), listener))
                && stack.sockets[h] == old(stack.sockets[h]).(accepted := true)
      ensures result != Success ==> View() == old(View())
    {
      ghost var v := View();
      h := SOCKET_CAPACITY;
      if listener >= SOCKET_CAPACITY || stack.sockets[listener].state == Free {
        return BadHandle, h;
      }
      if stack.sockets[listener].state != Listening {
        return NotListening, h;
      }
      h := 0;
      while h < SOCKET_CAPACITY && !Ready(stack.sockets[h], listener)
        invariant h <= SOCKET_CAPACITY && forall k :: 0 <= k < h ==> !Ready(stack.sockets[k], listener)
      {
        h := h + 1;
      }
      if h == SOCKET_CAPACITY {
        return WouldBlock, h;
      }
      assert Agrees(v, h) && Half(true) && Half(false);
      stack.MarkAccepted(h);
      assert Half(true) && Half(false);
      AgreeAfter(v, View(), h);
      result := Success;
    }

    // ---- Segments ----

    // handle_tcp's window test.
    function Acceptable(h: nat, sequence: u32, length: nat): bool
      requires Valid() && h < SOCKET_CAPACITY
      reads table, table.slots, table.reassembly, stack, stack.sockets, stack.transmissions
    {
      var distance := Signed(sequence, table.slots[h].receiveNext);
      var space := R.RECEIVE_CAPACITY - |table.slots[h].buffer|;
      if length == 0 then distance == 0 || 0 < distance < space
      else space != 0 && distance < space && distance + length > 0
    }

    // The acknowledgement of a segment: the queue shrinks, and our FIN may be
    // through.
    method TakeAck(h: nat, ack: u32, window: Option<u32>) returns (freed: bool, moved: nat)
      requires Valid() && h < SOCKET_CAPACITY
      requires Synchronized(stack.sockets[h].state) && stack.sockets[h].state != TimeWait
      requires Signed(ack, stack.sockets[h].sendNext) <= 0
      modifies table.slots, table.reassembly, stack, stack.sockets, stack.transmissions
      ensures Valid() && AckTaken(old(View()), View(), h, freed, moved)
    {
      ghost var v := View();
      assert Agrees(v, h) && Half(true) && Half(false);
      freed, moved := stack.TakeAck(h, ack, window);
      if freed {
        table.Release(h);
      } else {
        table.SetState(h, stack.sockets[h].state);
      }
      assert Half(true) && Half(false);
      AgreeAfter(v, View(), h);
    }

    // The payload of a segment, and the FIN behind it once it is in order.
    method TakeData(h: nat, sequence: u32, data: seq<u8>, finish: bool, ghost o: int) returns (total: nat)
      requires Valid() && h < SOCKET_CAPACITY && Synchronized(stack.sockets[h].state)
      requires R.Deliverable(table.slots[h], table.peers[h], o, sequence, data, finish)
      modifies table, table.slots, table.reassembly, stack.sockets
      ensures Valid() && DataTaken(old(View()), View(), h, total)
    {
      ghost var v := View();
      assert Agrees(v, h);
      var closed := table.slots[h].receiveClosed;
      total := Receive(h, sequence, data, finish, o);
      ghost var v1 := View();
      if !closed && table.slots[h].receiveClosed {
        MirrorFin(h);
      }
      FinMirrored(v, v1, View(), h, total);
    }

    // The receive half of a segment.
    method Receive(h: nat, sequence: u32, data: seq<u8>, finish: bool, ghost o: int) returns (total: nat)
      requires Halved() && Sized(View()) && h < SOCKET_CAPACITY && Synchronized(table.slots[h].state)
      requires R.Deliverable(table.slots[h], table.peers[h], o, sequence, data, finish)
      modifies table, table.slots, table.reassembly
      ensures Halved() && HalfTaken(old(View()), View(), h, total)
    {
      assert Half(true) && Half(false);
      total := table.Take(h, sequence, data, finish, o);
      assert Half(true) && Half(false);
    }

    // receive() consumed the peer's FIN in the receive half; the send half
    // follows, and both enter TIME-WAIT when our FIN was acknowledged before.
    method MirrorFin(h: nat)
      requires Halved() && Sized(View()) && h < SOCKET_CAPACITY
      requires Synchronized(stack.sockets[h].state) && !stack.sockets[h].receiveClosed
      requires table.slots[h].receiveClosed && table.slots[h].state == R.AfterFinish(stack.sockets[h].state)
      modifies table.slots, stack.sockets
      ensures Halved() && Mirrored(old(View()), View(), h)
    {
      assert Half(true) && Half(false);
      stack.PeerFinished(h);
      table.SetState(h, stack.sockets[h].state);
      assert Half(true) && Half(false);
    }

    // A FIN that waited for the last acknowledgement, or is sent again.
    method SendFin(h: nat, accept: bool) returns (frames: seq<Frame>)
      requires Valid() && h < SOCKET_CAPACITY && Synchronized(stack.sockets[h].state) && stack.sockets[h].sendClosed
      modifies stack.sockets
      ensures Valid() && FinSent(old(View()), View(), h, accept, frames)
    {
      ghost var v := View();
      assert Agrees(v, h) && Half(true) && Half(false);
      frames := stack.FlushFin(h, accept);
      assert Half(true) && Half(false);
      AgreeAfter(v, View(), h);
    }

    // An acceptable segment on a synchronized connection. `window` is the new
    // peer window when the segment is allowed to update it, `accept` is the
    // driver's answer should a FIN be sent.
    method Segment(h: nat, sequence: u32, data: seq<u8>, finish: bool, ack: u32, window: Option<u32>, accept: bool,
                   ghost o: int)
      returns (frames: seq<Frame>, moved: nat, total: nat)
      requires Valid() && h < SOCKET_CAPACITY
      requires Synchronized(stack.sockets[h].state) && stack.sockets[h].state != TimeWait
      requires R.Deliverable(table.slots[h], table.peers[h], o, sequence, data, finish)
      modifies table, table.slots, table.reassembly, stack, stack.sockets, stack.transmissions
      ensures Valid() && SegmentTaken(old(View()), View(), h, frames, moved, total)
    {
      frames, moved, total := [], 0, 0;
      ghost var v := View();
      if !Acceptable(h, sequence, |data| + if finish then 1 else 0) || Signed(ack, stack.sockets[h].sendNext) > 0 {
        NothingTaken(v, h);
        return;
      }
      var freed;
      freed, moved := TakeAck(h, ack, window);
      ghost var v1 := View();
      if !freed {
        frames, total := TakeRest(h, sequence, data, finish, accept, o);
      }
      AckThenRest(v, v1, View(), h, freed, moved, frames, total);
    }

    // The part of a segment behind its acknowledgement.
    method TakeRest(h: nat, sequence: u32, data: seq<u8>, finish: bool, accept: bool, ghost o: int)
      returns (frames: seq<Frame>, total: nat)
      requires Valid() && h < SOCKET_CAPACITY && Synchronized(stack.sockets[h].state)
      requires R.Deliverable(table.slots[h], table.peers[h], o, sequence, data, finish)
      modifies table, table.slots, table.reassembly, stack.sockets
      ensures Valid() && RestTaken(old(View()), View(), h, frames, total)
    {
      ghost var v := View();
      frames, total := [], 0;
      if data != [] || finish {
        total := TakeData(h, sequence, data, finish, o);
      }
      ghost var v1 := View();
      if stack.sockets[h].sendClosed && !stack.sockets[h].finSent {
        frames := SendFin(h, accept);
      }
      DataThenFin(v, v1, View(), h, total, accept, frames);
    }

    // ---- The application ----

    // socket_write, by the owner of an accepted connection.
    method Write(h: nat, input: seq<u8>, congestion: u32, driver: seq<bool>)
      returns (result: SocketResult, count: nat, frames: seq<Frame>, starts: seq<nat>)
      requires Valid() && h < SOCKET_CAPACITY && (Attached(stack.sockets[h].state) ==> stack.sockets[h].accepted)
      modifies stack, stack.sockets, stack.transmissions
      ensures Valid() && count <= |input| && DataWritten(old(View()), View(), h, input[..count], frames, starts)
    {
      ghost var v := View();
      assert Agrees(v, h) && Half(true) && Half(false);
      result, count, frames, starts := stack.Write(h, input, congestion, driver);
      assert Half(true) && Half(false);
      assert v.flows[h].written + [] == v.flows[h].written;
      AgreeAfter(v, View(), h);
    }

    // socket_read.
    method Read(h: nat, size: nat) returns (result: SocketResult, output: seq<u8>)
      requires Valid() && h < SOCKET_CAPACITY
      modifies table, table.slots, table.reassembly
      ensures Valid() && DataRead(old(View()), View(), h, size, result, output)
    {
      ghost var v := View();
      assert Agrees(v, h) && Half(true) && Half(false);
      result, output := table.Read(h, size);
      assert Half(true) && Half(false);
      AgreeAfter(v, View(), h);
    }

    // socket_shutdown(how != 1).
    method ShutdownRead(h: nat)
      requires Valid() && h < SOCKET_CAPACITY && Synchronized(stack.sockets[h].state)
      modifies table, table.slots
      ensures Valid() && ReadClosed(old(View()), View(), h)
    {
      ghost var v := View();
      assert Agrees(v, h) && Half(true) && Half(false);
      var result := table.ShutdownRead(h);
      assert Half(true) && Half(false);
      AgreeAfter(v, View(), h);
    }

    // socket_shutdown(how != 0).
    method ShutdownWrite(h: nat, accept: bool) returns (frames: seq<Frame>)
      requires Valid() && h < SOCKET_CAPACITY && Synchronized(stack.sockets[h].state)
      modifies table.slots, stack.sockets
      ensures Valid() && WriteClosed(old(View()), View(), h, false, accept, frames)
    {
      ghost var v := View();
      assert Agrees(v, h) && Half(true) && Half(false);
      frames := stack.FinishSending(h, false, accept);
      table.SetState(h, stack.sockets[h].state);
      assert Half(true) && Half(false);
      AgreeAfter(v, View(), h);
    }

    // socket_close by the last owner of anything but a listener.
    method Close(h: nat, accept: bool) returns (frames: seq<Frame>)
      requires Valid() && h < SOCKET_CAPACITY && stack.sockets[h].state != Listening
      modifies table.slots, table.reassembly, stack.sockets, stack.transmissions
      ensures Valid() && Elsewhere(old(View()), View(), h) && stack.flows == old(stack.flows)
              && table.peers == old(table.peers)
      ensures stack.sockets[h].state == Free <==>
                var s := old(stack.sockets[h]); !Synchronized(s.state)
                                                || (s.finAcked && s.receiveClosed && s.state != TimeWait)
      ensures old(stack.sockets[h]).state != Free ==>
                if stack.sockets[h].state == Free then frames == []
                   else WriteClosed(old(View()), View(), h, true, accept, frames)
    {
      ghost var v := View();
      assert Agrees(v, h) && Half(true) && Half(false);
      var result;
      result, frames := stack.Close(h, accept);
      if result == Success {
        Follow(h);
        HalvesClosed(v, View(), h);
      }
    }

    // The receive half takes over what became of the send half.
    method Follow(h: nat)
      requires Halved() && Sized(View()) && h < SOCKET_CAPACITY
      requires var state := stack.sockets[h].state;
               state != Free ==>
                 && Synchronized(table.slots[h].state)
                 && (Synchronized(state) || (state == Closed && table.slots[h].receiveClosed))
      modifies table.slots, table.reassembly
      ensures Halved() && View() == old(View()).(slots := Followed(old(View()), h))
    {
      assert Half(true) && Half(false);
      if stack.sockets[h].state == Free {
        table.Release(h);
      } else {
        table.SetState(h, stack.sockets[h].state);
      }
      assert Half(true) && Half(false);
    }

    // socket_close of a listener: connections nobody accepted go with it. None
    // of them has anything queued.
    method CloseListener(h: nat)
      requires Valid() && h < SOCKET_CAPACITY && stack.sockets[h].state == Listening
      modifies table.slots, table.reassembly, stack.sockets
      ensures Valid() && ListenerClosed(old(View()), View(), h, SOCKET_CAPACITY) && stack.sockets[h].state == Free
    {
      ghost var v := View();
      for k := 0 to SOCKET_CAPACITY
        invariant Valid() && ListenerClosed(v, View(), h, k)
      {
        ghost var v1 := View();
        assert ClosedAt(v, v1, h, k, k);
        if k == h || (stack.sockets[k].listener == h && !stack.sockets[k].accepted) {
          FreeSocket(k);
        }
        ClosedNext(v, v1, View(), h, k, k + 1);
      }
      assert ClosedAt(v, View(), h, SOCKET_CAPACITY, h);
    }

    // Frees a socket for which nothing is queued.
    method FreeSocket(h: nat)
      requires Valid() && h < SOCKET_CAPACITY && (Attached(stack.sockets[h].state) ==> !stack.sockets[h].accepted)
      modifies table.slots, table.reassembly, stack.sockets
      ensures Valid() && Elsewhere(old(View()), View(), h) && stack.sockets[h] == FREE_SOCKET
    {
      ghost var v := View();
      assert Agrees(v, h) && Half(true) && Half(false);
      stack.Here(h);
      if Live(stack.sockets[h].state) {
        NothingQueued(stack.transmissions[..], stack.at, h, stack.flows[h]);
      }
      stack.Release(h);
      table.Release(h);
      assert Half(true) && Half(false);
      AgreeAfter(v, View(), h);
    }

    // ---- Timers and resets ----

    method Retransmit(due: seq<bool>, accept: bool) returns (sent: Option<nat>, frames: seq<Frame>)
      requires Valid() && |due| == TRANSMIT_CAPACITY
      modifies stack
      ensures Valid() && View() == old(View())
      ensures sent.Some? ==>
                && sent.value < SOCKET_CAPACITY && Live(stack.sockets[sent.value].state)
                && 0 <= stack.flows[sent.value].una
                && DataFrames(frames, stack.flows[sent.value].una, if accept then [0] else [], stack.flows[sent.value])
    {
      assert Half(true) && Half(false);
      sent, frames := stack.FlushRetransmission(due, accept);
      assert Half(true) && Half(false);
    }

    // TIME-WAIT ends.
    method Expire(h: nat)
      requires Valid() && h < SOCKET_CAPACITY && stack.sockets[h].state == TimeWait
      modifies table.slots, table.reassembly, stack.sockets
      ensures Valid() && Elsewhere(old(View()), View(), h)
      ensures stack.flows == old(stack.flows) && table.peers == old(table.peers)
      ensures if old(stack.sockets[h]).detached then stack.sockets[h] == FREE_SOCKET
              else
                && stack.sockets[h] == old(stack.sockets[h]).(state := Closed)
                && table.slots[h] == old(table.slots[h]).(state := Closed)
    {
      ghost var v := View();
      assert Agrees(v, h) && Half(true) && Half(false);
      stack.Here(h);
      stack.ExpireTimeWait(h);
      if stack.sockets[h].state == Free {
        table.Release(h);
      } else {
        table.SetState(h, Closed);
      }
      assert Half(true) && Half(false);
      AgreeAfter(v, View(), h);
    }

    // A reset by the peer, or a timer that gives up.
    method Abort(h: nat, failure: SocketResult)
      requires Valid() && h < SOCKET_CAPACITY
      requires Synchronized(stack.sockets[h].state) || stack.sockets[h].state == SynReceived
      modifies table.slots, table.reassembly, stack.sockets, stack.transmissions
      ensures Valid() && Elsewhere(old(View()), View(), h)
      ensures stack.sockets[h] == Aborted(old(stack.sockets[h]), failure)
    {
      ghost var v := View();
      assert Agrees(v, h) && Half(true) && Half(false);
      stack.Abort(h, failure);
      if stack.sockets[h].state == Free {
        table.Release(h);
      } else {
        table.ResetConnection(h, failure);
      }
      assert Half(true) && Half(false);
      AgreeAfter(v, View(), h);
    }
  }

  // ---- What the application's calls do ----

  ghost predicate DataWritten(v: Halves, v': Halves, h: nat, bytes: seq<u8>, frames: seq<Frame>, starts: seq<nat>) {
    && Elsewhere(v, v', h) && h < SOCKET_CAPACITY && v'.slots == v.slots && v'.peers == v.peers
    && v'.flows[h] == v.flows[h].(written := v.flows[h].written + bytes)
    && v'.sockets[h] == v.sockets[h].(sendNext := v'.sockets[h].sendNext)
    && DataFrames(frames, |v.flows[h].written|, starts, v'.flows[h])
    && (bytes != [] ==> Writable(v.sockets[h])) && (bytes == [] ==> frames == [])
  }

  ghost predicate DataRead(v: Halves, v': Halves, h: nat, size: nat, result: SocketResult, output: seq<u8>) {
    && Elsewhere(v, v', h) && h < SOCKET_CAPACITY && v'.sockets == v.sockets && v'.flows == v.flows
    && output <= v.slots[h].buffer
    && v'.slots[h] == v.slots[h].(buffer := v.slots[h].buffer[|output|..])
    && v'.peers[h] == v.peers[h].(taken := v.peers[h].taken + |output|)
    && if v.slots[h].state == Free then result == BadHandle
       && output == [] else R.ReadOutcome(v.slots[h], size, result, output)
  }

  ghost predicate ReadClosed(v: Halves, v': Halves, h: nat) {
    && Elsewhere(v, v', h) && h < SOCKET_CAPACITY && v'.sockets == v.sockets && v'.flows == v.flows
    && v'.slots[h] == v.slots[h].(readClosed := true, buffer := [])
    && v'.peers[h] == v.peers[h].(taken := R.Position(v.slots[h], v.peers[h]))
  }

  ghost function Followed(v: Halves, h: nat): seq<R.Slot>
    requires Sized(v) && h < SOCKET_CAPACITY
  {
    var state := v.sockets[h].state;
    v.slots[h := if state == Free then R.FREE_SLOT else v.slots[h].(state := state)]
  }

  lemma {:induction false} HalvesClosed(v: Halves, v': Halves, h: nat)
    requires AllAgree(v) && Sized(v') && h < SOCKET_CAPACITY && v'.peers == v.peers && v'.flows == v.flows
    requires v'.sockets == v.sockets[h := v'.sockets[h]] && v'.slots == Followed(v.(sockets := v'.sockets), h)
    requires v'.sockets[h] == FREE_SOCKET || (Synchronized(v.sockets[h].state)
                                              && Finished(v.sockets[h], v'.sockets[h], true))
    requires v'.sockets[h].state != Free || v'.sockets[h] == FREE_SOCKET
    ensures AllAgree(v') && Elsewhere(v, v', h)
  {
    assert Agrees(v, h);
    AgreeAfter(v, v', h);
  }

  ghost predicate WriteClosed(v: Halves, v': Halves, h: nat, detach: bool, accept: bool, frames: seq<Frame>) {
    && Elsewhere(v, v', h) && h < SOCKET_CAPACITY && v'.flows == v.flows && v'.peers == v.peers
    && Finished(v.sockets[h], v'.sockets[h], detach) && v'.slots[h] == v.slots[h].(state := v'.sockets[h].state)
    && frames == FirstFin(v.sockets[h], accept, v.flows[h])
  }

  // The sockets below n that go with listener h are free, the others are as
  // they were.
  ghost predicate ListenerClosed(v: Halves, v': Halves, h: nat, n: nat) {
    Sized(v) && Sized(v') && forall k :: 0 <= k < SOCKET_CAPACITY ==> ClosedAt(v, v', h, n, k)
  }

  ghost predicate ClosedAt(v: Halves, v': Halves, h: nat, n: nat, k: nat)
    requires Sized(v) && Sized(v') && k < SOCKET_CAPACITY
  {
    if k < n && (k == h || (v.sockets[k].listener == h && !v.sockets[k].accepted)) then v'.sockets[k] == FREE_SOCKET
    else SameAt(v, v', k)
  }

  lemma {:induction false} ClosedNext(v: Halves, v1: Halves, v2: Halves, h: nat, n: nat, n': nat)
    requires ListenerClosed(v, v1, h, n) && n < SOCKET_CAPACITY && n' == n + 1
    requires if n == h || (v1.sockets[n].listener == h && !v1.sockets[n].accepted)
             then Elsewhere(v1, v2, n) && v2.sockets[n] == FREE_SOCKET else v2 == v1
    ensures ListenerClosed(v, v2, h, n')
  {
    forall k | 0 <= k < SOCKET_CAPACITY ensures ClosedAt(v, v2, h, n', k) {
      assert ClosedAt(v, v1, h, n, k) && ClosedAt(v, v1, h, n, n);
      if v2 != v1 && k != n {
        assert SameAt(v1, v2, k);
      }
    }
  }

  // ---- What the parts of a segment do ----

  ghost predicate AckTaken(v: Halves, v': Halves, h: nat, freed: bool, moved: nat) {
    && Elsewhere(v, v', h) && h < SOCKET_CAPACITY
    && v'.flows[h] == v.flows[h].(una := v'.flows[h].una)
    && if freed then v'.sockets[h] == FREE_SOCKET
       else
         && v'.flows[h].una == v.flows[h].una + moved && Acknowledged(v.sockets[h], v'.sockets[h])
         && v'.slots[h] == v.slots[h].(state := v'.sockets[h].state) && v'.peers[h] == v.peers[h]
  }

  ghost predicate HalfTaken(v: Halves, v': Halves, h: nat, total: nat) {
    && Elsewhere(v, v', h) && h < SOCKET_CAPACITY && v'.flows == v.flows && v'.sockets == v.sockets
    && R.OnlyClosed(v.slots[h], v'.slots[h]) && R.Took(v.slots[h], v.peers[h], v'.slots[h], v'.peers[h], total)
  }

  ghost predicate Mirrored(v: Halves, v': Halves, h: nat) {
    && Elsewhere(v, v', h) && h < SOCKET_CAPACITY && v'.flows == v.flows && v'.peers == v.peers
    && v'.sockets[h] == AfterPeerFin(v.sockets[h]) && Received(v.sockets[h], v'.sockets[h])
    && v'.slots[h] == v.slots[h].(state := v'.sockets[h].state)
  }

  ghost predicate DataTaken(v: Halves, v': Halves, h: nat, total: nat) {
    && Elsewhere(v, v', h) && h < SOCKET_CAPACITY && v'.flows[h] == v.flows[h]
    && Received(v.sockets[h], v'.sockets[h]) && v'.slots[h].readClosed == v.slots[h].readClosed
    && R.Took(v.slots[h], v.peers[h], v'.slots[h], v'.peers[h], total)
  }

  ghost predicate FinSent(v: Halves, v': Halves, h: nat, accept: bool, frames: seq<Frame>) {
    && Elsewhere(v, v', h) && h < SOCKET_CAPACITY && v'.flows[h] == v.flows[h] && v'.slots[h] == v.slots[h]
       && v'.peers[h] == v.peers[h]
    && v'.sockets[h] == v.sockets[h].(sendNext := v'.sockets[h].sendNext, finSent := v'.sockets[h].finSent)
    && frames == (if accept && FinDue(v.sockets[h], v.flows[h]) then [FinFrame(v.flows[h])] else [])
    && (frames != [] ==> |v.flows[h].written| <= v.flows[h].una && v.sockets[h].sendClosed)
  }

  ghost predicate RestTaken(v: Halves, v': Halves, h: nat, frames: seq<Frame>, total: nat) {
    && Elsewhere(v, v', h) && h < SOCKET_CAPACITY && v'.flows[h] == v.flows[h]
    && Moved(v.sockets[h], v'.sockets[h]) && v'.slots[h].readClosed == v.slots[h].readClosed
    && R.Took(v.slots[h], v.peers[h], v'.slots[h], v'.peers[h], total)
    && FirstFinOnly(v'.sockets[h], v'.flows[h], frames)
  }

  // At most a FIN was sent, and only with every written byte acknowledged.
  ghost predicate FirstFinOnly(s: Socket, f: Flow, frames: seq<Frame>) {
    frames == [] || (frames == [FinFrame(f)] && s.sendClosed && |f.written| <= f.una)
  }

  ghost predicate SegmentTaken(v: Halves, v': Halves, h: nat, frames: seq<Frame>, moved: nat, total: nat) {
    && Elsewhere(v, v', h) && h < SOCKET_CAPACITY
    && v'.flows[h] == v.flows[h].(una := v'.flows[h].una)
    && if v'.sockets[h] == FREE_SOCKET then frames == []
       else
         && v'.flows[h].una == v.flows[h].una + moved && Advanced(v.sockets[h], v'.sockets[h])
         && v'.slots[h].readClosed == v.slots[h].readClosed
         && R.Took(v.slots[h], v.peers[h], v'.slots[h], v'.peers[h], total)
         && FirstFinOnly(v'.sockets[h], v'.flows[h], frames)
  }

  lemma {:induction false} NothingTaken(v: Halves, h: nat)
    requires Sized(v) && h < SOCKET_CAPACITY && Synchronized(v.sockets[h].state)
    ensures SegmentTaken(v, v, h, [], 0, 0)
  {
  }

  lemma {:induction false} FinMirrored(v: Halves, v1: Halves, v2: Halves, h: nat, total: nat)
    requires AllAgree(v) && HalfTaken(v, v1, h, total) && Synchronized(v.sockets[h].state)
    requires if !v.slots[h].receiveClosed && v1.slots[h].receiveClosed then Mirrored(v1, v2, h) else v2 == v1
    ensures DataTaken(v, v2, h, total) && AllAgree(v2)
  {
    assert Agrees(v, h);
    ElsewhereThen(v, v1, v2, h);
    AgreeAfter(v, v2, h);
  }

  lemma {:induction false} DataThenFin(v: Halves, v1: Halves, v2: Halves, h: nat, total: nat, accept: bool,
                                       frames: seq<Frame>)
    requires Sized(v) && h < SOCKET_CAPACITY && Synchronized(v.sockets[h].state)
    requires DataTaken(v, v1, h, total) || (v1 == v && total == 0)
    requires FinSent(v1, v2, h, accept, frames) || (v2 == v1 && frames == [])
    ensures RestTaken(v, v2, h, frames, total)
  {
    if v1 != v && v2 != v1 {
      ElsewhereThen(v, v1, v2, h);
    }
  }

  lemma {:induction false} AckThenRest(v: Halves, v1: Halves, v2: Halves, h: nat, freed: bool, moved: nat,
                                       frames: seq<Frame>, total: nat)
    requires AckTaken(v, v1, h, freed, moved)
             && (if freed then v2 == v1 && frames == [] else RestTaken(v1, v2, h, frames, total))
    ensures SegmentTaken(v, v2, h, frames, moved, total)
  {
    if !freed {
      ElsewhereThen(v, v1, v2, h);
    }
  }

  // What received data does to a socket.
  ghost predicate Received(s: Socket, r: Socket) {
    && r == s.(state := r.state, receiveClosed := r.receiveClosed)
    && Synchronized(r.state) && (r.state == s.state || Edge(s.state, r.state))
  }

  // What the data of a segment and a FIN sent in turn do to a socket.
  ghost predicate Moved(s: Socket, r: Socket) {
    && r == s.(state := r.state, receiveClosed := r.receiveClosed, sendNext := r.sendNext, finSent := r.finSent)
    && Synchronized(r.state) && (r.state == s.state || Edge(s.state, r.state))
  }

  // What a whole segment does to a socket that stays.
  ghost predicate Advanced(s: Socket, r: Socket) {
    && r == s.(state := r.state, finAcked := r.finAcked, sendUnacked := r.sendUnacked, peerWindow := r.peerWindow,
               receiveClosed := r.receiveClosed, sendNext := r.sendNext, finSent := r.finSent)
    && Synchronized(r.state) && Path(s.state, r.state)
  }

  ghost function FinFrame(f: Flow): Frame {
    Frame(Wrap(f.base + |f.written|), [], true)
  }

  ghost predicate FinDue(s: Socket, f: Flow) {
    s.finSent || (f.una == |f.written| && s.peerWindow != 0)
  }

  function PendingOn(sockets: seq<Socket>, listener: nat): nat {
    if sockets == [] then 0
    else
      var last := sockets[|sockets| - 1];
      PendingOn(sockets[..|sockets| - 1], listener) + if last.listener == listener && !last.accepted then 1 else 0
  }

  predicate Ready(s: Socket, listener: nat) {
    s.listener == listener && !s.accepted && (s.state == Established || s.state == CloseWait || s.state == Reset)
  }

  // A connection as a SYN leaves it.
  ghost predicate Begun(v: Halves, v': Halves, h: nat, remoteSequence: u32, localSequence: u32, stream: seq<u8>) {
    && Sized(v) && Sized(v') && h < SOCKET_CAPACITY && v.sockets[h].state == Free
    && v'.sockets[h].state == SynReceived && !v'.sockets[h].accepted && !v'.sockets[h].sendClosed
    && v'.flows[h] == Flow(localSequence + 1, [], -1)
    && v'.peers[h] == R.Peer(remoteSequence + 1, stream, 0)
    && v'.slots[h].buffer == [] && !v'.slots[h].readClosed && !v'.slots[h].receiveClosed
  }
}
