/**
 Connections over the shared retransmission queue: writes, acknowledgements,
 retransmission, shutdown and close, resets and timers (network/stack.cpp).
 */
module TcpStack {
  import opened Machine
  import opened SequenceNumbers
  import opened Sockets
  import opened SegmentQueues
  import opened TcpSend

  datatype Socket = Socket(
    state: SocketState,
    sendNext: u32,
    sendUnacked: u32,
    peerWindow: u32,
    peerMss: nat,
    receiveClosed: bool,
    accepted: bool,
    detached: bool,
    finSent: bool,
    finAcked: bool,
    activeClose: bool,
    sendClosed: bool,
    failure: SocketResult,
    listener: nat,
    backlog: nat)

  const FREE_SOCKET :=
    Socket(Free, 0, 0, 65535, 536, false, false, false, false, false, false, false, ConnectionReset, SOCKET_CAPACITY, 0)

  // A data or FIN segment handed to the driver.
  datatype Frame = Frame(sequence: u32, payload: seq<u8>, finish: bool)

  predicate Live(state: SocketState) {
    Synchronized(state) || state == Closed
  }

  // ---- The close state machine ----

  // What each state says about both directions of the connection.
  predicate StateAgrees(s: Socket) {
    && (s.finAcked ==> s.finSent) && (s.finSent ==> s.sendClosed)
    && match s.state
       case SynReceived => !s.sendClosed && !s.receiveClosed
       case Established => !s.sendClosed && !s.receiveClosed
       case CloseWait => !s.sendClosed && s.receiveClosed
       case FinWait1 => s.sendClosed && !s.receiveClosed && !s.finAcked && s.activeClose
       case FinWait2 => s.sendClosed && !s.receiveClosed && s.finAcked && s.activeClose
       case Closing => s.sendClosed && s.receiveClosed && !s.finAcked && s.activeClose
       case LastAck => s.sendClosed && s.receiveClosed && !s.activeClose
       case TimeWait | Closed => s.sendClosed && s.receiveClosed && s.finAcked && s.activeClose
       case _ => true
  }

  // The edges of the connection state diagram, section 3.3.2 of RFC 9293. The
  // passive closer's last edge frees the slot and is not a state here.
  predicate Edge(from: SocketState, to: SocketState) {
    match from
    case SynReceived => to == Established
    case Established => to == FinWait1 || to == CloseWait
    case CloseWait => to == LastAck
    case FinWait1 => to == FinWait2 || to == Closing
    case FinWait2 => to == TimeWait
    case Closing => to == TimeWait
    case TimeWait => to == Closed
    case _ => false
  }

  ghost predicate Path(from: SocketState, to: SocketState) {
    from == to || Edge(from, to) || exists mid :: Edge(from, mid) && Edge(mid, to)
  }

  // ---- Sequence numbers ----

  function End(s: Socket, f: Flow): nat {
    |f.written| + if s.finSent then 1 else 0
  }

  ghost predicate Sequenced(s: Socket, f: Flow) {
    && 0 <= f.una <= End(s, f)
    && s.sendUnacked == Wrap(f.base + f.una)
    && s.sendNext == Wrap(f.base + End(s, f))
    && (s.finSent ==> |f.written| <= f.una)
    && (s.finAcked ==> f.una == End(s, f))
  }

  ghost predicate SocketMatches(s: Socket, f: Flow) {
    && StateAgrees(s)
    && 0 < s.peerMss <= SEGMENT_CAPACITY
    && (Live(s.state) ==> Sequenced(s, f))
    && (s.state == SynReceived ==>
          f.written == [] && f.una == -1 && s.sendUnacked == Wrap(f.base - 1) && s.sendNext == Wrap(f.base))
  }

  ghost predicate QueueMatches(queue: seq<Option<Segment>>, at: seq<int>, handle: nat, s: Socket, f: Flow) {
    if Live(s.state) then Tiles(queue, at, handle, f) else NoneHeld(queue, handle)
  }

  // Whatever 32-bit number a segment acknowledges, the two signed comparisons
  // of handle_tcp let it through only if it is a true offset between the
  // acknowledgement point and the end of what was sent.
  lemma {:induction false} AcknowledgementInRange(s: Socket, f: Flow, ack: u32) returns (a: int)
    requires Sequenced(s, f) && |f.written| - f.una <= FLIGHT_LIMIT
    requires Signed(ack, s.sendNext) <= 0 && Signed(ack, s.sendUnacked) >= 0
    ensures f.una <= a <= End(s, f) && ack == Wrap(f.base + a)
    ensures ack == s.sendUnacked <==> a == f.una
    ensures ack == s.sendNext <==> a == End(s, f)
  {
    a := f.una + Wrap(ack - s.sendUnacked);
    Unwrap(f.base, f.una, ack);
    SignedIsDistance(f.base, a, f.una);
    SignedIsDistance(f.base, a, End(s, f));
  }

  // ---- Closing one direction ----

  ghost predicate FrameMatches(frame: Frame, o: int, f: Flow) {
    && 0 <= o && o + |frame.payload| <= |f.written|
    && frame.payload == f.written[o..o + |frame.payload|]
    && frame.sequence == Wrap(f.base + o)
    && (frame.finish ==> o + |frame.payload| == |f.written|)
  }

  // The first bytes of a queued segment are a frame of the flow.
  lemma {:induction false} PrefixMatches(e: Segment, o: int, f: Flow, count: nat)
    requires EntryMatches(e, o, f) && 0 < count <= |e.data|
    ensures FrameMatches(Frame(e.sequence, e.data[..count], false), o, f) && e.data[..count] != []
  {
    assert f.written[o..o + |e.data|][..count] == f.written[o..o + count];
  }

  // FIN leaves only after every written byte was acknowledged, with the
  // sequence number right after the last of them; so does every repetition.
  method SendFin(s: Socket, accept: bool, ghost f: Flow) returns (r: Socket, frames: seq<Frame>)
    requires SocketMatches(s, f) && Live(s.state) && s.sendClosed && |f.written| - f.una <= FLIGHT_LIMIT
    ensures SocketMatches(r, f)
    ensures r.finSent == (s.finSent || (accept && f.una == |f.written| && s.peerWindow != 0))
    ensures r == s.(sendNext := r.sendNext, finSent := r.finSent)
    ensures frames == if accept && (s.finSent || (f.una == |f.written| && s.peerWindow != 0))
                      then [Frame(Wrap(f.base + |f.written|), [], true)] else []
    ensures frames != [] ==> |f.written| <= f.una && r.finSent
  {
    SignedIsDistance(f.base, End(s, f), f.una);
    if !s.finSent && (s.sendUnacked != s.sendNext || s.peerWindow == 0) {
      return s, [];
    }
    r, frames := s, [];
    WrapAdd(f.base + End(s, f), -1);
    WrapAdd(f.base + End(s, f), 1);
    var sequence := if s.finSent then Wrap(s.sendNext - 1) else s.sendNext;
    if accept {
      frames := [Frame(sequence, [], true)];
      if !s.finSent {
        r := s.(sendNext := Wrap(s.sendNext + 1), finSent := true);
      }
    }
  }

  // shutdown or close ends the sending direction; whether it is the active
  // closer depends on whether the peer's FIN was consumed before.
  method RequestFin(s: Socket, accept: bool, ghost f: Flow) returns (r: Socket, frames: seq<Frame>)
    requires SocketMatches(s, f) && Synchronized(s.state) && |f.written| - f.una <= FLIGHT_LIMIT
    ensures SocketMatches(r, f) && r.sendClosed
    ensures s.sendClosed ==> r == s && frames == []
    ensures !s.sendClosed ==>
              && r.state == (if s.receiveClosed then LastAck else FinWait1) && Edge(s.state, r.state)
              && r == s.(state := r.state, sendClosed := true, activeClose := !s.receiveClosed,
                         sendNext := r.sendNext, finSent := r.finSent)
              && r.finSent == (accept && f.una == |f.written| && s.peerWindow != 0)
              && frames == if r.finSent then [Frame(Wrap(f.base + |f.written|), [], true)] else []
  {
    if s.sendClosed {
      return s, [];
    }
    r := s.(sendClosed := true, activeClose := !s.receiveClosed);
    r := r.(state := if r.activeClose then FinWait1 else LastAck);
    r, frames := SendFin(r, accept, f);
  }

  // The FIN that shutdown or close sends at once, if any.
  ghost function FirstFin(s: Socket, accept: bool, f: Flow): seq<Frame> {
    if !s.sendClosed && accept && f.una == |f.written|
       && s.peerWindow != 0 then [Frame(Wrap(f.base + |f.written|), [], true)] else []
  }

  function Finishing(s: Socket): SocketState {
    if s.sendClosed then s.state else if s.receiveClosed then LastAck else FinWait1
  }

  // What shutdown and close leave behind.
  ghost predicate Finished(s: Socket, r: Socket, detach: bool) {
    && r == s.(state := Finishing(s), sendClosed := true, activeClose := r.activeClose, sendNext := r.sendNext,
               finSent := r.finSent,
               detached := detach || s.detached)
    && Synchronized(r.state)
  }

  method FinishSocket(s: Socket, detach: bool, accept: bool, ghost f: Flow) returns (r: Socket, frames: seq<Frame>)
    requires SocketMatches(s, f) && Synchronized(s.state) && |f.written| - f.una <= FLIGHT_LIMIT
    ensures SocketMatches(r, f) && Finished(s, r, detach) && frames == FirstFin(s, accept, f)
  {
    r := s.(detached := detach || s.detached);
    r, frames := RequestFin(r, accept, f);
  }

  // ---- One segment on a synchronized connection ----

  // The acknowledgement of our FIN (lines 730-743); None when the slot is freed.
  function AfterFinAck(s: Socket): Option<Socket> {
    var r := s.(finAcked := true);
    if r.receiveClosed then
      if r.activeClose then Some(r.(state := TimeWait))
      else if r.detached then None
      else Some(r)
    else if r.state == FinWait1 then Some(r.(state := FinWait2))
    else Some(r)
  }

  // What an acknowledgement does to a socket that stays.
  ghost predicate Acknowledged(s: Socket, r: Socket) {
    && r == s.(state := r.state, finAcked := r.finAcked, sendUnacked := r.sendUnacked, peerWindow := r.peerWindow)
    && Synchronized(r.state) && (r.state == s.state || Edge(s.state, r.state))
  }

  // The peer's FIN was consumed by receive() (lines 745-751).
  function AfterPeerFin(s: Socket): Socket {
    var r := s.(receiveClosed := true,
                state := if s.state == FinWait1 then Closing else if s.state == FinWait2 then TimeWait else CloseWait);
    if r.finAcked then r.(state := TimeWait) else r
  }

  // A closed socket in LAST-ACK goes when its FIN is acknowledged.
  predicate FreedBy(s: Socket, acked: bool) {
    acked && s.receiveClosed && !s.activeClose && s.detached
  }

  lemma {:induction false} FinAckAgrees(s: Socket, f: Flow)
    requires SocketMatches(s, f) && Synchronized(s.state) && s.finSent && f.una == End(s, f)
    ensures var r := AfterFinAck(s);
            r.Some? ==> SocketMatches(r.value, f) && Synchronized(r.value.state)
                        && (r.value.state == s.state || Edge(s.state, r.value.state))
    ensures AfterFinAck(s).None? ==> s.state == LastAck && s.detached
  {
  }

  lemma {:induction false} PeerFinAgrees(s: Socket, f: Flow)
    requires SocketMatches(s, f) && Synchronized(s.state) && !s.receiveClosed
    ensures var r := AfterPeerFin(s);
            SocketMatches(r, f) && Synchronized(r.state) && Edge(s.state, r.state)
  {
  }

  // ---- The table of sockets ----

  ghost predicate Consistent(sockets: seq<Socket>, queue: seq<Option<Segment>>, at: seq<int>, flows: seq<Flow>, h: nat)
    requires h < |sockets| == |flows|
  {
    SocketMatches(sockets[h], flows[h]) && QueueMatches(queue, at, h, sockets[h], flows[h])
  }

  ghost predicate StackMatches(sockets: seq<Socket>, queue: seq<Option<Segment>>, at: seq<int>, flows: seq<Flow>) {
    && |sockets| == SOCKET_CAPACITY == |flows|
    && |queue| == TRANSMIT_CAPACITY == |at|
    && (forall i :: 0 <= i < |queue| && queue[i].Some? ==> queue[i].value.handle < SOCKET_CAPACITY)
    && forall h :: 0 <= h < SOCKET_CAPACITY ==> Consistent(sockets, queue, at, flows, h)
  }

  // A connection's tiling depends on its own slots only.
  lemma {:induction false} QueueFrame(q: seq<Option<Segment>>, at: seq<int>, q': seq<Option<Segment>>, at': seq<int>,
                   handle: nat, k: nat, s: Socket, f: Flow)
    requires OthersUntouched(handle, q, at, q', at') && k != handle
    requires QueueMatches(q, at, k, s, f)
    ensures QueueMatches(q', at', k, s, f)
  {
    assert forall i :: 0 <= i < |q| ==> (Holds(q[i], k) <==> Holds(q'[i], k))
                                        && (Holds(q[i], k) ==> q'[i] == q[i] && at'[i] == at[i]);
    if Live(s.state) {
      forall m | Max(0, f.una) <= m < |f.written| ensures Covered(q', at', k, m) {
        assert Covered(q, at, k, m);
        var i :| 0 <= i < |q| && Covers(q[i], at[i], k, m);
        assert Covers(q'[i], at'[i], k, m);
      }
    }
  }

  lemma {:induction false} StackUpdate(sockets: seq<Socket>, q: seq<Option<Segment>>, at: seq<int>, flows: seq<Flow>,
                    handle: nat, s: Socket, f: Flow, q': seq<Option<Segment>>, at': seq<int>)
    requires StackMatches(sockets, q, at, flows) && handle < SOCKET_CAPACITY
    requires SocketMatches(s, f) && QueueMatches(q', at', handle, s, f)
    requires OthersUntouched(handle, q, at, q', at')
    ensures StackMatches(sockets[handle := s], q', at', flows[handle := f])
  {
    var sockets', flows' := sockets[handle := s], flows[handle := f];
    forall k | 0 <= k < SOCKET_CAPACITY ensures Consistent(sockets', q', at', flows', k) {
      if k != handle {
        assert Consistent(sockets, q, at, flows, k);
        QueueFrame(q, at, q', at', handle, k, sockets[k], flows[k]);
      }
    }
  }

  function Aborted(s: Socket, failure: SocketResult): Socket {
    if s.state == SynReceived || !s.accepted || s.detached then FREE_SOCKET
    else s.(state := Reset, failure := failure, receiveClosed := false)
  }

  predicate Writable(s: Socket) {
    (s.state == Established || s.state == CloseWait) && !s.sendClosed
  }

  ghost function Wrote(f: Flow, input: seq<u8>, count: nat): Flow
    requires count <= |input|
  {
    f.(written := f.written + input[..count])
  }

  lemma {:induction false} WroteMore(f: Flow, input: seq<u8>, written: nat, count: nat)
    requires written + count <= |input|
    ensures var g := Wrote(f, input, written);
            g.(written := g.written + input[written..written + count]) == Wrote(f, input, written + count)
  {
    assert input[..written + count] == input[..written] + input[written..written + count];
  }

  // Nothing but one socket changed.
  ghost predicate Only(flows: seq<Flow>, sockets: seq<Socket>, flows': seq<Flow>, sockets': seq<Socket>, handle: nat) {
    && handle < |flows| == |flows'| && handle < |sockets| == |sockets'|
    && flows' == flows[handle := flows'[handle]] && sockets' == sockets[handle := sockets'[handle]]
  }

  // A write that got so far: the stream grew by so many bytes, and the frames
  // carry them.
  ghost predicate Progress(flows: seq<Flow>, sockets: seq<Socket>, flows': seq<Flow>, sockets': seq<Socket>,
                           handle: nat,
                           input: seq<u8>, written: nat, frames: seq<Frame>, starts: seq<nat>) {
    && Only(flows, sockets, flows', sockets', handle) && written <= |input| && (written == 0 ==> frames == [])
    && flows'[handle] == Wrote(flows[handle], input, written)
    && sockets'[handle] == sockets[handle].(sendNext := sockets'[handle].sendNext)
    && DataFrames(frames, |flows[handle].written|, starts, flows'[handle])
  }

  // Data segments at the given offsets from `origin` in the written stream.
  ghost predicate DataFrames(frames: seq<Frame>, origin: nat, starts: seq<nat>, f: Flow) {
    |frames| == |starts| && forall k :: 0 <= k < |frames| ==>
      FrameMatches(frames[k], origin + starts[k], f) && !frames[k].finish
  }

  // Frames stay true when the application writes more.
  lemma {:induction false} FramesExtend(frames: seq<Frame>, origin: nat, starts: seq<nat>, f: Flow, data: seq<u8>)
    requires DataFrames(frames, origin, starts, f) && origin <= |f.written|
    ensures var frame := Frame(Wrap(f.base + |f.written|), data, false);
            DataFrames(frames + [frame], origin, starts + [|f.written| - origin], f.(written := f.written + data))
  {
    var f' := f.(written := f.written + data);
    forall k | 0 <= k < |frames| ensures FrameMatches(frames[k], origin + starts[k], f') {
      assert FrameMatches(frames[k], origin + starts[k], f);
    }
  }

  // Among one connection's slots the sequence number identifies the oldest.
  lemma {:induction false} OldestSequence(queue: seq<Option<Segment>>, at: seq<int>, handle: nat, s: Socket, f: Flow,
                                          i: nat)
    requires |queue| == TRANSMIT_CAPACITY && i < |queue| && Holds(queue[i], handle)
    requires SocketMatches(s, f) && QueueMatches(queue, at, handle, s, f)
    ensures Live(s.state) && EntryMatches(queue[i].value, at[i], f) && 0 <= f.una < |f.written|
    ensures queue[i].value.sequence == s.sendUnacked <==> at[i] == f.una
  {
    FlightIsQueued(queue, at, handle, f);
    SignedIsDistance(f.base, at[i], f.una);
  }

  class Stack {
    const sockets: array<Socket>
    const transmissions: array<Option<Segment>>
    var retryCursor: nat
    ghost var flows: seq<Flow>
    ghost var at: seq<int>

    ghost predicate Valid()
      reads this, sockets, transmissions
    {
      && StackMatches(sockets[..], transmissions[..], at, flows)
      && retryCursor < TRANSMIT_CAPACITY
    }

    // What Valid() says about one socket.
    lemma {:induction false} Here(handle: nat)
      requires Valid() && handle < SOCKET_CAPACITY
      ensures SocketMatches(sockets[handle], flows[handle])
      ensures QueueMatches(transmissions[..], at, handle, sockets[handle], flows[handle])
    {
      assert Consistent(sockets[..], transmissions[..], at, flows, handle);
    }

    constructor ()
      ensures Valid() && fresh(sockets) && fresh(transmissions)
      ensures forall h :: 0 <= h < SOCKET_CAPACITY ==> sockets[h] == FREE_SOCKET
    {
      sockets := new Socket[SOCKET_CAPACITY](_ => FREE_SOCKET);
      transmissions := new Option<Segment>[TRANSMIT_CAPACITY](_ => None);
      retryCursor := 0;
      flows := seq(SOCKET_CAPACITY, _ => Flow(0, [], 0));
      at := seq(TRANSMIT_CAPACITY, _ => 0);
    }

    // Takes a slot for a segment and keeps it only if the driver accepts the
    // frame. It fails exactly when no slot is free or the driver refuses.
    method QueueTransmission(handle: nat, data: seq<u8>, accept: bool) returns (ok: bool)
      requires Valid() && handle < SOCKET_CAPACITY && Live(sockets[handle].state) && !sockets[handle].finSent
      requires 0 < |data| <= SEGMENT_CAPACITY
      modifies this`flows, this`at, sockets, transmissions
      ensures Valid()
      ensures ok == (accept && exists i :: 0 <= i < TRANSMIT_CAPACITY && old(transmissions[i]).None?)
      ensures ok ==> flows == old(flows)[handle := old(flows[handle]).(written := old(flows[handle]).written + data)]
      ensures !ok ==> flows == old(flows) && transmissions[..] == old(transmissions[..]) && at == old(at)
      ensures OthersUntouched(handle, old(transmissions[..]), old(at), transmissions[..], at)
      ensures var s := old(sockets[handle]);
              sockets[..] == if ok then old(sockets[..])[handle := s.(sendNext := Wrap(s.sendNext + |data|))]
                             else old(sockets[..])
    {
      Here(handle);
      var s := sockets[handle];
      forall i: nat | i < TRANSMIT_CAPACITY && Holds(transmissions[i], handle)
        ensures transmissions[i].value.sequence != s.sendNext
      {
        NextIsFresh(transmissions[..], at, handle, flows[handle], i);
      }
      var queued := KeyQueued(handle, s.sendNext);
      if queued {
        return false;
      }
      var free := FreeSlot();
      if free == TRANSMIT_CAPACITY || !accept {
        return false;
      }
      Commit(handle, data, free);
      return true;
    }

    method KeyQueued(handle: nat, sequence: u32) returns (queued: bool)
      requires transmissions.Length == TRANSMIT_CAPACITY
      ensures queued == exists i :: 0 <= i < TRANSMIT_CAPACITY && Holds(transmissions[i], handle)
                          && transmissions[i].value.sequence == sequence
    {
      for i := 0 to TRANSMIT_CAPACITY
        invariant forall j :: 0 <= j < i && Holds(transmissions[j], handle) ==>
                    transmissions[j].value.sequence != sequence
      {
        if Holds(transmissions[i], handle) && transmissions[i].value.sequence == sequence {
          return true;
        }
      }
      return false;
    }

    method FreeSlot() returns (free: nat)
      requires transmissions.Length == TRANSMIT_CAPACITY
      ensures free <= TRANSMIT_CAPACITY
      ensures forall j :: 0 <= j < free ==> transmissions[j].Some?
      ensures free < TRANSMIT_CAPACITY ==> transmissions[free].None?
    {
      free := 0;
      while free < TRANSMIT_CAPACITY && transmissions[free].Some?
        invariant free <= TRANSMIT_CAPACITY
        invariant forall j :: 0 <= j < free ==> transmissions[j].Some?
      {
        free := free + 1;
      }
    }

    // Records a segment the driver accepted.
    method Commit(handle: nat, data: seq<u8>, free: nat)
      requires Valid() && handle < SOCKET_CAPACITY && Live(sockets[handle].state) && !sockets[handle].finSent
      requires 0 < |data| <= SEGMENT_CAPACITY
      requires free < TRANSMIT_CAPACITY && transmissions[free].None?
      modifies this`flows, this`at, sockets, transmissions
      ensures Valid()
      ensures flows == old(flows)[handle := old(flows[handle]).(written := old(flows[handle]).written + data)]
      ensures var e := Segment(handle, old(sockets[handle]).sendNext, false, data);
              transmissions[..] == old(transmissions[..])[free := Some(e)]
      ensures at == old(at)[free := |old(flows[handle]).written|]
      ensures var s := old(sockets[handle]);
              sockets[..] == old(sockets[..])[handle := s.(sendNext := Wrap(s.sendNext + |data|))]
    {
      Here(handle);
      var s := sockets[handle];
      ghost var f := flows[handle];
      ghost var f' := f.(written := f.written + data);
      TileAppend(transmissions[..], at, handle, f, free, data, f');
      WrapAdd(f.base + |f.written|, |data|);
      var s' := s.(sendNext := Wrap(s.sendNext + |data|));
      var entry := Some(Segment(handle, s.sendNext, false, data));
      StackUpdate(sockets[..], transmissions[..], at, flows, handle, s', f', transmissions[..][free := entry],
                  at[free := |f.written|]);
      transmissions[free] := entry;
      sockets[handle] := s';
      flows := flows[handle := f'];
      at := at[free := |f.written|];
    }

    // Stores a socket whose transport fields changed but not its flow.
    method Store(handle: nat, s: Socket)
      requires Valid() && handle < SOCKET_CAPACITY
      requires SocketMatches(s, flows[handle]) && (Live(s.state) <==> Live(sockets[handle].state))
      modifies sockets
      ensures Valid()
      ensures sockets[..] == old(sockets[..])[handle := s]
    {
      Here(handle);
      StackUpdate(sockets[..], transmissions[..], at, flows, handle, s, flows[handle], transmissions[..], at);
      assert flows == flows[handle := flows[handle]];
      sockets[handle] := s;
    }

    method ClearTransmissions(handle: nat)
      requires transmissions.Length == TRANSMIT_CAPACITY
      modifies transmissions
      ensures forall i :: 0 <= i < TRANSMIT_CAPACITY ==>
                transmissions[i] == if Holds(old(transmissions[i]), handle) then None else old(transmissions[i])
    {
      for i := 0 to TRANSMIT_CAPACITY
        invariant forall j :: 0 <= j < i ==>
                    transmissions[j] == if Holds(old(transmissions[j]), handle) then None else old(transmissions[j])
        invariant forall j :: i <= j < TRANSMIT_CAPACITY ==> transmissions[j] == old(transmissions[j])
      {
        if Holds(transmissions[i], handle) {
          transmissions[i] := None;
        }
      }
    }

    // Ends a connection: its queued segments go with it, nobody else's do.
    method Drop(handle: nat, s: Socket)
      requires Valid() && handle < SOCKET_CAPACITY
      requires SocketMatches(s, flows[handle]) && !Live(s.state)
      modifies sockets, transmissions
      ensures Valid()
      ensures sockets[..] == old(sockets[..])[handle := s]
      ensures forall i :: 0 <= i < TRANSMIT_CAPACITY ==>
                transmissions[i] == if Holds(old(transmissions[i]), handle) then None else old(transmissions[i])
    {
      ghost var q := transmissions[..];
      ClearTransmissions(handle);
      StackUpdate(sockets[..], q, at, flows, handle, s, flows[handle], transmissions[..], at);
      assert flows == flows[handle := flows[handle]];
      sockets[handle] := s;
    }

    // Frees a slot for which nothing is queued.
    method Release(handle: nat)
      requires Valid() && handle < SOCKET_CAPACITY && NoneHeld(transmissions[..], handle)
      modifies sockets
      ensures Valid() && sockets[..] == old(sockets[..])[handle := FREE_SOCKET]
    {
      ghost var q := transmissions[..];
      StackUpdate(sockets[..], q, at, flows, handle, FREE_SOCKET, flows[handle], q, at);
      assert flows == flows[handle := flows[handle]];
      sockets[handle] := FREE_SOCKET;
    }

    // send_space: what the peer's window and the congestion window still allow.
    method SendSpace(s: Socket, congestion: u32, ghost f: Flow) returns (space: nat)
      requires Sequenced(s, f) && |f.written| - f.una <= FLIGHT_LIMIT
      ensures space == Max(0, Min(s.peerWindow, congestion) - (End(s, f) - f.una))
    {
      UnsignedIsDistance(f.base, End(s, f), f.una);
      var flight := Wrap(s.sendNext - s.sendUnacked);
      var limit := Min(s.peerWindow, congestion);
      space := if flight < limit then limit - flight else 0;
    }

    // The driver does not take another frame, or no slot is free.
    predicate Refused(frames: seq<Frame>, driver: seq<bool>)
      reads transmissions
    {
      |frames| >= |driver| || !driver[|frames|] || forall i :: 0 <= i < transmissions.Length ==> transmissions[i].Some?
    }

    // The application writes. What is accepted is appended to the flow, never
    // beyond the peer's window, and every emitted frame carries it in place.
    method Write(handle: nat, input: seq<u8>, congestion: u32, driver: seq<bool>)
      returns (result: SocketResult, written: nat, frames: seq<Frame>, starts: seq<nat>)
      requires Valid()
      modifies this`flows, this`at, sockets, transmissions
      ensures Valid() && written <= |input| && (written == 0 ==> frames == [])
      ensures forall k :: 0 <= k < SOCKET_CAPACITY && k != handle ==>
                flows[k] == old(flows[k]) && sockets[k] == old(sockets[k])
      ensures handle < SOCKET_CAPACITY ==>
                && flows[handle] == old(flows[handle]).(written := old(flows[handle]).written + input[..written])
                && sockets[handle] == old(sockets[handle]).(sendNext := sockets[handle].sendNext)
                && (written > 0 ==>
                      |flows[handle].written| - flows[handle].una <= Min(sockets[handle].peerWindow, congestion))
                && DataFrames(frames, |old(flows[handle]).written|, starts, flows[handle])
      ensures handle < SOCKET_CAPACITY && Writable(old(sockets[handle])) && written < |input| ==>
                || Refused(frames, driver)
                || written == Max(0, Min(sockets[handle].peerWindow,
                                         congestion) - (|old(flows[handle]).written| - flows[handle].una))
      ensures result == (if handle >= SOCKET_CAPACITY || old(sockets[handle]).state == Free then BadHandle
                         else if old(sockets[handle]).state == Reset then old(sockets[handle]).failure
                         else if !Writable(old(sockets[handle])) then NotConnected
                         else if input == [] || written > 0 then Success
                         else WouldBlock)
      ensures handle >= SOCKET_CAPACITY || !Writable(old(sockets[handle])) ==> written == 0
    {
      written, frames, starts := 0, [], [];
      if handle >= sockets.Length || sockets[handle].state == Free {
        return BadHandle, 0, [], [];
      }
      assert flows[handle].written + input[..0] == flows[handle].written;
      if sockets[handle].state == Reset {
        return sockets[handle].failure, 0, [], [];
      }
      if !Writable(sockets[handle]) {
        return NotConnected, 0, [], [];
      }
      if input == [] {
        return Success, 0, [], [];
      }
      Here(handle);
      FlightIsQueued(transmissions[..], at, handle, flows[handle]);
      var available := SendSpace(sockets[handle], congestion, flows[handle]);
      if available == 0 {
        return WouldBlock, 0, [], [];
      }
      written, frames, starts := WriteSegments(handle, input, available, driver);
      return if written == 0 then WouldBlock else Success, written, frames, starts;
    }

    // The segmenting loop of socket_write.
    method WriteSegments(handle: nat, input: seq<u8>, available: nat, driver: seq<bool>)
      returns (written: nat, frames: seq<Frame>, starts: seq<nat>)
      requires Valid() && handle < SOCKET_CAPACITY && Writable(sockets[handle])
      modifies this`flows, this`at, sockets, transmissions
      ensures Valid() && written <= available
      ensures Progress(old(flows), old(sockets[..]), flows, sockets[..], handle, input, written, frames, starts)
      ensures written < |input| && written < available ==> Refused(frames, driver)
    {
      written, frames, starts := 0, [], [];
      assert flows[handle].written + input[..0] == flows[handle].written;
      while written < |input| && written < available
        invariant Valid() && written <= available
        invariant Progress(old(flows), old(sockets[..]), flows, sockets[..], handle, input, written, frames, starts)
        decreases |input| - written
      {
        var ok;
        ok, written, frames, starts := WriteNext(handle, input, available, driver, written, frames, starts,
                                                 old(flows), old(sockets[..]));
        if !ok {
          return;
        }
      }
    }

    // The next segment of a write, as large as both windows and the peer allow.
    method WriteNext(handle: nat, input: seq<u8>, available: nat, driver: seq<bool>, written: nat,
                     frames: seq<Frame>, starts: seq<nat>,
                     ghost fs: seq<Flow>, ghost ss: seq<Socket>)
      returns (ok: bool, written': nat, frames': seq<Frame>, starts': seq<nat>)
      requires Valid() && handle < SOCKET_CAPACITY && handle < |ss| && Writable(ss[handle]) && written < |input|
               && written < available
      requires Progress(fs, ss, flows, sockets[..], handle, input, written, frames, starts)
      modifies this`flows, this`at, sockets, transmissions
      ensures Valid() && written' <= available
      ensures if ok then written < written' <= |input| else written' == written && Refused(frames', driver)
      ensures Progress(fs, ss, flows, sockets[..], handle, input, written', frames', starts')
    {
      Here(handle);
      ghost var f := fs[handle];
      var count := Min(Min(|input| - written, available - written), Min(SEGMENT_CAPACITY, sockets[handle].peerMss));
      WroteMore(f, input, written, count);
      ok, frames', starts' := WriteOne(handle, input[written..written + count], |frames| < |driver| && driver[|frames|],
                                       frames, |f.written|, starts, written);
      written' := if ok then written + count else written;
    }

    method WriteOne(handle: nat, payload: seq<u8>, accept: bool, frames: seq<Frame>, ghost origin: nat,
                    starts: seq<nat>, written: nat)
      returns (ok: bool, frames': seq<Frame>, starts': seq<nat>)
      requires Valid() && handle < SOCKET_CAPACITY && Writable(sockets[handle])
      requires 0 < |payload| <= SEGMENT_CAPACITY
      requires DataFrames(frames, origin, starts, flows[handle]) && |flows[handle].written| == origin + written
      modifies this`flows, this`at, sockets, transmissions
      ensures Valid()
      ensures Only(old(flows), old(sockets[..]), flows, sockets[..], handle)
      ensures flows[handle] == if ok then old(flows[handle]).(written := old(flows[handle]).written + payload)
              else old(flows[handle])
      ensures sockets[handle] == old(sockets[handle]).(sendNext := sockets[handle].sendNext)
      ensures DataFrames(frames', origin, starts', flows[handle])
      ensures !ok ==> frames' == frames && (!accept
                                            || forall i :: 0 <= i < TRANSMIT_CAPACITY ==> transmissions[i].Some?)
    {
      Here(handle);
      ghost var f := flows[handle];
      var sequence := sockets[handle].sendNext;
      assert sequence == Wrap(f.base + |f.written|);
      frames', starts' := frames, starts;
      ok := QueueTransmission(handle, payload, accept);
      if ok {
        FramesExtend(frames, origin, starts, f, payload);
        frames', starts' := frames + [Frame(sequence, payload, false)], starts + [written];
      }
    }

    // Removes and trims acknowledged segments, on 32-bit arithmetic.
    method AcknowledgeEntries(handle: nat, ack: u32)
      requires transmissions.Length == TRANSMIT_CAPACITY
      modifies transmissions
      ensures transmissions[..] == AckedQueue(old(transmissions[..]), handle, ack)
    {
      for i := 0 to TRANSMIT_CAPACITY
        invariant forall j :: 0 <= j < i ==> transmissions[j] == AckedEntry(old(transmissions[j]), handle, ack)
        invariant forall j :: i <= j < TRANSMIT_CAPACITY ==> transmissions[j] == old(transmissions[j])
      {
        if transmissions[i].None? || transmissions[i].value.handle != handle {
          continue;
        }
        var pending := transmissions[i].value;
        var acknowledged := Wrap(ack - pending.sequence);
        if Signed(ack, pending.sequence) <= 0 {
          continue;
        }
        if acknowledged >= |pending.data| {
          transmissions[i] := None;
        } else {
          transmissions[i] := Some(pending.(sequence := ack, data := pending.data[acknowledged..]));
        }
      }
    }

    // An acknowledgement that passed the range check of handle_tcp moves the
    // acknowledgement point to the offset it names and shortens the queue there.
    method AcknowledgeTransmissions(handle: nat, ack: u32) returns (ghost a: int)
      requires Valid() && handle < SOCKET_CAPACITY && Live(sockets[handle].state)
      requires Signed(ack, sockets[handle].sendNext) <= 0
      modifies this`flows, this`at, sockets, transmissions
      ensures Valid()
      ensures old(flows[handle]).una <= a <= End(old(sockets[handle]), old(flows[handle]))
      ensures Signed(ack, old(sockets[handle]).sendUnacked) < 0 ==> a == old(flows[handle]).una
      ensures Signed(ack, old(sockets[handle]).sendUnacked) >= 0 ==> ack == Wrap(old(flows[handle]).base + a)
      ensures Signed(ack, sockets[handle].sendUnacked) >= 0 ==> ack == Wrap(old(flows[handle]).base + a)
      ensures flows == old(flows)[handle := old(flows[handle]).(una := a)]
      ensures sockets[..] == old(sockets[..])[handle :=
                                              old(sockets[handle]).(sendUnacked := sockets[handle].sendUnacked)]
    {
      Here(handle);
      var s := sockets[handle];
      ghost var f := flows[handle];
      a := f.una;
      if Signed(ack, s.sendUnacked) < 0 {
        return;
      }
      FlightIsQueued(transmissions[..], at, handle, f);
      a := AcknowledgementInRange(s, f, ack);
      if Signed(ack, s.sendUnacked) <= 0 {
        SignedIsDistance(f.base, a, f.una);
        return;
      }
      Advance(handle, ack, a);
    }

    // The acknowledgement point moves to offset a.
    method Advance(handle: nat, ack: u32, ghost a: int)
      requires Valid() && handle < SOCKET_CAPACITY && Live(sockets[handle].state)
      requires flows[handle].una <= a <= End(sockets[handle], flows[handle]) && ack == Wrap(flows[handle].base + a)
      modifies this`flows, this`at, sockets, transmissions
      ensures Valid()
      ensures flows == old(flows)[handle := old(flows[handle]).(una := a)]
      ensures sockets[..] == old(sockets[..])[handle := old(sockets[handle]).(sendUnacked := ack)]
      ensures transmissions[..] == AckedQueue(old(transmissions[..]), handle, ack)
    {
      Here(handle);
      ghost var f := flows[handle];
      ghost var q := transmissions[..];
      ghost var at' := AckedAt(q, at, handle, a);
      TileAcknowledge(q, at, handle, f, a);
      AcknowledgeEntries(handle, ack);
      var s := sockets[handle].(sendUnacked := ack);
      assert SocketMatches(s, f.(una := a));
      StackUpdate(sockets[..], q, at, flows, handle, s, f.(una := a), transmissions[..], at');
      sockets[handle] := s;
      flows := flows[handle := f.(una := a)];
      at := at';
    }

    // Acknowledgement and window update of a segment.
    method AcceptAck(handle: nat, ack: u32, window: Option<u32>) returns (ghost a: int)
      requires Valid() && handle < SOCKET_CAPACITY && Live(sockets[handle].state)
      requires Signed(ack, sockets[handle].sendNext) <= 0
      modifies this`flows, this`at, sockets, transmissions
      ensures Valid()
      ensures old(flows[handle]).una <= a <= End(old(sockets[handle]), old(flows[handle]))
      ensures Signed(ack, old(sockets[handle]).sendUnacked) >= 0 ==> ack == Wrap(old(flows[handle]).base + a)
      ensures Signed(ack, sockets[handle].sendUnacked) >= 0 ==> ack == Wrap(old(flows[handle]).base + a)
      ensures flows == old(flows)[handle := old(flows[handle]).(una := a)]
      ensures var s := sockets[handle];
              && s == old(sockets[handle]).(sendUnacked := s.sendUnacked, peerWindow := s.peerWindow)
              && sockets[..] == old(sockets[..])[handle := s]
      ensures sockets[handle].peerWindow ==
                if window.Some? && Signed(ack, old(sockets[handle]).sendUnacked) >= 0 then window.value
                   else old(sockets[handle]).peerWindow
    {
      Here(handle);
      var current := Signed(ack, sockets[handle].sendUnacked) >= 0;
      a := AcknowledgeTransmissions(handle, ack);
      Here(handle);
      if current && window.Some? {
        Store(handle, sockets[handle].(peerWindow := window.value));
      }
    }

    // The acknowledgement of our FIN may free the slot; nothing is queued then.
    method AckFin(handle: nat, ack: u32) returns (freed: bool)
      requires Valid() && handle < SOCKET_CAPACITY
      requires Synchronized(sockets[handle].state) && sockets[handle].state != TimeWait
      requires Signed(ack, sockets[handle].sendUnacked) >= 0 ==> ack == Wrap(flows[handle].base + flows[handle].una)
      modifies sockets
      ensures Valid()
      ensures var s := old(sockets[handle]);
              var acked := s.finSent && ack == s.sendNext;
              && freed == FreedBy(s, acked)
              && sockets[..] == old(sockets[..])[handle := if freed then FREE_SOCKET else sockets[handle]]
              && (!freed && !acked ==> sockets[handle] == s)
              && (!freed && acked ==> AfterFinAck(s) == Some(sockets[handle]))
              && (!freed ==> Synchronized(sockets[handle].state)
                             && (sockets[handle].state == s.state || Edge(s.state, sockets[handle].state)))
    {
      Here(handle);
      ghost var f := flows[handle];
      var s := sockets[handle];
      freed := false;
      if s.finSent && ack == s.sendNext {
        SignedIsDistance(f.base, End(s, f), f.una);
        FinAckAgrees(s, f);
        freed := AfterFinAck(s).None?;
        if freed {
          NothingQueued(transmissions[..], at, handle, f);
          Release(handle);
        } else {
          Store(handle, AfterFinAck(s).value);
        }
      }
    }

    // Everything an acknowledgement does; `moved` is how far it reaches.
    method TakeAck(handle: nat, ack: u32, window: Option<u32>) returns (freed: bool, moved: nat)
      requires Valid() && handle < SOCKET_CAPACITY
      requires Synchronized(sockets[handle].state) && sockets[handle].state != TimeWait
      requires Signed(ack, sockets[handle].sendNext) <= 0
      modifies this, sockets, transmissions
      ensures Valid() && sockets[..] == old(sockets[..])[handle := sockets[handle]]
      ensures flows == old(flows)[handle := old(flows[handle]).(una := flows[handle].una)]
      ensures freed <==> FreedBy(old(sockets[handle]), old(sockets[handle]).finSent
                                 && ack == old(sockets[handle]).sendNext)
      ensures freed ==> sockets[handle] == FREE_SOCKET
      ensures !freed ==> flows[handle].una == old(flows[handle]).una + moved
                         && Acknowledged(old(sockets[handle]), sockets[handle])
    {
      ghost var f := flows[handle];
      moved := MoveAck(handle, ack, window);
      freed := AckFin(handle, ack);
    }

    method MoveAck(handle: nat, ack: u32, window: Option<u32>) returns (moved: nat)
      requires Valid() && handle < SOCKET_CAPACITY && Live(sockets[handle].state)
      requires Signed(ack, sockets[handle].sendNext) <= 0
      modifies this, sockets, transmissions
      ensures Valid()
      ensures var s := sockets[handle];
              && s == old(sockets[handle]).(sendUnacked := s.sendUnacked, peerWindow := s.peerWindow)
              && sockets[..] == old(sockets[..])[handle := s]
      ensures flows == old(flows)[handle := old(flows[handle]).(una := old(flows[handle]).una + moved)]
      ensures Signed(ack, sockets[handle].sendUnacked) >= 0 ==> ack == Wrap(flows[handle].base + flows[handle].una)
    {
      Here(handle);
      ghost var f := flows[handle];
      FlightIsQueued(transmissions[..], at, handle, f);
      var before := sockets[handle].sendUnacked;
      ghost var a := AcceptAck(handle, ack, window);
      Here(handle);
      UnsignedIsDistance(f.base, a, f.una);
      moved := Wrap(sockets[handle].sendUnacked - before);
    }

    // receive() consumed the peer's FIN.
    method PeerFinished(handle: nat)
      requires Valid() && handle < SOCKET_CAPACITY && Synchronized(sockets[handle].state)
               && !sockets[handle].receiveClosed
      modifies sockets
      ensures Valid() && sockets[..] == old(sockets[..])[handle := AfterPeerFin(old(sockets[handle]))]
      ensures Synchronized(sockets[handle].state) && Edge(old(sockets[handle]).state, sockets[handle].state)
    {
      Here(handle);
      PeerFinAgrees(sockets[handle], flows[handle]);
      Store(handle, AfterPeerFin(sockets[handle]));
    }

    // A FIN that is due, or due again.
    method FlushFin(handle: nat, accept: bool) returns (frames: seq<Frame>)
      requires Valid() && handle < SOCKET_CAPACITY && Live(sockets[handle].state) && sockets[handle].sendClosed
      modifies sockets
      ensures Valid()
      ensures var s := sockets[handle];
              && s == old(sockets[handle]).(sendNext := s.sendNext, finSent := s.finSent)
              && sockets[..] == old(sockets[..])[handle := s]
      ensures var s := old(sockets[handle]);
              var due := s.finSent || (flows[handle].una == |flows[handle].written| && s.peerWindow != 0);
              && sockets[handle].finSent == (s.finSent || (accept && due))
              && frames == (if accept && due then [Frame(Wrap(flows[handle].base + |flows[handle].written|), [],
                                                         true)] else [])
              && (frames != [] ==> |flows[handle].written| <= flows[handle].una)
    {
      Here(handle);
      FlightIsQueued(transmissions[..], at, handle, flows[handle]);
      var s;
      s, frames := SendFin(sockets[handle], accept, flows[handle]);
      Store(handle, s);
    }

    // The oldest unacknowledged segment of some connection is sent again; `due`
    // says which slots' timers have expired. The scan starts at the cursor and
    // reaches every slot, and a frame repeats the application's bytes at the
    // acknowledgement point.
    method FlushRetransmission(due: seq<bool>, accept: bool) returns (sent: Option<nat>, frames: seq<Frame>)
      requires Valid() && |due| == TRANSMIT_CAPACITY
      modifies this`retryCursor
      ensures Valid()
      ensures sent.Some? ==>
                && sent.value < SOCKET_CAPACITY && Live(sockets[sent.value].state)
                && 0 <= flows[sent.value].una < |flows[sent.value].written|
                && DataFrames(frames, flows[sent.value].una, if accept then [0] else [], flows[sent.value])
                && forall k :: 0 <= k < |frames| ==> frames[k].payload != []
      ensures sent.None? ==>
                forall i: nat :: i < TRANSMIT_CAPACITY ==> !Due(i, due)
    {
      var checked := 0;
      while checked < TRANSMIT_CAPACITY
        invariant Valid() && 0 <= checked <= TRANSMIT_CAPACITY
        invariant forall i: nat :: i < TRANSMIT_CAPACITY && (i - retryCursor) % TRANSMIT_CAPACITY < checked ==>
                    !Due(i, due)
      {
        var index := (retryCursor + checked) % TRANSMIT_CAPACITY;
        checked := checked + 1;
        var hit;
        hit, frames := RetransmitSlot(index, due, accept);
        if hit {
          sent := Some(transmissions[index].value.handle);
          retryCursor := (index + 1) % TRANSMIT_CAPACITY;
          return;
        }
      }
      assert forall i: nat :: i < TRANSMIT_CAPACITY ==> !Due(i, due);
      return None, [];
    }

    // One slot of the scan.
    method RetransmitSlot(index: nat, due: seq<bool>, accept: bool) returns (hit: bool, frames: seq<Frame>)
      requires Valid() && |due| == TRANSMIT_CAPACITY && index < TRANSMIT_CAPACITY
      ensures hit == Due(index, due)
      ensures hit ==>
                var h := transmissions[index].value.handle;
                && h < SOCKET_CAPACITY && Live(sockets[h].state)
                && 0 <= flows[h].una < |flows[h].written|
                && DataFrames(frames, flows[h].una, if accept then [0] else [], flows[h])
                && forall k :: 0 <= k < |frames| ==> frames[k].payload != []
    {
      if transmissions[index].None? {
        return false, [];
      }
      var pending := transmissions[index].value;
      var socket := sockets[pending.handle];
      Here(pending.handle);
      OldestSequence(transmissions[..], at, pending.handle, socket, flows[pending.handle], index);
      if pending.sequence != socket.sendUnacked || !due[index] {
        return false, [];
      }
      var count := Min(|pending.data|, Max(1, socket.peerWindow));
      PrefixMatches(pending, at[index], flows[pending.handle], count);
      return true, if accept then [Frame(pending.sequence, pending.data[..count], false)] else [];
    }

    // The slot holds the oldest segment of its connection and its timer expired.
    ghost predicate Due(i: nat, due: seq<bool>)
      requires Valid() && |due| == TRANSMIT_CAPACITY
      reads this, sockets, transmissions
    {
      i < TRANSMIT_CAPACITY && due[i] && transmissions[i].Some? && at[i] == flows[transmissions[i].value.handle].una
    }

    // shutdown(how != 0), and the transport half of close().
    method FinishSending(handle: nat, detach: bool, accept: bool) returns (frames: seq<Frame>)
      requires Valid() && handle < SOCKET_CAPACITY && Synchronized(sockets[handle].state)
      modifies sockets
      ensures Valid() && sockets[..] == old(sockets[..])[handle := sockets[handle]]
      ensures Finished(old(sockets[handle]), sockets[handle], detach)
      ensures frames == FirstFin(old(sockets[handle]), accept, flows[handle])
    {
      Here(handle);
      FlightIsQueued(transmissions[..], at, handle, flows[handle]);
      var s;
      s, frames := FinishSocket(sockets[handle], detach, accept, flows[handle]);
      Store(handle, s);
    }

    // close() by the last owner. A connection stays, detached, until both FINs
    // are through; anything else is freed at once.
    method Close(handle: nat, accept: bool) returns (result: SocketResult, frames: seq<Frame>)
      requires Valid()
      modifies sockets, transmissions
      ensures Valid()
      ensures handle < SOCKET_CAPACITY ==> sockets[..] == old(sockets[..])[handle := sockets[handle]]
      ensures handle >= SOCKET_CAPACITY || old(sockets[handle]).state == Free ==>
                result == BadHandle && sockets[..] == old(sockets[..]) && frames == []
      ensures handle < SOCKET_CAPACITY && old(sockets[handle]).state != Free ==>
                var s := old(sockets[handle]);
                && result == Success
                && (sockets[handle] == FREE_SOCKET <==>
                      !Synchronized(s.state) || (s.finAcked && s.receiveClosed && s.state != TimeWait))
                && (sockets[handle] == FREE_SOCKET ==> frames == [])
                && (sockets[handle] != FREE_SOCKET ==>
                      Finished(s, sockets[handle], true) && frames == FirstFin(s, accept, flows[handle]))
    {
      frames := [];
      if handle >= sockets.Length || sockets[handle].state == Free {
        return BadHandle, [];
      }
      var s := sockets[handle];
      if s.finAcked && s.receiveClosed && s.state != TimeWait {
        Drop(handle, FREE_SOCKET);
        return Success, [];
      }
      if IsConnection(s.state) && s.state != Reset && s.state != SynReceived {
        frames := FinishSending(handle, true, accept);
        return Success, frames;
      }
      Drop(handle, FREE_SOCKET);
      return Success, [];
    }

    // An aborted connection: an orphan is freed, otherwise the owner will see
    // the failure. Used by RST (not in TIME-WAIT) and by expired timers.
    method Abort(handle: nat, failure: SocketResult)
      requires Valid() && handle < SOCKET_CAPACITY && IsConnection(sockets[handle].state)
      modifies sockets, transmissions
      ensures Valid()
      ensures sockets[..] == old(sockets[..])[handle := Aborted(old(sockets[handle]), failure)]
      ensures forall i :: 0 <= i < TRANSMIT_CAPACITY ==>
                transmissions[i] == if Holds(old(transmissions[i]), handle) then None else old(transmissions[i])
    {
      Here(handle);
      Drop(handle, Aborted(sockets[handle], failure));
    }

    // TIME-WAIT expires.
    method ExpireTimeWait(handle: nat)
      requires Valid() && handle < SOCKET_CAPACITY && sockets[handle].state == TimeWait
      modifies sockets
      ensures Valid()
      ensures sockets[..] == old(sockets[..])[handle := if old(sockets[handle]).detached then FREE_SOCKET
                                                        else old(sockets[handle]).(state := Closed)]
    {
      Here(handle);
      if sockets[handle].detached {
        NothingQueued(transmissions[..], at, handle, flows[handle]);
        Release(handle);
      } else {
        Store(handle, sockets[handle].(state := Closed));
      }
    }

    // A free slot becomes a listening socket.
    method Listen(handle: nat, backlog: nat)
      requires Valid() && handle < SOCKET_CAPACITY && sockets[handle].state == Free
      modifies sockets
      ensures Valid() && sockets[..] == old(sockets[..])[handle := FREE_SOCKET.(state := Listening, backlog := backlog)]
    {
      Here(handle);
      Store(handle, FREE_SOCKET.(state := Listening, backlog := backlog));
    }

    // accept() hands a connection to the application.
    method MarkAccepted(handle: nat)
      requires Valid() && handle < SOCKET_CAPACITY
      modifies sockets
      ensures Valid() && sockets[..] == old(sockets[..])[handle := old(sockets[handle]).(accepted := true)]
    {
      Here(handle);
      Store(handle, sockets[handle].(accepted := true));
    }

    // A SYN takes a free slot; nothing queued by an earlier owner is left.
    method BeginConnection(handle: nat, listener: nat, localSequence: u32, peerWindow: u32, peerMss: nat)
      requires Valid() && handle < SOCKET_CAPACITY && sockets[handle].state == Free
      requires 0 < peerMss <= SEGMENT_CAPACITY
      modifies sockets, this`flows
      ensures Valid()
      ensures sockets[..] == old(sockets[..])[handle :=
                                              FREE_SOCKET.(state := SynReceived, sendNext := Wrap(localSequence + 1),
                                                sendUnacked := localSequence, peerWindow := peerWindow,
                                                  peerMss := peerMss,
                                                listener := listener)]
      ensures flows == old(flows)[handle := Flow(localSequence + 1, [], -1)]
    {
      Here(handle);
      var s := FREE_SOCKET.(state := SynReceived, sendNext := Wrap(localSequence + 1), sendUnacked := localSequence,
                            peerWindow := peerWindow, peerMss := peerMss, listener := listener);
      WrapSmall(localSequence);
      StackUpdate(sockets[..], transmissions[..], at, flows, handle, s, Flow(localSequence + 1, [], -1),
                  transmissions[..], at);
      sockets[handle] := s;
      flows := flows[handle := Flow(localSequence + 1, [], -1)];
    }

    // The peer's acknowledgement of our SYN-ACK.
    method Establish(handle: nat, ack: u32) returns (result: SocketResult)
      requires Valid() && handle < SOCKET_CAPACITY && sockets[handle].state == SynReceived
      modifies sockets, this`flows
      ensures Valid()
      ensures result == (if ack == old(sockets[handle]).sendNext then Success else InvalidArgument)
      ensures result == Success ==>
                && sockets[..] == old(sockets[..])[handle :=
                                                   old(sockets[handle]).(state := Established, sendUnacked := ack)]
                && flows == old(flows)[handle := old(flows[handle]).(una := 0)]
      ensures result != Success ==> sockets[..] == old(sockets[..]) && flows == old(flows)
    {
      if ack != sockets[handle].sendNext {
        return InvalidArgument;
      }
      Here(handle);
      ghost var f := flows[handle].(una := 0);
      var s := sockets[handle].(state := Established, sendUnacked := ack);
      StackUpdate(sockets[..], transmissions[..], at, flows, handle, s, f, transmissions[..], at);
      sockets[handle] := s;
      flows := flows[handle := f];
      return Success;
    }
  }
}
