/**
 The receive half of SocketTable: in-order delivery, the shared out-of-order
 queue and the application's reads, for all thirteen slots at once.

 Each connection is compared with the byte stream its peer is sending. The
 ghost field `peers` holds that stream, the sequence number of its first byte
 and how many of its bytes have left the receive buffer; the ghost field `at`
 holds the true stream offset of each queued segment, of which the code only
 keeps the 32-bit sequence number.
 */
module TcpReceive {
  import opened Machine
  import opened SequenceNumbers
  import opened Sockets
  import opened SegmentQueues

  const RECEIVE_CAPACITY := 4096
  const REASSEMBLY_CAPACITY := 16
  const SEGMENT_CAPACITY := 1500

  datatype Slot = Slot(
    state: SocketState,
    receiveNext: u32,
    receiveClosed: bool,
    readClosed: bool,
    failure: SocketResult,
    buffer: seq<u8>)

  const FREE_SLOT := Slot(Free, 0, false, false, ConnectionReset, [])

  datatype Peer = Peer(start: int, stream: seq<u8>, taken: nat)

  // States that hold received bytes: a synchronized connection, or one whose
  // TIME-WAIT ended while the application still owns it.
  predicate HoldsStream(state: SocketState) {
    Synchronized(state) || state == Closed
  }

  function FreeSpace(s: Slot): int {
    RECEIVE_CAPACITY - |s.buffer|
  }

  // How much of the peer's stream has been accepted in order.
  function Position(s: Slot, p: Peer): nat {
    p.taken + |s.buffer|
  }

  // The slot holds the next unread part of the peer's stream, and the sequence
  // number it expects is that of the first byte (or FIN) not accepted yet.
  ghost predicate InStep(s: Slot, p: Peer) {
    && |s.buffer| <= RECEIVE_CAPACITY
    && Position(s, p) <= |p.stream|
    && s.buffer == p.stream[p.taken..Position(s, p)]
    && (s.receiveClosed ==> Position(s, p) == |p.stream|)
    && s.receiveNext == Wrap(p.start + Position(s, p) + if s.receiveClosed then 1 else 0)
  }

  ghost predicate SlotMatches(s: Slot, p: Peer) {
    if HoldsStream(s.state) then InStep(s, p) && (s.state == Closed ==> s.receiveClosed)
    else s.buffer == [] && (s.state == SynReceived ==> InStep(s, p) && p.taken == 0 && !s.receiveClosed)
  }

  // A segment of the peer's stream at true offset o.
  ghost predicate SliceOf(p: Peer, o: int, data: seq<u8>, finish: bool) {
    && 0 <= o && o + |data| <= |p.stream|
    && data == p.stream[o..o + |data|]
    && (finish ==> o + |data| == |p.stream|)
  }

  function RightEdge(p: Peer): nat {
    p.taken + RECEIVE_CAPACITY
  }

  // A queued segment is a slice of its peer's stream and, counting its FIN,
  // ends no later than the right edge of the window.
  ghost predicate EntryMatches(e: Segment, o: int, p: Peer) {
    && SliceOf(p, o, e.data, e.finish)
    && e.sequence == Wrap(p.start + o)
    && p.taken <= o
    && o + |e.data| + (if e.finish then 1 else 0) <= RightEdge(p)
    && |e.data| <= SEGMENT_CAPACITY
    && (e.data != [] || e.finish)
  }

  // ... and it lies strictly after everything already accepted.
  ghost predicate EntryPending(o: int, s: Slot, p: Peer) {
    Synchronized(s.state) && !s.receiveClosed && Position(s, p) < o
  }

  // What an out-of-order queue looks like once everything at or before
  // position n has been taken out for one handle.
  ghost function Remaining(queue: seq<Option<Segment>>, at: seq<int>, handle: nat, n: int): (r: seq<Option<Segment>>)
    requires |queue| == |at|
    ensures |r| == |queue|
  {
    seq(|queue|, i requires 0 <= i < |queue| =>
      if Holds(queue[i], handle) && at[i] <= n then None else queue[i])
  }

  // n is exactly how far the stream is contiguous from `base`, given the
  // segments queued for the handle: every byte up to n is queued, n is not.
  ghost predicate ContiguousTo(queue: seq<Option<Segment>>, at: seq<int>, handle: nat, base: int, n: int)
    requires |queue| == |at|
  {
    && base <= n
    && (forall m :: base <= m < n ==> Covered(queue, at, handle, m))
    && !Covered(queue, at, handle, n)
  }

  // A queued FIN takes effect once the position reaches it.
  ghost predicate FinishReached(queue: seq<Option<Segment>>, at: seq<int>, handle: nat, n: int)
    requires |queue| == |at|
  {
    exists i :: 0 <= i < |queue| && Holds(queue[i], handle) && queue[i].value.finish && at[i] <= n
  }

  // Where FIN consumption moves the connection (section 3.6 of RFC 9293).
  function AfterFinish(state: SocketState): SocketState {
    if state == FinWait1 then Closing
    else if state == FinWait2 then TimeWait
    else CloseWait
  }

  lemma {:induction false} QueuedDistance(e: Segment, o: int, s: Slot, p: Peer)
    requires InStep(s, p) && !s.receiveClosed
    requires EntryMatches(e, o, p)
    ensures Signed(e.sequence, s.receiveNext) == o - Position(s, p)
    ensures o <= Position(s, p) ==> Wrap(s.receiveNext - e.sequence) == Position(s, p) - o
  {
    SignedIsDistance(p.start, o, Position(s, p));
    SignedIsDistance(p.start, Position(s, p), o);
    if o <= Position(s, p) {
      WrapSmall(Position(s, p) - o);
    }
  }

  lemma {:induction false} QueuedOrder(e: Segment, o: int, f: Segment, u: int, p: Peer)
    requires EntryMatches(e, o, p) && EntryMatches(f, u, p)
    ensures Signed(e.sequence, f.sequence) == o - u
  {
    SignedIsDistance(p.start, o, u);
  }

  // append_received as a function of the slot.
  function Appended(s: Slot, data: seq<u8>, finish: bool): Slot
    requires |s.buffer| <= RECEIVE_CAPACITY
  {
    var accepted := Min(|data|, FreeSpace(s));
    var closes := finish && accepted == |data|;
    s.(buffer := s.buffer + data[..accepted],
       receiveNext := Wrap(s.receiveNext + accepted + if closes then 1 else 0),
       receiveClosed := s.receiveClosed || closes,
       state := if closes then AfterFinish(s.state) else s.state)
  }

  // Appending the next slice of the peer's stream keeps the slot in step with it.
  lemma {:induction false} AppendedMatches(s: Slot, p: Peer, data: seq<u8>, finish: bool)
    requires InStep(s, p) && !s.receiveClosed
    requires SliceOf(p, Position(s, p), data, finish)
    ensures var r := Appended(s, data, finish);
            InStep(r, p) && Position(r, p) == Position(s, p) + Min(|data|, FreeSpace(s))
  {
    var accepted := Min(|data|, FreeSpace(s));
    var n := Position(s, p);
    WrapAdd(p.start + n, accepted);
    WrapAdd(p.start + n, accepted + 1);
    forall i | 0 <= i < accepted ensures data[..accepted][i] == p.stream[n..n + accepted][i] {
      assert data[i] == p.stream[n..n + |data|][i];
    }
    assert data[..accepted] == p.stream[n..n + accepted];
    assert p.stream[p.taken..n] + p.stream[n..n + accepted] == p.stream[p.taken..n + accepted];
  }

  // The slot update of append_received, one assignment at a time.
  method Append(value: Slot, data: seq<u8>, finish: bool) returns (r: Slot)
    requires |value.buffer| <= RECEIVE_CAPACITY
    ensures r == Appended(value, data, finish)
  {
    var accepted := Min(|data|, RECEIVE_CAPACITY - |value.buffer|);
    r := value.(buffer := value.buffer + data[..accepted],
                receiveNext := Wrap(value.receiveNext + accepted));
    if finish && accepted == |data| {
      WrapAdd(value.receiveNext + accepted, 1);
      r := r.(receiveNext := Wrap(r.receiveNext + 1), receiveClosed := true);
      if r.state == FinWait1 {
        r := r.(state := Closing);
      } else if r.state == FinWait2 {
        r := r.(state := TimeWait);
      } else {
        r := r.(state := CloseWait);
      }
    }
  }

  // Progress of drain_reassembly from slot v with queue q0 to slot r with queue q.
  ghost predicate Drained(q0: seq<Option<Segment>>, q: seq<Option<Segment>>, at: seq<int>, handle: nat, p: Peer,
                          v: Slot, r: Slot)
  {
    && |q0| == |q| == |at|
    && Position(v, p) <= Position(r, p)
    && (forall i :: 0 <= i < |q| ==> q[i] == q0[i] || (Consumed(q0[i], at[i], handle, p, r) && q[i] == None))
    && (forall m :: Position(v, p) <= m < Position(r, p) ==> Covered(q0, at, handle, m))
    && (r.receiveClosed && !v.receiveClosed ==> FinishReached(q0, at, handle, Position(r, p)))
    && (!v.receiveClosed ==> r.state == if r.receiveClosed then AfterFinish(v.state) else v.state)
  }

  ghost function Occupied(q: seq<Option<Segment>>): set<int> {
    set i | 0 <= i < |q| && q[i].Some?
  }

  ghost predicate OwnEntries(q: seq<Option<Segment>>, at: seq<int>, handle: nat, p: Peer) {
    |q| == |at| && forall i :: 0 <= i < |q| && Holds(q[i], handle) ==> EntryMatches(q[i].value, at[i], p)
  }

  // Removing the segment selected by drain_reassembly, after appending its
  // unseen part (or finding that nothing of it is unseen), is progress.
  lemma {:induction false} DrainStep(q0: seq<Option<Segment>>, q: seq<Option<Segment>>, at: seq<int>, handle: nat,
                                     p: Peer, v: Slot, r: Slot, i: nat, r': Slot)
    requires Drained(q0, q, at, handle, p, v, r) && OwnEntries(q, at, handle, p)
    requires InStep(r, p) && !r.receiveClosed && !v.receiveClosed
    requires i < |q| && Holds(q[i], handle) && at[i] <= Position(r, p)
    requires var e := q[i].value;
             var seen := Position(r, p) - at[i];
             if |e.data| < seen || (|e.data| == seen && !e.finish) then r' == r
             else r' == Appended(r, e.data[seen..], e.finish)
    ensures InStep(r', p)
    ensures r'.readClosed == r.readClosed && r'.failure == r.failure
    ensures Drained(q0, q[i := None], at, handle, p, v, r')
    ensures Occupied(q[i := None]) < Occupied(q)
  {
    assert i in Occupied(q) && i !in Occupied(q[i := None]);
    var e := q[i].value;
    var seen := Position(r, p) - at[i];
    if !(|e.data| < seen || (|e.data| == seen && !e.finish)) {
      AppendedMatches(r, p, e.data[seen..], e.finish);
      assert q[i] == q0[i];
      forall m | Position(r, p) <= m < Position(r', p) ensures Covered(q0, at, handle, m) {
        assert Covers(q0[i], at[i], handle, m);
      }
    }
  }

  // When no segment is left at or before the position, draining is complete.
  lemma {:induction false} DrainEnd(q0: seq<Option<Segment>>, q: seq<Option<Segment>>, at: seq<int>, handle: nat,
                                    p: Peer, v: Slot, r: Slot)
    requires Drained(q0, q, at, handle, p, v, r) && OwnEntries(q0, at, handle, p)
    requires InStep(r, p)
    requires forall i :: 0 <= i < |q| && Holds(q[i], handle) ==> r.receiveClosed || Position(r, p) < at[i]
    ensures !v.receiveClosed ==>
              && ContiguousTo(q0, at, handle, Position(v, p), Position(r, p))
              && r.receiveClosed == FinishReached(q0, at, handle, Position(r, p))
    ensures !r.receiveClosed ==> q == Remaining(q0, at, handle, Position(r, p))
    ensures r.receiveClosed ==> forall i :: 0 <= i < |q| && Holds(q0[i], handle) ==> at[i] <= Position(r, p)
  {
  }

  ghost predicate Consumed(e: Option<Segment>, o: int, handle: nat, p: Peer, r: Slot) {
    && Holds(e, handle)
    && o + |e.value.data| <= Position(r, p)
    && (e.value.finish ==> r.receiveClosed)
  }

  // A segment the network may deliver to a connection: a slice of the peer's
  // stream whose true offset is within 2^31 of the receive position.
  ghost predicate Deliverable(s: Slot, p: Peer, o: int, sequence: u32, data: seq<u8>, finish: bool) {
    && SliceOf(p, o, data, finish)
    && sequence == Wrap(p.start + o)
    && -HALF <= o - Position(s, p) < HALF
    && |data| < HALF
  }

  // Whether a segment at offset o carries a byte, or the FIN, that is neither
  // accepted already nor past the right edge of the window.
  ghost predicate Useful(s: Slot, p: Peer, o: int, data: seq<u8>, finish: bool) {
    && Max(o, Position(s, p)) < RightEdge(p)
    && (data != [] || finish)
    && Position(s, p) < o + |data| + if finish then 1 else 0
  }

  // The part of a segment that is kept ends at the right edge, and its FIN is
  // kept only when there is room left after it.
  ghost function KeptEnd(p: Peer, o: int, data: seq<u8>): int {
    Min(o + |data|, RightEdge(p))
  }

  ghost predicate KeptFinish(p: Peer, o: int, data: seq<u8>, finish: bool) {
    finish && o + |data| < RightEdge(p)
  }

  datatype Verdict = Ignore | Queue(data: seq<u8>, finish: bool) | Deliver(data: seq<u8>, finish: bool)

  ghost predicate RightVerdict(s: Slot, p: Peer, o: int, data: seq<u8>, finish: bool, v: Verdict)
    requires SliceOf(p, o, data, finish)
  {
    match v
    case Ignore =>
      !Useful(s, p, o, data, finish)
    case Queue(kept, last) =>
      && Useful(s, p, o, data, finish) && Position(s, p) < o
      && kept == p.stream[o..KeptEnd(p, o, data)] && last == KeptFinish(p, o, data, finish)
    case Deliver(kept, last) =>
      && o <= Position(s, p)
      && if Useful(s, p, o, data, finish)
         then kept == p.stream[Position(s, p)..KeptEnd(p, o, data)] && last == KeptFinish(p, o, data, finish)
         else kept == [] && !last
  }

  // Drops the part of a segment that was accepted before.
  method TrimSeen(value: Slot, sequence: u32, data: seq<u8>, finish: bool, ghost p: Peer, ghost o: int)
    returns (stale: bool, distance: nat, input: seq<u8>)
    requires InStep(value, p) && !value.receiveClosed
    requires Deliverable(value, p, o, sequence, data, finish)
    ensures stale ==> !Useful(value, p, o, data, finish)
    ensures !stale ==>
              && Position(value, p) + distance == Max(o, Position(value, p)) <= o + |data|
              && input == p.stream[Position(value, p) + distance..o + |data|]
              && (input != [] || finish || o >= Position(value, p))
  {
    ghost var n := Position(value, p);
    SignedIsDistance(p.start, o, n);
    var d := Signed(sequence, value.receiveNext);
    if d < 0 {
      UnsignedIsDistance(p.start, n, o);
      var acknowledged := Wrap(value.receiveNext - sequence);
      if acknowledged > |data| || (acknowledged == |data| && !finish) {
        return true, 0, [];
      }
      return false, 0, data[acknowledged..];
    }
    return false, d, data;
  }

  // Cuts a segment at the end of the window; the subtraction is done on u32.
  method TrimWindow(window: nat, distance: nat, size: nat, finish: bool) returns (kept: nat, last: bool)
    requires window <= RECEIVE_CAPACITY && distance < HALF && size < HALF
    requires distance < window || (size == 0 && !finish)
    ensures kept == (if distance < window then Min(size, window - distance) else 0)
    ensures last == (finish && distance + size < window)
  {
    if distance <= window {
      WrapSmall(window - distance);
    }
    var available := Wrap(window - distance);
    last := finish;
    if size >= available {
      last := false;
    }
    kept := Min(size, available);
  }

  // Cutting both ends leaves exactly the kept part of the stream.
  lemma {:induction false} CutSlice(s: Slot, p: Peer, o: int, data: seq<u8>, finish: bool, distance: nat,
                                    input: seq<u8>, size: nat, last: bool)
    requires InStep(s, p) && SliceOf(p, o, data, finish)
    requires Position(s, p) + distance == Max(o, Position(s, p)) <= o + |data|
    requires input == p.stream[Position(s, p) + distance..o + |data|]
    requires input != [] || finish || o >= Position(s, p)
    requires distance < FreeSpace(s) || (input == [] && !finish)
    requires size == (if distance < FreeSpace(s) then Min(|input|, FreeSpace(s) - distance) else 0)
    requires last == (finish && distance + |input| < FreeSpace(s))
    ensures if Useful(s, p, o, data, finish)
            then input[..size] == p.stream[Position(s, p) + distance..KeptEnd(p, o, data)]
              && last == KeptFinish(p, o, data, finish)
            else input[..size] == [] && !last
  {
    var n := Position(s, p);
    assert n + distance + |input| == o + |data|;
    assert RightEdge(p) == n + FreeSpace(s);
    if Useful(s, p, o, data, finish) {
      assert n + distance + size == KeptEnd(p, o, data);
    }
  }

  // What receive() decides about a segment, from 32-bit sequence numbers only.
  method Classify(value: Slot, sequence: u32, data: seq<u8>, finish: bool, ghost p: Peer, ghost o: int)
    returns (v: Verdict)
    requires InStep(value, p) && !value.receiveClosed
    requires Deliverable(value, p, o, sequence, data, finish)
    ensures RightVerdict(value, p, o, data, finish, v)
  {
    var stale, distance, input := TrimSeen(value, sequence, data, finish, p, o);
    if stale {
      return Ignore;
    }
    var window := RECEIVE_CAPACITY - |value.buffer|;
    if distance >= window && (input != [] || finish) {
      return Ignore;
    }
    var size, last := TrimWindow(window, distance, |input|, finish);
    CutSlice(value, p, o, data, finish, distance, input, size, last);
    if distance > 0 {
      if size == 0 && !last {
        return Ignore;
      }
      return Queue(input[..size], last);
    }
    return Deliver(input[..size], last);
  }

  ghost predicate SameKey(entry: Option<Segment>, e: Segment) {
    Holds(entry, e.handle) && entry.value.sequence == e.sequence
  }

  // store_reassembly: the first free slot, unless the segment is too long, its
  // key is queued already, or every slot is taken.
  ghost predicate StoreOutcome(q: seq<Option<Segment>>, at: seq<int>, e: Segment, o: int,
                               q': seq<Option<Segment>>, at': seq<int>, result: SocketResult)
    requires |q| == |at|
  {
    if |e.data| > SEGMENT_CAPACITY then result == NoSpace && q' == q && at' == at
    else if exists i :: 0 <= i < |q| && SameKey(q[i], e) then result == Success && q' == q && at' == at
    else if forall i :: 0 <= i < |q| ==> q[i].Some? then result == NoSpace && q' == q && at' == at
    else
      && result == Success
      && exists i :: 0 <= i < |q| && q[i].None? && (forall j :: 0 <= j < i ==> q[j].Some?) && q' == q[i := Some(e)]
           && at' == at[i := o]
  }

  ghost predicate EntryInPlace(e: Segment, o: int, s: Slot, p: Peer) {
    EntryMatches(e, o, p) && EntryPending(o, s, p)
  }

  // The whole table agrees with the peers' streams.
  ghost predicate TableMatches(slots: seq<Slot>, queue: seq<Option<Segment>>, at: seq<int>, peers: seq<Peer>) {
    && |slots| == SOCKET_CAPACITY == |peers|
    && |queue| == REASSEMBLY_CAPACITY == |at|
    && (forall k :: 0 <= k < |slots| ==> SlotMatches(slots[k], peers[k]))
    && (forall i :: 0 <= i < |queue| && queue[i].Some? ==>
          && queue[i].value.handle < |slots|
          && EntryInPlace(queue[i].value, at[i], slots[queue[i].value.handle], peers[queue[i].value.handle]))
  }

  // Every queued segment lies strictly ahead of the receive position and ends
  // inside the free buffer space, FIN included: draining never lacks room.
  lemma {:induction false} QueuedInsideWindow(slots: seq<Slot>, queue: seq<Option<Segment>>, at: seq<int>,
                                              peers: seq<Peer>, i: nat)
    requires TableMatches(slots, queue, at, peers) && i < |queue| && queue[i].Some?
    ensures queue[i].value.handle < |slots|
    ensures var e := queue[i].value;
            var s := slots[e.handle];
            && !s.receiveClosed && 0 < Signed(e.sequence, s.receiveNext)
            && Signed(e.sequence, s.receiveNext) + |e.data| + (if e.finish then 1 else 0) <= FreeSpace(s)
  {
    var e := queue[i].value;
    assert EntryInPlace(e, at[i], slots[e.handle], peers[e.handle]) && SlotMatches(slots[e.handle], peers[e.handle]);
    QueuedDistance(e, at[i], slots[e.handle], peers[e.handle]);
  }

  lemma {:induction false} TableUpdate(slots: seq<Slot>, q: seq<Option<Segment>>, at: seq<int>, peers: seq<Peer>,
                    h: nat, s: Slot, p: Peer, q': seq<Option<Segment>>, at': seq<int>)
    requires TableMatches(slots, q, at, peers) && h < |slots|
    requires SlotMatches(s, p)
    requires OthersUntouched(h, q, at, q', at')
    requires forall i :: 0 <= i < |q'| && Holds(q'[i], h) ==> EntryInPlace(q'[i].value, at'[i], s, p)
    ensures TableMatches(slots[h := s], q', at', peers[h := p])
  {
  }

  // Draining a queue that was consistent with slot s leaves slot r.
  ghost predicate DrainOutcome(q: seq<Option<Segment>>, at: seq<int>, handle: nat, p: Peer, s: Slot, r: Slot,
                               q': seq<Option<Segment>>)
    requires |q| == |at|
  {
    && (s.receiveClosed ==> r == s)
    && (!s.receiveClosed ==>
          && ContiguousTo(q, at, handle, Position(s, p), Position(r, p))
          && r.receiveClosed == FinishReached(q, at, handle, Position(r, p))
          && r.state == (if r.receiveClosed then AfterFinish(s.state) else s.state))
    && q' == Remaining(q, at, handle, Position(r, p))
    && r.readClosed == s.readClosed && r.failure == s.failure
  }

  // The effect of one delivered segment on a synchronized, open slot.
  ghost predicate ReceiveOutcome(s: Slot, q: seq<Option<Segment>>, at: seq<int>, p: Peer, handle: nat,
                                 o: int, sequence: u32, data: seq<u8>, finish: bool,
                                 r: Slot, q': seq<Option<Segment>>, at': seq<int>, result: SocketResult)
    requires |q| == |at| && SliceOf(p, o, data, finish) && |s.buffer| <= RECEIVE_CAPACITY
  {
    if !Useful(s, p, o, data, finish) then
      result == Success && r == s && q' == q && at' == at
    else if Position(s, p) < o then
      && r == s
      && StoreOutcome(q, at, Segment(handle, sequence, KeptFinish(p, o, data, finish),
                                     p.stream[o..KeptEnd(p, o, data)]), o, q', at', result)
    else
      && result == Success && at' == at
      && DrainOutcome(q, at, handle, p,
                      Appended(s, p.stream[Position(s, p)..KeptEnd(p, o, data)], KeptFinish(p, o, data, finish)), r, q')
  }

  // Entries past the position survive a drain untouched.
  lemma {:induction false} RemainingInPlace(q: seq<Option<Segment>>, at: seq<int>, handle: nat, p: Peer, r: Slot)
    requires OwnEntries(q, at, handle, p)
    requires SlotMatches(r, p) && HoldsStream(r.state)
    ensures var q' := Remaining(q, at, handle, Position(r, p));
            && OthersUntouched(handle, q, at, q', at)
            && forall i :: 0 <= i < |q'| && Holds(q'[i], handle) ==> EntryInPlace(q'[i].value, at[i], r, p)
  {
  }

  // Queueing a useful segment past the position keeps the queue in place.
  lemma {:induction false} StoredInPlace(q: seq<Option<Segment>>, at: seq<int>, p: Peer, s: Slot, e: Segment, o: int,
                      q': seq<Option<Segment>>, at': seq<int>, result: SocketResult)
    requires |q| == |at| && StoreOutcome(q, at, e, o, q', at', result)
    requires forall i :: 0 <= i < |q| && Holds(q[i], e.handle) ==> EntryInPlace(q[i].value, at[i], s, p)
    requires |e.data| <= SEGMENT_CAPACITY ==> EntryInPlace(e, o, s, p)
    ensures OthersUntouched(e.handle, q, at, q', at')
    ensures forall i :: 0 <= i < |q'| && Holds(q'[i], e.handle) ==> EntryInPlace(q'[i].value, at'[i], s, p)
  {
  }

  // What is kept of a useful segment is again a slice of the stream, and past a
  // gap it satisfies the right-edge invariant.
  lemma {:induction false} KeptInPlace(s: Slot, p: Peer, handle: nat, o: int, sequence: u32, data: seq<u8>,
                                       finish: bool)
    requires InStep(s, p) && Synchronized(s.state) && !s.receiveClosed
    requires Deliverable(s, p, o, sequence, data, finish) && Useful(s, p, o, data, finish)
    ensures var last := KeptFinish(p, o, data, finish);
            var end := KeptEnd(p, o, data);
            if Position(s, p) < o then
              var kept := p.stream[o..end];
              |kept| <= SEGMENT_CAPACITY ==> EntryInPlace(Segment(handle, sequence, last, kept), o, s, p)
            else
              SliceOf(p, Position(s, p), p.stream[Position(s, p)..end], last)
  {
  }

  lemma {:induction false} VerdictInPlace(s: Slot, p: Peer, handle: nat, o: int, sequence: u32, data: seq<u8>,
                                          finish: bool, v: Verdict)
    requires InStep(s, p) && Synchronized(s.state) && !s.receiveClosed
    requires Deliverable(s, p, o, sequence, data, finish)
    requires RightVerdict(s, p, o, data, finish, v)
    ensures v.Queue? && |v.data| <= SEGMENT_CAPACITY ==>
              EntryInPlace(Segment(handle, sequence, v.finish, v.data), o, s, p)
    ensures v.Deliver? ==> SliceOf(p, Position(s, p), v.data, v.finish)
  {
    if Useful(s, p, o, data, finish) {
      KeptInPlace(s, p, handle, o, sequence, data, finish);
    }
  }

  lemma {:induction false} DeliverOutcome(s: Slot, q: seq<Option<Segment>>, at: seq<int>, p: Peer, handle: nat,
                       o: int, sequence: u32, data: seq<u8>, finish: bool,
                       r: Slot, q': seq<Option<Segment>>, kept: seq<u8>, last: bool)
    requires OwnEntries(q, at, handle, p)
    requires forall i :: 0 <= i < |q| && Holds(q[i], handle) ==> EntryPending(at[i], s, p)
    requires SlotMatches(s, p) && SlotMatches(r, p) && Synchronized(s.state) && HoldsStream(r.state) && !s.receiveClosed
    requires SliceOf(p, o, data, finish) && RightVerdict(s, p, o, data, finish, Deliver(kept, last))
    requires DrainOutcome(q, at, handle, p, Appended(s, kept, last), r, q')
    ensures ReceiveOutcome(s, q, at, p, handle, o, sequence, data, finish, r, q', at, Success)
  {
    if !Useful(s, p, o, data, finish) {
      assert s.buffer + [] == s.buffer;
      NothingToDrain(q, at, handle, p, s, r, q');
    }
  }

  // Of the connection's flags a segment changes only whether the peer's FIN was
  // consumed, and the state with it.
  ghost predicate OnlyClosed(s: Slot, r: Slot) {
    && r.readClosed == s.readClosed && r.failure == s.failure && (s.receiveClosed ==> r.receiveClosed)
    && r.state == if r.receiveClosed && !s.receiveClosed then AfterFinish(s.state) else s.state
  }

  // The receive position moves by what was taken; unread bytes stay unless
  // nobody will read them.
  ghost predicate Took(s: Slot, p: Peer, s': Slot, p': Peer, total: nat) {
    && p' == p.(taken := p'.taken) && Position(s', p') == Position(s, p) + total
    && (!s.readClosed ==> p'.taken == p.taken)
  }

  // Nothing is queued at or before the position of an untouched slot.
  lemma {:induction false} NothingToDrain(q: seq<Option<Segment>>, at: seq<int>, handle: nat, p: Peer, s: Slot,
                                          r: Slot, q': seq<Option<Segment>>)
    requires OwnEntries(q, at, handle, p)
    requires SlotMatches(s, p) && SlotMatches(r, p) && Synchronized(s.state) && HoldsStream(r.state) && !s.receiveClosed
    requires forall i :: 0 <= i < |q| && Holds(q[i], handle) ==> EntryPending(at[i], s, p)
    requires DrainOutcome(q, at, handle, p, s, r, q')
    ensures r == s && q' == q
  {
    assert !Covered(q, at, handle, Position(s, p));
  }

  // read(): what the application sees.
  ghost predicate ReadOutcome(s: Slot, size: nat, result: SocketResult, output: seq<u8>) {
    && output == (if s.readClosed then [] else s.buffer[..Min(size, |s.buffer|)])
    && result == (if s.readClosed then EndOfFile
                  else if s.buffer != [] then Success
                  else if s.receiveClosed then EndOfFile
                  else if s.state == Reset then s.failure
                  else if Synchronized(s.state) then WouldBlock
                  else NotConnected)
  }

  // Taking bytes out of the buffer moves the right edge by as many.
  lemma {:induction false} ReadMatches(s: Slot, p: Peer, count: nat, q: seq<Option<Segment>>, at: seq<int>, handle: nat)
    requires SlotMatches(s, p) && HoldsStream(s.state) && count <= |s.buffer| && |q| == |at|
    requires forall i :: 0 <= i < |q| && Holds(q[i], handle) ==> EntryInPlace(q[i].value, at[i], s, p)
    ensures var r := s.(buffer := s.buffer[count..]);
            var p' := p.(taken := p.taken + count);
            && SlotMatches(r, p') && Position(r, p') == Position(s, p)
            && forall i :: 0 <= i < |q| && Holds(q[i], handle) ==> EntryInPlace(q[i].value, at[i], r, p')
  {
  }

  lemma {:induction false} ReadDrainsNothing(s: Slot, p: Peer, q: seq<Option<Segment>>, at: seq<int>, handle: nat,
                                             r: Slot, q': seq<Option<Segment>>)
    requires |q| == |at| && SlotMatches(s, p) && SlotMatches(r, p) && HoldsStream(s.state) && HoldsStream(r.state)
    requires forall i :: 0 <= i < |q| && Holds(q[i], handle) ==> EntryInPlace(q[i].value, at[i], s, p)
    requires DrainOutcome(q, at, handle, p, s, r, q')
    ensures r == s && q' == q
  {
    if !s.receiveClosed {
      NothingToDrain(q, at, handle, p, s, r, q');
    }
  }

  class SocketTable {
    const slots: array<Slot>
    const reassembly: array<Option<Segment>>
    ghost var peers: seq<Peer>
    ghost var at: seq<int>

    // The queue entries of one handle are slices of its peer's stream.
    ghost predicate OwnQueue(handle: nat, p: Peer)
      reads this, reassembly
    {
      && reassembly.Length == REASSEMBLY_CAPACITY == |at|
      && forall i :: 0 <= i < REASSEMBLY_CAPACITY && Holds(reassembly[i], handle) ==>
           EntryMatches(reassembly[i].value, at[i], p)
    }

    // The closest queued segment at or before the next expected byte.
    method SelectQueued(handle: nat, value: Slot, ghost p: Peer) returns (selected: nat)
      requires OwnQueue(handle, p)
      requires InStep(value, p) && !value.receiveClosed
      ensures selected <= REASSEMBLY_CAPACITY
      ensures selected < REASSEMBLY_CAPACITY ==>
                && Holds(reassembly[selected], handle) && at[selected] <= Position(value, p)
                && forall i :: 0 <= i < REASSEMBLY_CAPACITY && Holds(reassembly[i], handle) ==>
                     at[i] <= at[selected] || Position(value, p) < at[i]
      ensures selected == REASSEMBLY_CAPACITY ==>
                forall i :: 0 <= i < REASSEMBLY_CAPACITY && Holds(reassembly[i], handle) ==> Position(value, p) < at[i]
    {
      selected := REASSEMBLY_CAPACITY;
      for it := 0 to REASSEMBLY_CAPACITY
        invariant selected < it || selected == REASSEMBLY_CAPACITY
        invariant selected < REASSEMBLY_CAPACITY ==>
                    Holds(reassembly[selected], handle) && at[selected] <= Position(value, p)
        invariant forall i :: 0 <= i < it && Holds(reassembly[i], handle) && at[i] <= Position(value, p) ==>
                    selected < REASSEMBLY_CAPACITY && at[i] <= at[selected]
      {
        if reassembly[it].None? || reassembly[it].value.handle != handle {
          continue;
        }
        QueuedDistance(reassembly[it].value, at[it], value, p);
        if Signed(reassembly[it].value.sequence, value.receiveNext) > 0 {
          continue;
        }
        if selected == REASSEMBLY_CAPACITY {
          selected := it;
        } else {
          QueuedOrder(reassembly[it].value, at[it], reassembly[selected].value, at[selected], p);
          if Signed(reassembly[it].value.sequence, reassembly[selected].value.sequence) > 0 {
            selected := it;
          }
        }
      }
    }

    method ClearReassembly(handle: nat)
      requires reassembly.Length == REASSEMBLY_CAPACITY
      modifies reassembly
      ensures forall i :: 0 <= i < REASSEMBLY_CAPACITY ==>
                reassembly[i] == if Holds(old(reassembly[i]), handle) then None else old(reassembly[i])
    {
      for i := 0 to REASSEMBLY_CAPACITY
        invariant forall j :: 0 <= j < i ==>
                    reassembly[j] == if Holds(old(reassembly[j]), handle) then None else old(reassembly[j])
        invariant forall j :: i <= j < REASSEMBLY_CAPACITY ==> reassembly[j] == old(reassembly[j])
      {
        if Holds(reassembly[i], handle) {
          reassembly[i] := None;
        }
      }
    }

    // Moves queued segments into the receive buffer for as long as one starts
    // at or before the next expected byte. The check that a segment fits in the
    // buffer never stops the loop.
    method DrainReassembly(handle: nat, value: Slot, ghost p: Peer) returns (r: Slot)
      requires OwnQueue(handle, p)
      requires InStep(value, p)
      modifies reassembly
      ensures InStep(r, p)
      ensures DrainOutcome(old(reassembly[..]), at, handle, p, value, r, reassembly[..])
    {
      r := value;
      ghost var queue := reassembly[..];
      while true
        invariant InStep(r, p)
        invariant r.readClosed == value.readClosed && r.failure == value.failure
        invariant value.receiveClosed ==> r == value
        invariant Drained(queue, reassembly[..], at, handle, p, value, r)
        decreases Occupied(reassembly[..])
      {
        if r.receiveClosed {
          DrainEnd(queue, reassembly[..], at, handle, p, value, r);
          ClearReassembly(handle);
          return;
        }
        var selected := SelectQueued(handle, r, p);
        if selected == REASSEMBLY_CAPACITY {
          DrainEnd(queue, reassembly[..], at, handle, p, value, r);
          return;
        }
        var queued := reassembly[selected].value;
        QueuedDistance(queued, at[selected], r, p);
        var acknowledged := Wrap(r.receiveNext - queued.sequence);
        if acknowledged > |queued.data| || (acknowledged == |queued.data| && !queued.finish) {
          DrainStep(queue, reassembly[..], at, handle, p, value, r, selected, r);
          reassembly[selected] := None;
          continue;
        }
        var remaining := |queued.data| - acknowledged;
        assert remaining <= FreeSpace(r);
        if remaining > FreeSpace(r) {
          return;
        }
        var appended := Append(r, queued.data[acknowledged..], queued.finish);
        DrainStep(queue, reassembly[..], at, handle, p, value, r, selected, appended);
        r := appended;
        reassembly[selected] := None;
      }
    }

    ghost predicate Valid()
      reads this, slots, reassembly
    {
      TableMatches(slots[..], reassembly[..], at, peers)
    }

    // A fresh table: every slot free, nothing queued.
    constructor ()
      ensures Valid() && fresh(slots) && fresh(reassembly)
      ensures forall k :: 0 <= k < SOCKET_CAPACITY ==> slots[k] == FREE_SLOT
      ensures forall i :: 0 <= i < REASSEMBLY_CAPACITY ==> reassembly[i] == None
    {
      slots := new Slot[SOCKET_CAPACITY](_ => FREE_SLOT);
      reassembly := new Option<Segment>[REASSEMBLY_CAPACITY](_ => None);
      peers := seq(SOCKET_CAPACITY, _ => Peer(0, [], 0));
      at := seq(REASSEMBLY_CAPACITY, _ => 0);
    }

    // An out-of-order segment takes a free slot unless one with its sequence
    // number is queued already.
    method StoreReassembly(handle: nat, sequence: u32, data: seq<u8>, finish: bool, ghost o: int)
      returns (result: SocketResult)
      requires reassembly.Length == REASSEMBLY_CAPACITY == |at|
      modifies reassembly, this`at
      ensures StoreOutcome(old(reassembly[..]), old(at), Segment(handle, sequence, finish, data), o, reassembly[..],
                           at, result)
    {
      if |data| > SEGMENT_CAPACITY {
        return NoSpace;
      }
      var i := 0;
      while i < REASSEMBLY_CAPACITY
        invariant 0 <= i <= REASSEMBLY_CAPACITY
        invariant forall j :: 0 <= j < i ==> !SameKey(reassembly[j], Segment(handle, sequence, finish, data))
      {
        if reassembly[i].Some? && reassembly[i].value.handle == handle && reassembly[i].value.sequence == sequence {
          return Success;
        }
        i := i + 1;
      }
      var free := 0;
      while free < REASSEMBLY_CAPACITY && reassembly[free].Some?
        invariant 0 <= free <= REASSEMBLY_CAPACITY
        invariant forall j :: 0 <= j < free ==> reassembly[j].Some?
      {
        free := free + 1;
      }
      if free == REASSEMBLY_CAPACITY {
        return NoSpace;
      }
      reassembly[free] := Some(Segment(handle, sequence, finish, data));
      at := at[free := o];
      return Success;
    }

    // A segment arrives for a connection.
    method Receive(handle: nat, sequence: u32, data: seq<u8>, finish: bool, ghost o: int)
      returns (result: SocketResult, total: nat)
      requires Valid()
      requires handle < SOCKET_CAPACITY && Synchronized(slots[handle].state) ==>
                 Deliverable(slots[handle], peers[handle], o, sequence, data, finish)
      modifies slots, reassembly, this`at
      ensures Valid()
      ensures forall k :: 0 <= k < SOCKET_CAPACITY && k != handle ==> slots[k] == old(slots[k])
      ensures OthersUntouched(handle, old(reassembly[..]), old(at), reassembly[..], at)
      ensures if handle >= SOCKET_CAPACITY || old(slots[handle]).state == Free then
                result == BadHandle && total == 0 && slots[..] == old(slots[..])
                  && reassembly[..] == old(reassembly[..])
              else if !Synchronized(old(slots[handle]).state) then
                && result == (if old(slots[handle]).state == Reset then ConnectionReset else NotConnected)
                && total == 0 && slots[..] == old(slots[..]) && reassembly[..] == old(reassembly[..])
              else if old(slots[handle]).receiveClosed then
                result == Success && total == 0 && slots[..] == old(slots[..]) && reassembly[..] == old(reassembly[..])
              else
                && ReceiveOutcome(old(slots[handle]), old(reassembly[..]), old(at), peers[handle], handle, o,
                                  sequence, data, finish,
                                  slots[handle], reassembly[..], at, result)
                && total == Position(slots[handle], peers[handle]) - Position(old(slots[handle]), peers[handle])
      ensures handle < SOCKET_CAPACITY && Synchronized(old(slots[handle]).state) ==>
                OnlyClosed(old(slots[handle]), slots[handle])
    {
      if handle >= slots.Length || slots[handle].state == Free {
        return BadHandle, 0;
      }
      var value := slots[handle];
      if !IsConnection(value.state) || value.state == SynReceived || value.state == Reset {
        return if value.state == Reset then ConnectionReset else NotConnected, 0;
      }
      if value.receiveClosed {
        return Success, 0;
      }
      result, total := ReceiveOpen(handle, sequence, data, finish, o);
    }

    method ReceiveOpen(handle: nat, sequence: u32, data: seq<u8>, finish: bool, ghost o: int)
      returns (result: SocketResult, total: nat)
      requires Valid()
      requires handle < SOCKET_CAPACITY && Synchronized(slots[handle].state) && !slots[handle].receiveClosed
      requires Deliverable(slots[handle], peers[handle], o, sequence, data, finish)
      modifies slots, reassembly, this`at
      ensures Valid()
      ensures slots[..] == old(slots[..])[handle := slots[handle]]
      ensures OthersUntouched(handle, old(reassembly[..]), old(at), reassembly[..], at)
      ensures ReceiveOutcome(old(slots[handle]), old(reassembly[..]), old(at), peers[handle], handle, o, sequence,
                             data, finish,
                             slots[handle], reassembly[..], at, result)
      ensures total == Position(slots[handle], peers[handle]) - Position(old(slots[handle]), peers[handle])
      ensures OnlyClosed(old(slots[handle]), slots[handle])
    {
      var value := slots[handle];
      var verdict := Classify(value, sequence, data, finish, peers[handle], o);
      VerdictInPlace(value, peers[handle], handle, o, sequence, data, finish, verdict);
      match verdict {
        case Ignore =>
          result, total := Success, 0;
        case Queue(kept, last) =>
          total := 0;
          result := QueueOutOfOrder(handle, sequence, kept, last, o);
        case Deliver(kept, last) =>
          result := Success;
          total := DeliverKept(handle, sequence, data, finish, o, kept, last);
      }
    }

    method DeliverKept(handle: nat, ghost sequence: u32, ghost data: seq<u8>, ghost finish: bool, ghost o: int,
                       kept: seq<u8>, last: bool)
      returns (total: nat)
      requires Valid()
      requires handle < SOCKET_CAPACITY && Synchronized(slots[handle].state) && !slots[handle].receiveClosed
      requires SliceOf(peers[handle], o, data, finish)
               && SliceOf(peers[handle], Position(slots[handle], peers[handle]), kept, last)
      requires RightVerdict(slots[handle], peers[handle], o, data, finish, Deliver(kept, last))
      modifies slots, reassembly
      ensures Valid()
      ensures slots[..] == old(slots[..])[handle := slots[handle]]
      ensures OthersUntouched(handle, old(reassembly[..]), at, reassembly[..], at)
      ensures ReceiveOutcome(old(slots[handle]), old(reassembly[..]), at, peers[handle], handle, o, sequence, data,
                             finish,
                             slots[handle], reassembly[..], at, Success)
      ensures total == Position(slots[handle], peers[handle]) - Position(old(slots[handle]), peers[handle])
      ensures OnlyClosed(old(slots[handle]), slots[handle])
    {
      ghost var value, q := slots[handle], reassembly[..];
      total := DeliverInOrder(handle, kept, last);
      DeliverOutcome(value, q, at, peers[handle], handle, o, sequence, data, finish, slots[handle], reassembly[..],
                     kept, last);
    }

    // A segment past a gap in the stream.
    method QueueOutOfOrder(handle: nat, sequence: u32, kept: seq<u8>, last: bool, ghost o: int)
      returns (result: SocketResult)
      requires Valid()
      requires handle < SOCKET_CAPACITY
      requires |kept| <= SEGMENT_CAPACITY ==>
                 EntryInPlace(Segment(handle, sequence, last, kept), o, slots[handle], peers[handle])
      modifies reassembly, this`at
      ensures Valid()
      ensures OthersUntouched(handle, old(reassembly[..]), old(at), reassembly[..], at)
      ensures StoreOutcome(old(reassembly[..]), old(at), Segment(handle, sequence, last, kept), o, reassembly[..],
                           at, result)
    {
      ghost var p := peers[handle];
      ghost var q := reassembly[..];
      ghost var value := slots[handle];
      result := StoreReassembly(handle, sequence, kept, last, o);
      StoredInPlace(q, old(at), p, value, Segment(handle, sequence, last, kept), o, reassembly[..], at, result);
      TableUpdate(slots[..], q, old(at), peers, handle, value, p, reassembly[..], at);
      assert slots[..] == slots[..][handle := value] && peers == peers[handle := p];
    }

    // The next bytes of the stream, followed by whatever was queued behind them.
    method DeliverInOrder(handle: nat, kept: seq<u8>, last: bool) returns (total: nat)
      requires Valid()
      requires handle < SOCKET_CAPACITY && Synchronized(slots[handle].state) && !slots[handle].receiveClosed
      requires SliceOf(peers[handle], Position(slots[handle], peers[handle]), kept, last)
      modifies slots, reassembly
      ensures Valid()
      ensures slots[..] == old(slots[..])[handle := slots[handle]]
      ensures OthersUntouched(handle, old(reassembly[..]), at, reassembly[..], at)
      ensures SlotMatches(slots[handle], peers[handle]) && Synchronized(slots[handle].state)
      ensures DrainOutcome(old(reassembly[..]), at, handle, peers[handle], Appended(old(slots[handle]), kept, last),
                           slots[handle], reassembly[..])
      ensures total == Position(slots[handle], peers[handle]) - Position(old(slots[handle]), peers[handle])
    {
      ghost var p := peers[handle];
      ghost var q := reassembly[..];
      var value := slots[handle];
      AppendedMatches(value, p, kept, last);
      var appended := Append(value, kept, last);
      var drained := DrainReassembly(handle, appended, p);
      RemainingInPlace(q, at, handle, p, drained);
      TableUpdate(slots[..], q, at, peers, handle, drained, p, reassembly[..], at);
      assert peers == peers[handle := p];
      slots[handle] := drained;
      total := |drained.buffer| - |value.buffer|;
    }

    // The application reads from a connection. Reading widens the window but
    // never makes a queued segment deliverable, so the queue and the receive
    // position stay as they are.
    method Read(handle: nat, size: nat) returns (result: SocketResult, output: seq<u8>)
      requires Valid()
      modifies slots, reassembly, this`peers
      ensures Valid()
      ensures reassembly[..] == old(reassembly[..])
      ensures forall k :: 0 <= k < SOCKET_CAPACITY && k != handle ==>
                slots[k] == old(slots[k]) && peers[k] == old(peers[k])
      ensures handle < SOCKET_CAPACITY ==>
                && output <= old(slots[handle]).buffer
                && slots[handle] == old(slots[handle]).(buffer := old(slots[handle]).buffer[|output|..])
                && peers[handle] == old(peers[handle]).(taken := old(peers[handle]).taken + |output|)
                && Position(slots[handle], peers[handle]) == Position(old(slots[handle]), old(peers[handle]))
      ensures if handle >= SOCKET_CAPACITY || old(slots[handle]).state == Free then result == BadHandle && output == []
              else ReadOutcome(old(slots[handle]), size, result, output)
    {
      if handle >= slots.Length || slots[handle].state == Free {
        return BadHandle, [];
      }
      var value := slots[handle];
      if value.readClosed {
        return EndOfFile, [];
      }
      if value.buffer == [] {
        if value.receiveClosed {
          return EndOfFile, [];
        }
        if value.state == Reset {
          return value.failure, [];
        }
        if !IsConnection(value.state) || value.state == SynReceived {
          return NotConnected, [];
        }
        return WouldBlock, [];
      }
      output := TakeBytes(handle, Min(size, |value.buffer|));
      result := Success;
    }

    // The copying half of read(): bytes leave the buffer, then the queue is
    // drained, which finds nothing to move.
    method TakeBytes(handle: nat, count: nat) returns (output: seq<u8>)
      requires Valid()
      requires handle < SOCKET_CAPACITY && HoldsStream(slots[handle].state) && count <= |slots[handle].buffer|
      modifies slots, reassembly, this`peers
      ensures Valid()
      ensures output == old(slots[handle]).buffer[..count]
      ensures reassembly[..] == old(reassembly[..])
      ensures slots[..] == old(slots[..])[handle := old(slots[handle]).(buffer := old(slots[handle]).buffer[count..])]
      ensures peers == old(peers)[handle := old(peers[handle]).(taken := old(peers[handle]).taken + count)]
    {
      var value := slots[handle];
      output := value.buffer[..count];
      ghost var p := peers[handle].(taken := peers[handle].taken + count);
      ghost var q := reassembly[..];
      var shortened := value.(buffer := value.buffer[count..]);
      ReadMatches(value, peers[handle], count, q, at, handle);
      var drained := DrainReassembly(handle, shortened, p);
      ReadDrainsNothing(shortened, p, q, at, handle, drained, reassembly[..]);
      TableUpdate(slots[..], q, at, peers, handle, drained, p, reassembly[..], at);
      slots[handle] := drained;
      peers := peers[handle := p];
    }

    // shutdown(how != 1): unread bytes are dropped and later reads see end-of-file.
    method ShutdownRead(handle: nat) returns (result: SocketResult)
      requires Valid()
      modifies slots, this`peers
      ensures Valid()
      ensures if handle >= SOCKET_CAPACITY || old(slots[handle]).state == Free then
                result == BadHandle && slots[..] == old(slots[..]) && peers == old(peers)
              else if !Synchronized(old(slots[handle]).state) then
                result == NotConnected && slots[..] == old(slots[..]) && peers == old(peers)
              else
                && result == Success
                && slots[..] == old(slots[..])[handle := old(slots[handle]).(readClosed := true, buffer := [])]
                && peers == old(peers)[handle :=
                                       old(peers[handle]).(taken := Position(old(slots[handle]), old(peers[handle])))]
    {
      if handle >= slots.Length || slots[handle].state == Free {
        return BadHandle;
      }
      var value := slots[handle];
      if !IsConnection(value.state) || value.state == SynReceived || value.state == Reset {
        return NotConnected;
      }
      ghost var p := peers[handle].(taken := Position(value, peers[handle]));
      ReadMatches(value, peers[handle], |value.buffer|, reassembly[..], at, handle);
      assert value.buffer[|value.buffer|..] == [];
      value := value.(readClosed := true, buffer := []);
      assert SlotMatches(value, p);
      TableUpdate(slots[..], reassembly[..], at, peers, handle, value, p, reassembly[..], at);
      slots[handle] := value;
      peers := peers[handle := p];
      return Success;
    }

    // What arrives after shutdown(how != 1) is dropped as well.
    method DropUnread(handle: nat)
      requires Valid() && handle < SOCKET_CAPACITY && Synchronized(slots[handle].state)
      modifies slots, this`peers
      ensures Valid()
      ensures slots[..] == old(slots[..])[handle := old(slots[handle]).(buffer := [])]
      ensures peers == old(peers)[handle :=
                                  old(peers[handle]).(taken := Position(old(slots[handle]), old(peers[handle])))]
    {
      var value := slots[handle];
      ghost var p := peers[handle].(taken := Position(value, peers[handle]));
      ReadMatches(value, peers[handle], |value.buffer|, reassembly[..], at, handle);
      assert value.buffer[|value.buffer|..] == [];
      value := value.(buffer := []);
      assert SlotMatches(value, p);
      TableUpdate(slots[..], reassembly[..], at, peers, handle, value, p, reassembly[..], at);
      slots[handle] := value;
      peers := peers[handle := p];
    }

    // A segment of a connection, whose bytes are dropped when nobody will read
    // them.
    method Take(handle: nat, sequence: u32, data: seq<u8>, finish: bool, ghost o: int) returns (total: nat)
      requires Valid() && handle < SOCKET_CAPACITY && Synchronized(slots[handle].state)
      requires Deliverable(slots[handle], peers[handle], o, sequence, data, finish)
      modifies this, slots, reassembly
      ensures Valid() && slots[..] == old(slots[..])[handle := slots[handle]]
              && peers == old(peers)[handle := peers[handle]]
      ensures OnlyClosed(old(slots[handle]), slots[handle])
      ensures Took(old(slots[handle]), old(peers[handle]), slots[handle], peers[handle], total)
    {
      var result;
      result, total := Receive(handle, sequence, data, finish, o);
      if slots[handle].readClosed {
        DropUnread(handle);
      }
    }

    // A free slot becomes a listening socket.
    method Listen(handle: nat)
      requires Valid() && handle < SOCKET_CAPACITY && slots[handle].state == Free
      modifies slots
      ensures Valid() && slots[..] == old(slots[..])[handle := FREE_SLOT.(state := Listening)]
    {
      ghost var p := peers[handle];
      var value := FREE_SLOT.(state := Listening);
      TableUpdate(slots[..], reassembly[..], at, peers, handle, value, p, reassembly[..], at);
      assert peers == peers[handle := p];
      slots[handle] := value;
    }

    // The transport moves a connection between synchronized states, or ends
    // TIME-WAIT; neither touches received data.
    method SetState(handle: nat, state: SocketState)
      requires Valid()
      requires handle < SOCKET_CAPACITY && Synchronized(slots[handle].state)
      requires Synchronized(state) || (state == Closed && slots[handle].receiveClosed)
      modifies slots
      ensures Valid()
      ensures slots[..] == old(slots[..])[handle := old(slots[handle]).(state := state)]
    {
      ghost var p := peers[handle];
      var value := slots[handle].(state := state);
      TableUpdate(slots[..], reassembly[..], at, peers, handle, value, p, reassembly[..], at);
      assert peers == peers[handle := p];
      slots[handle] := value;
    }

    // reset() on a connection that was established: queued and buffered data go.
    method ResetConnection(handle: nat, failure: SocketResult)
      requires Valid()
      requires handle < SOCKET_CAPACITY && HoldsStream(slots[handle].state)
      modifies slots, reassembly
      ensures Valid()
      ensures var s := old(slots[handle]).(buffer := [], state := Reset, failure := failure, receiveClosed := false);
              slots[..] == old(slots[..])[handle := s]
      ensures forall i :: 0 <= i < REASSEMBLY_CAPACITY ==>
                reassembly[i] == if Holds(old(reassembly[i]), handle) then None else old(reassembly[i])
    {
      ghost var q := reassembly[..];
      ghost var p := peers[handle];
      var value := slots[handle].(buffer := [], state := Reset, failure := failure, receiveClosed := false);
      ClearReassembly(handle);
      TableUpdate(slots[..], q, at, peers, handle, value, p, reassembly[..], at);
      assert peers == peers[handle := p];
      slots[handle] := value;
    }

    // release() of the last reference: the slot can be reused, and no queued
    // segment of the old connection survives to be seen by the next one.
    method Release(handle: nat)
      requires Valid()
      requires handle < SOCKET_CAPACITY
      modifies slots, reassembly
      ensures Valid()
      ensures slots[..] == old(slots[..])[handle := FREE_SLOT]
      ensures forall i :: 0 <= i < REASSEMBLY_CAPACITY ==>
                reassembly[i] == if Holds(old(reassembly[i]), handle) then None else old(reassembly[i])
    {
      ghost var q := reassembly[..];
      ghost var p := peers[handle];
      ClearReassembly(handle);
      TableUpdate(slots[..], q, at, peers, handle, FREE_SLOT, p, reassembly[..], at);
      assert peers == peers[handle := p];
      slots[handle] := FREE_SLOT;
    }

    // A SYN opens a connection in the first free slot; the peer's stream starts
    // one past the SYN's sequence number.
    method BeginConnection(remoteSequence: u32, ghost stream: seq<u8>) returns (handle: nat)
      requires Valid()
      modifies slots, this`peers
      ensures Valid() && handle <= SOCKET_CAPACITY
      ensures forall k :: 0 <= k < handle ==> old(slots[k]).state != Free
      ensures handle == SOCKET_CAPACITY ==>
                && slots[..] == old(slots[..]) && peers == old(peers)
      ensures handle < SOCKET_CAPACITY ==>
                && old(slots[handle]).state == Free
                && slots[..] == old(slots[..])[handle :=
                                               Slot(SynReceived, Wrap(remoteSequence + 1), false, false,
                                                    ConnectionReset, [])]
                && peers == old(peers)[handle := Peer(remoteSequence + 1, stream, 0)]
    {
      handle := 0;
      while handle < SOCKET_CAPACITY && slots[handle].state != Free
        invariant handle <= SOCKET_CAPACITY
        invariant forall k :: 0 <= k < handle ==> slots[k].state != Free
      {
        handle := handle + 1;
      }
      if handle < SOCKET_CAPACITY {
        var value := Slot(SynReceived, Wrap(remoteSequence + 1), false, false, ConnectionReset, []);
        ghost var p := Peer(remoteSequence + 1, stream, 0);
        TableUpdate(slots[..], reassembly[..], at, peers, handle, value, p, reassembly[..], at);
        slots[handle] := value;
        peers := peers[handle := p];
      }
    }

    // The handshake completes when the peer acknowledges our SYN.
    method Establish(handle: nat, acknowledged: bool) returns (result: SocketResult)
      requires Valid()
      modifies slots
      ensures Valid()
      ensures if handle >= SOCKET_CAPACITY || old(slots[handle]).state == Free then
                result == BadHandle && slots[..] == old(slots[..])
              else if old(slots[handle]).state == Established || old(slots[handle]).state == CloseWait then
                result == Success && slots[..] == old(slots[..])
              else if old(slots[handle]).state == SynReceived && acknowledged then
                result == Success && slots[..] == old(slots[..])[handle := old(slots[handle]).(state := Established)]
              else result == InvalidArgument && slots[..] == old(slots[..])
    {
      if handle >= slots.Length || slots[handle].state == Free {
        return BadHandle;
      }
      if slots[handle].state == Established || slots[handle].state == CloseWait {
        return Success;
      }
      if slots[handle].state != SynReceived || !acknowledged {
        return InvalidArgument;
      }
      ghost var p := peers[handle];
      var value := slots[handle].(state := Established);
      TableUpdate(slots[..], reassembly[..], at, peers, handle, value, p, reassembly[..], at);
      assert peers == peers[handle := p];
      slots[handle] := value;
      return Success;
    }
  }

  datatype Event =
    | Arrival(handle: nat, offset: nat, size: nat, finish: bool)
    | ReadSome(handle: nat, size: nat)
    | Transport(handle: nat, state: SocketState)

  // A connection that is established and was not shut down, and whose
  // application got its peer's stream up to `taken`.
  ghost predicate Connected(s: Slot, p: Peer, start: u32, stream: seq<u8>, output: seq<u8>, ended: bool) {
    && Synchronized(s.state) && !s.readClosed
    && p.start == start + 1 && p.stream == stream
    && p.taken <= |stream|
    && output == stream[..p.taken]
    && (ended ==> output == stream)
  }

  ghost predicate Running(slots: seq<Slot>, peers: seq<Peer>, starts: seq<u32>, streams: seq<seq<u8>>,
                          outputs: seq<seq<u8>>, ended: seq<bool>)
  {
    && |slots| == |peers| == |starts| == |streams| == |outputs| == |ended| == SOCKET_CAPACITY
    && forall h :: 0 <= h < SOCKET_CAPACITY ==>
         Connected(slots[h], peers[h], starts[h], streams[h], outputs[h], ended[h])
  }

  // Opening a connection for the next peer.
  method OpenOne(t: SocketTable, k: nat, start: u32, ghost stream: seq<u8>)
    requires t.Valid() && k < SOCKET_CAPACITY
    requires forall h :: 0 <= h < SOCKET_CAPACITY ==> (t.slots[h].state == Free <==> k <= h)
    modifies t, t.slots
    ensures t.Valid()
    ensures forall h :: 0 <= h < SOCKET_CAPACITY && h != k ==>
              t.slots[h] == old(t.slots[h]) && t.peers[h] == old(t.peers[h])
    ensures t.slots[k].state == Established
    ensures Connected(t.slots[k], t.peers[k], start, stream, [], false)
  {
    assert t.slots[k].state == Free;
    var handle := t.BeginConnection(start, stream);
    assert handle <= k;
    assert handle == k;
    assert t.peers[k] == Peer(start + 1, stream, 0);
    var result := t.Establish(handle, true);
    assert t.slots[k] == Slot(Established, Wrap(start + 1), false, false, ConnectionReset, []);
  }

  method OpenAll(starts: seq<u32>, ghost streams: seq<seq<u8>>) returns (t: SocketTable)
    requires |starts| == |streams| == SOCKET_CAPACITY
    ensures fresh(t) && fresh(t.slots) && fresh(t.reassembly) && t.Valid()
    ensures Running(t.slots[..], t.peers, starts, streams, seq(SOCKET_CAPACITY, _ => []),
                    seq(SOCKET_CAPACITY, _ => false))
  {
    t := new SocketTable();
    for k := 0 to SOCKET_CAPACITY
      invariant t.Valid() && fresh(t) && fresh(t.slots) && fresh(t.reassembly)
      invariant forall h :: 0 <= h < k ==> Connected(t.slots[h], t.peers[h], starts[h], streams[h], [], false)
      invariant forall h :: 0 <= h < SOCKET_CAPACITY ==> (t.slots[h].state == Free <==> k <= h)
    {
      OpenOne(t, k, starts[k], streams[k]);
    }
  }

  // Any run of deliveries, reads and transport transitions over thirteen
  // connections that share one out-of-order queue. Segments may be lost,
  // duplicated, overlapping and reordered, as long as their true offset stays
  // within 2^31 of the receive position. What an application has read together
  // with what waits in its buffer is a prefix of its own peer's stream, the next
  // expected sequence number is where that prefix ends (one past it once the
  // peer's FIN was consumed), and end-of-file is seen only after all of it.
  method Run(starts: seq<u32>, streams: seq<seq<u8>>, events: seq<Event>)
    returns (outputs: seq<seq<u8>>, ended: seq<bool>, slots: seq<Slot>)
    requires |starts| == |streams| == SOCKET_CAPACITY
    ensures |outputs| == |ended| == |slots| == SOCKET_CAPACITY
    ensures forall h :: 0 <= h < SOCKET_CAPACITY ==> Followed(starts[h], streams[h], outputs[h], ended[h], slots[h])
  {
    var t := OpenAll(starts, streams);
    outputs := seq(SOCKET_CAPACITY, _ => []);
    ended := seq(SOCKET_CAPACITY, _ => false);
    for i := 0 to |events|
      invariant fresh(t) && fresh(t.slots) && fresh(t.reassembly) && t.Valid()
      invariant Running(t.slots[..], t.peers, starts, streams, outputs, ended)
    {
      var h := events[i].handle;
      if h < SOCKET_CAPACITY {
        var output, end := Step(t, starts[h], streams[h], events[i], outputs[h], ended[h]);
        outputs := outputs[h := output];
        ended := ended[h := end];
      }
    }
    slots := t.slots[..];
    forall h | 0 <= h < SOCKET_CAPACITY ensures Followed(starts[h], streams[h], outputs[h], ended[h], slots[h]) {
      assert Connected(slots[h], t.peers[h], starts[h], streams[h], outputs[h], ended[h]);
      ConnectedFollows(slots[h], t.peers[h], starts[h], streams[h], outputs[h], ended[h]);
    }
  }

  // How far one connection has come in its peer's stream.
  ghost predicate Followed(start: u32, stream: seq<u8>, output: seq<u8>, ended: bool, s: Slot) {
    && output + s.buffer <= stream
    && s.receiveNext == Wrap(start + 1 + |output + s.buffer| + if s.receiveClosed then 1 else 0)
    && (s.receiveClosed ==> output + s.buffer == stream)
    && (ended ==> output == stream)
  }

  lemma {:induction false} ConnectedFollows(s: Slot, p: Peer, start: u32, stream: seq<u8>, output: seq<u8>, ended: bool)
    requires Connected(s, p, start, stream, output, ended) && SlotMatches(s, p)
    ensures Followed(start, stream, output, ended, s)
  {
    var n := Position(s, p);
    assert output + s.buffer == stream[..n];
    if s.receiveClosed {
      assert stream[..n] == stream;
    }
  }

  // One event of a run.
  method Step(t: SocketTable, start: u32, stream: seq<u8>, event: Event, output: seq<u8>, ended: bool)
    returns (output': seq<u8>, ended': bool)
    requires t.Valid() && event.handle < SOCKET_CAPACITY
    requires Connected(t.slots[event.handle], t.peers[event.handle], start, stream, output, ended)
    modifies t, t.slots, t.reassembly
    ensures t.Valid()
    ensures forall h :: 0 <= h < SOCKET_CAPACITY && h != event.handle ==>
              t.slots[h] == old(t.slots[h]) && t.peers[h] == old(t.peers[h])
    ensures Connected(t.slots[event.handle], t.peers[event.handle], start, stream, output', ended')
  {
    output', ended' := output, ended;
    var h := event.handle;
    match event {
      case Arrival(_, offset, size, finish) =>
        var position := |output| + |t.slots[h].buffer|;
        if offset + size <= |stream| && size < HALF && -HALF <= offset - position < HALF {
          DeliverSlice(t, h, start, stream, offset, size, finish && offset + size == |stream|, output, ended);
        }
      case ReadSome(_, size) =>
        output', ended' := ReadSlice(t, h, start, stream, size, output, ended);
      case Transport(_, state) =>
        if IsConnection(state) && state != SynReceived && state != Reset {
          t.SetState(h, state);
        }
    }
  }

  method DeliverSlice(t: SocketTable, h: nat, start: u32, stream: seq<u8>, offset: nat, size: nat, finish: bool,
                      ghost output: seq<u8>, ghost ended: bool)
    requires t.Valid() && h < SOCKET_CAPACITY
    requires Connected(t.slots[h], t.peers[h], start, stream, output, ended)
    requires offset + size <= |stream| && (finish ==> offset + size == |stream|)
    requires size < HALF && -HALF <= offset - Position(t.slots[h], t.peers[h]) < HALF
    modifies t, t.slots, t.reassembly
    ensures t.Valid()
    ensures forall k :: 0 <= k < SOCKET_CAPACITY && k != h ==>
              t.slots[k] == old(t.slots[k]) && t.peers[k] == old(t.peers[k])
    ensures Connected(t.slots[h], t.peers[h], start, stream, output, ended)
  {
    var sequence := Wrap((start as int) + 1 + offset);
    assert Deliverable(t.slots[h], t.peers[h], offset, sequence, stream[offset..offset + size], finish);
    var result, total := t.Receive(h, sequence, stream[offset..offset + size], finish, offset);
  }

  method ReadSlice(t: SocketTable, h: nat, ghost start: u32, ghost stream: seq<u8>, size: nat, output: seq<u8>,
                   ended: bool)
    returns (output': seq<u8>, ended': bool)
    requires t.Valid() && h < SOCKET_CAPACITY
    requires Connected(t.slots[h], t.peers[h], start, stream, output, ended)
    modifies t, t.slots, t.reassembly
    ensures t.Valid()
    ensures forall k :: 0 <= k < SOCKET_CAPACITY && k != h ==>
              t.slots[k] == old(t.slots[k]) && t.peers[k] == old(t.peers[k])
    ensures Connected(t.slots[h], t.peers[h], start, stream, output', ended')
  {
    ghost var s, p := t.slots[h], t.peers[h];
    assert InStep(s, p);
    var result, bytes := t.Read(h, size);
    output' := output + bytes;
    ended' := ended || result == EndOfFile;
    assert output' == stream[..p.taken + |bytes|];
  }
}
