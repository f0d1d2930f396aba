/** Socket states and results (include/mikos/net/socket.hpp). */
module Sockets {

  const SOCKET_CAPACITY := 13

  datatype SocketState =
    | Free | Control | Created | Bound | Listening | SynReceived | Established
    | CloseWait | FinWait1 | FinWait2 | Closing | LastAck | TimeWait | Closed | Reset

  datatype SocketResult =
    | Success | BadHandle | WrongType | InvalidArgument | AddressInUse | NotBound
    | NotListening | WouldBlock | NotConnected | NoSpace | ConnectionReset | EndOfFile | TimedOut

  predicate IsConnection(state: SocketState) {
    match state
    case Free | Control | Created | Bound | Listening | Closed => false
    case _ => true
  }

  // States in which the transport accepts stream data and control segments.
  predicate Synchronized(state: SocketState) {
    IsConnection(state) && state != SynReceived && state != Reset
  }
}

/** Fixed queues of segments that all sockets share, one slot a segment. */
module SegmentQueues {
  import opened Machine

  // A stretch of one connection's bytes at its 32-bit sequence number; `finish`
  // says that a FIN follows the data.
  datatype Segment = Segment(handle: nat, sequence: u32, finish: bool, data: seq<u8>)

  predicate Holds(entry: Option<Segment>, handle: nat) {
    entry.Some? && entry.value.handle == handle
  }

  // The slot holds byte m of the connection; o is the offset of its first byte.
  ghost predicate Covers(entry: Option<Segment>, o: int, handle: nat, m: int) {
    Holds(entry, handle) && o <= m < o + |entry.value.data|
  }

  ghost predicate Covered(queue: seq<Option<Segment>>, at: seq<int>, handle: nat, m: int)
    requires |queue| == |at|
  {
    exists i :: 0 <= i < |queue| && Covers(queue[i], at[i], handle, m)
  }

  // Only slots of the given connection differ.
  ghost predicate OthersUntouched(handle: nat, q: seq<Option<Segment>>, at: seq<int>, q': seq<Option<Segment>>,
                                  at': seq<int>) {
    && |q| == |at| == |q'| == |at'|
    && forall i :: 0 <= i < |q| ==>
         && (q[i].Some? && !Holds(q[i], handle) ==> q'[i] == q[i] && at'[i] == at[i])
         && (q'[i].Some? && !Holds(q'[i], handle) ==> q'[i] == q[i] && at'[i] == at[i])
  }
}
