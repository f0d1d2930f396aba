/**
 The send half of the TCP engine (network/stack.cpp): the retransmission queue
 of sixteen slots shared by all sockets, acknowledgements, FIN and the close
 state machine.

 The ghost `Flow` of a socket holds the bytes its application wrote, the base
 of its sequence space and the unwrapped acknowledgement point; the ghost field
 `at` holds the true offset of every queued segment.
 */
module TcpSend {
  import opened Machine
  import opened SequenceNumbers
  import opened SegmentQueues

  const TRANSMIT_CAPACITY := 16
  const SEGMENT_CAPACITY := 1024
  const FLIGHT_LIMIT := TRANSMIT_CAPACITY * SEGMENT_CAPACITY

  datatype Flow = Flow(base: int, written: seq<u8>, una: int)

  // A queued segment holds the application's own bytes, none of them acknowledged.
  ghost predicate EntryMatches(e: Segment, o: int, f: Flow) {
    && f.una <= o && 0 <= o && o + |e.data| <= |f.written|
    && 0 < |e.data| <= SEGMENT_CAPACITY
    && e.data == f.written[o..o + |e.data|]
    && e.sequence == Wrap(f.base + o)
  }

  // The queued segments tile the unacknowledged data: no gap, no overlap.
  ghost predicate Tiles(queue: seq<Option<Segment>>, at: seq<int>, handle: nat, f: Flow) {
    && |queue| == |at|
    && (forall i :: 0 <= i < |queue| && Holds(queue[i], handle) ==> EntryMatches(queue[i].value, at[i], f))
    && (forall i, j :: 0 <= i < j < |queue| && Holds(queue[i], handle) && Holds(queue[j], handle) ==>
          at[i] + |queue[i].value.data| <= at[j] || at[j] + |queue[j].value.data| <= at[i])
    && (forall m :: Max(0, f.una) <= m < |f.written| ==> Covered(queue, at, handle, m))
  }

  ghost predicate NoneHeld(queue: seq<Option<Segment>>, handle: nat) {
    forall i :: 0 <= i < |queue| ==> !Holds(queue[i], handle)
  }

  // ---- Counting the bytes in flight ----

  function QueuedBytes(queue: seq<Option<Segment>>, handle: nat): nat {
    if queue == [] then 0
    else QueuedBytes(queue[..|queue| - 1], handle) +
         if Holds(queue[|queue| - 1], handle) then |queue[|queue| - 1].value.data| else 0
  }

  ghost function CoverSet(queue: seq<Option<Segment>>, at: seq<int>, handle: nat): (s: set<int>)
    requires |queue| == |at|
    ensures forall m :: m in s <==> Covered(queue, at, handle, m)
  {
    if queue == [] then {}
    else
      var n := |queue| - 1;
      var rest := CoverSet(queue[..n], at[..n], handle);
      assert forall m :: Covered(queue, at, handle, m) <==>
               Covered(queue[..n], at[..n], handle, m) || Covers(queue[n], at[n], handle, m) by {
        forall m | Covered(queue, at, handle, m)
          ensures Covered(queue[..n], at[..n], handle, m) || Covers(queue[n], at[n], handle, m)
        {
          var i :| 0 <= i < |queue| && Covers(queue[i], at[i], handle, m);
          if i < n { assert Covers(queue[..n][i], at[..n][i], handle, m); }
        }
        forall m | Covered(queue[..n], at[..n], handle, m) ensures Covered(queue, at, handle, m) {
          var i :| 0 <= i < n && Covers(queue[..n][i], at[..n][i], handle, m);
          assert Covers(queue[i], at[i], handle, m);
        }
      }
      if Holds(queue[n], handle) then rest + Range(at[n], at[n] + |queue[n].value.data|) else rest
  }

  ghost predicate Disjoint(queue: seq<Option<Segment>>, at: seq<int>, handle: nat) {
    && |queue| == |at|
    && forall i, j :: 0 <= i < j < |queue| && Holds(queue[i], handle) && Holds(queue[j], handle) ==>
         at[i] + |queue[i].value.data| <= at[j] || at[j] + |queue[j].value.data| <= at[i]
  }

  lemma {:induction false} DisjointCount(queue: seq<Option<Segment>>, at: seq<int>, handle: nat)
    requires Disjoint(queue, at, handle)
    requires forall i :: 0 <= i < |queue| && Holds(queue[i], handle) ==> |queue[i].value.data| <= SEGMENT_CAPACITY
    ensures |CoverSet(queue, at, handle)| == QueuedBytes(queue, handle) <= |queue| * SEGMENT_CAPACITY
  {
    if queue != [] {
      var n := |queue| - 1;
      var q, a := queue[..n], at[..n];
      DisjointCount(q, a, handle);
      if Holds(queue[n], handle) {
        var last := Range(at[n], at[n] + |queue[n].value.data|);
        assert CoverSet(q, a, handle) !! last by {
          forall m | m in CoverSet(q, a, handle) ensures m !in last {
            var i :| 0 <= i < n && Covers(q[i], a[i], handle, m);
            assert Holds(queue[i], handle);
          }
        }
      }
    }
  }

  // The bytes queued for a connection are exactly its unacknowledged bytes, so
  // the flight never exceeds sixteen segments of 1024 bytes.
  lemma {:induction false} FlightIsQueued(queue: seq<Option<Segment>>, at: seq<int>, handle: nat, f: Flow)
    requires Tiles(queue, at, handle, f) && |queue| == TRANSMIT_CAPACITY && 0 <= f.una
    ensures QueuedBytes(queue, handle) == Max(0, |f.written| - f.una) <= FLIGHT_LIMIT
  {
    DisjointCount(queue, at, handle);
    forall m ensures m in CoverSet(queue, at, handle) <==> f.una <= m < |f.written| {
      InFlight(queue, at, handle, f, m);
    }
    assert CoverSet(queue, at, handle) == Range(f.una, Max(f.una, |f.written|));
  }

  lemma {:induction false} InFlight(queue: seq<Option<Segment>>, at: seq<int>, handle: nat, f: Flow, m: int)
    requires Tiles(queue, at, handle, f) && 0 <= f.una
    ensures Covered(queue, at, handle, m) <==> f.una <= m < |f.written|
  {
    if Covered(queue, at, handle, m) {
      var i :| 0 <= i < |queue| && Covers(queue[i], at[i], handle, m);
      assert EntryMatches(queue[i].value, at[i], f);
    }
  }

  // Whenever data is outstanding, exactly one slot starts at the
  // acknowledgement point: retransmission always has its candidate.
  lemma {:induction false} OldestIsQueued(queue: seq<Option<Segment>>, at: seq<int>, handle: nat, f: Flow)
    returns (k: nat)
    requires Tiles(queue, at, handle, f) && |queue| == TRANSMIT_CAPACITY
    requires 0 <= f.una < |f.written|
    ensures k < |queue| && Holds(queue[k], handle) && at[k] == f.una
    ensures queue[k].value.sequence == Wrap(f.base + f.una)
    ensures forall i :: 0 <= i < |queue| && Holds(queue[i], handle) && i != k ==>
              queue[i].value.sequence != Wrap(f.base + f.una)
  {
    assert Covered(queue, at, handle, f.una);
    k :| 0 <= k < |queue| && Covers(queue[k], at[k], handle, f.una);
    FlightIsQueued(queue, at, handle, f);
    forall i | 0 <= i < |queue| && Holds(queue[i], handle) && i != k
      ensures queue[i].value.sequence != Wrap(f.base + f.una)
    {
      assert EntryMatches(queue[i].value, at[i], f);
      SignedIsDistance(f.base, at[i], f.una);
    }
  }

  // Once everything written is acknowledged the queue holds nothing of the
  // connection.
  lemma {:induction false} NothingQueued(queue: seq<Option<Segment>>, at: seq<int>, handle: nat, f: Flow)
    requires Tiles(queue, at, handle, f) && |f.written| <= f.una
    ensures NoneHeld(queue, handle)
  {
    forall i | 0 <= i < |queue| ensures !Holds(queue[i], handle) {
    }
  }

  // ---- Writing ----

  // A new segment at the end of the written data extends the tiling.
  lemma {:induction false} TileAppend(queue: seq<Option<Segment>>, at: seq<int>, handle: nat, f: Flow, k: nat,
                                      data: seq<u8>, f': Flow)
    requires Tiles(queue, at, handle, f) && f.una <= |f.written|
    requires k < |queue| && queue[k].None?
    requires 0 < |data| <= SEGMENT_CAPACITY
    requires f' == f.(written := f.written + data)
    ensures var e := Segment(handle, Wrap(f.base + |f.written|), false, data);
            Tiles(queue[k := Some(e)], at[k := |f.written|], handle, f')
  {
    var e := Segment(handle, Wrap(f.base + |f.written|), false, data);
    var q, a := queue[k := Some(e)], at[k := |f.written|];
    forall i | 0 <= i < |q| && Holds(q[i], handle) ensures EntryMatches(q[i].value, a[i], f') {
      if i != k { assert EntryMatches(queue[i].value, at[i], f); }
    }
    forall m | Max(0, f.una) <= m < |f'.written| ensures Covered(q, a, handle, m) {
      if m < |f.written| {
        assert Covered(queue, at, handle, m);
        var i :| 0 <= i < |queue| && Covers(queue[i], at[i], handle, m);
        assert Covers(q[i], a[i], handle, m);
      } else {
        assert Covers(q[k], a[k], handle, m);
      }
    }
  }

  // A slot with the sequence number about to be used is never already queued.
  lemma {:induction false} NextIsFresh(queue: seq<Option<Segment>>, at: seq<int>, handle: nat, f: Flow, i: nat)
    requires Tiles(queue, at, handle, f) && |queue| == TRANSMIT_CAPACITY && 0 <= f.una <= |f.written|
    requires i < |queue| && Holds(queue[i], handle)
    ensures queue[i].value.sequence != Wrap(f.base + |f.written|)
  {
    FlightIsQueued(queue, at, handle, f);
    SignedIsDistance(f.base, at[i], |f.written|);
  }

  // ---- Acknowledging ----

  // acknowledge_transmissions, slot by slot, on 32-bit sequence numbers.
  function AckedEntry(entry: Option<Segment>, handle: nat, ack: u32): Option<Segment> {
    if !Holds(entry, handle) || Signed(ack, entry.value.sequence) <= 0 then entry
    else
      var acknowledged := Wrap(ack - entry.value.sequence);
      if acknowledged >= |entry.value.data| then None
      else Some(entry.value.(sequence := ack, data := entry.value.data[acknowledged..]))
  }

  ghost function AckedQueue(queue: seq<Option<Segment>>, handle: nat, ack: u32): (q: seq<Option<Segment>>)
    ensures |q| == |queue|
  {
    seq(|queue|, i requires 0 <= i < |queue| => AckedEntry(queue[i], handle, ack))
  }

  ghost function AckedAt(queue: seq<Option<Segment>>, at: seq<int>, handle: nat, a: int): (r: seq<int>)
    requires |queue| == |at|
    ensures |r| == |at|
  {
    seq(|at|, i requires 0 <= i < |at| => if Holds(queue[i], handle) then Max(at[i], a) else at[i])
  }

  // In terms of true offsets an acknowledgement of everything before a keeps
  // exactly the bytes from a on.
  lemma {:induction false} AckedEntryMatches(e: Segment, o: int, f: Flow, a: int)
    requires EntryMatches(e, o, f) && 0 <= f.una <= a <= |f.written| + 1 && |f.written| - f.una <= FLIGHT_LIMIT
    ensures var r := AckedEntry(Some(e), e.handle, Wrap(f.base + a));
            if o + |e.data| <= a then r == None
            else if a <= o then r == Some(e)
            else
              && r.Some? && r.value.handle == e.handle && o + |e.data| == a + |r.value.data|
              && EntryMatches(r.value, a, f.(una := a))
  {
    SignedIsDistance(f.base, a, o);
    if o <= a {
      UnsignedIsDistance(f.base, a, o);
      if o < a < o + |e.data| {
        TrimmedMatches(e, o, f, a);
      }
    }
  }

  lemma {:induction false} TrimmedMatches(e: Segment, o: int, f: Flow, a: int)
    requires EntryMatches(e, o, f) && o < a < o + |e.data|
    ensures EntryMatches(e.(sequence := Wrap(f.base + a), data := e.data[a - o..]), a, f.(una := a))
  {
    var rest, n := e.data[a - o..], o + |e.data|;
    forall i | 0 <= i < |rest| ensures rest[i] == f.written[a..n][i] {
      assert e.data[a - o + i] == f.written[o..n][a - o + i];
    }
  }

  // What a slot looks like after everything before offset a is acknowledged.
  ghost predicate Trimmed(entry: Option<Segment>, o: int, handle: nat, f: Flow, a: int, entry': Option<Segment>,
                          o': int) {
    if !Holds(entry, handle) then entry' == entry && o' == o
    else if o + |entry.value.data| <= a then entry' == None
    else
      && o' == Max(o, a)
      && Holds(entry', handle) && o' + |entry'.value.data| == o + |entry.value.data|
      && EntryMatches(entry'.value, o', f.(una := a))
  }

  lemma {:induction false} SlotAcknowledged(entry: Option<Segment>, o: int, handle: nat, f: Flow, a: int)
    requires Holds(entry, handle) ==> EntryMatches(entry.value, o, f)
    requires 0 <= f.una <= a <= |f.written| + 1 && |f.written| - f.una <= FLIGHT_LIMIT
    ensures Trimmed(entry, o, handle, f, a, AckedEntry(entry, handle, Wrap(f.base + a)),
                    if Holds(entry, handle) then Max(o, a) else o)
  {
    if Holds(entry, handle) {
      var e := entry.value;
      assert entry == Some(e) && e.handle == handle;
      AckedEntryMatches(e, o, f, a);
      var r := AckedEntry(Some(e), handle, Wrap(f.base + a));
      if o + |e.data| <= a {
        assert r == None;
      } else if a <= o {
        assert r == Some(e) && EntryMatches(e, o, f.(una := a));
      }
    }
  }

  lemma {:induction false} TileTrim(queue: seq<Option<Segment>>, at: seq<int>, handle: nat, f: Flow, a: int,
                 queue': seq<Option<Segment>>, at': seq<int>)
    requires Tiles(queue, at, handle, f) && 0 <= f.una <= a && |queue'| == |queue| == |at'|
    requires forall i :: 0 <= i < |queue| ==> Trimmed(queue[i], at[i], handle, f, a, queue'[i], at'[i])
    ensures Tiles(queue', at', handle, f.(una := a))
  {
    forall i | 0 <= i < |queue'| && Holds(queue'[i], handle)
      ensures Holds(queue[i], handle) && at[i] <= at'[i]
              && at'[i] + |queue'[i].value.data| == at[i] + |queue[i].value.data|
      ensures EntryMatches(queue'[i].value, at'[i], f.(una := a))
    {
    }
    forall m | a <= m < |f.written| ensures Covered(queue', at', handle, m) {
      assert Covered(queue, at, handle, m);
      var i :| 0 <= i < |queue| && Covers(queue[i], at[i], handle, m);
      assert Covers(queue'[i], at'[i], handle, m);
    }
  }

  lemma {:induction false} TileAcknowledge(queue: seq<Option<Segment>>, at: seq<int>, handle: nat, f: Flow, a: int)
    requires Tiles(queue, at, handle, f) && |queue| == TRANSMIT_CAPACITY
    requires 0 <= f.una <= a <= |f.written| + 1
    ensures Tiles(AckedQueue(queue, handle, Wrap(f.base + a)), AckedAt(queue, at, handle, a), handle, f.(una := a))
  {
    FlightIsQueued(queue, at, handle, f);
    var queue', at' := AckedQueue(queue, handle, Wrap(f.base + a)), AckedAt(queue, at, handle, a);
    forall i | 0 <= i < |queue| ensures Trimmed(queue[i], at[i], handle, f, a, queue'[i], at'[i]) {
      SlotAcknowledged(queue[i], at[i], handle, f, a);
    }
    TileTrim(queue, at, handle, f, a, queue', at');
  }
}
