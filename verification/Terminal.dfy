/**
 The bounded byte queue behind pipes and pseudo terminals, and the output side
 of a pseudo terminal, which turns every line feed into CR-LF.
 */
module Terminal {
  import opened Machine

  // n modulo the capacity, for n below twice the capacity.
  function Place(n: nat, capacity: nat): (p: nat)
    requires n < capacity + capacity
    ensures p < capacity
  {
    if n < capacity then n else n - capacity
  }

  method Index(n: nat, capacity: nat) returns (p: nat)
    requires n < capacity + capacity
    ensures p == Place(n, capacity)
  {
    if n < capacity {
      QuotientUnique(n, 0, n, capacity);
    } else {
      QuotientUnique(n, 1, n - capacity, capacity);
    }
    p := n % capacity;
  }

  // The queue as it lies in the array from `head` on, around the end.
  ghost function Around(data: seq<u8>, head: nat, size: nat): (s: seq<u8>)
    requires head < |data| && size <= |data|
    ensures |s| == size && forall i :: 0 <= i < size ==> s[i] == data[Place(head + i, |data|)]
  {
    if size == 0 then [] else Around(data, head, size - 1) + [data[Place(head + size - 1, |data|)]]
  }

  class RingBuffer {
    const data: array<u8>
    var head: nat
    var size: nat

    ghost predicate Valid()
      reads this
    {
      head < data.Length && size <= data.Length
    }

    // The bytes in the queue, the oldest first.
    ghost function Contents(): (s: seq<u8>)
      requires Valid()
      reads this, data
      ensures |s| == size
    {
      Around(data[..], head, size)
    }

    constructor (capacity: nat)
      requires 0 < capacity
      ensures Valid() && fresh(data) && data.Length == capacity && Contents() == []
    {
      data := new u8[capacity];
      head, size := 0, 0;
    }

    function FreeSpace(): nat
      requires Valid()
      reads this
    {
      data.Length - size
    }

    method Write(input: seq<u8>) returns (amount: nat)
      requires Valid()
      modifies this, data
      ensures Valid() && amount == Min(|input|, data.Length - old(size))
      ensures Contents() == old(Contents()) + input[..amount]
    {
      amount := Min(|input|, FreeSpace());
      ghost var start, before := size, Contents();
      for i := 0 to amount
        invariant Valid() && size == start && head == old(head)
        invariant forall k :: 0 <= k < start ==> data[Place(head + k, data.Length)] == before[k]
        invariant forall k :: 0 <= k < i ==> data[Place(head + start + k, data.Length)] == input[k]
      {
        var at := Index(head + size + i, data.Length);
        data[at] := input[i];
      }
      size := size + amount;
      Appended(data[..], head, start, before, input[..amount]);
    }

    method Read(count: nat) returns (output: seq<u8>)
      requires Valid()
      modifies this
      ensures Valid() && |output| == Min(count, old(size))
      ensures output == old(Contents())[..|output|] && Contents() == old(Contents())[|output|..]
    {
      var amount := Min(count, size);
      output := [];
      for i := 0 to amount
        invariant Valid() && size == old(size) && head == old(head)
        invariant |output| == i && forall k :: 0 <= k < i ==> output[k] == data[Place(head + k, data.Length)]
      {
        var at := Index(head + i, data.Length);
        output := output + [data[at]];
      }
      Dropped(data[..], head, size, amount);
      head := Index(head + amount, data.Length);
      size := size - amount;
    }

    method Clear()
      requires Valid()
      modifies this
      ensures Valid() && Contents() == []
    {
      head, size := 0, 0;
    }
  }

  lemma {:induction false} Appended(data: seq<u8>, head: nat, start: nat, before: seq<u8>, added: seq<u8>)
    requires head < |data| && |before| == start && start + |added| <= |data|
    requires forall k :: 0 <= k < start ==> data[Place(head + k, |data|)] == before[k]
    requires forall k :: 0 <= k < |added| ==> data[Place(head + start + k, |data|)] == added[k]
    ensures Around(data, head, start + |added|) == before + added
  {
    var s := Around(data, head, start + |added|);
    forall i | 0 <= i < |s| ensures s[i] == (before + added)[i] {
      if i >= start {
        assert head + i == head + start + (i - start);
      }
    }
  }

  lemma {:induction false} Dropped(data: seq<u8>, head: nat, size: nat, amount: nat)
    requires head < |data| && amount <= size <= |data|
    ensures Around(data, Place(head + amount, |data|), size - amount) == Around(data, head, size)[amount..]
  {
    var s, t := Around(data, Place(head + amount, |data|), size - amount), Around(data, head, size);
    forall i | 0 <= i < |s| ensures s[i] == t[amount..][i] {
      assert t[amount..][i] == t[amount + i];
    }
  }

  // ---- The output side of a pseudo terminal ----

  const LF := 10
  const CR := 13

  function Expansion(b: u8, translate: bool): (s: seq<u8>)
    ensures 1 <= |s| <= 2
  {
    if translate && b == LF then [CR, LF] else [b]
  }

  // What the master reads for what the slave wrote.
  function Expand(s: seq<u8>, translate: bool): seq<u8> {
    if s == [] then [] else Expand(s[..|s| - 1], translate) + Expansion(s[|s| - 1], translate)
  }

  lemma {:induction false} ExpandNext(s: seq<u8>, n: nat, translate: bool)
    requires n < |s|
    ensures Expand(s[..n + 1], translate) == Expand(s[..n], translate) + Expansion(s[n], translate)
  {
    assert s[..n + 1][..n] == s[..n];
  }

  lemma {:induction false} ExpandConcat(a: seq<u8>, b: seq<u8>, translate: bool)
    ensures Expand(a + b, translate) == Expand(a, translate) + Expand(b, translate)
  {
    if b == [] {
      assert a + b == a;
    } else {
      var n := |b| - 1;
      ExpandConcat(a, b[..n], translate);
      assert (a + b)[..|a + b| - 1] == a + b[..n];
    }
  }

  datatype Status = Success | WouldBlock | EndOfFile | IoError | BadHandle

  class Pty {
    const ring: RingBuffer
    var masters: nat
    var slaves: nat
    var translate: bool

    ghost predicate Valid()
      reads this, ring
    {
      ring.Valid()
    }

    constructor (ring: RingBuffer, translate: bool)
      requires ring.Valid()
      ensures Valid() && this.ring == ring && masters == 1 && slaves == 1 && this.translate == translate
    {
      this.ring, this.masters, this.slaves, this.translate := ring, 1, 1, translate;
    }

    // One byte, its expansion whole or not at all.
    method Emit(b: u8, ghost start: seq<u8>, ghost done: seq<u8>) returns (ok: bool)
      requires Valid() && ring.Contents() == start + done
      modifies ring, ring.data
      ensures Valid() && (ok <==> |start + done| + |Expansion(b, translate)| <= ring.data.Length)
      ensures ring.Contents() == if ok then start + (done + Expansion(b, translate)) else start + done
    {
      var bytes := Expansion(b, translate);
      if ring.FreeSpace() < |bytes| {
        return false;
      }
      var written := ring.Write(bytes);
      assert bytes[..written] == bytes;
      assert (start + done) + bytes == start + (done + bytes);
      ok := true;
    }

    // write() on the slave: as many whole expansions as fit.
    method SlaveWrite(input: seq<u8>) returns (status: Status, consumed: nat)
      requires Valid()
      modifies ring, ring.data
      ensures Valid() && consumed <= |input|
      ensures status == if slaves == 0 then BadHandle else if input == [] then Success else if masters == 0 then IoError
                        else if consumed == 0 then WouldBlock else Success
      ensures ring.Contents() == old(ring.Contents()) + Expand(input[..consumed], translate)
      ensures status != WouldBlock && status != Success ==> consumed == 0
      ensures slaves > 0 && masters > 0 && consumed < |input| ==>
                |ring.Contents()| + |Expansion(input[consumed], translate)| > ring.data.Length
    {
      consumed := 0;
      assert ring.Contents() + Expand(input[..0], translate) == ring.Contents();
      if slaves == 0 {
        return BadHandle, 0;
      }
      if |input| == 0 {
        return Success, 0;
      }
      if masters == 0 {
        return IoError, 0;
      }
      consumed := Pump(input);
      status := if consumed == 0 then WouldBlock else Success;
    }

    method Pump(input: seq<u8>) returns (consumed: nat)
      requires Valid()
      modifies ring, ring.data
      ensures Valid() && consumed <= |input|
      ensures ring.Contents() == old(ring.Contents()) + Expand(input[..consumed], translate)
      ensures consumed < |input| ==> |ring.Contents()| + |Expansion(input[consumed], translate)| > ring.data.Length
    {
      consumed := 0;
      ghost var start, done: seq<u8> := ring.Contents(), [];
      assert start + done == start;
      while consumed < |input|
        invariant Valid() && 0 <= consumed <= |input| && done == Expand(input[..consumed], translate)
        invariant ring.Contents() == start + done
      {
        var ok := Emit(input[consumed], start, done);
        if !ok {
          return;
        }
        ExpandNext(input, consumed, translate);
        done := done + Expansion(input[consumed], translate);
        consumed := consumed + 1;
      }
    }

    method MasterRead(count: nat) returns (status: Status, output: seq<u8>)
      requires Valid()
      modifies ring
      ensures Valid() && output + ring.Contents() == old(ring.Contents()) && |output| <= count
      ensures status == if masters == 0 then BadHandle else if count == 0 || old(ring.Contents()) != [] then Success
                        else if slaves == 0 then EndOfFile else WouldBlock
      ensures masters > 0 ==> |output| == Min(count, |old(ring.Contents())|)
    {
      if masters == 0 {
        return BadHandle, [];
      }
      if count == 0 {
        return Success, [];
      }
      if ring.size != 0 {
        output := ring.Read(count);
        return Success, output;
      }
      return if slaves == 0 then EndOfFile else WouldBlock, [];
    }
  }

  // ---- Whole runs ----

  // The writer offers some of what is left; the master reads some.
  datatype Step = Offer(amount: nat) | Drain(count: nat)

  // Whatever the chunks, the retries and the reads in between, the master has
  // read, or will read from the queue, exactly the expansion of what was taken.
  method Run(capacity: nat, translate: bool, input: seq<u8>, steps: seq<Step>)
    returns (taken: nat, delivered: seq<u8>, queued: seq<u8>)
    requires 0 < capacity
    ensures taken <= |input| && |queued| <= capacity
    ensures delivered + queued == Expand(input[..taken], translate)
  {
    var ring := new RingBuffer(capacity);
    var pty := new Pty(ring, translate);
    taken, delivered := 0, [];
    for i := 0 to |steps|
      invariant pty.Valid() && taken <= |input| && pty.translate == translate && fresh(ring) && fresh(ring.data)
      invariant delivered + ring.Contents() == Expand(input[..taken], translate)
    {
      taken, delivered := Perform(pty, input, steps[i], taken, delivered);
    }
    ghost var last := ring.Contents();
    queued := ring.Read(ring.size);
    assert queued == last[..|last|] == last;
  }

  // A writer that keeps retrying gets everything through, once each: with room
  // for one expansion, a drained queue always takes at least one more byte.
  method Deliver(capacity: nat, translate: bool, input: seq<u8>, share: nat) returns (delivered: seq<u8>)
    requires 2 <= capacity && 0 < share
    ensures delivered == Expand(input, translate)
  {
    var ring := new RingBuffer(capacity);
    var pty := new Pty(ring, translate);
    var taken := 0;
    delivered := [];
    while taken < |input|
      invariant pty.Valid() && pty.ring == ring && fresh(ring) && fresh(ring.data) && ring.data.Length == capacity
      invariant pty.masters == 1 && pty.slaves == 1 && pty.translate == translate && taken <= |input|
      invariant delivered + ring.Contents() == Expand(input[..taken], translate) && ring.Contents() == []
    {
      taken := PerformOffer(pty, input, share, taken, delivered);
      delivered := PerformDrain(pty, capacity, delivered);
    }
    assert input[..taken] == input;
  }

  lemma {:induction false} Regroup(input: seq<u8>, taken: nat, chunk: seq<u8>, consumed: nat, translate: bool,
                                   delivered: seq<u8>, queued: seq<u8>)
    requires taken + |chunk| <= |input| && chunk == input[taken..taken + |chunk|] && consumed <= |chunk|
    requires delivered + queued == Expand(input[..taken], translate)
    ensures delivered + (queued + Expand(chunk[..consumed], translate)) == Expand(input[..taken + consumed], translate)
  {
    ExpandConcat(input[..taken], chunk[..consumed], translate);
    assert input[..taken] + chunk[..consumed] == input[..taken + consumed];
    var more := Expand(chunk[..consumed], translate);
    assert delivered + (queued + more) == (delivered + queued) + more;
  }

  method Perform(pty: Pty, input: seq<u8>, step: Step, taken: nat, delivered: seq<u8>)
    returns (taken': nat, delivered': seq<u8>)
    requires pty.Valid() && taken <= |input| && delivered + pty.ring.Contents() == Expand(input[..taken], pty.translate)
    modifies pty.ring, pty.ring.data
    ensures pty.Valid() && taken <= taken' <= |input|
    ensures delivered' + pty.ring.Contents() == Expand(input[..taken'], pty.translate)
  {
    match step
    case Offer(amount) =>
      delivered' := delivered;
      taken' := PerformOffer(pty, input, amount, taken, delivered);
    case Drain(count) =>
      taken' := taken;
      delivered' := PerformDrain(pty, count, delivered);
  }

  method PerformDrain(pty: Pty, count: nat, delivered: seq<u8>) returns (delivered': seq<u8>)
    requires pty.Valid()
    modifies pty.ring, pty.ring.data
    ensures pty.Valid() && delivered' + pty.ring.Contents() == delivered + old(pty.ring.Contents())
    ensures pty.masters > 0 && |old(pty.ring.Contents())| <= count ==> pty.ring.Contents() == []
  {
    var status, output := pty.MasterRead(count);
    delivered' := delivered + output;
    SeqAssoc(delivered, output, pty.ring.Contents());
  }

  method PerformOffer(pty: Pty, input: seq<u8>, amount: nat, taken: nat, ghost delivered: seq<u8>) returns (taken': nat)
    requires pty.Valid() && taken <= |input| && delivered + pty.ring.Contents() == Expand(input[..taken], pty.translate)
    modifies pty.ring, pty.ring.data
    ensures pty.Valid() && taken <= taken' <= |input|
    ensures delivered + pty.ring.Contents() == Expand(input[..taken'], pty.translate)
    ensures pty.masters > 0 && pty.slaves > 0 && amount > 0 && taken < |input| && old(pty.ring.Contents()) == []
            && 2 <= pty.ring.data.Length ==>
              taken < taken'
  {
    var chunk := input[taken..Min(taken + amount, |input|)];
    ghost var before := pty.ring.Contents();
    var status, consumed := pty.SlaveWrite(chunk);
    taken' := taken + consumed;
    Regroup(input, taken, chunk, consumed, pty.translate, delivered, before);
  }
}
