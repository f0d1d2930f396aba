/**
 Runs of file operations on plain byte sequences, one a file: the reference for
 both filesystems.
 */
module FileRuns {
  import opened Machine
  import opened Blocks

  datatype Operation = WriteAt(offset: nat, input: seq<u8>) | TruncateTo(newSize: u32) | ReadAt(from: nat, count: nat)

  datatype Outcome = Done | Got(bytes: seq<u8>) | Failed

  // An operation on one of the open files.
  datatype Call = Call(file: nat, op: Operation)

  // The same operation on a plain byte sequence.
  function Applied(s: seq<u8>, op: Operation, outcome: Outcome): seq<u8> {
    match op
    case WriteAt(offset, input) => if outcome.Failed? then s else Spliced(s, offset, input)
    case TruncateTo(size) => if outcome.Failed? then s else Resized(s, size)
    case ReadAt(_, _) => s
  }

  // What a call may answer: a read the bytes at its offset, anything else
  // success or failure.
  predicate Plausible(s: seq<u8>, op: Operation, outcome: Outcome) {
    match op
    case ReadAt(from, count) => outcome == Got(if from < |s| then s[from..Min(from + count, |s|)] else [])
    case _ => outcome == Done || outcome == Failed
  }

  // Only the file that is called changes.
  function AppliedTo(files: seq<seq<u8>>, call: Call, outcome: Outcome): (r: seq<seq<u8>>)
    ensures |r| == |files|
  {
    if call.file < |files| then files[call.file := Applied(files[call.file], call.op, outcome)] else files
  }

  predicate PlausibleFor(files: seq<seq<u8>>, call: Call, outcome: Outcome) {
    if call.file < |files| then Plausible(files[call.file], call.op, outcome) else outcome == Failed
  }

  function Replay(files: seq<seq<u8>>, calls: seq<Call>, outcomes: seq<Outcome>): (r: seq<seq<u8>>)
    requires |calls| == |outcomes|
    ensures |r| == |files|
  {
    if calls == [] then files
    else
      var n := |calls| - 1;
      AppliedTo(Replay(files, calls[..n], outcomes[..n]), calls[n], outcomes[n])
  }

  predicate PlausibleAt(files: seq<seq<u8>>, calls: seq<Call>, outcomes: seq<Outcome>, i: nat)
    requires i < |calls| == |outcomes|
  {
    PlausibleFor(Replay(files, calls[..i], outcomes[..i]), calls[i], outcomes[i])
  }

  lemma {:induction false} ReplayStep(files: seq<seq<u8>>, calls: seq<Call>, outcomes: seq<Outcome>, i: nat,
                                      outcome: Outcome,
                                      calls': seq<Call>, outcomes': seq<Outcome>)
    requires i < |calls| && |outcomes| == i && calls' == calls[..i + 1] && outcomes' == outcomes + [outcome]
    requires forall k :: 0 <= k < i ==> PlausibleAt(files, calls[..i], outcomes, k)
    requires PlausibleFor(Replay(files, calls[..i], outcomes), calls[i], outcome)
    ensures Replay(files, calls', outcomes') == AppliedTo(Replay(files, calls[..i], outcomes), calls[i], outcome)
    ensures forall k :: 0 <= k <= i ==> PlausibleAt(files, calls', outcomes', k)
  {
    assert calls'[..i] == calls[..i] && outcomes'[..i] == outcomes;
    forall k | 0 <= k < i ensures PlausibleAt(files, calls', outcomes', k) {
      assert PlausibleAt(files, calls[..i], outcomes, k);
      assert calls'[..k] == calls[..i][..k] && outcomes'[..k] == outcomes[..k];
    }
  }
}
