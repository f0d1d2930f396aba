/**
 What the calls on an ext4 file mean, on values: a file is its size, the row of
 bytes that its extent map reaches, and the number of blocks that it has but
 that no lookup finds. The steps are exact for every file this driver can
 leave behind, also for one that failed to grow. On a plain file they are the
 operations on byte sequences, unless the next growth would need a block that
 cannot be found.
 */
module Ext4Shapes {
  import opened Machine
  import opened Bytes
  import opened Blocks
  import opened FileRuns
  import opened Ext4Extents

  datatype Shape = Shape(size: nat, row: seq<u8>, lost: nat)

  // What a call answers; only a read has bytes.
  datatype Answer = Answer(error: Error, bytes: seq<u8>)

  // ---- The steps ----

  // The blocks are those that the size calls for.
  ghost predicate Tidy(B: nat, f: Shape)
    requires 0 < B
  {
    f.lost == 0 && |f.row| == Origin(B, BlocksFor(f.size, B))
  }

  // Blocks that a file of `from` bytes lacks to hold `to`.
  function Lacking(B: nat, from: nat, to: nat): nat
    requires 0 < B
  {
    if BlocksFor(from, B) < BlocksFor(to, B) then BlocksFor(to, B) - BlocksFor(from, B) else 0
  }

  // k blocks appended: they continue the row of a tidy file, and are lost to
  // any other.
  ghost function Grown(B: nat, f: Shape, k: nat): Shape
    requires 0 < B
  {
    if Tidy(B, f) then f.(row := f.row + Zeros(Origin(B, k))) else f.(lost := f.lost + k)
  }

  // As much of the input as falls into the row.
  function Put(row: seq<u8>, offset: nat, input: seq<u8>): (r: seq<u8>)
    ensures |r| == |row|
  {
    if |row| <= offset then row else Overlay(row, offset, input[..Min(|input|, |row| - offset)])
  }

  // write(): growth first, then the bytes block by block up to the first that
  // is not found. A failed write keeps the size.
  ghost predicate WriteStep(B: nat, f: Shape, offset: nat, input: seq<u8>, error: Error, k: nat, f': Shape)
    requires 0 < B
  {
    var end := offset + |input|;
    if end > SIZE_LIMIT then error == InvalidArgument && k == 0 && f' == f
    else if input == [] then error == NoError && k == 0 && f' == f
    else if error == NoSpace then k < Lacking(B, f.size, end) && f' == Grown(B, f, k)
    else
      && k == Lacking(B, f.size, end)
      && var g := Grown(B, f, k);
      if end <= |g.row| then error == NoError && f' == Shape(Max(g.size, end), Overlay(g.row, offset, input), g.lost)
      else error == Corrupt && f' == g.(row := Put(g.row, offset, input))
  }

  lemma {:induction false} WriteTaken(B: nat, f: Shape, k: nat, g: Shape, offset: nat, input: seq<u8>, error: Error,
                                      f': Shape)
    requires 0 < B && input != [] && offset + |input| <= SIZE_LIMIT && k == Lacking(B, f.size, offset + |input|)
    requires g == Grown(B, f, k) && error == if offset + |input| <= |g.row| then NoError else Corrupt
    requires f'.row == Put(g.row, offset, input) && f'.lost == g.lost
    requires f'.size == if error == NoError then Max(g.size, offset + |input|) else g.size
    ensures WriteStep(B, f, offset, input, error, k, f')
  {
    assert input[..|input|] == input;
  }

  ghost predicate TruncateStep(B: nat, f: Shape, size: nat, error: Error, k: nat, f': Shape)
    requires 0 < B
  {
    if size > SIZE_LIMIT then error == InvalidArgument && k == 0 && f' == f
    else if size == f.size then error == NoError && k == 0 && f' == f
    else if size > f.size then
      if error == NoSpace then k < Lacking(B, f.size, size) && f' == Grown(B, f, k)
      else error == NoError && k == Lacking(B, f.size, size) && f' == Grown(B, f, k).(size := size)
    else if size != 0 then error == Unsupported && k == 0 && f' == f
    else error == NoError && k == 0 && f' == Shape(0, [], 0)
  }

  predicate ReadStep(f: Shape, from: nat, count: nat, error: Error, bytes: seq<u8>) {
    var end := Min(from + count, f.size);
    if end <= from then error == NoError && bytes == []
    else if end <= |f.row| then error == NoError && bytes == f.row[from..end]
    else error == Corrupt
  }

  ghost predicate Step(B: nat, f: Shape, op: Operation, answer: Answer, k: nat, f': Shape)
    requires 0 < B
  {
    match op
    case WriteAt(offset, input) => WriteStep(B, f, offset, input, answer.error, k, f')
    case TruncateTo(size) => TruncateStep(B, f, size, answer.error, k, f')
    case ReadAt(from, count) => ReadStep(f, from, count, answer.error, answer.bytes) && k == 0 && f' == f
  }

  // ---- When they are the operations on byte sequences ----

  // Every byte of the file is found, and behind them there are only zeros.
  ghost predicate Plain(f: Shape) {
    f.size <= |f.row| && forall i :: f.size <= i < |f.row| ==> f.row[i] == 0
  }

  function Held(f: Shape): seq<u8>
    requires f.size <= |f.row|
  {
    f.row[..f.size]
  }

  // How far the file would reach after the call.
  function Reached(op: Operation): nat {
    match op
    case WriteAt(offset, input) => if input == [] then 0 else offset + |input|
    case TruncateTo(size) => size
    case ReadAt(_, _) => 0
  }

  // The condition for a growth, to be checked before the call.
  ghost predicate Safe(B: nat, f: Shape, op: Operation)
    requires 0 < B
  {
    Tidy(B, f) || Reached(op) <= |f.row|
  }

  function OutcomeOf(op: Operation, answer: Answer): Outcome {
    if answer.error != NoError then Failed else if op.ReadAt? then Got(answer.bytes) else Done
  }

  // A row that reaches far enough after the growth.
  lemma {:induction false} GrownReaches(B: nat, f: Shape, to: nat)
    requires 0 < B && f.size <= |f.row| && (Tidy(B, f) || to <= |f.row|)
    ensures to <= |Grown(B, f, Lacking(B, f.size, to)).row|
  {
    if Tidy(B, f) {
      OriginSum(B, BlocksFor(f.size, B), Lacking(B, f.size, to));
      BlocksForSize(to, B);
      if BlocksFor(to, B) < BlocksFor(f.size, B) {
        OriginOrder(B, BlocksFor(to, B), BlocksFor(f.size, B));
      }
    }
  }

  lemma {:induction false} OriginSum(B: nat, i: nat, j: nat)
    ensures Origin(B, i + j) == Origin(B, i) + Origin(B, j)
  {
    if j > 0 {
      OriginSum(B, i, j - 1);
      assert i + j - 1 == i + (j - 1);
    }
  }

  lemma {:induction false} GrownPlain(B: nat, f: Shape, k: nat)
    requires 0 < B && Plain(f)
    ensures Plain(Grown(B, f, k)) && Held(Grown(B, f, k)) == Held(f)
  {
  }

  // A call on a plain file that is safe does what it would do to a byte
  // sequence, and leaves a plain file; also when it fails.
  lemma {:induction false} PlainStep(B: nat, f: Shape, op: Operation, answer: Answer, k: nat, f': Shape)
    requires 0 < B && Plain(f) && Step(B, f, op, answer, k, f') && Safe(B, f, op)
    ensures Plain(f') && Held(f') == Applied(Held(f), op, OutcomeOf(op, answer))
    ensures Plausible(Held(f), op, OutcomeOf(op, answer))
  {
    match op
    case WriteAt(offset, input) => PlainWrite(B, f, offset, input, answer.error, k, f');
    case TruncateTo(size) => PlainTruncate(B, f, size, answer.error, k, f');
    case ReadAt(from, count) =>
  }

  lemma {:induction false} PlainWrite(B: nat, f: Shape, offset: nat, input: seq<u8>, error: Error, k: nat, f': Shape)
    requires 0 < B && Plain(f) && WriteStep(B, f, offset, input, error, k, f')
    requires Tidy(B, f) || input == [] || offset + |input| <= |f.row|
    ensures Plain(f') && Held(f') == if error == NoError then Spliced(Held(f), offset, input) else Held(f)
  {
    GrownPlain(B, f, k);
    if offset + |input| <= SIZE_LIMIT && input != [] && error != NoSpace {
      GrownReaches(B, f, offset + |input|);
      PlainOverlay(Grown(B, f, k), Held(f), offset, input);
    }
  }

  lemma {:induction false} PlainTruncate(B: nat, f: Shape, size: nat, error: Error, k: nat, f': Shape)
    requires 0 < B && Plain(f) && TruncateStep(B, f, size, error, k, f')
    requires Tidy(B, f) || size <= |f.row|
    ensures Plain(f') && Held(f') == if error == NoError then Resized(Held(f), size) else Held(f)
  {
    GrownPlain(B, f, k);
    if f.size < size <= SIZE_LIMIT && error != NoSpace {
      GrownReaches(B, f, size);
      PlainResized(Grown(B, f, k), size);
    }
  }

  lemma {:induction false} PlainOverlay(g: Shape, held: seq<u8>, offset: nat, input: seq<u8>)
    requires Plain(g) && held == Held(g) && input != [] && offset + |input| <= |g.row|
    ensures var f' := Shape(Max(g.size, offset + |input|), Overlay(g.row, offset, input), g.lost);
            Plain(f') && Held(f') == Spliced(held, offset, input)
  {
    var end := offset + |input|;
    var size := Max(g.size, end);
    OverlayPrefix(g.row, size, offset, input);
    assert g.row[..size] == Resized(held, size);
  }

  lemma {:induction false} PlainResized(g: Shape, size: nat)
    requires Plain(g) && g.size <= size <= |g.row|
    ensures Plain(g.(size := size)) && Held(g.(size := size)) == Resized(Held(g), size)
  {
  }

  // The growth did its work: the call is answered with success and the file has
  // the bytes it should have.
  ghost predicate Succeeds(f: Shape, op: Operation, answer: Answer, f': Shape) {
    && answer.error == NoError && f.size <= |f.row| && f'.size <= |f'.row|
    && Held(f') == Applied(Held(f), op, Done)
  }

  // A growth of a plain file for which there was room succeeds if and only if
  // it was safe.
  lemma {:induction false} SafeExactly(B: nat, f: Shape, op: Operation, answer: Answer, k: nat, f': Shape)
    requires 0 < B && Plain(f) && Step(B, f, op, answer, k, f') && !op.ReadAt? && f.size < Reached(op) <= SIZE_LIMIT
    requires answer.error != NoSpace
    ensures Succeeds(f, op, answer, f') <==> Safe(B, f, op)
  {
    if Safe(B, f, op) {
      PlainStep(B, f, op, answer, k, f');
      GrownReaches(B, f, Reached(op));
    }
  }

  // What becomes of one that was not: a write is answered with corruption, a
  // truncation with success, but then the last byte of the file cannot be read.
  lemma {:induction false} UnsafeGrowth(B: nat, f: Shape, op: Operation, answer: Answer, k: nat, f': Shape,
                                        error: Error, bytes: seq<u8>)
    requires 0 < B && Plain(f) && Step(B, f, op, answer, k, f') && !op.ReadAt? && f.size < Reached(op) <= SIZE_LIMIT
    requires answer.error != NoSpace && !Safe(B, f, op)
    ensures op.WriteAt? ==> answer.error == Corrupt && f'.size == f.size
    ensures op.TruncateTo? ==> answer.error == NoError
                               && (ReadStep(f', Reached(op) - 1, 1, error, bytes) ==> error == Corrupt)
  {
  }

  // Without a failed growth a file stays tidy, so every call on it is safe.
  lemma {:induction false} TidyStays(B: nat, f: Shape, op: Operation, answer: Answer, k: nat, f': Shape)
    requires 0 < B && Plain(f) && Tidy(B, f) && Step(B, f, op, answer, k, f') && (answer.error != NoSpace || k == 0)
    ensures Tidy(B, f')
  {
    BlocksForSize(0, B);
    if answer.error != NoSpace && op.WriteAt? && op.input != [] && Reached(op) <= SIZE_LIMIT {
      GrownReaches(B, f, Reached(op));
      TidyGrown(B, f, Reached(op));
    } else if answer.error != NoSpace && op.TruncateTo? && f.size < op.newSize {
      TidyGrown(B, f, op.newSize);
    }
  }

  lemma {:induction false} TidyGrown(B: nat, f: Shape, to: nat)
    requires 0 < B && Tidy(B, f)
    ensures |Grown(B, f, Lacking(B, f.size, to)).row| == Origin(B, BlocksFor(Max(f.size, to), B))
  {
    OriginSum(B, BlocksFor(f.size, B), Lacking(B, f.size, to));
    BlockOrdering(f.size, to, B);
    BlockOrdering(to, f.size, B);
  }
}
