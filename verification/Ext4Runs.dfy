/**
 Runs of calls on the files of an ext4 volume. Every run takes the steps of
 Ext4Shapes, also past calls that find no room, and no call changes another
 file. While every growth is safe the files are plain byte sequences.
 */
module Ext4Runs {
  import opened Machine
  import opened Bytes
  import opened Blocks
  import opened FileRuns
  import opened Ext4Extents
  import opened Ext4Volume
  import opened Ext4Shapes
  import opened Ext4Files

  // ---- Several files on one volume ----

  // Open files share no block.
  ghost predicate Together(l: Layout, d: Disk, files: seq<Node>, stocks: seq<Stock>) {
    && |files| == |stocks|
    && (forall i :: 0 <= i < |files| ==> Stands(l, d, files[i], stocks[i]))
    && (forall i, j :: 0 <= i < |files| && 0 <= j < |files| && i != j ==> Disjoint(All(stocks[i]), All(stocks[j])))
  }

  ghost function Shapes(l: Layout, d: Disk, files: seq<Node>, stocks: seq<Stock>): (r: seq<Shape>)
    requires Together(l, d, files, stocks)
    ensures |r| == |files| && forall i :: 0 <= i < |files| ==> r[i] == ShapeOf(l, d, files[i], stocks[i])
  {
    seq(|files|, i requires 0 <= i < |files| => ShapeOf(l, d, files[i], stocks[i]))
  }

  // Another file keeps its bytes and its distance.
  ghost predicate Spared(l: Layout, d: Disk, d': Disk, blocks': seq<nat>, other: Node, s: Stock) {
    && Stands(l, d, other, s) && Stands(l, d', other, s) && ShapeOf(l, d', other, s) == ShapeOf(l, d, other, s)
    && Disjoint(blocks', All(s)) && Disjoint(All(s), blocks')
  }

  lemma {:induction false} SparedOther(l: Layout, d: Disk, d': Disk, blocks: seq<nat>, blocks': seq<nat>, other: Node,
                                       s: Stock)
    requires LeftAlone(l, d, d', blocks, blocks') && Formatted(l, d') && Stands(l, d, other, s)
    requires Disjoint(blocks, All(s))
    ensures Spared(l, d, d', blocks', other, s)
  {
    forall b | b in All(s) ensures Kept(l, d, d', b) && b !in blocks' {
      assert OwnBlock(l, d, b);
      assert b !in blocks;
    }
    HoldsKept(l, d, d', other.root, s);
  }

  lemma {:induction false} TogetherStep(l: Layout, d: Disk, d': Disk, files: seq<Node>, stocks: seq<Stock>, k: nat,
                                        file': Node, s': Stock)
    requires Together(l, d, files, stocks) && k < |files| && Stands(l, d', file', s')
             && LeftAlone(l, d, d', All(stocks[k]), All(s'))
    ensures Together(l, d', files[k := file'], stocks[k := s'])
    ensures Shapes(l, d', files[k := file'], stocks[k := s'])
         == Shapes(l, d, files, stocks)[k := ShapeOf(l, d', file', s')]
  {
    forall i | 0 <= i < |files| && i != k ensures Spared(l, d, d', All(s'), files[i], stocks[i]) {
      assert Disjoint(All(stocks[k]), All(stocks[i]));
      SparedOther(l, d, d', All(stocks[k]), All(s'), files[i], stocks[i]);
    }
    StillTogether(l, d, d', files, stocks, k, file', s');
  }

  lemma {:induction false} StillTogether(l: Layout, d: Disk, d': Disk, files: seq<Node>, stocks: seq<Stock>, k: nat,
                                         file': Node, s': Stock)
    requires Together(l, d, files, stocks) && k < |files| && Stands(l, d', file', s')
    requires forall i :: 0 <= i < |files| && i != k ==> Spared(l, d, d', All(s'), files[i], stocks[i])
    ensures Together(l, d', files[k := file'], stocks[k := s'])
    ensures Shapes(l, d', files[k := file'], stocks[k := s'])
         == Shapes(l, d, files, stocks)[k := ShapeOf(l, d', file', s')]
  {
    var files', stocks' := files[k := file'], stocks[k := s'];
    forall i | 0 <= i < |files'| ensures Stands(l, d', files'[i], stocks'[i]) {
      assert i != k ==> Spared(l, d, d', All(s'), files[i], stocks[i]);
    }
    forall i, j | 0 <= i < |files'| && 0 <= j < |files'| && i != j
      ensures Disjoint(All(stocks'[i]), All(stocks'[j]))
    {
      if i == k {
        assert Spared(l, d, d', All(s'), files[j], stocks[j]);
      } else if j == k {
        assert Spared(l, d, d', All(s'), files[i], stocks[i]);
      } else {
        assert Disjoint(All(stocks[i]), All(stocks[j]));
      }
    }
    forall i | 0 <= i < |files'| && i != k
      ensures ShapeOf(l, d', files'[i], stocks'[i]) == Shapes(l, d, files, stocks)[i]
    {
      assert Spared(l, d, d', All(s'), files[i], stocks[i]);
    }
  }

  // A block in use that belongs to none of the files.
  ghost predicate Foreign(l: Layout, d: Disk, stocks: seq<Stock>, b: nat) {
    InUse(l, d, b) && forall i :: 0 <= i < |stocks| ==> b !in All(stocks[i])
  }

  // No block leaks and none is lost: what is in use besides the files is what
  // was, with the same contents.
  ghost predicate Accounted(l: Layout, d: Disk, stocks: seq<Stock>, d': Disk, stocks': seq<Stock>) {
    && (forall b :: Foreign(l, d', stocks', b) ==> Foreign(l, d, stocks, b))
    && (forall b :: Foreign(l, d, stocks, b) ==> Foreign(l, d', stocks', b) && Kept(l, d, d', b))
  }

  lemma {:induction false} AccountedStep(l: Layout, d: Disk, d': Disk, stocks: seq<Stock>, k: nat, s': Stock)
    requires k < |stocks| && LeftAlone(l, d, d', All(stocks[k]), All(s'))
    requires forall i :: 0 <= i < |stocks| && i != k ==> Disjoint(All(s'), All(stocks[i]))
    ensures Accounted(l, d, stocks, d', stocks[k := s'])
  {
    var stocks' := stocks[k := s'];
    forall b | Foreign(l, d', stocks', b) ensures Foreign(l, d, stocks, b) {
      assert b !in All(stocks'[k]);
      forall i | 0 <= i < |stocks| ensures b !in All(stocks[i]) {
        assert i != k ==> stocks'[i] == stocks[i];
      }
    }
    forall b | Foreign(l, d, stocks, b) ensures Foreign(l, d', stocks', b) && Kept(l, d, d', b) {
      assert b !in All(stocks[k]);
      forall i | 0 <= i < |stocks'| ensures b !in All(stocks'[i]) {
        assert i != k ==> stocks'[i] == stocks[i];
      }
    }
  }

  lemma {:induction false} AccountedThen(l: Layout, d: Disk, s: seq<Stock>, d1: Disk, s1: seq<Stock>, d2: Disk,
                                         s2: seq<Stock>)
    requires Accounted(l, d, s, d1, s1) && Accounted(l, d1, s1, d2, s2)
    ensures Accounted(l, d, s, d2, s2)
  {
    forall b | Foreign(l, d, s, b) ensures Foreign(l, d2, s2, b) && Kept(l, d, d2, b) {
      assert Foreign(l, d1, s1, b);
    }
    forall b | Foreign(l, d2, s2, b) ensures Foreign(l, d, s, b) {
      assert Foreign(l, d1, s1, b);
    }
  }

  lemma {:induction false} AccountedSame(l: Layout, d: Disk, stocks: seq<Stock>)
    ensures Accounted(l, d, stocks, d, stocks)
  {
  }

  // ---- One call ----

  method Perform(vol: Volume, file: Node, op: Operation, ghost s: Stock)
    returns (answer: Answer, file': Node, ghost k: nat, ghost s': Stock)
    requires vol.Valid() && Stands(vol.l, vol.View(), file, s)
    modifies vol
    ensures vol.Valid() && Aside(vol.l, old(vol.View()), file, s, vol.View(), file', s')
    ensures Step(vol.l.blockSize, ShapeOf(vol.l, old(vol.View()), file, s), op, answer, k,
                 ShapeOf(vol.l, vol.View(), file', s'))
  {
    var error, bytes := NoError, [];
    match op {
      case WriteAt(offset, input) =>
        error, file', k, s' := Write(vol, file, offset, input, s);
      case TruncateTo(size) =>
        error, file', k, s' := Truncate(vol, file, size, s);
      case ReadAt(from, count) =>
        error, bytes := ReadFile(vol, file, from, count, s);
        Untouched(vol.l, vol.View(), All(s));
        file', k, s' := file, 0, s;
    }
    answer := Answer(error, bytes);
  }

  // What a call does to the files; one on a file that is not there is refused.
  ghost predicate StepOn(B: nat, shapes: seq<Shape>, call: Call, answer: Answer, k: nat, shapes': seq<Shape>)
    requires 0 < B
  {
    && |shapes'| == |shapes|
    && if call.file >= |shapes| then answer.error == InvalidArgument && k == 0 && shapes' == shapes
       else
         && shapes' == shapes[call.file := shapes'[call.file]]
         && Step(B, shapes[call.file], call.op, answer, k, shapes'[call.file])
  }

  method RunStep(vol: Volume, files: seq<Node>, call: Call, ghost stocks: seq<Stock>)
    returns (answer: Answer, files': seq<Node>, ghost k: nat, ghost stocks': seq<Stock>)
    requires vol.Valid() && Together(vol.l, vol.View(), files, stocks)
    modifies vol
    ensures vol.Valid() && Together(vol.l, vol.View(), files', stocks')
    ensures Accounted(vol.l, old(vol.View()), stocks, vol.View(), stocks')
    ensures StepOn(vol.l.blockSize, Shapes(vol.l, old(vol.View()), files, stocks), call, answer, k,
                   Shapes(vol.l, vol.View(), files', stocks'))
  {
    AccountedSame(vol.l, vol.View(), stocks);
    if call.file >= |files| {
      return Answer(InvalidArgument, []), files, 0, stocks;
    }
    ghost var d := vol.View();
    var file';
    ghost var s';
    answer, file', k, s' := Perform(vol, files[call.file], call.op, stocks[call.file]);
    TogetherStep(vol.l, d, vol.View(), files, stocks, call.file, file', s');
    files', stocks' := files[call.file := file'], stocks[call.file := s'];
    StepAccounted(vol.l, d, vol.View(), files', stocks, call.file, s');
  }

  lemma {:induction false} StepAccounted(l: Layout, d: Disk, d': Disk, files': seq<Node>, stocks: seq<Stock>, k: nat,
                                         s': Stock)
    requires k < |stocks| && LeftAlone(l, d, d', All(stocks[k]), All(s')) && Together(l, d', files', stocks[k := s'])
    ensures Accounted(l, d, stocks, d', stocks[k := s'])
  {
    var stocks' := stocks[k := s'];
    forall i | 0 <= i < |stocks| && i != k ensures Disjoint(All(s'), All(stocks[i])) {
      assert Disjoint(All(stocks'[k]), All(stocks'[i]));
    }
    AccountedStep(l, d, d', stocks, k, s');
  }

  // ---- Whole runs ----

  // The files before and after each call.
  ghost predicate IsTrace(B: nat, trace: seq<seq<Shape>>, calls: seq<Call>, answers: seq<Answer>, added: seq<nat>)
    requires 0 < B
  {
    && |trace| == |calls| + 1 && |answers| == |added| == |calls|
    && forall i :: 0 <= i < |calls| ==> StepOn(B, trace[i], calls[i], answers[i], added[i], trace[i + 1])
  }

  ghost predicate AllPlain(shapes: seq<Shape>) {
    forall i :: 0 <= i < |shapes| ==> Plain(shapes[i])
  }

  ghost function Contents(shapes: seq<Shape>): (r: seq<seq<u8>>)
    requires AllPlain(shapes)
    ensures |r| == |shapes| && forall i :: 0 <= i < |shapes| ==> r[i] == Held(shapes[i])
  {
    seq(|shapes|, i requires 0 <= i < |shapes| => Held(shapes[i]))
  }

  ghost predicate SafeOn(B: nat, shapes: seq<Shape>, call: Call)
    requires 0 < B
  {
    call.file < |shapes| ==> Safe(B, shapes[call.file], call.op)
  }

  function Outcomes(calls: seq<Call>, answers: seq<Answer>): (r: seq<Outcome>)
    requires |calls| == |answers|
    ensures |r| == |calls| && forall i :: 0 <= i < |r| ==> r[i] == OutcomeOf(calls[i].op, answers[i])
  {
    seq(|calls|, i requires 0 <= i < |calls| => OutcomeOf(calls[i].op, answers[i]))
  }

  // The run is the same run on plain byte sequences.
  ghost predicate Replayed(start: seq<seq<u8>>, shapes: seq<Shape>, calls: seq<Call>, outcomes: seq<Outcome>) {
    && |calls| == |outcomes| && AllPlain(shapes) && Contents(shapes) == Replay(start, calls, outcomes)
    && forall i :: 0 <= i < |calls| ==> PlausibleAt(start, calls, outcomes, i)
  }

  lemma {:induction false} PlainOn(B: nat, shapes: seq<Shape>, call: Call, answer: Answer, k: nat,
                                   shapes': seq<Shape>)
    requires 0 < B && AllPlain(shapes) && StepOn(B, shapes, call, answer, k, shapes') && SafeOn(B, shapes, call)
    ensures AllPlain(shapes') && Contents(shapes') == AppliedTo(Contents(shapes), call, OutcomeOf(call.op, answer))
    ensures PlausibleFor(Contents(shapes), call, OutcomeOf(call.op, answer))
  {
    if call.file < |shapes| {
      PlainStep(B, shapes[call.file], call.op, answer, k, shapes'[call.file]);
    }
  }

  // As long as every call is safe.
  lemma {:induction false} PlainRun(B: nat, trace: seq<seq<Shape>>, calls: seq<Call>, answers: seq<Answer>,
                                    added: seq<nat>, n: nat)
    requires 0 < B && IsTrace(B, trace, calls, answers, added) && n <= |calls| && AllPlain(trace[0])
    requires forall i :: 0 <= i < n ==> SafeOn(B, trace[i], calls[i])
    ensures Replayed(Contents(trace[0]), trace[n], calls[..n], Outcomes(calls, answers)[..n])
  {
    var outcomes := Outcomes(calls, answers);
    if n == 0 {
      assert calls[..0] == [] && outcomes[..0] == [];
    } else {
      var m := n - 1;
      PlainRun(B, trace, calls, answers, added, m);
      assert StepOn(B, trace[m], calls[m], answers[m], added[m], trace[m + 1]) && SafeOn(B, trace[m], calls[m]);
      PlainOn(B, trace[m], calls[m], answers[m], added[m], trace[m + 1]);
      assert outcomes[..n] == outcomes[..m] + [outcomes[m]];
      ReplayStep(Contents(trace[0]), calls, outcomes[..m], m, outcomes[m], calls[..n], outcomes[..n]);
    }
  }

  ghost predicate AllTidy(B: nat, shapes: seq<Shape>)
    requires 0 < B
  {
    forall i :: 0 <= i < |shapes| ==> Tidy(B, shapes[i])
  }

  // Files that start tidy stay so, and every call on them is safe, until a
  // growth fails halfway.
  lemma {:induction false} TidyRun(B: nat, trace: seq<seq<Shape>>, calls: seq<Call>, answers: seq<Answer>,
                                   added: seq<nat>, n: nat)
    requires 0 < B && IsTrace(B, trace, calls, answers, added) && n <= |calls| && AllPlain(trace[0])
    requires AllTidy(B, trace[0]) && forall i :: 0 <= i < n ==> answers[i].error != NoSpace || added[i] == 0
    ensures AllPlain(trace[n]) && AllTidy(B, trace[n]) && forall i :: 0 <= i < n ==> SafeOn(B, trace[i], calls[i])
  {
    if n > 0 {
      var m := n - 1;
      TidyRun(B, trace, calls, answers, added, m);
      assert StepOn(B, trace[m], calls[m], answers[m], added[m], trace[m + 1]);
      PlainOn(B, trace[m], calls[m], answers[m], added[m], trace[m + 1]);
      var c := calls[m].file;
      if c < |trace[m]| {
        TidyStays(B, trace[m][c], calls[m].op, answers[m], added[m], trace[n][c]);
      }
    }
  }

  // Any run of reads, writes and truncations over any number of files on one
  // volume takes the exact steps, whatever room there is and whatever state the
  // files are in. It is the run on plain byte sequences if all files start plain
  // and every call is safe.
  method Run(vol: Volume, files: seq<Node>, calls: seq<Call>, ghost stocks: seq<Stock>)
    returns (answers: seq<Answer>, files': seq<Node>, ghost stocks': seq<Stock>, ghost added: seq<nat>,
             ghost trace: seq<seq<Shape>>)
    requires vol.Valid() && Together(vol.l, vol.View(), files, stocks)
    modifies vol
    ensures vol.Valid() && Together(vol.l, vol.View(), files', stocks')
    ensures Accounted(vol.l, old(vol.View()), stocks, vol.View(), stocks')
    ensures IsTrace(vol.l.blockSize, trace, calls, answers, added)
    ensures trace[0] == Shapes(vol.l, old(vol.View()), files, stocks)
    ensures trace[|calls|] == Shapes(vol.l, vol.View(), files', stocks')
    ensures AllPlain(trace[0]) && (forall i :: 0 <= i < |calls| ==> SafeOn(vol.l.blockSize, trace[i], calls[i])) ==>
              Replayed(Contents(trace[0]), trace[|calls|], calls, Outcomes(calls, answers))
  {
    answers, files', stocks', added := [], files, stocks, [];
    trace := [Shapes(vol.l, vol.View(), files, stocks)];
    AccountedSame(vol.l, vol.View(), stocks);
    for i := 0 to |calls|
      invariant vol.Valid() && Together(vol.l, vol.View(), files', stocks')
      invariant Accounted(vol.l, old(vol.View()), stocks, vol.View(), stocks')
      invariant IsTrace(vol.l.blockSize, trace, calls[..i], answers, added)
      invariant trace[0] == Shapes(vol.l, old(vol.View()), files, stocks)
      invariant trace[i] == Shapes(vol.l, vol.View(), files', stocks')
    {
      var answer;
      ghost var k, d1, s1 := 0, vol.View(), stocks';
      answer, files', k, stocks' := RunStep(vol, files', calls[i], stocks');
      AccountedThen(vol.l, old(vol.View()), stocks, d1, s1, vol.View(), stocks');
      TraceStep(vol.l.blockSize, trace, calls, answers, added, i, answer, k,
                Shapes(vol.l, vol.View(), files', stocks'));
      answers, added, trace := answers + [answer], added + [k], trace + [Shapes(vol.l, vol.View(), files', stocks')];
    }
    assert calls[..|calls|] == calls;
    WholeRun(vol.l.blockSize, trace, calls, answers, added);
  }

  lemma {:induction false} TraceStep(B: nat, trace: seq<seq<Shape>>, calls: seq<Call>, answers: seq<Answer>,
                                     added: seq<nat>, i: nat, answer: Answer, k: nat, shapes: seq<Shape>)
    requires 0 < B && i < |calls| && IsTrace(B, trace, calls[..i], answers, added)
    requires StepOn(B, trace[i], calls[i], answer, k, shapes)
    ensures IsTrace(B, trace + [shapes], calls[..i + 1], answers + [answer], added + [k])
  {
    var trace', answers', added' := trace + [shapes], answers + [answer], added + [k];
    forall j | 0 <= j <= i ensures StepOn(B, trace'[j], calls[..i + 1][j], answers'[j], added'[j], trace'[j + 1]) {
      if j < i {
        assert StepOn(B, trace[j], calls[..i][j], answers[j], added[j], trace[j + 1]);
      }
    }
  }

  lemma {:induction false} WholeRun(B: nat, trace: seq<seq<Shape>>, calls: seq<Call>, answers: seq<Answer>,
                                    added: seq<nat>)
    requires 0 < B && IsTrace(B, trace, calls, answers, added)
    ensures AllPlain(trace[0]) && (forall i :: 0 <= i < |calls| ==> SafeOn(B, trace[i], calls[i])) ==>
              Replayed(Contents(trace[0]), trace[|calls|], calls, Outcomes(calls, answers))
  {
    if AllPlain(trace[0]) && forall i :: 0 <= i < |calls| ==> SafeOn(B, trace[i], calls[i]) {
      PlainRun(B, trace, calls, answers, added, |calls|);
      assert calls[..|calls|] == calls && Outcomes(calls, answers)[..|calls|] == Outcomes(calls, answers);
    }
  }

  // ---- A growth that is not safe ----

  // All blocks are in use but these.
  ghost predicate FreeAre(l: Layout, d: Disk, blocks: set<nat>) {
    forall i :: 0 <= i < |d.used| ==> (d.used[i] <==> l.firstData + i !in blocks)
  }

  // A file that needs two blocks and has three, two of which are never found.
  ghost predicate Spoilt(l: Layout, d: Disk, file: Node, s: Stock) {
    Stands(l, d, file, s) && ShapeOf(l, d, file, s) == Shape(l.blockSize + 1, Zeros(l.blockSize), 2)
  }

  // On a volume with one free block: a new file asks for two, gets one and
  // fails; another file gives up its two blocks; now the first one grows to two
  // blocks, with success; but its last byte cannot be read any more.
  method UnsafeExample(vol: Volume, other: Node, input: seq<u8>, ghost s: Stock, ghost free: nat)
    returns (first: Error, second: Error, third: Error, fourth: Error)
    requires vol.Valid() && Stands(vol.l, vol.View(), other, s) && s.spare == [] && |s.owned| == 2 && other.size > 0
    requires vol.l.firstData <= free < vol.l.firstData + |vol.used| && FreeAre(vol.l, vol.View(), {free})
    requires |input| == vol.l.blockSize + 1
    modifies vol
    ensures first == NoSpace && second == NoError && third == NoError && fourth == Corrupt
  {
    var file, bytes;
    ghost var d0, s1, s3 := vol.View(), s, s;
    PairOwned(vol.l, d0, other, s);
    first, file, s1 := TakeLast(vol, input, free);
    SparedOther(vol.l, d0, vol.View(), [], All(s1), other, s);
    ghost var d1 := vol.View();
    second := GiveUp(vol, other, s);
    SparedOther(vol.l, d1, vol.View(), All(s), [], file, s1);
    third, file, s3 := GrowAgain(vol, file, s1, free, s.owned[0], s.owned[1]);
    fourth, bytes := ReadFile(vol, file, vol.l.blockSize, 1, s3);
  }

  method TakeLast(vol: Volume, input: seq<u8>, ghost free: nat) returns (error: Error, file: Node, ghost s: Stock)
    requires vol.Valid() && |input| == vol.l.blockSize + 1
    requires vol.l.firstData <= free < vol.l.firstData + |vol.used| && FreeAre(vol.l, vol.View(), {free})
    modifies vol
    ensures vol.Valid() && error == NoSpace && Stands(vol.l, vol.View(), file, s) && All(s) == [free]
    ensures ShapeOf(vol.l, vol.View(), file, s) == Shape(0, Zeros(vol.l.blockSize), 0)
    ensures LeftAlone(vol.l, old(vol.View()), vol.View(), [], All(s)) && FreeAre(vol.l, vol.View(), {})
  {
    ghost var d, k := vol.View(), 0;
    NewFile(vol.l, d);
    error, file, k, s := Write(vol, Node(0, EmptyRoot(), 0), 0, input, Stock([], []));
    OneTaken(vol.l, d, vol.View(), file, s, error, k, input, free);
  }

  method GiveUp(vol: Volume, other: Node, ghost s: Stock) returns (error: Error)
    requires vol.Valid() && Stands(vol.l, vol.View(), other, s) && s.spare == [] && |s.owned| == 2 && other.size > 0
    requires FreeAre(vol.l, vol.View(), {})
    modifies vol
    ensures vol.Valid() && error == NoError && FreeAre(vol.l, vol.View(), {s.owned[0], s.owned[1]})
    ensures LeftAlone(vol.l, old(vol.View()), vol.View(), All(s), [])
  {
    ghost var d, k, s' := vol.View(), 0, s;
    var other';
    error, other', k, s' := Truncate(vol, other, 0, s);
    TwoFreed(vol.l, d, vol.View(), s, s', other');
  }

  method GrowAgain(vol: Volume, file: Node, ghost s: Stock, ghost free: nat, ghost p: nat, ghost q: nat)
    returns (error: Error, file': Node, ghost s': Stock)
    requires vol.Valid() && Stands(vol.l, vol.View(), file, s) && All(s) == [free] && p != q && free != p && free != q
    requires ShapeOf(vol.l, vol.View(), file, s) == Shape(0, Zeros(vol.l.blockSize), 0)
    requires FreeAre(vol.l, vol.View(), {p, q})
    requires vol.l.firstData <= p < vol.l.firstData + |vol.used| && vol.l.firstData <= q < vol.l.firstData + |vol.used|
    modifies vol
    ensures vol.Valid() && error == NoError && Spoilt(vol.l, vol.View(), file', s')
  {
    ghost var d, k := vol.View(), 0;
    error, file', k, s' := Resize(vol, file, vol.l.blockSize + 1, s);
    BothTaken(vol.l, d, file, s, vol.View(), file', s', error, k, free, p, q);
  }

  // What Truncate promises; a proof that needs it asserts ResizedTo.
  ghost predicate Resized(l: Layout, d: Disk, file: Node, s: Stock, size: nat, error: Error, k: nat, d': Disk,
                          file': Node, s': Stock)
  {
    forall t :: t == size ==> ResizedTo(l, d, file, s, t, error, k, d', file', s')
  }

  ghost predicate ResizedTo(l: Layout, d: Disk, file: Node, s: Stock, size: nat, error: Error, k: nat, d': Disk,
                            file': Node, s': Stock)
  {
    && Aside(l, d, file, s, d', file', s') && (file.size <= size ==> All(s) <= All(s'))
    && TruncateStep(l.blockSize, ShapeOf(l, d, file, s), size, error, k, ShapeOf(l, d', file', s'))
    && (error == NoSpace ==> Exhausted(d'.used, file'.root))
  }

  method Resize(vol: Volume, file: Node, size: nat, ghost s: Stock)
    returns (error: Error, file': Node, ghost k: nat, ghost s': Stock)
    requires vol.Valid() && Stands(vol.l, vol.View(), file, s)
    modifies vol
    ensures vol.Valid() && Resized(vol.l, old(vol.View()), file, s, size, error, k, vol.View(), file', s')
  {
    error, file', k, s' := Truncate(vol, file, size, s);
  }

  lemma {:induction false} TwoBlocks(B: nat)
    requires 0 < B
    ensures BlocksFor(0, B) == 0 && BlocksFor(B + 1, B) == 2 && Origin(B, 0) == 0 && Origin(B, 1) == B
    ensures Lacking(B, 0, B + 1) == 2
  {
    QuotientUnique(B, 1, 0, B);
    assert Origin(B, 1) == B;
  }

  // The length of the row gives the number of blocks that are found.
  lemma {:induction false} RowBlocks(l: Layout, d: Disk, file: Node, s: Stock, n: nat)
    requires Holds(l, d, file.root, s) && |ShapeOf(l, d, file, s).row| == Origin(l.blockSize, n)
    ensures |s.owned| == n && |All(s)| == n + ShapeOf(l, d, file, s).lost
    ensures |Extents(file.root)| <= |All(s)|
  {
    if |s.owned| < n {
      OriginOrder(l.blockSize, |s.owned|, n);
    } else if n < |s.owned| {
      OriginOrder(l.blockSize, n, |s.owned|);
    }
    var front := LaidBlocks(Extents(file.root), s);
  }

  lemma {:induction false} OneOnly(chain: seq<nat>, x: nat)
    requires Distinct(chain) && forall i :: 0 <= i < |chain| ==> chain[i] == x
    ensures |chain| <= 1
  {
    assert |chain| > 1 ==> Differ(chain, 0, 1);
  }

  lemma {:induction false} ThreeInside(chain: seq<nat>, x: nat, y: nat, z: nat)
    requires x in chain && y in chain && z in chain && x != y && y != z && x != z
    ensures |chain| >= 3
  {
    var i :| 0 <= i < |chain| && chain[i] == x;
    var j :| 0 <= j < |chain| && chain[j] == y;
    var k :| 0 <= k < |chain| && chain[k] == z;
    assert i != j && j != k && i != k;
  }

  lemma {:induction false} PairOwned(l: Layout, d: Disk, file: Node, s: Stock)
    requires Stands(l, d, file, s) && s.spare == [] && |s.owned| == 2
    ensures s.owned[0] != s.owned[1] && s.owned[0] in All(s) && s.owned[1] in All(s)
    ensures l.firstData <= s.owned[0] < l.firstData + |d.used| && l.firstData <= s.owned[1] < l.firstData + |d.used|
  {
    assert All(s) == s.owned && Differ(All(s), 0, 1);
    assert OwnBlock(l, d, All(s)[0]) && OwnBlock(l, d, All(s)[1]);
  }

  // The new file got the one block there was.
  lemma {:induction false} OneTaken(l: Layout, d: Disk, d1: Disk, file: Node, s1: Stock, error: Error, k: nat,
                                    input: seq<u8>, free: nat)
    requires Formatted(l, d) && FreeAre(l, d, {free}) && |input| == l.blockSize + 1
    requires Stands(l, d1, file, s1) && LeftAlone(l, d, d1, [], All(s1))
    requires WriteStep(l.blockSize, Shape(0, [], 0), 0, input, error, k, ShapeOf(l, d1, file, s1))
    requires error == NoSpace ==> Exhausted(d1.used, file.root)
    requires l.firstData <= free < l.firstData + |d.used|
    ensures error == NoSpace && All(s1) == [free] && ShapeOf(l, d1, file, s1) == Shape(0, Zeros(l.blockSize), 0)
    ensures FreeAre(l, d1, {})
  {
    TwoBlocks(l.blockSize);
    assert Tidy(l.blockSize, Shape(0, [], 0));
    RowBlocks(l, d1, file, s1, k);
    forall i | 0 <= i < |All(s1)| ensures All(s1)[i] == free {
      assert All(s1)[i] in All(s1) && OwnBlock(l, d1, All(s1)[i]);
    }
    OneOnly(All(s1), free);
    assert InUse(l, d1, free);
    assert ShapeOf(l, d1, file, s1).row == Zeros(l.blockSize);
  }

  // The other file gave up both of its blocks.
  lemma {:induction false} TwoFreed(l: Layout, d1: Disk, d2: Disk, s: Stock, s2: Stock, other': Node)
    requires Formatted(l, d1) && FreeAre(l, d1, {}) && s.spare == [] && |s.owned| == 2
    requires Stands(l, d2, other', s2) && LeftAlone(l, d1, d2, All(s), All(s2))
    requires ShapeOf(l, d2, other', s2) == Shape(0, [], 0)
    ensures FreeAre(l, d2, {s.owned[0], s.owned[1]}) && All(s2) == []
  {
    RowBlocks(l, d2, other', s2, 0);
    assert All(s2) == [] && All(s) == [s.owned[0], s.owned[1]];
    FreedAre(l, d1, d2, All(s));
    forall i | 0 <= i < |d2.used| ensures d2.used[i] <==> l.firstData + i !in {s.owned[0], s.owned[1]} {
      assert l.firstData + i in All(s) <==> l.firstData + i in {s.owned[0], s.owned[1]};
    }
  }

  // A full volume after a file has given up its blocks.
  lemma {:induction false} FreedAre(l: Layout, d1: Disk, d2: Disk, freed: seq<nat>)
    requires Formatted(l, d1) && Formatted(l, d2) && FreeAre(l, d1, {}) && LeftAlone(l, d1, d2, freed, [])
    ensures forall i :: 0 <= i < |d2.used| ==> (d2.used[i] <==> l.firstData + i !in freed)
  {
    forall i | 0 <= i < |d2.used| ensures d2.used[i] <==> l.firstData + i !in freed {
      assert d2.used[i] <==> InUse(l, d2, l.firstData + i);
      assert d1.used[i] <==> InUse(l, d1, l.firstData + i);
    }
  }

  // The first file took both, one of them for a position that it had.
  lemma {:induction false} BothTaken(l: Layout, d2: Disk, was: Node, s1: Stock, d3: Disk, file: Node, s3: Stock,
                                     error: Error, k: nat, free: nat, p: nat, q: nat)
    requires FreeAre(l, d2, {p, q}) && p != q && All(s1) == [free] && free != p && free != q
    requires l.firstData <= p < l.firstData + |d2.used| && l.firstData <= q < l.firstData + |d2.used|
    requires Stands(l, d2, was, s1) && ShapeOf(l, d2, was, s1) == Shape(0, Zeros(l.blockSize), 0)
    requires Resized(l, d2, was, s1, l.blockSize + 1, error, k, d3, file, s3)
    ensures error == NoError && Spoilt(l, d3, file, s3)
  {
    assert ResizedTo(l, d2, was, s1, l.blockSize + 1, error, k, d3, file, s3);
    TwoBlocks(l.blockSize);
    RowBlocks(l, d3, file, s3, 1);
    if error == NoSpace {
      assert InUse(l, d3, p) && InUse(l, d3, q);
      NoneSpare(l, d2, d3, All(s1), All(s3), free, p, q);
    }
  }

  // On a full volume the file has all three blocks.
  lemma {:induction false} NoneSpare(l: Layout, d2: Disk, d3: Disk, before: seq<nat>, all: seq<nat>, free: nat, p: nat,
                                     q: nat)
    requires FreeAre(l, d2, {p, q}) && LeftAlone(l, d2, d3, before, all) && before == [free] && before <= all
    requires p != q && free != p && free != q && InUse(l, d3, p) && InUse(l, d3, q)
    ensures |all| >= 3
  {
    assert !InUse(l, d2, p) && !InUse(l, d2, q);
    assert all[0] == free && p in all && q in all;
    ThreeInside(all, free, p, q);
  }
}
