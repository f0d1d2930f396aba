/**
 File contents on an ext4 volume: reads through any extent map that fits in the
 inode, writes and truncations of the files this driver makes. Each call is
 proved to take the step that Ext4Shapes gives for it.
 */
module Ext4Files {
  import opened Machine
  import opened Bytes
  import opened Blocks
  import opened Ext4Extents
  import opened Ext4Volume
  import opened Ext4Shapes

  datatype Node = Node(size: nat, root: seq<u8>, sectors: nat)

  function Div(o: nat, B: nat): nat
    requires 0 < B
  {
    o / B
  }

  function Mod(o: nat, B: nat): nat
    requires 0 < B
  {
    o % B
  }

  // ---- Reading through any extent map of depth 0 ----

  function MapAt(l: Layout, root: seq<u8>, logical: nat): Mapping {
    if IsRoot(root) then Lookup(Extents(root), logical, 0, l.blockCount) else Broken
  }

  // The byte of a file at an offset: zero in a hole.
  function ByteAt(l: Layout, data: map<nat, seq<u8>>, root: seq<u8>, offset: nat): u8
    requires 0 < l.blockSize
  {
    match MapAt(l, root, Div(offset, l.blockSize))
    case Mapped(p) => PhysicalByte(data, p, Mod(offset, l.blockSize))
    case _ => 0
  }

  function PhysicalByte(data: map<nat, seq<u8>>, p: nat, within: nat): u8 {
    if p in data && within < |data[p]| then data[p][within] else 0
  }

  // `output` holds the file's bytes from `at` on.
  ghost predicate Matches(l: Layout, data: map<nat, seq<u8>>, root: seq<u8>, at: nat, output: seq<u8>)
    requires 0 < l.blockSize
  {
    forall i :: 0 <= i < |output| ==> ByteMatches(l, data, root, at + i, output[i])
  }

  ghost predicate ByteMatches(l: Layout, data: map<nat, seq<u8>>, root: seq<u8>, offset: nat, byte: u8)
    requires 0 < l.blockSize
  {
    !MapAt(l, root, Div(offset, l.blockSize)).Broken? && byte == ByteAt(l, data, root, offset)
  }

  lemma {:induction false} MatchesMore(l: Layout, data: map<nat, seq<u8>>, root: seq<u8>, at: nat, output: seq<u8>,
                                       more: seq<u8>)
    requires 0 < l.blockSize && Matches(l, data, root, at, output) && Matches(l, data, root, at + |output|, more)
    ensures Matches(l, data, root, at, output + more)
  {
    var all := output + more;
    forall i | 0 <= i < |all| ensures ByteMatches(l, data, root, at + i, all[i]) {
      if i >= |output| {
        assert all[i] == more[i - |output|];
      }
    }
  }

  // The device from block `p` on, as one row of bytes.
  function DeviceByte(B: nat, data: map<nat, seq<u8>>, p: nat, o: nat): u8
    requires 0 < B
  {
    PhysicalByte(data, p + Div(o, B), Mod(o, B))
  }

  // The device's own read, over as many blocks as the count reaches.
  function Transfer(B: nat, data: map<nat, seq<u8>>, p: nat, within: nat, count: nat): (bytes: seq<u8>)
    requires 0 < B
    ensures |bytes| == count
  {
    seq<u8>(count, i requires 0 <= i => DeviceByte(B, data, p, within + i))
  }

  lemma {:induction false} DivWithin(q: nat, r: nat, B: nat)
    requires 0 < B
    ensures (q * B + r) / B == q + r / B && (q * B + r) % B == r % B
  {
    var s, t := r / B, r % B;
    assert r == s * B + t;
    assert q * B + r == (q + s) * B + t;
    QuotientUnique(q * B + r, q + s, t, B);
  }

  // Logical blocks that lie in the same order on the device.
  predicate InRow(l: Layout, root: seq<u8>, logical: nat, p: nat, k: nat) {
    MapAt(l, root, logical + k) == Mapped(p + k)
  }

  // A transfer over physically consecutive blocks gives the file's bytes when
  // every logical block it spans is mapped to its place in the row.
  lemma {:induction false} RowMatches(l: Layout, data: map<nat, seq<u8>>, root: seq<u8>, logical: nat, within: nat,
                                      p: nat, blocks: nat, count: nat)
    requires 0 < l.blockSize && forall k :: 0 <= k < blocks ==> InRow(l, root, logical, p, k)
    requires within + count <= Origin(l.blockSize, blocks)
    ensures Matches(l, data, root, Origin(l.blockSize, logical) + within, Transfer(l.blockSize, data, p, within, count))
  {
    var B, bytes := l.blockSize, Transfer(l.blockSize, data, p, within, count);
    forall i | 0 <= i < |bytes| ensures ByteMatches(l, data, root, Origin(B, logical) + within + i, bytes[i]) {
      RowByte(l, data, root, logical, p, blocks, within + i);
    }
  }

  lemma {:induction false} RowByte(l: Layout, data: map<nat, seq<u8>>, root: seq<u8>, logical: nat, p: nat,
                                   blocks: nat, o: nat)
    requires 0 < l.blockSize && forall k :: 0 <= k < blocks ==> InRow(l, root, logical, p, k)
    requires o < Origin(l.blockSize, blocks)
    ensures ByteMatches(l, data, root, Origin(l.blockSize, logical) + o, DeviceByte(l.blockSize, data, p, o))
  {
    var at, q := Origin(l.blockSize, logical) + o, Div(o, l.blockSize);
    assert q < blocks by {
      ChainIndex(o, blocks, l.blockSize);
    }
    assert InRow(l, root, logical, p, q);
    assert Div(at, l.blockSize) == logical + q && Mod(at, l.blockSize) == Mod(o, l.blockSize) by {
      OriginDiv(logical, o, l.blockSize);
    }
    assert MapAt(l, root, Div(at, l.blockSize)) == Mapped(p + q);
  }

  lemma {:induction false} OriginDiv(logical: nat, o: nat, B: nat)
    requires 0 < B
    ensures (Origin(B, logical) + o) / B == logical + o / B && (Origin(B, logical) + o) % B == o % B
  {
    OriginIsProduct(B, logical);
    DivWithin(logical, o, B);
  }

  lemma {:induction false} HoleMatches(l: Layout, data: map<nat, seq<u8>>, root: seq<u8>, logical: nat, within: nat,
                                       count: nat)
    requires 0 < l.blockSize && MapAt(l, root, logical).Hole? && within + count <= l.blockSize
    ensures Matches(l, data, root, Origin(l.blockSize, logical) + within, Zeros(count))
  {
    var B, at := l.blockSize, Origin(l.blockSize, logical) + within;
    OriginIsProduct(B, logical);
    var bytes := Zeros(count);
    forall i | 0 <= i < |bytes| ensures ByteMatches(l, data, root, at + i, bytes[i]) {
      QuotientUnique(at + i, logical, within + i, B);
    }
  }

  // Blocks that follow on the device as they follow in the file are read at once.
  method CountFollowing(l: Layout, root: seq<u8>, logical: nat, physical: nat, remaining: nat)
    returns (following: nat, count: nat)
    requires 0 < l.blockSize <= remaining && |root| == 60 && Little16(root, 6) == 0
    requires MapAt(l, root, logical) == Mapped(physical) && logical < BLOCK_LIMIT
    ensures 0 < following && l.blockSize <= count <= remaining && count == Origin(l.blockSize, following)
    ensures forall k :: 0 <= k < following ==> InRow(l, root, logical, physical, k)
  {
    following, count := 1, l.blockSize;
    OriginOne(l.blockSize);
    while count <= remaining - l.blockSize && logical + following < BLOCK_LIMIT
      invariant 0 < following && l.blockSize <= count <= remaining && count == Origin(l.blockSize, following)
      invariant forall k :: 0 <= k < following ==> InRow(l, root, logical, physical, k)
      decreases remaining - count
    {
      var next := MapExtents(root, logical + following, l.blockCount);
      if next != Mapped(physical + following) {
        break;
      }
      count := count + l.blockSize;
      following := following + 1;
    }
  }

  lemma {:induction false} OriginOne(B: nat)
    ensures Origin(B, 1) == B
  {
    assert Origin(B, 0) == 0;
  }

  // What one round of read()'s loop contributes.
  method ReadRound(l: Layout, data: map<nat, seq<u8>>, root: seq<u8>, offset: nat, remaining: nat)
    returns (error: Error, bytes: seq<u8>)
    requires 0 < l.blockSize && |root| == 60 && Little16(root, 6) == 0
    requires 0 < remaining && Div(offset, l.blockSize) < BLOCK_LIMIT
    ensures error == NoError || error == Corrupt
    ensures error == Corrupt <==> MapAt(l, root, Div(offset, l.blockSize)).Broken?
    ensures error == NoError ==> 0 < |bytes| <= remaining && Matches(l, data, root, offset, bytes)
  {
    var B := l.blockSize;
    var logical, within := Div(offset, B), Mod(offset, B);
    Split(offset, B);
    var count := Min(remaining, B - within);
    var mapping := MapExtents(root, logical, l.blockCount);
    match mapping
    case Broken => return Corrupt, [];
    case Hole =>
      HoleMatches(l, data, root, logical, within, count);
      return NoError, Zeros(count);
    case Mapped(p) =>
      var following := 1;
      assert InRow(l, root, logical, p, 0);
      if within == 0 && count == B {
        following, count := CountFollowing(l, root, logical, p, remaining);
      }
      bytes := Transfer(B, data, p, within, count);
      RowMatches(l, data, root, logical, within, p, following, count);
      error := NoError;
  }

  // Some block the read needs is damaged.
  ghost predicate Damaged(l: Layout, root: seq<u8>, offset: nat, end: nat)
    requires 0 < l.blockSize
  {
    exists o :: offset <= o < end && MapAt(l, root, Div(o, l.blockSize)).Broken?
  }

  // read(): every byte is the one its own block holds, however many blocks
  // each transfer covered.
  method Read(l: Layout, data: map<nat, seq<u8>>, file: Node, offset: nat, size: nat)
    returns (error: Error, output: seq<u8>)
    requires 0 < l.blockSize && |file.root| == 60 && Little16(file.root, 6) == 0 && file.size <= SIZE_LIMIT
    ensures error == NoError || error == Corrupt
    ensures error == Corrupt <==> offset < file.size && Damaged(l, file.root, offset, Min(offset + size, file.size))
    ensures error == NoError ==>
              && |output| == (if offset < file.size then Min(size, file.size - offset) else 0)
              && Matches(l, data, file.root, offset, output)
  {
    output := [];
    if offset >= file.size || size == 0 {
      return NoError, [];
    }
    var requested := Min(size, file.size - offset);
    while |output| < requested
      invariant |output| <= requested && Matches(l, data, file.root, offset, output)
      decreases requested - |output|
    {
      var bytes;
      DivBound(offset + |output|, l.blockSize);
      error, bytes := ReadRound(l, data, file.root, offset + |output|, requested - |output|);
      if error != NoError {
        return;
      }
      MatchesMore(l, data, file.root, offset, output, bytes);
      output := output + bytes;
    }
    NotDamaged(l, data, file.root, offset, output);
    error := NoError;
  }

  lemma {:induction false} NotDamaged(l: Layout, data: map<nat, seq<u8>>, root: seq<u8>, at: nat, output: seq<u8>)
    requires 0 < l.blockSize && Matches(l, data, root, at, output)
    ensures !Damaged(l, root, at, at + |output|)
  {
    forall o | at <= o < at + |output| ensures !MapAt(l, root, Div(o, l.blockSize)).Broken? {
      assert ByteMatches(l, data, root, at + (o - at), output[o - at]);
    }
  }

  lemma {:induction false} DivBound(n: nat, B: nat)
    requires 0 < B
    ensures n / B <= n
  {
    var q := n / B;
    assert n == q * B + n % B;
    MulMono(1, B, q);
  }

  lemma {:induction false} Split(offset: nat, B: nat)
    requires 0 < B
    ensures offset == Origin(B, offset / B) + offset % B && offset % B < B && Origin(B, 1) == B
  {
    OriginIsProduct(B, offset / B);
    OriginOne(B);
    var q := offset / B;
    assert offset == q * B + offset % B;
  }

  // ---- Files made by this driver ----

  function Stretch(start: nat, count: nat): (s: seq<nat>)
    ensures |s| == count && forall i :: 0 <= i < count ==> s[i] == start + i
  {
    seq<nat>(count, i requires 0 <= i => start + i)
  }

  // The blocks that some extents name, in their order.
  ghost function BlocksOf(exts: seq<Extent>): seq<nat> {
    if exts == [] then []
    else
      var n := |exts| - 1;
      BlocksOf(exts[..n]) + Stretch(exts[n].physical, Length(exts[n]))
  }

  lemma {:induction false} BlocksOfConcat(a: seq<Extent>, b: seq<Extent>)
    ensures BlocksOf(a + b) == BlocksOf(a) + BlocksOf(b)
  {
    if b == [] {
      assert a + b == a;
    } else {
      var n := |b| - 1;
      assert (a + b)[..|a + b| - 1] == a + b[..n];
      BlocksOfConcat(a, b[..n]);
      SeqAssoc(BlocksOf(a), BlocksOf(b[..n]), Stretch(b[n].physical, Length(b[n])));
    }
  }

  // Extents as append_extent makes them.
  ghost predicate Initialized(exts: seq<Extent>) {
    forall i :: 0 <= i < |exts| ==> 0 < exts[i].raw <= MAX_LENGTH
  }

  lemma {:induction false} BlocksOfBounds(exts: seq<Extent>)
    requires Initialized(exts)
    ensures |exts| <= |BlocksOf(exts)| <= MAX_LENGTH * |exts|
  {
    if exts != [] {
      BlocksOfBounds(exts[..|exts| - 1]);
    }
  }

  // Initialized extents that follow each other without a gap from block 0 on.
  ghost predicate Dense(exts: seq<Extent>) {
    exts == [] ||
    var n := |exts| - 1;
    && Dense(exts[..n])
    && exts[n].first == |BlocksOf(exts[..n])| && 0 < exts[n].raw <= MAX_LENGTH
    && |BlocksOf(exts)| <= BLOCK_LIMIT
  }

  lemma {:induction false} DenseSorted(exts: seq<Extent>)
    requires Dense(exts)
    ensures Sorted(exts) && Past(exts, |BlocksOf(exts)|)
  {
    if exts != [] {
      var n := |exts| - 1;
      DenseSorted(exts[..n]);
      SortedAppend(exts[..n], exts[n]);
      assert exts == exts[..n] + [exts[n]];
    }
  }

  lemma {:induction false} SortedAppend(exts: seq<Extent>, e: Extent)
    requires Sorted(exts) && Past(exts, e.first) && e.raw != 0 && End(e) <= BLOCK_LIMIT
    ensures Sorted(exts + [e]) && Past(exts + [e], End(e))
  {
  }

  // The extent that holds a logical block.
  lemma {:induction false} DenseFind(exts: seq<Extent>, logical: nat) returns (i: nat)
    requires Dense(exts) && logical < |BlocksOf(exts)|
    ensures i < |exts| && Covers(exts[i], logical) && exts[i].raw <= MAX_LENGTH
    ensures exts[i].physical + (logical - exts[i].first) == BlocksOf(exts)[logical]
  {
    var n := |exts| - 1;
    if logical < |BlocksOf(exts[..n])| {
      i := DenseFind(exts[..n], logical);
    } else {
      i := n;
    }
  }

  // append_extent on such a file adds one block at its end.
  lemma {:induction false} DenseAppend(exts: seq<Extent>, logical: u32, physical: nat)
    requires Dense(exts) && logical == |BlocksOf(exts)| && Appended(exts, logical, physical).Some?
    ensures Dense(Appended(exts, logical, physical).value)
  {
    AppendBlocks(exts, logical, physical);
    if exts != [] && Continues(exts[|exts| - 1], logical, physical) {
      var last := exts[|exts| - 1];
      DenseNext(exts[..|exts| - 1], last.(raw := last.raw + 1));
    } else {
      DenseNext(exts, Extent(logical, 1, physical));
    }
  }

  lemma {:induction false} DenseNext(exts: seq<Extent>, e: Extent)
    requires Dense(exts) && e.first == |BlocksOf(exts)| && 0 < e.raw <= MAX_LENGTH
    requires |BlocksOf(exts + [e])| <= BLOCK_LIMIT
    ensures Dense(exts + [e])
  {
    assert (exts + [e])[..|exts|] == exts;
  }

  lemma {:induction false} AppendBlocks(exts: seq<Extent>, logical: u32, physical: nat)
    requires Appended(exts, logical, physical).Some?
    ensures BlocksOf(Appended(exts, logical, physical).value) == BlocksOf(exts) + [physical]
  {
    var exts' := Appended(exts, logical, physical).value;
    var n := |exts| - 1;
    if exts != [] && Continues(exts[n], logical, physical) {
      assert exts'[..n] == exts[..n];
      assert Stretch(exts[n].physical, exts[n].raw + 1) == Stretch(exts[n].physical, exts[n].raw) + [physical];
      SeqAssoc(BlocksOf(exts[..n]), Stretch(exts[n].physical, exts[n].raw), [physical]);
    } else {
      assert exts'[..n + 1] == exts;
      assert Stretch(physical, 1) == [physical];
    }
  }

  // The blocks of a file: those that lookups find, in logical order, and those
  // that were appended behind them for positions that were mapped already.
  datatype Stock = Stock(owned: seq<nat>, spare: seq<nat>)

  ghost function All(s: Stock): seq<nat> {
    s.owned + s.spare
  }

  // The first k extents give the blocks that are found; the next one starts
  // inside them.
  ghost predicate Front(exts: seq<Extent>, k: nat, s: Stock) {
    && k <= |exts| && Initialized(exts) && Dense(exts[..k]) && BlocksOf(exts[..k]) == s.owned
       && BlocksOf(exts[k..]) == s.spare
    && (k < |exts| ==> exts[k].first < |s.owned|)
  }

  ghost predicate Laid(exts: seq<Extent>, s: Stock) {
    exists k :: Front(exts, k, s)
  }

  lemma {:induction false} LaidBlocks(exts: seq<Extent>, s: Stock) returns (k: nat)
    requires Laid(exts, s)
    ensures Front(exts, k, s) && BlocksOf(exts) == All(s) && (s.spare == [] <==> k == |exts|)
    ensures |exts| <= |All(s)| <= MAX_LENGTH * |exts|
  {
    k :| Front(exts, k, s);
    assert exts == exts[..k] + exts[k..];
    BlocksOfConcat(exts[..k], exts[k..]);
    BlocksOfBounds(exts[k..]);
    BlocksOfBounds(exts);
  }

  // A lookup finds what the front names. Behind it there is a hole, unless
  // there are more extents: then every lookup fails.
  lemma {:induction false} LaidLookup(exts: seq<Extent>, s: Stock, logical: nat, blockCount: nat)
    requires Laid(exts, s) && forall i :: 0 <= i < |s.owned| ==> ValidBlock(s.owned[i], blockCount)
    ensures Lookup(exts, logical, 0, blockCount)
         == if logical < |s.owned| then Mapped(s.owned[logical]) else if s.spare == [] then Hole else Broken
  {
    var k := LaidBlocks(exts, s);
    if logical < |s.owned| {
      assert ValidBlock(s.owned[logical], blockCount);
      FoundLookup(exts, s, k, logical, blockCount);
    } else if s.spare == [] {
      assert exts == exts[..k];
      DenseSorted(exts);
      LookupMissed(exts, logical, 0, blockCount);
    } else {
      LostLookup(exts, s, k, logical, blockCount);
    }
  }

  lemma {:induction false} FoundLookup(exts: seq<Extent>, s: Stock, k: nat, logical: nat, blockCount: nat)
    requires Front(exts, k, s) && logical < |s.owned| && ValidBlock(s.owned[logical], blockCount)
    ensures Lookup(exts, logical, 0, blockCount) == Mapped(s.owned[logical])
  {
    assert exts == exts[..k] + exts[k..];
    DenseSorted(exts[..k]);
    var i := DenseFind(exts[..k], logical);
    LookupFront(exts[..k], exts[k..], logical, 0, blockCount, i);
  }

  // Behind the found blocks a lookup meets the first lost one and gives up.
  lemma {:induction false} LostLookup(exts: seq<Extent>, s: Stock, k: nat, logical: nat, blockCount: nat)
    requires Front(exts, k, s) && k < |exts| && |s.owned| <= logical
    ensures Lookup(exts, logical, 0, blockCount) == Broken
  {
    assert exts == exts[..k] + exts[k..];
    DenseSorted(exts[..k]);
    DenseReach(exts[..k]);
    LookupBehind(exts[..k], exts[k..], logical, 0, blockCount);
  }

  // The extents of a front reach exactly as far as its blocks.
  lemma {:induction false} DenseReach(exts: seq<Extent>)
    requires Dense(exts) && exts != []
    ensures End(exts[|exts| - 1]) == |BlocksOf(exts)|
  {
  }

  // A block appended right behind the blocks of a file is found.
  lemma {:induction false} LaidExtended(exts: seq<Extent>, owned: seq<nat>, logical: u32, block: nat)
    requires Laid(exts, Stock(owned, [])) && logical == |owned| && Appended(exts, logical, block).Some?
    ensures Laid(Appended(exts, logical, block).value, Stock(owned + [block], []))
  {
    var exts' := Appended(exts, logical, block).value;
    var k := LaidBlocks(exts, Stock(owned, []));
    assert exts[..k] == exts;
    DenseAppend(exts, logical, block);
    AppendBlocks(exts, logical, block);
    assert exts'[..|exts'|] == exts' && exts'[|exts'|..] == [];
    assert Front(exts', |exts'|, Stock(owned + [block], []));
  }

  // Appended anywhere else, it is lost.
  lemma {:induction false} LaidLost(exts: seq<Extent>, s: Stock, logical: u32, block: nat)
    requires Laid(exts, s) && |exts| <= 4 && (logical < |s.owned| || s.spare != [])
             && Appended(exts, logical, block).Some?
    ensures Laid(Appended(exts, logical, block).value, Stock(s.owned, s.spare + [block]))
  {
    var exts' := Appended(exts, logical, block).value;
    var k := LaidBlocks(exts, s);
    AppendBlocks(exts, logical, block);
    FrontKept(exts, k, s, logical, block);
    assert exts' == exts'[..k] + exts'[k..];
    BlocksOfConcat(exts'[..k], exts'[k..]);
    SeqAssoc(s.owned, s.spare, [block]);
    SameRest(s.owned, BlocksOf(exts'[k..]), s.spare + [block]);
    assert Front(exts', k, Stock(s.owned, s.spare + [block]));
  }

  lemma {:induction false} FrontKept(exts: seq<Extent>, k: nat, s: Stock, logical: u32, block: nat)
    requires Front(exts, k, s) && |exts| <= 4 && (logical < |s.owned| || k < |exts|)
             && Appended(exts, logical, block).Some?
    ensures var exts' := Appended(exts, logical, block).value;
            Initialized(exts') && k < |exts'| && exts'[..k] == exts[..k] && exts'[k].first < |s.owned|
  {
    if k == |exts| {
      assert exts[..k] == exts;
      BlocksOfBounds(exts);
      DenseReach(exts);
    }
  }

  lemma {:induction false} SameRest(a: seq<nat>, b: seq<nat>, c: seq<nat>)
    requires a + b == a + c
    ensures b == c
  {
    assert b == (a + b)[|a|..] && c == (a + c)[|a|..];
  }

  // ---- A file on a volume ----

  ghost predicate OwnBlock(l: Layout, d: Disk, b: nat) {
    ValidBlock(b, l.blockCount) && InUse(l, d, b) && b !in l.reserved
  }

  // The extents name distinct blocks, all of them in use.
  ghost predicate Holds(l: Layout, d: Disk, root: seq<u8>, s: Stock) {
    && Formatted(l, d) && IsRoot(root) && Little16(root, 4) == 4 && Laid(Extents(root), s)
    && FullBlocks(d.data, s.owned, l.blockSize) && AllOwn(l, d, All(s))
  }

  ghost predicate AllOwn(l: Layout, d: Disk, blocks: seq<nat>) {
    Distinct(blocks) && forall i :: 0 <= i < |blocks| ==> OwnBlock(l, d, blocks[i])
  }

  // Sectors that a number of blocks take.
  ghost function Sectors(l: Layout, blocks: nat): nat {
    Origin(Div(l.blockSize, 512), blocks)
  }

  // Any file that this driver can leave behind. It has at least the blocks
  // that its size calls for, and if exactly those, all of them are found.
  ghost predicate Stands(l: Layout, d: Disk, file: Node, s: Stock) {
    && Holds(l, d, file.root, s) && file.size <= SIZE_LIMIT && file.sectors == Sectors(l, |All(s)|)
    && BlocksFor(file.size, l.blockSize) <= |All(s)|
    && (BlocksFor(file.size, l.blockSize) == |All(s)| ==> s.spare == [])
  }

  ghost function ShapeOf(l: Layout, d: Disk, file: Node, s: Stock): Shape
    requires Holds(l, d, file.root, s)
  {
    Shape(file.size, Flat(d.data, s.owned, l.blockSize), |s.spare|)
  }

  // A new inode is an empty file, tidy and plain.
  lemma {:induction false} NewFile(l: Layout, d: Disk)
    requires Formatted(l, d)
    ensures var file := Node(0, EmptyRoot(), 0);
            && Stands(l, d, file, Stock([], [])) && ShapeOf(l, d, file, Stock([], [])) == Shape(0, [], 0)
            && Plain(Shape(0, [], 0)) && Tidy(l.blockSize, Shape(0, [], 0))
  {
    assert Front(Extents(EmptyRoot()), 0, Stock([], []));
    BlocksForSize(0, l.blockSize);
  }

  // Whether a file is tidy can be told from its size and its sectors.
  lemma {:induction false} TidyBySectors(l: Layout, d: Disk, file: Node, s: Stock)
    requires Stands(l, d, file, s)
    ensures Tidy(l.blockSize, ShapeOf(l, d, file, s)) <==>
              file.sectors == BlocksFor(file.size, l.blockSize) * (l.blockSize / 512)
  {
    var c, n, q := BlocksFor(file.size, l.blockSize), |All(s)|, Div(l.blockSize, 512);
    OriginIsProduct(q, c);
    if c < n {
      OriginOrder(q, c, n);
    }
    if |s.owned| < c {
      OriginOrder(l.blockSize, |s.owned|, c);
    } else if c < |s.owned| {
      OriginOrder(l.blockSize, c, |s.owned|);
    }
  }

  lemma {:induction false} MapOwned(l: Layout, d: Disk, root: seq<u8>, s: Stock, logical: nat)
    requires Holds(l, d, root, s)
    ensures MapAt(l, root, logical)
         == if logical < |s.owned| then Mapped(s.owned[logical]) else if s.spare == [] then Hole else Broken
  {
    forall i | 0 <= i < |s.owned| ensures ValidBlock(s.owned[i], l.blockCount) {
      assert All(s)[i] == s.owned[i] && OwnBlock(l, d, All(s)[i]);
    }
    LaidLookup(Extents(root), s, logical, l.blockCount);
  }

  // The row is what read() finds.
  lemma {:induction false} RowIsRead(l: Layout, d: Disk, root: seq<u8>, s: Stock, o: nat)
    requires Holds(l, d, root, s) && o < |Flat(d.data, s.owned, l.blockSize)|
    ensures ByteMatches(l, d.data, root, o, Flat(d.data, s.owned, l.blockSize)[o])
  {
    var B := l.blockSize;
    ChainIndex(o, |s.owned|, B);
    MapOwned(l, d, root, s, Div(o, B));
    FlatAt(d.data, s.owned, B, Div(o, B), Mod(o, B));
    assert Flat(d.data, s.owned, B)[o] == PhysicalByte(d.data, s.owned[Div(o, B)], Mod(o, B));
  }

  lemma {:induction false} FlatAt(data: map<nat, seq<u8>>, owned: seq<nat>, B: nat, i: nat, within: nat)
    requires FullBlocks(data, owned, B) && i < |owned| && within < B
    ensures Origin(B, i) + within < |Flat(data, owned, B)|
    ensures Flat(data, owned, B)[Origin(B, i) + within] == PhysicalByte(data, owned[i], within)
  {
    FlatSlice(data, owned, B, i, within, 1);
    assert Flat(data, owned, B)[Origin(B, i) + within..Origin(B, i) + within + 1][0]
        == data[owned[i]][within..within + 1][0];
  }

  lemma {:induction false} ReadIsRow(l: Layout, d: Disk, root: seq<u8>, s: Stock, offset: nat, output: seq<u8>)
    requires Holds(l, d, root, s) && offset + |output| <= |Flat(d.data, s.owned, l.blockSize)|
    requires Matches(l, d.data, root, offset, output)
    ensures output == Flat(d.data, s.owned, l.blockSize)[offset..offset + |output|]
  {
    var row := Flat(d.data, s.owned, l.blockSize);
    forall i | 0 <= i < |output| ensures output[i] == row[offset..offset + |output|][i] {
      RowIsRead(l, d, root, s, offset + i);
      assert ByteMatches(l, d.data, root, offset + i, output[i]);
    }
  }

  // A range of a file is damaged exactly when it leaves the row.
  lemma {:induction false} RowDamaged(l: Layout, d: Disk, file: Node, s: Stock, offset: nat, end: nat)
    requires Stands(l, d, file, s) && offset < end <= file.size
    ensures Damaged(l, file.root, offset, end) <==> |Flat(d.data, s.owned, l.blockSize)| < end
  {
    var B, row := l.blockSize, Flat(d.data, s.owned, l.blockSize);
    if |row| < end {
      BeyondRow(l, d, file, s, end - 1);
    }
    forall o | offset <= o < end && o < |row| ensures !MapAt(l, file.root, Div(o, B)).Broken? {
      RowIsRead(l, d, file.root, s, o);
    }
  }

  lemma {:induction false} BeyondRow(l: Layout, d: Disk, file: Node, s: Stock, o: nat)
    requires Stands(l, d, file, s) && |Flat(d.data, s.owned, l.blockSize)| <= o < file.size
    ensures MapAt(l, file.root, Div(o, l.blockSize)).Broken?
  {
    var B := l.blockSize;
    BlockIndex(o, file.size, B);
    if Div(o, B) < |s.owned| {
      OriginOrder(B, Div(o, B), |s.owned|);
    }
    MapOwned(l, d, file.root, s, Div(o, B));
  }

  // read() on such a file.
  method ReadFile(vol: Volume, file: Node, offset: nat, size: nat, ghost s: Stock)
    returns (error: Error, output: seq<u8>)
    requires vol.Valid() && Stands(vol.l, vol.View(), file, s)
    ensures ReadStep(ShapeOf(vol.l, vol.View(), file, s), offset, size, error, output)
  {
    error, output := Read(vol.l, vol.data, file, offset, size);
    ghost var end := Min(offset + size, file.size);
    if offset < end {
      RowDamaged(vol.l, vol.View(), file, s, offset, end);
      if error == NoError {
        ReadIsRow(vol.l, vol.View(), file.root, s, offset, output);
      }
    }
  }

  // ---- Growing ----

  // New blocks were taken and cleared; whatever was in use stays as it was.
  ghost predicate Grew(l: Layout, d: Disk, d': Disk, added: seq<nat>) {
    && |d'.used| == |d.used| && d'.data.Keys == d.data.Keys
    && (forall b :: InUse(l, d, b) ==> Kept(l, d, d', b))
    && (forall b :: b in added ==> Fresh(l, d, d', b))
    && (forall b {:trigger InUse(l, d', b)} :: InUse(l, d', b) ==> InUse(l, d, b) || b in added)
    && Distinct(added)
  }

  ghost predicate Kept(l: Layout, d: Disk, d': Disk, b: nat) {
    InUse(l, d', b) && (b in d.data <==> b in d'.data) && (b in d.data ==> d'.data[b] == d.data[b])
  }

  ghost predicate Fresh(l: Layout, d: Disk, d': Disk, b: nat) {
    !InUse(l, d, b) && OwnBlock(l, d', b) && b in d'.data && d'.data[b] == Zeros(l.blockSize)
  }

  lemma {:induction false} FreeBlockValid(l: Layout, d: Disk, block: nat)
    requires Formatted(l, d) && l.firstData <= block < l.firstData + |d.used| && !InUse(l, d, block)
    ensures OwnBlock(l, Taken(l, d, block), block) && block in d.data
  {
  }

  lemma {:induction false} GrewStep(l: Layout, d: Disk, d1: Disk, added: seq<nat>, block: nat)
    requires Formatted(l, d1) && Grew(l, d, d1, added) && l.firstData <= block < l.firstData + |d1.used|
             && !InUse(l, d1, block)
    ensures Grew(l, d, Taken(l, d1, block), added + [block])
  {
    var d2, more := Taken(l, d1, block), added + [block];
    FreeBlockValid(l, d1, block);
    forall b | InUse(l, d, b) ensures Kept(l, d, d2, b) {
      assert Kept(l, d, d1, b);
    }
    assert InUse(l, d, block) ==> Kept(l, d, d1, block);
    assert block in added ==> Fresh(l, d, d1, block);
    DistinctAppend(added, block);
    forall b | b in more ensures Fresh(l, d, d2, b) {
      if b in added {
        assert Fresh(l, d, d1, b);
      }
    }
    forall b | InUse(l, d2, b) ensures InUse(l, d, b) || b in more {
      assert b == block || InUse(l, d1, b);
    }
  }

  // A block taken and given back at once.
  lemma {:induction false} GrewUndo(l: Layout, d: Disk, d1: Disk, added: seq<nat>, block: nat)
    requires Formatted(l, d1) && Grew(l, d, d1, added) && l.firstData <= block < l.firstData + |d1.used|
             && !InUse(l, d1, block)
    ensures Grew(l, d, Returned(l, Taken(l, d1, block), block), added)
  {
    var d2 := Returned(l, Taken(l, d1, block), block);
    assert d2.used == d1.used;
    FreeBlockValid(l, d1, block);
    forall b | InUse(l, d, b) ensures Kept(l, d, d2, b) {
      assert Kept(l, d, d1, b);
    }
    forall b | b in added ensures Fresh(l, d, d2, b) {
      assert Fresh(l, d, d1, b);
    }
    forall b | InUse(l, d2, b) ensures InUse(l, d, b) || b in added {
      assert InUse(l, d1, b);
    }
  }

  lemma {:induction false} GrewNothing(l: Layout, d: Disk)
    requires Formatted(l, d)
    ensures Grew(l, d, d, [])
  {
  }

  // A file whose blocks all survive still holds them.
  lemma {:induction false} HoldsKept(l: Layout, d: Disk, d': Disk, root: seq<u8>, s: Stock)
    requires Holds(l, d, root, s) && Formatted(l, d') && forall b :: b in All(s) ==> Kept(l, d, d', b)
    ensures Holds(l, d', root, s) && Flat(d'.data, s.owned, l.blockSize) == Flat(d.data, s.owned, l.blockSize)
  {
    var all := All(s);
    forall i | 0 <= i < |all| ensures OwnBlock(l, d', all[i]) {
      assert all[i] in all && Kept(l, d, d', all[i]) && OwnBlock(l, d, all[i]);
    }
    forall i | 0 <= i < |s.owned| ensures s.owned[i] in d'.data && d'.data[s.owned[i]] == d.data[s.owned[i]] {
      assert s.owned[i] == all[i] && all[i] in all && Kept(l, d, d', all[i]);
    }
    FlatSame(d.data, d'.data, s.owned, l.blockSize);
  }

  // Blocks that were appended continue a file that ends where its size ends;
  // to any other they are lost.
  ghost function Extended(s: Stock, ends: bool, added: seq<nat>): Stock {
    if ends then Stock(s.owned + added, s.spare) else Stock(s.owned, s.spare + added)
  }

  lemma {:induction false} AllExtended(s: Stock, ends: bool, added: seq<nat>)
    requires ends ==> s.spare == []
    ensures All(Extended(s, ends, added)) == All(s) + added
  {
    SeqAssoc(s.owned, s.spare, added);
  }

  lemma {:induction false} ExtendedMore(s: Stock, ends: bool, added: seq<nat>, block: nat)
    ensures Extended(Extended(s, ends, added), ends, [block]) == Extended(s, ends, added + [block])
  {
    SeqAssoc(s.owned, added, [block]);
    SeqAssoc(s.spare, added, [block]);
  }

  // Where the next block goes: right behind the blocks that are found, or to a
  // position that is mapped, or behind extents that are not found.
  ghost predicate Next(s: Stock, ends: bool, logical: nat) {
    if ends then s.spare == [] && logical == |s.owned| else logical < |s.owned| || s.spare != []
  }

  lemma {:induction false} HoldsStep(l: Layout, d: Disk, root: seq<u8>, root': seq<u8>, s: Stock, ends: bool,
                                     logical: u32, block: nat)
    requires Holds(l, d, root, s) && l.firstData <= block < l.firstData + |d.used| && !InUse(l, d, block)
    requires Next(s, ends, logical) && Formatted(l, Taken(l, d, block)) && Appended(Extents(root), logical, block).Some?
    requires Rewritten(root, root', Appended(Extents(root), logical, block).value)
    ensures Holds(l, Taken(l, d, block), root', Extended(s, ends, [block]))
  {
    FreeBlockValid(l, d, block);
    if ends {
      LaidExtended(Extents(root), s.owned, logical, block);
    } else {
      LaidLost(Extents(root), s, logical, block);
    }
    AllExtended(s, ends, [block]);
    OwnStep(l, d, All(s), block);
  }

  lemma {:induction false} OwnStep(l: Layout, d: Disk, owned: seq<nat>, block: nat)
    requires Formatted(l, d) && l.firstData <= block < l.firstData + |d.used| && !InUse(l, d, block)
             && AllOwn(l, d, owned)
    ensures AllOwn(l, Taken(l, d, block), owned + [block])
  {
    var d', longer := Taken(l, d, block), owned + [block];
    FreeBlockValid(l, d, block);
    forall i | 0 <= i < |owned| ensures owned[i] != block && OwnBlock(l, d', owned[i]) {
      assert OwnBlock(l, d, owned[i]);
    }
    DistinctAppend(owned, block);
    assert forall i :: 0 <= i < |longer| ==> OwnBlock(l, d', longer[i]);
  }

  // No block is free, or the root has no room for another extent.
  ghost predicate Exhausted(used: seq<bool>, root: seq<u8>) {
    || (forall i :: 0 <= i < |used| ==> used[i])
    || (|root| == 60 && Little16(root, 2) == 4)
  }

  // One more block for a file.
  method AddBlock(vol: Volume, root: seq<u8>, logical: u32, ghost s: Stock, ghost ends: bool, ghost d: Disk,
                  ghost added: seq<nat>)
    returns (error: Error, root': seq<u8>, ghost added': seq<nat>)
    requires vol.Valid() && Building(vol.l, d, vol.View(), root, s, ends, added)
    requires Next(Extended(s, ends, added), ends, logical)
    modifies vol
    ensures vol.Valid() && (error == NoError || error == NoSpace)
    ensures Building(vol.l, d, vol.View(), root', s, ends, added')
    ensures |added'| == if error == NoError then |added| + 1 else |added|
    ensures error == NoSpace ==> Exhausted(vol.used, root')
  {
    root', added' := root, added;
    ghost var d1 := vol.View();
    BuildingRoot(vol.l, d, d1, root, s, ends, added);
    var block;
    error, block := vol.AllocateBlock();
    if error != NoError {
      return;
    }
    error, root' := AppendExtent(root, logical, block);
    if error == NoError {
      added' := added + [block];
      BlockAdded(vol.l, d, d1, root, root', s, ends, logical, added, block);
    } else {
      GiveBack(vol, block, d, d1, root, s, ends, added);
    }
  }

  // A file that has got so many blocks; a proof that needs it asserts BuildingIn.
  ghost predicate Building(l: Layout, d: Disk, d': Disk, root: seq<u8>, s: Stock, ends: bool, added: seq<nat>) {
    forall r: seq<u8> :: r == root ==> BuildingIn(l, d, d', r, s, ends, added)
  }

  ghost predicate BuildingIn(l: Layout, d: Disk, d': Disk, root: seq<u8>, s: Stock, ends: bool, added: seq<nat>) {
    Holds(l, d', root, Extended(s, ends, added)) && Grew(l, d, d', added)
  }

  lemma {:induction false} BuildingNothing(l: Layout, d: Disk, root: seq<u8>, s: Stock, ends: bool)
    requires Holds(l, d, root, s) && (ends ==> s.spare == [])
    ensures Building(l, d, d, root, s, ends, [])
  {
    ExtendedNothing(s, ends);
    GrewNothing(l, d);
    assert BuildingIn(l, d, d, root, s, ends, []);
  }

  lemma {:induction false} BuildingRoot(l: Layout, d: Disk, d': Disk, root: seq<u8>, s: Stock, ends: bool,
                                        added: seq<nat>)
    requires Building(l, d, d', root, s, ends, added)
    ensures IsRoot(root) && Little16(root, 4) == 4
  {
    assert BuildingIn(l, d, d', root, s, ends, added);
  }

  lemma {:induction false} BlockAdded(l: Layout, d: Disk, d1: Disk, root: seq<u8>, root': seq<u8>, s: Stock, ends: bool,
                                      logical: u32, added: seq<nat>, block: nat)
    requires IsRoot(root) && Building(l, d, d1, root, s, ends, added) && Next(Extended(s, ends, added), ends, logical)
    requires l.firstData <= block < l.firstData + |d1.used| && !InUse(l, d1, block) && Formatted(l, Taken(l, d1, block))
    requires Appended(Extents(root), logical, block).Some?
             && Rewritten(root, root', Appended(Extents(root), logical, block).value)
    ensures Building(l, d, Taken(l, d1, block), root', s, ends, added + [block])
  {
    assert BuildingIn(l, d, d1, root, s, ends, added);
    HoldsStep(l, d1, root, root', Extended(s, ends, added), ends, logical, block);
    ExtendedMore(s, ends, added, block);
    GrewStep(l, d, d1, added, block);
    assert BuildingIn(l, d, Taken(l, d1, block), root', s, ends, added + [block]);
  }

  // The block that found no extent goes back.
  method GiveBack(vol: Volume, block: nat, ghost d: Disk, ghost d1: Disk, ghost root: seq<u8>, ghost s: Stock,
                  ghost ends: bool, ghost added: seq<nat>)
    requires vol.Valid() && Formatted(vol.l, d1) && vol.l.firstData <= block < vol.l.firstData + |d1.used|
             && !InUse(vol.l, d1, block)
    requires vol.View() == Taken(vol.l, d1, block) && Building(vol.l, d, d1, root, s, ends, added)
    modifies vol
    ensures vol.Valid() && vol.View() == Returned(vol.l, Taken(vol.l, d1, block), block)
    ensures Building(vol.l, d, vol.View(), root, s, ends, added)
  {
    FreeBlockValid(vol.l, d1, block);
    var error := vol.ReleaseBlock(block);
    GivenBack(vol.l, d, d1, vol.View(), root, s, ends, added, block);
  }

  lemma {:induction false} GivenBack(l: Layout, d: Disk, d1: Disk, d2: Disk, root: seq<u8>, s: Stock, ends: bool,
                                     added: seq<nat>, block: nat)
    requires Formatted(l, d1) && Formatted(l, d2) && l.firstData <= block < l.firstData + |d1.used|
    requires !InUse(l, d1, block) && Building(l, d, d1, root, s, ends, added)
    requires d2 == Returned(l, Taken(l, d1, block), block)
    ensures Building(l, d, d2, root, s, ends, added)
  {
    var held := Extended(s, ends, added);
    assert BuildingIn(l, d, d1, root, s, ends, added);
    forall b | b in All(held) ensures Kept(l, d1, d2, b) {
      assert OwnBlock(l, d1, b);
    }
    HoldsKept(l, d1, d2, root, held);
    GrewUndo(l, d, d1, added, block);
    assert BuildingIn(l, d, d2, root, s, ends, added);
  }

  lemma {:induction false} CeilIsBlocks(size: nat, B: nat)
    requires 0 < B
    ensures (size + B - 1) / B == BlocksFor(size, B) <= size
  {
    if size > 0 {
      var q, r := (size - 1) / B, (size - 1) % B;
      assert size - 1 == q * B + r;
      assert (q + 1) * B == q * B + B;
      QuotientUnique(size + B - 1, q + 1, r, B);
      DivBound(size - 1, B);
    } else {
      QuotientUnique(B - 1, 0, B - 1, B);
    }
  }

  // ensure_file_blocks: blocks for `size` bytes, counted from the size that the
  // file has.
  method EnsureBlocks(vol: Volume, file: Node, size: nat, ghost s: Stock)
    returns (error: Error, file': Node, ghost added: seq<nat>, ghost s': Stock)
    requires vol.Valid() && Stands(vol.l, vol.View(), file, s) && size <= SIZE_LIMIT
    modifies vol
    ensures vol.Valid() && (error == NoError || error == NoSpace)
    ensures Ensured(vol.l, old(vol.View()), file, s, vol.View(), file', s', added)
    ensures Grew(vol.l, old(vol.View()), vol.View(), added) && All(s') == All(s) + added
    ensures error == NoError ==> |added| == Lacking(vol.l.blockSize, file.size, size)
    ensures error == NoSpace ==>
              |added| < Lacking(vol.l.blockSize, file.size, size) && Exhausted(vol.used, file'.root)
  {
    var B := vol.l.blockSize;
    CeilIsBlocks(file.size, B);
    CeilIsBlocks(size, B);
    ghost var d, ends := vol.View(), |All(s)| == BlocksFor(file.size, B);
    var root, sectors;
    error, root, sectors, added := AddBlocks(vol, file.root, file.sectors, (file.size + B - 1) / B,
                                             (size + B - 1) / B, s, ends);
    file', s' := Node(file.size, root, sectors), Extended(s, ends, added);
    AllExtended(s, ends, added);
    assert BuildingIn(vol.l, d, vol.View(), root, s, ends, added);
    GrowthEnsured(vol.l, d, vol.View(), file, file', s, ends, added);
  }

  // A growth that got so far. It is behind a quantifier so that a proof unfolds
  // it only by naming EnsuredBy.
  ghost predicate Ensured(l: Layout, d: Disk, file: Node, s: Stock, d': Disk, file': Node, s': Stock, added: seq<nat>) {
    forall grown: Node :: grown == file' ==> EnsuredBy(l, d, file, s, d', grown, s', added)
  }

  ghost predicate EnsuredBy(l: Layout, d: Disk, file: Node, s: Stock, d': Disk, file': Node, s': Stock,
                            added: seq<nat>) {
    && Stands(l, d, file, s) && Stands(l, d', file', s') && file'.size == file.size
    && All(s') == All(s) + added && LeftAlone(l, d, d', All(s), All(s'))
    && ShapeOf(l, d', file', s') == Grown(l.blockSize, ShapeOf(l, d, file, s), |added|)
  }

  method AddBlocks(vol: Volume, root: seq<u8>, sectors: nat, current: nat, required: nat, ghost s: Stock,
                   ghost ends: bool)
    returns (error: Error, root': seq<u8>, sectors': nat, ghost added: seq<nat>)
    requires vol.Valid() && Holds(vol.l, vol.View(), root, s) && current <= |All(s)| && required <= SIZE_LIMIT
    requires ends == (current == |All(s)|) && (ends ==> s.spare == [])
    modifies vol
    ensures vol.Valid() && (error == NoError || error == NoSpace)
    ensures Building(vol.l, old(vol.View()), vol.View(), root', s, ends, added)
    ensures sectors' == sectors + Sectors(vol.l, |added|)
    ensures error == NoError ==> |added| == if current < required then required - current else 0
    ensures error == NoSpace ==> current + |added| < required && Exhausted(vol.used, root')
  {
    root', sectors', added := root, sectors, [];
    BuildingNothing(vol.l, vol.View(), root, s, ends);
    error := NoError;
    for logical := current to Max(current, required)
      invariant vol.Valid() && error == NoError && logical == current + |added|
      invariant Building(vol.l, old(vol.View()), vol.View(), root', s, ends, added)
      invariant sectors' == sectors + Sectors(vol.l, |added|)
    {
      error, root', added := AddBlock(vol, root', logical, s, ends, old(vol.View()), added);
      if error != NoError {
        return;
      }
      sectors' := sectors' + vol.l.blockSize / 512;
    }
  }

  lemma {:induction false} ExtendedNothing(s: Stock, ends: bool)
    ensures Extended(s, ends, []) == s
  {
  }

  // Blocks in use outside the file keep their contents and stay in use; the
  // file's new blocks are its own or were free; and no block is in use that is
  // neither.
  ghost predicate LeftAlone(l: Layout, d: Disk, d': Disk, blocks: seq<nat>, blocks': seq<nat>) {
    && (forall b :: InUse(l, d, b) && b !in blocks ==> Kept(l, d, d', b))
    && (forall b :: b in blocks' ==> b in blocks || !InUse(l, d, b))
    && (forall b {:trigger InUse(l, d', b)} :: InUse(l, d', b) ==> (InUse(l, d, b) && b !in blocks) || b in blocks')
  }

  lemma {:induction false} GrowthEnsured(l: Layout, d: Disk, d': Disk, file: Node, file': Node, s: Stock, ends: bool,
                                         added: seq<nat>)
    requires Stands(l, d, file, s) && ends == (|All(s)| == BlocksFor(file.size, l.blockSize))
    requires Holds(l, d', file'.root, Extended(s, ends, added)) && Grew(l, d, d', added)
    requires file'.size == file.size && file'.sectors == file.sectors + Sectors(l, |added|)
    ensures Ensured(l, d, file, s, d', file', Extended(s, ends, added), added)
  {
    GrownStands(l, d, d', file, file', s, ends, added);
    GrownShape(l, d, d', file, file', s, ends, added);
    AllExtended(s, ends, added);
    GrewAlone(l, d, d', All(s), added);
    assert EnsuredBy(l, d, file, s, d', file', Extended(s, ends, added), added);
  }

  lemma {:induction false} GrownStands(l: Layout, d: Disk, d': Disk, file: Node, file': Node, s: Stock, ends: bool,
                                       added: seq<nat>)
    requires Stands(l, d, file, s) && ends == (|All(s)| == BlocksFor(file.size, l.blockSize))
    requires Holds(l, d', file'.root, Extended(s, ends, added))
    requires file'.size == file.size && file'.sectors == file.sectors + Sectors(l, |added|)
    ensures Stands(l, d', file', Extended(s, ends, added))
  {
    AllExtended(s, ends, added);
    OriginSum(Div(l.blockSize, 512), |All(s)|, |added|);
  }

  lemma {:induction false} GrownShape(l: Layout, d: Disk, d': Disk, file: Node, file': Node, s: Stock, ends: bool,
                                      added: seq<nat>)
    requires Stands(l, d, file, s) && ends == (|All(s)| == BlocksFor(file.size, l.blockSize))
    requires Holds(l, d', file'.root, Extended(s, ends, added)) && Grew(l, d, d', added) && file'.size == file.size
    ensures ShapeOf(l, d', file', Extended(s, ends, added)) == Grown(l.blockSize, ShapeOf(l, d, file, s), |added|)
  {
    RowGrew(l, d, d', file.root, s, ends, added);
    TidyEnds(l, d, file, s);
  }

  lemma {:induction false} TidyEnds(l: Layout, d: Disk, file: Node, s: Stock)
    requires Stands(l, d, file, s)
    ensures Tidy(l.blockSize, ShapeOf(l, d, file, s)) <==> |All(s)| == BlocksFor(file.size, l.blockSize)
  {
    var c := BlocksFor(file.size, l.blockSize);
    if |s.owned| < c {
      OriginOrder(l.blockSize, |s.owned|, c);
    } else if c < |s.owned| {
      OriginOrder(l.blockSize, c, |s.owned|);
    }
  }

  // The row after a growth.
  lemma {:induction false} RowGrew(l: Layout, d: Disk, d': Disk, root: seq<u8>, s: Stock, ends: bool, added: seq<nat>)
    requires Holds(l, d, root, s) && Grew(l, d, d', added) && Formatted(l, d')
    ensures var owned := Extended(s, ends, added).owned;
            && FullBlocks(d'.data, owned, l.blockSize)
            && Flat(d'.data, owned, l.blockSize)
               == Flat(d.data, s.owned, l.blockSize) + if ends then Zeros(Origin(l.blockSize, |added|)) else []
  {
    forall b | b in All(s) ensures Kept(l, d, d', b) {
      assert OwnBlock(l, d, b);
    }
    HoldsKept(l, d, d', root, s);
    forall i | 0 <= i < |added| ensures added[i] in d'.data && d'.data[added[i]] == Zeros(l.blockSize) {
      assert added[i] in added && Fresh(l, d, d', added[i]);
    }
    FlatZeros(d'.data, added, l.blockSize);
    FlatConcat(d'.data, s.owned, added, l.blockSize);
  }

  lemma {:induction false} GrewAlone(l: Layout, d: Disk, d': Disk, blocks: seq<nat>, added: seq<nat>)
    requires Grew(l, d, d', added)
    ensures LeftAlone(l, d, d', blocks, blocks + added)
  {
    forall b | b in blocks + added ensures b in blocks || !InUse(l, d, b) {
      assert b in added ==> Fresh(l, d, d', b);
    }
  }

  // Without lost blocks the extents reach exactly as far as the blocks.
  lemma {:induction false} LaidReach(exts: seq<Extent>, s: Stock, logical: nat)
    requires Laid(exts, s) && s.spare == []
    ensures Sorted(exts) && (Past(exts, logical) <==> |s.owned| <= logical)
  {
    var k := LaidBlocks(exts, s);
    assert exts[..k] == exts;
    DenseSorted(exts);
    if exts != [] {
      DenseReach(exts);
    }
  }

  // A block appended to a file without lost blocks is found if and only if no
  // extent reaches past the position it is appended at.
  lemma {:induction false} AppendFound(l: Layout, d: Disk, root: seq<u8>, s: Stock, logical: u32, block: nat)
    requires Holds(l, d, root, s) && s.spare == [] && ValidBlock(block, l.blockCount) && !InUse(l, d, block)
    requires Appended(Extents(root), logical, block).Some?
    ensures Lookup(Appended(Extents(root), logical, block).value, logical, 0, l.blockCount) == Mapped(block) <==>
              |s.owned| <= logical
  {
    MapOwned(l, d, root, s, logical);
    if logical < |s.owned| {
      assert All(s)[logical] == s.owned[logical] && OwnBlock(l, d, All(s)[logical]);
    }
    LaidReach(Extents(root), s, logical);
    AppendNotPast(Extents(root), logical, block, l.blockCount);
  }

  // After a growth for which there was room, every position that the new size
  // needs is mapped if and only if the file was tidy or had found blocks enough.
  lemma {:induction false} GrowthMaps(l: Layout, d: Disk, file: Node, s: Stock, d': Disk, file': Node, s': Stock,
                                      added: seq<nat>, size: nat)
    requires Ensured(l, d, file, s, d', file', s', added) && file.size < size && 0 < l.blockSize
    requires |added| == Lacking(l.blockSize, file.size, size)
    ensures Stands(l, d, file, s) && 0 < l.blockSize
    ensures (forall p :: 0 <= p < BlocksFor(size, l.blockSize) ==> MapAt(l, file'.root, p).Mapped?) <==>
              Tidy(l.blockSize, ShapeOf(l, d, file, s)) || BlocksFor(size, l.blockSize) <= |s.owned|
  {
    var r := BlocksFor(size, l.blockSize);
    assert EnsuredBy(l, d, file, s, d', file', s', added);
    TidyEnds(l, d, file, s);
    MappedBelow(l, d', file'.root, s', r);
    BlockOrdering(size, file.size, l.blockSize);
    assert ShapeOf(l, d', file', s').lost == |s'.spare|;
  }

  lemma {:induction false} MappedBelow(l: Layout, d: Disk, root: seq<u8>, s: Stock, r: nat)
    requires Holds(l, d, root, s)
    ensures (forall p :: 0 <= p < r ==> MapAt(l, root, p).Mapped?) <==> r <= |s.owned|
  {
    forall p: nat ensures MapAt(l, root, p).Mapped? <==> p < |s.owned| {
      MapOwned(l, d, root, s, p);
    }
    if |s.owned| < r {
      assert !MapAt(l, root, |s.owned|).Mapped?;
    }
  }

  // ---- Writing ----

  // The block an offset of the file falls into.
  method Locate(l: Layout, ghost d: Disk, root: seq<u8>, o: nat, ghost s: Stock)
    returns (logical: nat, within: nat, mapping: Mapping)
    requires Holds(l, d, root, s) && o <= SIZE_LIMIT
    ensures within < l.blockSize && o == Origin(l.blockSize, logical) + within
    ensures mapping.Mapped? <==> o < Origin(l.blockSize, |s.owned|)
    ensures mapping.Mapped? ==> logical < |s.owned| && mapping.physical == s.owned[logical]
  {
    logical, within := Div(o, l.blockSize), Mod(o, l.blockSize);
    Split(o, l.blockSize);
    DivBound(o, l.blockSize);
    MapOwned(l, d, root, s, logical);
    if logical < |s.owned| {
      OriginOrder(l.blockSize, logical, |s.owned|);
    } else if |s.owned| < logical {
      OriginOrder(l.blockSize, |s.owned|, logical);
    }
    mapping := MapExtents(root, logical, l.blockCount);
  }

  lemma {:induction false} StoreKeeps(l: Layout, d: Disk, root: seq<u8>, s: Stock, i: nat, within: nat,
                                      bytes: seq<u8>)
    requires Holds(l, d, root, s) && i < |s.owned| && within + |bytes| <= l.blockSize
    ensures s.owned[i] in d.data && |d.data[s.owned[i]]| == l.blockSize
    ensures var d' := d.(data := d.data[s.owned[i] := Overlay(d.data[s.owned[i]], within, bytes)]);
            Formatted(l, d') && Holds(l, d', root, s)
  {
    var all, d' := All(s), d.(data := d.data[s.owned[i] := Overlay(d.data[s.owned[i]], within, bytes)]);
    assert d'.data.Keys == d.data.Keys;
    forall k | 0 <= k < |all| ensures OwnBlock(l, d', all[k]) {
      assert OwnBlock(l, d, all[k]);
    }
  }

  method StoreAt(vol: Volume, ghost root: seq<u8>, ghost logical: nat, physical: nat, within: nat, bytes: seq<u8>,
                 ghost s: Stock)
    requires vol.Valid() && Holds(vol.l, vol.View(), root, s) && within + |bytes| <= vol.l.blockSize
    requires logical < |s.owned| && s.owned[logical] == physical
    modifies vol`data
    ensures vol.Valid() && Holds(vol.l, vol.View(), root, s)
    ensures physical in old(vol.data) && within + |bytes| <= |old(vol.data)[physical]|
    ensures vol.data == old(vol.data)[physical := Overlay(old(vol.data)[physical], within, bytes)]
  {
    StoreKeeps(vol.l, vol.View(), root, s, logical, within, bytes);
    vol.data := vol.data[physical := Overlay(vol.data[physical], within, bytes)];
  }

  // So much of the input is written.
  ghost predicate WroteTo(data: map<nat, seq<u8>>, data': map<nat, seq<u8>>, owned: seq<nat>, B: nat, offset: nat,
                          input: seq<u8>, done: nat)
    requires FullBlocks(data, owned, B)
  {
    && done <= |input|
    && if done == 0 then data' == data
       else offset + done <= Origin(B, |owned|) && Wrote(data, data', owned, B, offset, input[..done])
  }

  lemma {:induction false} WroteToNext(data: map<nat, seq<u8>>, data': map<nat, seq<u8>>, owned: seq<nat>, B: nat,
                                       offset: nat, input: seq<u8>, done: nat, i: nat, within: nat, count: nat)
    requires FullBlocks(data, owned, B) && Distinct(owned) && WroteTo(data, data', owned, B, offset, input, done)
    requires 0 < count && done + count <= |input| && i < |owned| && within + count <= B
    requires offset + done == Origin(B, i) + within
    ensures owned[i] in data' && |data'[owned[i]]| == B
    ensures WroteTo(data, data'[owned[i] := Overlay(data'[owned[i]], within, input[done..done + count])], owned, B,
                    offset, input, done + count)
  {
    OriginOrder(B, i, |owned|);
    if done == 0 {
      assert input[..0] == [];
      assert Overlay(Flat(data, owned, B), offset, []) == Flat(data, owned, B);
    }
    WroteNext(data, data', owned, B, offset, input, done, i, within, count);
  }

  // One round of write()'s loop: the part of the input that falls into one
  // block, if that block is found.
  method WriteRound(vol: Volume, root: seq<u8>, offset: nat, input: seq<u8>, done: nat, ghost s: Stock,
                    ghost data: map<nat, seq<u8>>)
    returns (error: Error, done': nat)
    requires vol.Valid() && Holds(vol.l, vol.View(), root, s) && done < |input| && offset + |input| <= SIZE_LIMIT
    requires FullBlocks(data, s.owned, vol.l.blockSize)
             && WroteTo(data, vol.data, s.owned, vol.l.blockSize, offset, input, done)
    modifies vol`data
    ensures vol.Valid() && Holds(vol.l, vol.View(), root, s)
            && WroteTo(data, vol.data, s.owned, vol.l.blockSize, offset, input, done')
    ensures error == (if offset + done < Origin(vol.l.blockSize, |s.owned|) then NoError else Corrupt)
    ensures if error == NoError then done < done' else done' == done
  {
    var logical, within, mapping := Locate(vol.l, vol.View(), root, offset + done, s);
    error, done' := Corrupt, done;
    if mapping.Mapped? {
      error := NoError;
      done' := StoreRound(vol, root, offset, input, done, logical, mapping.physical, within, s, data);
    }
  }

  method StoreRound(vol: Volume, ghost root: seq<u8>, ghost offset: nat, input: seq<u8>, done: nat,
                    ghost logical: nat, physical: nat, within: nat, ghost s: Stock, ghost data: map<nat, seq<u8>>)
    returns (done': nat)
    requires vol.Valid() && Holds(vol.l, vol.View(), root, s) && done < |input|
    requires FullBlocks(data, s.owned, vol.l.blockSize)
             && WroteTo(data, vol.data, s.owned, vol.l.blockSize, offset, input, done)
    requires logical < |s.owned| && s.owned[logical] == physical && within < vol.l.blockSize
    requires offset + done == Origin(vol.l.blockSize, logical) + within
    modifies vol`data
    ensures vol.Valid() && Holds(vol.l, vol.View(), root, s) && done < done'
            && WroteTo(data, vol.data, s.owned, vol.l.blockSize, offset, input, done')
  {
    var count := Min(|input| - done, vol.l.blockSize - within);
    OwnedDistinct(vol.l, vol.View(), root, s);
    WroteToNext(data, vol.data, s.owned, vol.l.blockSize, offset, input, done, logical, within, count);
    StoreAt(vol, root, logical, physical, within, input[done..done + count], s);
    done' := done + count;
  }

  lemma {:induction false} OwnedDistinct(l: Layout, d: Disk, root: seq<u8>, s: Stock)
    requires Holds(l, d, root, s)
    ensures Distinct(s.owned)
  {
    assert All(s)[..|s.owned|] == s.owned;
    PrefixDistinct(All(s), |s.owned|);
  }

  // Only these blocks may differ.
  ghost predicate SameOutside(data: map<nat, seq<u8>>, data': map<nat, seq<u8>>, owned: seq<nat>) {
    data'.Keys == data.Keys && forall b :: b in data && b !in owned ==> data'[b] == data[b]
  }

  // write()'s loop: the input goes into the row as far as that reaches.
  method WriteBytes(vol: Volume, root: seq<u8>, offset: nat, input: seq<u8>, ghost s: Stock)
    returns (error: Error)
    requires vol.Valid() && Holds(vol.l, vol.View(), root, s) && offset + |input| <= SIZE_LIMIT && input != []
    modifies vol`data
    ensures vol.Valid() && Holds(vol.l, vol.View(), root, s)
    ensures error == if offset + |input| <= Origin(vol.l.blockSize, |s.owned|) then NoError else Corrupt
    ensures Flat(vol.data, s.owned, vol.l.blockSize)
            == Put(Flat(old(vol.data), s.owned, vol.l.blockSize), offset, input)
    ensures SameOutside(old(vol.data), vol.data, s.owned)
  {
    var done: nat := 0;
    error := NoError;
    while done < |input|
      invariant vol.Valid() && Holds(vol.l, vol.View(), root, s) && error == NoError && done <= |input|
      invariant WroteTo(old(vol.data), vol.data, s.owned, vol.l.blockSize, offset, input, done)
      decreases |input| - done
    {
      error, done := WriteRound(vol, root, offset, input, done, s, old(vol.data));
      if error != NoError {
        break;
      }
    }
    WrotePut(old(vol.data), vol.data, s.owned, vol.l.blockSize, offset, input, done);
  }

  lemma {:induction false} WrotePut(data: map<nat, seq<u8>>, data': map<nat, seq<u8>>, owned: seq<nat>, B: nat,
                                    offset: nat, input: seq<u8>, done: nat)
    requires FullBlocks(data, owned, B) && WroteTo(data, data', owned, B, offset, input, done) && input != []
    requires done == |input| || Origin(B, |owned|) <= offset + done
    ensures FullBlocks(data', owned, B) && Flat(data', owned, B) == Put(Flat(data, owned, B), offset, input)
    ensures data'.Keys == data.Keys && forall b :: b in data && b !in owned ==> data'[b] == data[b]
  {
  }

  // What a call on one file leaves of everything else.
  ghost predicate Aside(l: Layout, d: Disk, file: Node, s: Stock, d': Disk, file': Node, s': Stock) {
    Stands(l, d, file, s) && Stands(l, d', file', s') && LeftAlone(l, d, d', All(s), All(s'))
  }

  // A write took its step.
  ghost predicate WriteDid(l: Layout, d: Disk, file: Node, s: Stock, offset: nat, input: seq<u8>, error: Error, k: nat,
                           d': Disk, file': Node, s': Stock) {
    && Aside(l, d, file, s, d', file', s')
    && WriteStep(l.blockSize, ShapeOf(l, d, file, s), offset, input, error, k, ShapeOf(l, d', file', s'))
  }

  // write() on any file.
  method Write(vol: Volume, file: Node, offset: nat, input: seq<u8>, ghost s: Stock)
    returns (error: Error, file': Node, ghost k: nat, ghost s': Stock)
    requires vol.Valid() && Stands(vol.l, vol.View(), file, s)
    modifies vol
    ensures vol.Valid() && WriteDid(vol.l, old(vol.View()), file, s, offset, input, error, k, vol.View(), file', s')
    ensures All(s) <= All(s')
    ensures error == NoSpace ==> Exhausted(vol.used, file'.root)
  {
    file', k, s' := file, 0, s;
    Untouched(vol.l, vol.View(), All(s));
    if offset > SIZE_LIMIT || |input| > SIZE_LIMIT - offset {
      return InvalidArgument, file, 0, s;
    }
    if |input| == 0 {
      return NoError, file, 0, s;
    }
    error, file', k, s' := WriteGrowing(vol, file, offset, input, s);
  }

  lemma {:induction false} Untouched(l: Layout, d: Disk, blocks: seq<nat>)
    requires Formatted(l, d)
    ensures LeftAlone(l, d, d, blocks, blocks)
  {
  }

  method WriteGrowing(vol: Volume, file: Node, offset: nat, input: seq<u8>, ghost s: Stock)
    returns (error: Error, file': Node, ghost k: nat, ghost s': Stock)
    requires vol.Valid() && Stands(vol.l, vol.View(), file, s) && input != [] && offset + |input| <= SIZE_LIMIT
    modifies vol
    ensures vol.Valid() && WriteDid(vol.l, old(vol.View()), file, s, offset, input, error, k, vol.View(), file', s')
    ensures All(s) <= All(s')
    ensures error == NoSpace ==> Exhausted(vol.used, file'.root)
  {
    ghost var d, added := vol.View(), [];
    var grown;
    error, grown, added, s' := EnsureBlocks(vol, file, offset + |input|, s);
    k := |added|;
    if error != NoError {
      WriteShort(vol.l, d, vol.View(), file, grown, s, s', added, offset, input);
      file' := grown;
      return;
    }
    error, file' := FinishWrite(vol, grown, offset, input, d, file, s, s', added);
  }

  lemma {:induction false} WriteShort(l: Layout, d: Disk, d': Disk, file: Node, file': Node, s: Stock, s': Stock,
                                      added: seq<nat>, offset: nat, input: seq<u8>)
    requires Ensured(l, d, file, s, d', file', s', added) && input != [] && offset + |input| <= SIZE_LIMIT
    requires 0 < l.blockSize && |added| < Lacking(l.blockSize, file.size, offset + |input|)
    ensures WriteDid(l, d, file, s, offset, input, NoSpace, |added|, d', file', s')
  {
    assert EnsuredBy(l, d, file, s, d', file', s', added);
  }

  method FinishWrite(vol: Volume, grown: Node, offset: nat, input: seq<u8>, ghost d: Disk, ghost file: Node,
                     ghost s: Stock, ghost s': Stock, ghost added: seq<nat>)
    returns (error: Error, file': Node)
    requires vol.Valid() && Ensured(vol.l, d, file, s, vol.View(), grown, s', added)
    requires input != [] && offset + |input| <= SIZE_LIMIT
    requires |added| == Lacking(vol.l.blockSize, file.size, offset + |input|)
    modifies vol`data
    ensures vol.Valid() && WriteDid(vol.l, d, file, s, offset, input, error, |added|, vol.View(), file', s')
    ensures error != NoSpace
  {
    ghost var d1 := vol.View();
    EnsuredHolds(vol.l, d, d1, file, grown, s, s', added);
    error := WriteBytes(vol, grown.root, offset, input, s');
    var size := if error == NoError && offset + |input| > grown.size then offset + |input| else grown.size;
    file' := grown.(size := size);
    WriteDone(vol.l, d, d1, vol.View(), file, grown, size, s, s', added, offset, input, error);
  }

  lemma {:induction false} EnsuredHolds(l: Layout, d: Disk, d': Disk, file: Node, file': Node, s: Stock, s': Stock,
                                        added: seq<nat>)
    requires Ensured(l, d, file, s, d', file', s', added)
    ensures Holds(l, d', file'.root, s')
  {
    assert EnsuredBy(l, d, file, s, d', file', s', added);
  }

  // What WriteBytes promises; a proof that needs it asserts StoredIn.
  ghost predicate Stored(l: Layout, d1: Disk, d2: Disk, root: seq<u8>, s: Stock, offset: nat, input: seq<u8>,
                         error: Error)
  {
    forall r: seq<u8> :: r == root ==> StoredIn(l, d1, d2, r, s, offset, input, error)
  }

  ghost predicate StoredIn(l: Layout, d1: Disk, d2: Disk, root: seq<u8>, s: Stock, offset: nat, input: seq<u8>,
                           error: Error)
  {
    && Holds(l, d1, root, s) && Holds(l, d2, root, s) && d2.used == d1.used && SameOutside(d1.data, d2.data, s.owned)
    && Flat(d2.data, s.owned, l.blockSize) == Put(Flat(d1.data, s.owned, l.blockSize), offset, input)
    && error == if offset + |input| <= Origin(l.blockSize, |s.owned|) then NoError else Corrupt
  }

  lemma {:induction false} WriteDone(l: Layout, d: Disk, d1: Disk, d2: Disk, file: Node, grown: Node, size: nat,
                                     s: Stock, s': Stock, added: seq<nat>, offset: nat, input: seq<u8>, error: Error)
    requires Ensured(l, d, file, s, d1, grown, s', added) && input != [] && offset + |input| <= SIZE_LIMIT
    requires 0 < l.blockSize && |added| == Lacking(l.blockSize, file.size, offset + |input|)
    requires Stored(l, d1, d2, grown.root, s', offset, input, error)
    requires size == if error == NoError then Max(grown.size, offset + |input|) else grown.size
    ensures WriteDid(l, d, file, s, offset, input, error, |added|, d2, grown.(size := size), s')
  {
    WriteAside(l, d, d1, d2, file, grown, size, s, s', added, offset, input, error);
    WriteShape(l, d, d1, d2, file, grown, size, s, s', added, offset, input, error);
  }

  lemma {:induction false} WriteShape(l: Layout, d: Disk, d1: Disk, d2: Disk, file: Node, grown: Node, size: nat,
                                      s: Stock, s': Stock, added: seq<nat>, offset: nat, input: seq<u8>, error: Error)
    requires Ensured(l, d, file, s, d1, grown, s', added) && input != [] && offset + |input| <= SIZE_LIMIT
    requires 0 < l.blockSize && |added| == Lacking(l.blockSize, file.size, offset + |input|)
    requires Stored(l, d1, d2, grown.root, s', offset, input, error)
    requires size == if error == NoError then Max(grown.size, offset + |input|) else grown.size
    ensures Holds(l, d, file.root, s) && Holds(l, d2, grown.root, s')
    ensures WriteStep(l.blockSize, ShapeOf(l, d, file, s), offset, input, error, |added|,
                      ShapeOf(l, d2, grown.(size := size), s'))
  {
    assert StoredIn(l, d1, d2, grown.root, s', offset, input, error);
    EnsuredShape(l, d, d1, file, grown, s, s', added);
    WriteTaken(l.blockSize, ShapeOf(l, d, file, s), |added|, ShapeOf(l, d1, grown, s'), offset, input, error,
               ShapeOf(l, d2, grown.(size := size), s'));
  }

  lemma {:induction false} EnsuredShape(l: Layout, d: Disk, d': Disk, file: Node, file': Node, s: Stock, s': Stock,
                                        added: seq<nat>)
    requires Ensured(l, d, file, s, d', file', s', added)
    ensures Holds(l, d, file.root, s) && Holds(l, d', file'.root, s')
    ensures ShapeOf(l, d', file', s') == Grown(l.blockSize, ShapeOf(l, d, file, s), |added|)
  {
    assert EnsuredBy(l, d, file, s, d', file', s', added);
  }

  lemma {:induction false} WriteAside(l: Layout, d: Disk, d1: Disk, d2: Disk, file: Node, grown: Node, size: nat,
                                      s: Stock, s': Stock, added: seq<nat>, offset: nat, input: seq<u8>, error: Error)
    requires Ensured(l, d, file, s, d1, grown, s', added) && offset + |input| <= SIZE_LIMIT
    requires 0 < l.blockSize && |added| == Lacking(l.blockSize, file.size, offset + |input|)
    requires Stored(l, d1, d2, grown.root, s', offset, input, error)
    requires size == grown.size || size == Max(grown.size, offset + |input|)
    ensures Aside(l, d, file, s, d2, grown.(size := size), s')
  {
    WriteAlone(l, d, d1, d2, file, grown, s, s', added, offset, input, error);
    EnsuredStands(l, d, d1, file, grown, s, s', added);
    StoredHolds(l, d1, d2, grown.root, s', offset, input, error);
    SizeGrows(l, d, d1, d2, file, grown, size, s, s', added, offset + |input|);
  }

  lemma {:induction false} WriteAlone(l: Layout, d: Disk, d1: Disk, d2: Disk, file: Node, grown: Node, s: Stock,
                                      s': Stock, added: seq<nat>, offset: nat, input: seq<u8>, error: Error)
    requires Ensured(l, d, file, s, d1, grown, s', added)
    requires Stored(l, d1, d2, grown.root, s', offset, input, error)
    ensures LeftAlone(l, d, d2, All(s), All(s'))
  {
    assert EnsuredBy(l, d, file, s, d1, grown, s', added);
    assert StoredIn(l, d1, d2, grown.root, s', offset, input, error);
    assert d2 == d1.(data := d2.data);
    AloneThen(l, d, d1, d2.data, All(s), s');
  }

  lemma {:induction false} EnsuredStands(l: Layout, d: Disk, d': Disk, file: Node, file': Node, s: Stock, s': Stock,
                                         added: seq<nat>)
    requires Ensured(l, d, file, s, d', file', s', added)
    ensures Stands(l, d, file, s)
  {
    assert EnsuredBy(l, d, file, s, d', file', s', added);
  }

  lemma {:induction false} StoredHolds(l: Layout, d1: Disk, d2: Disk, root: seq<u8>, s: Stock, offset: nat,
                                       input: seq<u8>, error: Error)
    requires Stored(l, d1, d2, root, s, offset, input, error)
    ensures Holds(l, d2, root, s)
  {
    assert StoredIn(l, d1, d2, root, s, offset, input, error);
  }

  // The new size still fits the blocks.
  lemma {:induction false} SizeGrows(l: Layout, d: Disk, d1: Disk, d2: Disk, file: Node, grown: Node, size: nat,
                                     s: Stock, s': Stock, added: seq<nat>, end: nat)
    requires Ensured(l, d, file, s, d1, grown, s', added) && 0 < l.blockSize
    requires Holds(l, d2, grown.root, s') && end <= SIZE_LIMIT && |added| == Lacking(l.blockSize, file.size, end)
    requires size == grown.size || size == Max(grown.size, end)
    ensures Stands(l, d2, grown.(size := size), s')
  {
    assert EnsuredBy(l, d, file, s, d1, grown, s', added);
    BlockOrdering(file.size, end, l.blockSize);
    BlockOrdering(end, file.size, l.blockSize);
  }

  lemma {:induction false} AloneThen(l: Layout, d: Disk, d1: Disk, data2: map<nat, seq<u8>>, blocks: seq<nat>,
                                     s: Stock)
    requires LeftAlone(l, d, d1, blocks, All(s))
    requires SameOutside(d1.data, data2, s.owned)
    ensures LeftAlone(l, d, d1.(data := data2), blocks, All(s))
  {
    forall b | InUse(l, d, b) && b !in blocks ensures Kept(l, d, d1.(data := data2), b) {
      assert Kept(l, d, d1, b);
      assert b in s.owned ==> b in All(s);
    }
    forall b | InUse(l, d1.(data := data2), b) ensures (InUse(l, d, b) && b !in blocks) || b in All(s) {
      assert InUse(l, d1, b);
    }
  }

  // ---- Truncating ----

  // The first n of the blocks went back; everything else is as it was.
  ghost predicate Released(l: Layout, d: Disk, d': Disk, owned: seq<nat>, n: nat)
    requires n <= |owned|
  {
    && |d'.used| == |d.used| && d'.data.Keys == d.data.Keys
    && (forall b {:trigger InUse(l, d', b)} :: InUse(l, d', b) <==> InUse(l, d, b) && b !in owned[..n])
    && (forall b :: b in d.data && b !in owned[..n] ==> d'.data[b] == d.data[b])
  }

  lemma {:induction false} ReleaseStep(l: Layout, d: Disk, d1: Disk, owned: seq<nat>, n: nat)
    requires AllOwn(l, d, owned) && n < |owned| && Released(l, d, d1, owned, n) && Formatted(l, d1)
    ensures OwnBlock(l, d1, owned[n]) && l.firstData <= owned[n] < l.firstData + |d1.used|
    ensures Released(l, d, Returned(l, d1, owned[n]), owned, n + 1)
  {
    var b, d2 := owned[n], Returned(l, d1, owned[n]);
    assert OwnBlock(l, d, b);
    DistinctPrefix(owned, n);
    assert owned[..n + 1] == owned[..n] + [b];
    assert InUse(l, d1, b);
    forall c ensures InUse(l, d2, c) <==> InUse(l, d, c) && c !in owned[..n + 1] {
      assert c != b ==> (InUse(l, d2, c) <==> InUse(l, d1, c));
    }
  }

  ghost predicate Lies(owned: seq<nat>, from: nat, e: Extent, i: nat) {
    from + i < |owned| && owned[from + i] == e.physical + i
  }

  method ReleaseOne(vol: Volume, block: nat, ghost d: Disk, ghost owned: seq<nat>, ghost n: nat) returns (error: Error)
    requires vol.Valid() && AllOwn(vol.l, d, owned) && n < |owned| && owned[n] == block
             && Released(vol.l, d, vol.View(), owned, n)
    modifies vol
    ensures vol.Valid() && error == NoError && Released(vol.l, d, vol.View(), owned, n + 1)
    ensures vol.freeBlocks == old(vol.freeBlocks) + 1
  {
    ReleaseStep(vol.l, d, vol.View(), owned, n);
    error := vol.ReleaseBlock(block);
  }

  // The inner loop of release_file_blocks.
  method ReleaseExtent(vol: Volume, e: Extent, ghost d: Disk, ghost owned: seq<nat>, ghost from: nat)
    returns (error: Error)
    requires vol.Valid() && AllOwn(vol.l, d, owned) && from + e.raw <= |owned|
             && Released(vol.l, d, vol.View(), owned, from)
    requires forall i :: 0 <= i < e.raw ==> Lies(owned, from, e, i)
    modifies vol
    ensures vol.Valid() && error == NoError && Released(vol.l, d, vol.View(), owned, from + e.raw)
    ensures vol.freeBlocks == old(vol.freeBlocks) + e.raw
  {
    error := NoError;
    ghost var n: nat := from;
    for block := 0 to e.raw
      invariant vol.Valid() && error == NoError && n == from + block && Released(vol.l, d, vol.View(), owned, n)
      invariant vol.freeBlocks == old(vol.freeBlocks) + block
    {
      assert Lies(owned, from, e, block);
      error := ReleaseOne(vol, e.physical + block, d, owned, n);
      if error != NoError {
        return;
      }
      n := n + 1;
    }
  }

  // release_file_blocks: every block of the file goes back, also one that no
  // lookup finds.
  method ReleaseFile(vol: Volume, root: seq<u8>, ghost s: Stock) returns (error: Error)
    requires vol.Valid() && Holds(vol.l, vol.View(), root, s)
    modifies vol
    ensures vol.Valid() && error == NoError && Released(vol.l, old(vol.View()), vol.View(), All(s), |All(s)|)
    ensures vol.freeBlocks == old(vol.freeBlocks) + |All(s)|
  {
    ghost var d, exts := vol.View(), Extents(root);
    ghost var front := LaidBlocks(exts, s);
    error := NoError;
    ghost var n: nat := 0;
    for index := 0 to Little16(root, 2)
      invariant vol.Valid() && error == NoError && n == |BlocksOf(exts[..index])| <= |All(s)|
      invariant Released(vol.l, d, vol.View(), All(s), n)
      invariant vol.freeBlocks == old(vol.freeBlocks) + n
    {
      ExtentBlocks(exts, index);
      error := ReleaseExtent(vol, ExtentAt(root, index), d, All(s), n);
      if error != NoError {
        return;
      }
      n := n + exts[index].raw;
    }
    assert exts[..|exts|] == exts;
  }

  // Where the blocks of one extent lie among all of them.
  lemma {:induction false} ExtentBlocks(exts: seq<Extent>, index: nat)
    requires Initialized(exts) && index < |exts|
    ensures var from := |BlocksOf(exts[..index])|;
            && |BlocksOf(exts[..index + 1])| == from + exts[index].raw <= |BlocksOf(exts)|
            && forall i :: 0 <= i < exts[index].raw ==> Lies(BlocksOf(exts), from, exts[index], i)
  {
    var n := |exts| - 1;
    if index < n {
      ExtentBlocks(exts[..n], index);
      assert exts[..n][..index] == exts[..index] && exts[..n][..index + 1] == exts[..index + 1];
      forall i | 0 <= i < exts[index].raw ensures Lies(BlocksOf(exts), |BlocksOf(exts[..index])|, exts[index], i) {
        assert Lies(BlocksOf(exts[..n]), |BlocksOf(exts[..index])|, exts[index], i);
      }
    } else {
      assert exts[..index + 1] == exts;
      assert exts[..index] == exts[..n];
    }
  }

  // truncate() on any file: growing adds zeros, shrinking works only to nothing.
  method Truncate(vol: Volume, file: Node, size: nat, ghost s: Stock)
    returns (error: Error, file': Node, ghost k: nat, ghost s': Stock)
    requires vol.Valid() && Stands(vol.l, vol.View(), file, s)
    modifies vol
    ensures vol.Valid() && Aside(vol.l, old(vol.View()), file, s, vol.View(), file', s')
    ensures TruncateStep(vol.l.blockSize, ShapeOf(vol.l, old(vol.View()), file, s), size, error, k,
                         ShapeOf(vol.l, vol.View(), file', s'))
    ensures file.size <= size ==> All(s) <= All(s')
    ensures error == NoSpace ==> Exhausted(vol.used, file'.root)
  {
    file', k, s' := file, 0, s;
    Untouched(vol.l, vol.View(), All(s));
    if size > SIZE_LIMIT {
      return InvalidArgument, file, 0, s;
    }
    if size == file.size {
      return NoError, file, 0, s;
    }
    if size > file.size {
      error, file', k, s' := Extend(vol, file, size, s);
      return;
    }
    if size != 0 {
      return Unsupported, file, 0, s;
    }
    file' := Discard(vol, file, s);
    return NoError, file', 0, Stock([], []);
  }

  method Extend(vol: Volume, file: Node, size: nat, ghost s: Stock)
    returns (error: Error, file': Node, ghost k: nat, ghost s': Stock)
    requires vol.Valid() && Stands(vol.l, vol.View(), file, s) && file.size < size <= SIZE_LIMIT
    modifies vol
    ensures vol.Valid() && Aside(vol.l, old(vol.View()), file, s, vol.View(), file', s')
    ensures TruncateStep(vol.l.blockSize, ShapeOf(vol.l, old(vol.View()), file, s), size, error, k,
                         ShapeOf(vol.l, vol.View(), file', s'))
    ensures file.size <= size ==> All(s) <= All(s')
    ensures error == NoSpace ==> Exhausted(vol.used, file'.root)
  {
    ghost var d, added := vol.View(), [];
    error, file', added, s' := EnsureBlocks(vol, file, size, s);
    k := |added|;
    assert EnsuredBy(vol.l, d, file, s, vol.View(), file', s', added);
    if error == NoError {
      SizeGrows(vol.l, d, vol.View(), vol.View(), file, file', size, s, s', added, size);
      file' := file'.(size := size);
    }
  }

  method Discard(vol: Volume, file: Node, ghost s: Stock) returns (file': Node)
    requires vol.Valid() && Stands(vol.l, vol.View(), file, s)
    modifies vol
    ensures vol.Valid() && vol.freeBlocks == old(vol.freeBlocks) + |All(s)|
    ensures Aside(vol.l, old(vol.View()), file, s, vol.View(), file', Stock([], []))
    ensures ShapeOf(vol.l, vol.View(), file', Stock([], [])) == Shape(0, [], 0)
  {
    ghost var d := vol.View();
    var root := WriteCount(file.root, 0);
    file' := Node(0, root, 0);
    var error := ReleaseFile(vol, file.root, s);
    Emptied(vol.l, d, vol.View(), file, file', s);
  }

  lemma {:induction false} Emptied(l: Layout, d: Disk, d': Disk, file: Node, file': Node, s: Stock)
    requires Stands(l, d, file, s) && Formatted(l, d') && Released(l, d, d', All(s), |All(s)|)
    requires file'.size == 0 && file'.sectors == 0 && SameHeader(file.root, file'.root) && Little16(file'.root, 2) == 0
    ensures Aside(l, d, file, s, d', file', Stock([], []))
  {
    var all := All(s);
    assert all[..|all|] == all;
    forall b | InUse(l, d, b) && b !in all ensures Kept(l, d, d', b) {
      assert InUse(l, d', b);
    }
    assert Front(Extents(file'.root), 0, Stock([], []));
    BlocksForSize(0, l.blockSize);
  }
}
