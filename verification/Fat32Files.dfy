/**
 File contents on a FAT32 volume: a chain of clusters read, written, grown and
 shrunk as one plain byte sequence.
 */
module Fat32Files {
  import opened Machine
  import opened Bytes
  import opened Blocks
  import opened Fat32Disk
  import opened Fat32Chains
  import opened FileRuns

  // Where a file's directory record is: a directory cluster and an offset in it.
  datatype Place = Place(cluster: nat, within: nat)

  datatype Node = Node(first: nat, size: nat, entry: Option<Place>)

  // ---- Files ----

  // The first-cluster and size fields of a directory record.
  function RecordFirst(block: seq<u8>, at: nat): nat
    requires at + 32 <= |block|
  {
    (Little16(block, at + 20) * 0x1_0000 + Little16(block, at + 26)) % FAT_VALUES
  }

  function RecordSize(block: seq<u8>, at: nat): nat
    requires at + 32 <= |block|
  {
    Little32(block, at + 28)
  }

  // The chain holds the file's clusters, and its directory record, which lies
  // in a cluster of some other chain, says so.
  ghost predicate FileMatches(g: Geometry, v: View, file: Node, chain: seq<nat>) {
    && 0 < g.bytesPerCluster && Complete(g, v)
    && file.size <= SIZE_LIMIT
    && |chain| == BlocksFor(file.size, g.bytesPerCluster)
    && file.first == (if chain == [] then 0 else chain[0])
    && (chain != [] ==> IsChain(g, v.fat, chain))
    && (file.entry.Some? ==> EntryMatches(g, v, file, chain))
  }

  ghost predicate EntryMatches(g: Geometry, v: View, file: Node, chain: seq<nat>)
    requires file.entry.Some? && Complete(g, v)
  {
    var Place(c, at) := file.entry.value;
    && ValidCluster(g, c) && v.fat[c] != 0 && c !in chain
    && at + 32 <= g.bytesPerCluster
    && RecordFirst(v.data[c], at) == file.first && RecordSize(v.data[c], at) == file.size
  }

  lemma {:induction false} ChainFull(g: Geometry, v: View, file: Node, chain: seq<nat>)
    requires FileMatches(g, v, file, chain)
    ensures FullBlocks(v.data, chain, g.bytesPerCluster)
    ensures file.size <= |Flat(v.data, chain, g.bytesPerCluster)|
  {
    BlocksForSize(file.size, g.bytesPerCluster);
  }

  // The plain byte sequence a file stands for.
  ghost function Content(g: Geometry, v: View, file: Node, chain: seq<nat>): (s: seq<u8>)
    requires FileMatches(g, v, file, chain)
    ensures |s| == file.size
  {
    ChainFull(g, v, file, chain);
    Flat(v.data, chain, g.bytesPerCluster)[..file.size]
  }

  // Follows `skip` links from the first cluster of a chain.
  method Seek(vol: Volume, first: nat, skip: nat, ghost chain: seq<nat>) returns (cluster: nat)
    requires vol.Valid() && IsChain(vol.g, vol.view.fat, chain) && chain[0] == first && skip < |chain|
    ensures cluster == chain[skip]
  {
    cluster := first;
    for index := 0 to skip
      invariant cluster == chain[index]
    {
      cluster := Advance(vol, cluster, chain, index);
    }
  }

  method Advance(vol: Volume, cluster: nat, ghost chain: seq<nat>, ghost index: nat) returns (next: nat)
    requires vol.Valid() && IsChain(vol.g, vol.view.fat, chain) && index + 1 < |chain| && cluster == chain[index]
    ensures next == chain[index + 1]
  {
    ChainPosition(vol.g, vol.view.fat, chain, index);
    var link := vol.NextCluster(cluster);
    next := link.cluster;
  }

  // The cluster of a file in which an offset lies, and where in it.
  method Split(offset: nat, size: nat, B: nat) returns (skip: nat, within: nat)
    requires 0 < B && offset < size
    ensures skip < BlocksFor(size, B) && offset == Origin(B, skip) + within && within < B
  {
    BlockIndex(offset, size, B);
    skip, within := offset / B, offset % B;
  }

  // read(): the requested part of the content, cut at the end of the file.
  method Read(vol: Volume, file: Node, offset: nat, size: nat, ghost chain: seq<nat>) returns (output: seq<u8>)
    requires vol.Valid() && FileMatches(vol.g, vol.view, file, chain)
    ensures output == if file.size <= offset then []
                      else Content(vol.g, vol.view, file, chain)[offset..Min(offset + size, file.size)]
  {
    if offset >= file.size || size == 0 {
      return [];
    }
    var remaining := Min(size, file.size - offset);
    ChainFull(vol.g, vol.view, file, chain);
    var skip, within := Split(offset, file.size, vol.g.bytesPerCluster);
    var cluster := Seek(vol, file.first, skip, chain);
    output := ReadFrom(vol, cluster, within, remaining, chain, skip);
  }

  // The next cluster of a file that has more bytes than the clusters so far.
  method Follow(vol: Volume, cluster: nat, ghost remaining: nat, ghost chain: seq<nat>, ghost i: nat)
    returns (next: nat)
    requires vol.Valid() && IsChain(vol.g, vol.view.fat, chain) && i < |chain| && cluster == chain[i] && 0 < remaining
    requires 0 < vol.g.bytesPerCluster && Origin(vol.g.bytesPerCluster, i) + vol.g.bytesPerCluster
             + remaining <= Origin(vol.g.bytesPerCluster, |chain|)
    ensures i + 1 < |chain| && next == chain[i + 1]
    ensures Origin(vol.g.bytesPerCluster, i + 1) == Origin(vol.g.bytesPerCluster, i) + vol.g.bytesPerCluster
  {
    NextIndex(chain, vol.g.bytesPerCluster, i, remaining);
    next := Advance(vol, cluster, chain, i);
  }

  // Copies what one cluster contributes to a read that started at byte `at`.
  method CopyChunk(vol: Volume, cluster: nat, within: nat, remaining: nat, output: seq<u8>, ghost chain: seq<nat>,
                   ghost i: nat, ghost at: nat)
    returns (count: nat, longer: seq<u8>)
    requires vol.Valid() && IsChain(vol.g, vol.view.fat, chain)
             && FullBlocks(vol.view.data, chain, vol.g.bytesPerCluster)
    requires i < |chain| && cluster == chain[i] && within < vol.g.bytesPerCluster
    requires ReadSoFar(vol.view.data, chain, vol.g.bytesPerCluster, at, output)
             && at + |output| == Origin(vol.g.bytesPerCluster, i) + within
    ensures count == Min(remaining, vol.g.bytesPerCluster - within)
    ensures |longer| == |output| + count && ReadSoFar(vol.view.data, chain, vol.g.bytesPerCluster, at, longer)
  {
    count := Min(remaining, vol.g.bytesPerCluster - within);
    var bytes := vol.ReadCluster(cluster, within, count);
    longer := output + bytes;
    ReadMore(vol.view.data, chain, vol.g.bytesPerCluster, at, output, i, within, count);
  }

  // The cluster-by-cluster copy of read().
  method ReadFrom(vol: Volume, start: nat, within: nat, size: nat, ghost chain: seq<nat>, ghost index: nat)
    returns (output: seq<u8>)
    requires vol.Valid() && IsChain(vol.g, vol.view.fat, chain)
             && FullBlocks(vol.view.data, chain, vol.g.bytesPerCluster)
    requires index < |chain| && start == chain[index] && within < vol.g.bytesPerCluster
    requires Origin(vol.g.bytesPerCluster, index) + within + size <= Origin(vol.g.bytesPerCluster, |chain|)
    ensures |output| == size && ReadSoFar(vol.view.data, chain, vol.g.bytesPerCluster,
                                          Origin(vol.g.bytesPerCluster, index) + within, output)
  {
    var cluster: nat, w: nat, remaining: nat := start, within, size;
    ghost var i: nat := index;
    ghost var at: nat := Origin(vol.g.bytesPerCluster, index) + within;
    output := [];
    while remaining != 0
      invariant 0 <= remaining <= size && |output| == size - remaining
      invariant i < |chain| && cluster == chain[i] && w < vol.g.bytesPerCluster
      invariant at + |output| == Origin(vol.g.bytesPerCluster, i) + w
      invariant ReadSoFar(vol.view.data, chain, vol.g.bytesPerCluster, at, output)
    {
      var count;
      count, output := CopyChunk(vol, cluster, w, remaining, output, chain, i, at);
      remaining := remaining - count;
      if remaining == 0 {
        break;
      }
      cluster := Follow(vol, cluster, remaining, chain, i);
      w := 0;
      i := i + 1;
    }
  }

  // ---- Writing into existing clusters ----

  method WriteChunk(vol: Volume, cluster: nat, within: nat, input: seq<u8>, done: nat, ghost chain: seq<nat>,
                    ghost i: nat, ghost at: nat,
                    ghost data: map<nat, seq<u8>>)
    returns (done': nat)
    requires vol.Valid() && IsChain(vol.g, vol.view.fat, chain) && FullBlocks(data, chain, vol.g.bytesPerCluster)
    requires i < |chain| && cluster == chain[i] && within < vol.g.bytesPerCluster && done < |input|
    requires at + done == Origin(vol.g.bytesPerCluster, i) + within
    requires Wrote(data, vol.view.data, chain, vol.g.bytesPerCluster, at, input[..done])
    modifies vol`image, vol`view
    ensures vol.Valid() && vol.view.fat == old(vol.view.fat)
    ensures done < done' <= |input| && (done' < |input| ==> done' == done + vol.g.bytesPerCluster - within)
    ensures Wrote(data, vol.view.data, chain, vol.g.bytesPerCluster, at, input[..done'])
  {
    var count := Min(|input| - done, vol.g.bytesPerCluster - within);
    WroteNext(data, vol.view.data, chain, vol.g.bytesPerCluster, at, input, done, i, within, count);
    vol.WriteCluster(cluster, within, input[done..done + count]);
    done' := done + count;
  }

  // The cluster-by-cluster copy of write().
  method WriteFrom(vol: Volume, start: nat, within: nat, input: seq<u8>, ghost chain: seq<nat>, ghost index: nat)
    requires vol.Valid() && IsChain(vol.g, vol.view.fat, chain)
             && FullBlocks(vol.view.data, chain, vol.g.bytesPerCluster)
    requires index < |chain| && start == chain[index] && within < vol.g.bytesPerCluster
    requires Origin(vol.g.bytesPerCluster, index) + within + |input| <= Origin(vol.g.bytesPerCluster, |chain|)
    modifies vol`image, vol`view
    ensures vol.Valid() && vol.view.fat == old(vol.view.fat)
    ensures Wrote(old(vol.view.data), vol.view.data, chain, vol.g.bytesPerCluster,
                  Origin(vol.g.bytesPerCluster, index) + within, input)
  {
    ghost var at: nat := Origin(vol.g.bytesPerCluster, index) + within;
    WriteAll(vol, start, within, input, chain, index, at);
    assert input[..|input|] == input;
  }

  method WriteAll(vol: Volume, start: nat, within: nat, input: seq<u8>, ghost chain: seq<nat>, ghost index: nat,
                  ghost at: nat)
    requires vol.Valid() && IsChain(vol.g, vol.view.fat, chain)
             && FullBlocks(vol.view.data, chain, vol.g.bytesPerCluster)
    requires index < |chain| && start == chain[index] && within < vol.g.bytesPerCluster
             && at == Origin(vol.g.bytesPerCluster, index) + within
    requires at + |input| <= Origin(vol.g.bytesPerCluster, |chain|)
    modifies vol`image, vol`view
    ensures vol.Valid() && vol.view.fat == old(vol.view.fat)
    ensures Wrote(old(vol.view.data), vol.view.data, chain, vol.g.bytesPerCluster, at, input[..|input|])
  {
    var cluster: nat, w: nat, done: nat := start, within, 0;
    ghost var i: nat := index;
    while done != |input|
      invariant vol.Valid() && vol.view.fat == old(vol.view.fat) && 0 <= done <= |input|
      invariant i < |chain| && cluster == chain[i] && w < vol.g.bytesPerCluster
      invariant at + done == Origin(vol.g.bytesPerCluster, i) + w
      invariant Wrote(old(vol.view.data), vol.view.data, chain, vol.g.bytesPerCluster, at, input[..done])
    {
      done := WriteChunk(vol, cluster, w, input, done, chain, i, at, old(vol.view.data));
      if done == |input| {
        break;
      }
      cluster := Follow(vol, cluster, |input| - done, chain, i);
      w := 0;
      i := i + 1;
    }
  }

  // The sector-sized writes that clear part of one cluster.
  method ZeroPart(vol: Volume, cluster: nat, within: nat, count: nat)
    requires vol.Valid() && ValidCluster(vol.g, cluster) && within + count <= vol.g.bytesPerCluster
    modifies vol`image, vol`view
    ensures vol.Valid()
    ensures var block := Overlay(old(vol.view).data[cluster], within, Zeros(count));
            vol.view == old(vol.view).(data := old(vol.view).data[cluster := block])
  {
    ghost var v := vol.view;
    var done := 0;
    assert Overlay(v.data[cluster], within, Zeros(0)) == v.data[cluster];
    while done != count
      invariant vol.Valid() && 0 <= done <= count
      invariant vol.view == v.(data := v.data[cluster := Overlay(v.data[cluster], within, Zeros(done))])
      decreases count - done
    {
      var step := Min(count - done, vol.g.bytesPerSector);
      ZerosGrow(v.data[cluster], within, done, step);
      vol.WriteCluster(cluster, within + done, Zeros(step));
      done := done + step;
    }
  }

  // zero_file_range(): part of the file reads as zeros afterwards.
  method ZeroFileRange(vol: Volume, first: nat, offset: nat, size: nat, ghost chain: seq<nat>)
    requires vol.Valid() && 0 < vol.g.bytesPerCluster && FullBlocks(vol.view.data, chain, vol.g.bytesPerCluster)
    requires size > 0 ==> IsChain(vol.g, vol.view.fat, chain) && chain[0] == first
    requires offset + size <= Origin(vol.g.bytesPerCluster, |chain|)
    modifies vol`image, vol`view
    ensures vol.Valid() && vol.view.fat == old(vol.view.fat)
    ensures Wrote(old(vol.view.data), vol.view.data, chain, vol.g.bytesPerCluster, offset, Zeros(size))
  {
    if size == 0 {
      assert Overlay(Flat(vol.view.data, chain, vol.g.bytesPerCluster), offset, Zeros(0))
             == Flat(vol.view.data, chain, vol.g.bytesPerCluster);
      return;
    }
    ChainIndex(offset, |chain|, vol.g.bytesPerCluster);
    var cluster := Seek(vol, first, offset / vol.g.bytesPerCluster, chain);
    ZeroFrom(vol, cluster, offset % vol.g.bytesPerCluster, size, chain, offset / vol.g.bytesPerCluster);
  }

  method ZeroChunk(vol: Volume, cluster: nat, within: nat, size: nat, done: nat, ghost chain: seq<nat>, ghost i: nat,
                   ghost at: nat,
                   ghost data: map<nat, seq<u8>>)
    returns (done': nat)
    requires vol.Valid() && IsChain(vol.g, vol.view.fat, chain) && FullBlocks(data, chain, vol.g.bytesPerCluster)
    requires i < |chain| && cluster == chain[i] && within < vol.g.bytesPerCluster && done < size
    requires at + done == Origin(vol.g.bytesPerCluster, i) + within
    requires Wrote(data, vol.view.data, chain, vol.g.bytesPerCluster, at, Zeros(done))
    modifies vol`image, vol`view
    ensures vol.Valid() && vol.view.fat == old(vol.view.fat)
    ensures done < done' <= size && (done' < size ==> done' == done + vol.g.bytesPerCluster - within)
    ensures Wrote(data, vol.view.data, chain, vol.g.bytesPerCluster, at, Zeros(done'))
  {
    var count := Min(size - done, vol.g.bytesPerCluster - within);
    WroteMore(data, vol.view.data, chain, vol.g.bytesPerCluster, at, Zeros(done), i, within, Zeros(count));
    assert Zeros(done) + Zeros(count) == Zeros(done + count);
    ZeroPart(vol, cluster, within, count);
    done' := done + count;
  }

  method ZeroFrom(vol: Volume, start: nat, within: nat, size: nat, ghost chain: seq<nat>, ghost index: nat)
    requires vol.Valid() && IsChain(vol.g, vol.view.fat, chain)
             && FullBlocks(vol.view.data, chain, vol.g.bytesPerCluster)
    requires index < |chain| && start == chain[index] && within < vol.g.bytesPerCluster
    requires Origin(vol.g.bytesPerCluster, index) + within + size <= Origin(vol.g.bytesPerCluster, |chain|)
    modifies vol`image, vol`view
    ensures vol.Valid() && vol.view.fat == old(vol.view.fat)
    ensures Wrote(old(vol.view.data), vol.view.data, chain, vol.g.bytesPerCluster,
                  Origin(vol.g.bytesPerCluster, index) + within, Zeros(size))
  {
    var cluster: nat, w: nat, done: nat := start, within, 0;
    ghost var i: nat := index;
    ghost var at: nat := Origin(vol.g.bytesPerCluster, index) + within;
    while done != size
      invariant vol.Valid() && vol.view.fat == old(vol.view.fat) && 0 <= done <= size
      invariant i < |chain| && cluster == chain[i] && w < vol.g.bytesPerCluster
      invariant at + done == Origin(vol.g.bytesPerCluster, i) + w
      invariant Wrote(old(vol.view.data), vol.view.data, chain, vol.g.bytesPerCluster, at, Zeros(done))
    {
      done := ZeroChunk(vol, cluster, w, size, done, chain, i, at, old(vol.view.data));
      if done == size {
        break;
      }
      cluster := Follow(vol, cluster, size - done, chain, i);
      w := 0;
      i := i + 1;
    }
  }

  // ---- The directory record ----

  // Bytes 20 to 31 of a record with new first-cluster and size fields.
  function Metadata(raw: seq<u8>, first: nat, size: nat): (r: seq<u8>)
    requires |raw| == 12 && first < FAT_VALUES && size <= SIZE_LIMIT
    ensures |r| == 12
  {
    Bytes16(first / 0x1_0000) + raw[2..6] + Bytes16(first % 0x1_0000) + Bytes32(size)
  }

  lemma {:induction false} MetadataDecodes(block: seq<u8>, at: nat, first: nat, size: nat)
    requires at + 32 <= |block| && first < FAT_VALUES && size <= SIZE_LIMIT
    ensures var r := Overlay(block, at + 20, Metadata(block[at + 20..at + 32], first, size));
            RecordFirst(r, at) == first && RecordSize(r, at) == size
  {
    var meta := Metadata(block[at + 20..at + 32], first, size);
    var r := Overlay(block, at + 20, meta);
    assert r[at + 20..at + 32] == meta;
    Little16Slice(r, at + 20, at + 32, at + 20);
    Little16Slice(r, at + 20, at + 32, at + 26);
    Little32Slice(r, at + 20, at + 32, at + 28);
    MetadataFields(block[at + 20..at + 32], first, size);
  }

  lemma {:induction false} MetadataFields(raw: seq<u8>, first: nat, size: nat)
    requires |raw| == 12 && first < FAT_VALUES && size <= SIZE_LIMIT
    ensures var meta := Metadata(raw, first, size);
            Little16(meta, 0) == first / 0x1_0000 && Little16(meta, 6) == first % 0x1_0000 && Little32(meta, 8) == size
  {
    var meta := Metadata(raw, first, size);
    Little16Slice(meta, 0, 2, 0);
    Little16Slice(meta, 6, 8, 6);
    Little32Slice(meta, 8, 12, 8);
    assert meta[0..2] == Bytes16(first / 0x1_0000) && meta[6..8] == Bytes16(first % 0x1_0000)
           && meta[8..12] == Bytes32(size);
  }

  method WriteMetadata(vol: Volume, place: Place, first: nat, size: nat)
    requires vol.Valid() && ValidCluster(vol.g, place.cluster) && place.within + 32 <= vol.g.bytesPerCluster
    requires first < FAT_VALUES && size <= SIZE_LIMIT
    modifies vol`image, vol`view
    ensures vol.Valid() && vol.view.fat == old(vol.view.fat)
    ensures RecordChanged(old(vol.view.data), vol.view.data, place, first, size)
  {
    ghost var block := vol.view.data[place.cluster];
    var raw := vol.ReadCluster(place.cluster, place.within + 20, 12);
    MetadataDecodes(block, place.within, first, size);
    vol.WriteCluster(place.cluster, place.within + 20, Metadata(raw, first, size));
    assert RewrittenFrom(block, vol.view.data[place.cluster], place.within, first, size);
  }

  // A block whose record at `at` has a new first cluster and size. It is behind
  // a quantifier so that a proof unfolds it only by naming RewrittenFrom.
  ghost predicate Rewritten(block: seq<u8>, block': seq<u8>, at: nat, first: nat, size: nat) {
    forall was: seq<u8> :: was == block ==> RewrittenFrom(was, block', at, first, size)
  }

  ghost predicate RewrittenFrom(block: seq<u8>, block': seq<u8>, at: nat, first: nat, size: nat) {
    && first < FAT_VALUES && size <= SIZE_LIMIT && at + 32 <= |block|
    && block' == Overlay(block, at + 20, Metadata(block[at + 20..at + 32], first, size))
  }

  // Only the two fields of one directory record changed.
  ghost predicate RecordChanged(data: map<nat, seq<u8>>, data': map<nat, seq<u8>>, place: Place, first: nat,
                                size: nat) {
    && first < FAT_VALUES && size <= SIZE_LIMIT
    && place.cluster in data && place.within + 32 <= |data[place.cluster]|
    && place.cluster in data' && data' == data[place.cluster := data'[place.cluster]]
    && var block, block', at := data[place.cluster], data'[place.cluster], place.within;
    && |block'| == |block| && Rewritten(block, block', at, first, size)
    && RecordFirst(block', at) == first && RecordSize(block', at) == size
  }

  // ---- Growing and shrinking ----

  // Clusters in use by anyone else keep their links and contents, except for
  // the fields of the file's own directory record.
  ghost predicate OthersKept(v: View, v': View, chain: seq<nat>, place: Place, first: nat, size: nat) {
    && v.fat.Keys == v.data.Keys == v'.fat.Keys == v'.data.Keys
    && place.cluster in v.data && place.within + 32 <= |v.data[place.cluster]|
    && first < FAT_VALUES && size <= SIZE_LIMIT
    && forall c :: c in v.fat && v.fat[c] != 0 && c !in chain ==>
         v'.fat[c] == v.fat[c] && BlockKept(v.data[c], v'.data[c], c, place, first, size)
  }

  ghost predicate BlockKept(block: seq<u8>, block': seq<u8>, c: nat, place: Place, first: nat, size: nat) {
    if c == place.cluster then |block'| == |block|
       && Rewritten(block, block', place.within, first, size) else block' == block
  }

  // The file has its new size, its old bytes as far as they reach and zeros
  // after them; everybody else is as before.
  ghost predicate Truncated(g: Geometry, v: View, file: Node, chain: seq<nat>, v': View, file': Node,
                            chain': seq<nat>, size: nat) {
    && FileMatches(g, v, file, chain) && file.entry.Some?
    && FileMatches(g, v', file', chain')
    && file'.size == size && file'.entry == file.entry
    && Content(g, v', file', chain') == Resized(Content(g, v, file, chain), size)
    && OthersKept(v, v', chain, file.entry.value, file'.first, size)
    && OwnOrFree(v.fat, chain, chain')
  }

  // A file grows only into clusters nobody used.
  ghost predicate OwnOrFree(fat: map<nat, nat>, chain: seq<nat>, chain': seq<nat>) {
    forall c :: c in chain' ==> c in chain || (c in fat && fat[c] == 0)
  }

  // The directory record lies outside the file.
  lemma {:induction false} RecordAside(g: Geometry, v: View, chain: seq<nat>, data': map<nat, seq<u8>>, place: Place,
                                       first: nat, size: nat)
    requires Complete(g, v) && FullBlocks(v.data, chain, g.bytesPerCluster) && place.cluster !in chain
    requires RecordChanged(v.data, data', place, first, size)
    ensures FullBlocks(data', chain, g.bytesPerCluster)
            && Flat(data', chain, g.bytesPerCluster) == Flat(v.data, chain, g.bytesPerCluster)
    ensures Complete(g, v.(data := data'))
  {
    FlatElsewhere(v.data, chain, g.bytesPerCluster, place.cluster, data'[place.cluster]);
  }

  // Same number of clusters: the new tail, if any, is cleared first.
  lemma {:induction false} SameClusters(g: Geometry, v: View, file: Node, chain: seq<nat>, data1: map<nat, seq<u8>>,
                                        data2: map<nat, seq<u8>>, size: nat)
    requires FileMatches(g, v, file, chain) && file.entry.Some? && size <= SIZE_LIMIT
    requires BlocksFor(size, g.bytesPerCluster) == |chain|
    requires FullBlocks(v.data, chain, g.bytesPerCluster)
    requires if size > file.size then Wrote(v.data, data1, chain, g.bytesPerCluster, file.size,
                                            Zeros(size - file.size)) else data1 == v.data
    requires RecordChanged(data1, data2, file.entry.value, file.first, size)
    ensures Truncated(g, v, file, chain, v.(data := data2), file.(size := size), chain, size)
  {
    var B := g.bytesPerCluster;
    var v1 := v.(data := data1);
    assert Complete(g, v1);
    assert FullBlocks(data1, chain, B);
    RecordAside(g, v1, chain, data2, file.entry.value, file.first, size);
    ChainFull(g, v, file, chain);
    var v2 := v.(data := data2);
    assert FileMatches(g, v2, file.(size := size), chain);
    if size > file.size {
      OverlayTail(Flat(v.data, chain, B), file.size, size);
    }
  }

  // Shrinking to nothing releases the whole chain.
  lemma {:induction false} Emptied(g: Geometry, v: View, file: Node, chain: seq<nat>, data1: map<nat, seq<u8>>)
    requires FileMatches(g, v, file, chain) && file.entry.Some?
    requires RecordChanged(v.data, data1, file.entry.value, 0, 0)
    ensures Truncated(g, v, file, chain, View(Freed(v.fat, chain), data1), Node(0, 0, file.entry), [], 0)
  {
    EmptiedMatches(g, v, file, chain, data1);
    EmptiedOthers(g, v, file, chain, data1);
  }

  lemma {:induction false} EmptiedMatches(g: Geometry, v: View, file: Node, chain: seq<nat>, data1: map<nat, seq<u8>>)
    requires FileMatches(g, v, file, chain) && file.entry.Some?
    requires RecordChanged(v.data, data1, file.entry.value, 0, 0)
    ensures FileMatches(g, View(Freed(v.fat, chain), data1), Node(0, 0, file.entry), [])
  {
    var v' := View(Freed(v.fat, chain), data1);
    assert v'.fat.Keys == v.fat.Keys && Complete(g, v');
    assert EntryMatches(g, v', Node(0, 0, file.entry), []);
  }

  lemma {:induction false} EmptiedOthers(g: Geometry, v: View, file: Node, chain: seq<nat>, data1: map<nat, seq<u8>>)
    requires FileMatches(g, v, file, chain) && file.entry.Some?
    requires RecordChanged(v.data, data1, file.entry.value, 0, 0)
    ensures OthersKept(v, View(Freed(v.fat, chain), data1), chain, file.entry.value, 0, 0)
  {
    var v' := View(Freed(v.fat, chain), data1);
    assert v'.fat.Keys == v.fat.Keys;
    OthersGrown(g, v, v, [], chain, v.data, v', file.entry.value, 0, 0);
  }

  // Clusters that were free are neither the record's nor anybody's.
  lemma {:induction false} FreshAside(g: Geometry, v: View, v1: View, added: seq<nat>, c: nat)
    requires Complete(g, v) && Grown(g, v, v1, added) && c in v.fat && v.fat[c] != 0
    ensures c !in added && v1.fat[c] == v.fat[c] && v1.data[c] == v.data[c]
  {
  }

  lemma {:induction false} GrownComplete(g: Geometry, v: View, v1: View, added: seq<nat>)
    requires Complete(g, v) && Grown(g, v, v1, added)
    ensures Complete(g, v1) && FullBlocks(v1.data, added, g.bytesPerCluster)
  {
    forall c | c in v1.data ensures |v1.data[c]| == g.bytesPerCluster {
      if c !in added {
        assert v1.data[c] == v.data[c];
      }
    }
  }

  // The first clusters of an empty file are all zeros.
  lemma {:induction false} Filled(g: Geometry, v: View, file: Node, v1: View, added: seq<nat>,
                                  data2: map<nat, seq<u8>>, size: nat)
    requires FileMatches(g, v, file, []) && file.entry.Some? && file.size == 0 && 0 < size <= SIZE_LIMIT
    requires added != [] && Grown(g, v, v1, added) && |added| == BlocksFor(size, g.bytesPerCluster)
    requires RecordChanged(v1.data, data2, file.entry.value, added[0], size)
    ensures Truncated(g, v, file, [], v1.(data := data2), Node(added[0], size, file.entry), added, size)
  {
    var B := g.bytesPerCluster;
    FreshAside(g, v, v1, added, file.entry.value.cluster);
    GrownComplete(g, v, v1, added);
    RecordAside(g, v1, added, data2, file.entry.value, added[0], size);
    var v', file' := v1.(data := data2), Node(added[0], size, file.entry);
    OthersGrown(g, v, v1, added, [], v1.data, v', file.entry.value, added[0], size);
    assert FileMatches(g, v', file', added);
    assert Content(g, v', file', added) == Resized([], size) by {
      FlatZeros(v1.data, added, B);
      ChainFull(g, v', file', added);
      assert Zeros(Origin(B, |added|))[..size] == Resized([], size);
    }
  }

  // Growing a chain touches nobody else.
  lemma {:induction false} OthersGrown(g: Geometry, v: View, v1: View, added: seq<nat>, chain: seq<nat>,
                                       data3: map<nat, seq<u8>>, v': View,
                    place: Place, first: nat, size: nat)
    requires Complete(g, v) && Grown(g, v, v1, added) && place.cluster in v.fat && v.fat[place.cluster] != 0
             && place.cluster !in chain
    requires v'.fat.Keys == v1.fat.Keys && forall c :: c in v1.fat && c !in chain ==> v'.fat[c] == v1.fat[c]
    requires data3.Keys == v1.data.Keys && forall c :: c in v1.data && c !in chain + added ==> data3[c] == v1.data[c]
    requires RecordChanged(data3, v'.data, place, first, size)
    ensures OthersKept(v, v', chain, place, first, size)
  {
    FreshAside(g, v, v1, added, place.cluster);
    forall c | c in v.fat && v.fat[c] != 0 && c !in chain
      ensures v'.fat[c] == v.fat[c] && BlockKept(v.data[c], v'.data[c], c, place, first, size)
    {
      FreshAside(g, v, v1, added, c);
      RecordBlock(data3, v'.data, place, first, size, c);
    }
  }

  lemma {:induction false} RecordBlock(data: map<nat, seq<u8>>, data': map<nat, seq<u8>>, place: Place, first: nat,
                                       size: nat, c: nat)
    requires RecordChanged(data, data', place, first, size) && c in data
    ensures c in data' && BlockKept(data[c], data'[c], c, place, first, size)
  {
  }

  // Two chains joined by one link.
  lemma {:induction false} ChainJoined(g: Geometry, fat: map<nat, nat>, a: seq<nat>, b: seq<nat>)
    requires IsChain(g, fat, a) && IsChain(g, fat, b) && forall c :: c in a ==> c !in b
    ensures IsChain(g, fat[a[|a| - 1] := b[0]], a + b)
  {
    var fat', chain, n := fat[a[|a| - 1] := b[0]], a + b, |a|;
    assert a[n - 1] in a;
    forall i, j | 0 <= i < j < |chain| ensures Differ(chain, i, j) {
      if j < n {
        assert Differ(a, i, j);
      } else if n <= i {
        assert Differ(b, i - n, j - n);
      } else {
        assert a[i] in a && b[j - n] in b;
      }
    }
    forall i | 0 <= i < |chain| - 1 ensures Follows(fat', chain, i) {
      if i < n - 1 {
        assert Follows(fat, a, i) && Differ(a, i, n - 1);
      } else if n <= i {
        assert Follows(fat, b, i - n) && b[i - n] in b;
      }
    }
    assert chain[|chain| - 1] == b[|b| - 1] && b[|b| - 1] in b;
  }

  // Clusters added behind the old ones, cleared from the old size on.
  lemma {:induction false} GrownFile(g: Geometry, v: View, file: Node, chain: seq<nat>, v1: View, added: seq<nat>,
                  data3: map<nat, seq<u8>>, data4: map<nat, seq<u8>>, size: nat)
    requires FileMatches(g, v, file, chain) && file.entry.Some? && chain != [] && added != []
             && file.size < size <= SIZE_LIMIT
    requires Grown(g, v, v1, added) && |chain| + |added| == BlocksFor(size, g.bytesPerCluster)
    requires FullBlocks(v1.data, chain + added, g.bytesPerCluster)
    requires Wrote(v1.data, data3, chain + added, g.bytesPerCluster, file.size, Zeros(size - file.size))
    requires RecordChanged(data3, data4, file.entry.value, file.first, size)
    ensures Truncated(g, v, file, chain, View(v1.fat[chain[|chain| - 1] := added[0]], data4), file.(size := size),
                      chain + added, size)
  {
    var B, place, longer := g.bytesPerCluster, file.entry.value, chain + added;
    var v', file' := View(v1.fat[chain[|chain| - 1] := added[0]], data4), file.(size := size);
    ChainInUse(g, v.fat, chain);
    GrownComplete(g, v, v1, added);
    ChainKept(g, v, v1, chain, added);
    ChainJoined(g, v1.fat, chain, added);
    FreshAside(g, v, v1, added, place.cluster);
    assert Complete(g, View(v1.fat, data3));
    RecordAside(g, View(v1.fat, data3), longer, data4, place, file.first, size);
    assert FileMatches(g, v', file', longer);
    GrownContent(g, v, file, chain, v1, added, data3, size);
    OthersGrown(g, v, v1, added, chain, data3, v', place, file.first, size);
  }

  lemma {:induction false} ChainKept(g: Geometry, v: View, v1: View, chain: seq<nat>, added: seq<nat>)
    requires Complete(g, v) && IsChain(g, v.fat, chain) && Grown(g, v, v1, added)
    ensures IsChain(g, v1.fat, chain) && forall c :: c in chain ==> c !in added && v1.data[c] == v.data[c]
  {
    ChainInUse(g, v.fat, chain);
    forall c | c in chain ensures c !in added && v1.fat[c] == v.fat[c] && v1.data[c] == v.data[c] {
      FreshAside(g, v, v1, added, c);
    }
    forall i | 0 <= i < |chain| - 1 ensures Follows(v1.fat, chain, i) {
      assert Follows(v.fat, chain, i) && chain[i] in chain;
    }
    assert chain[|chain| - 1] in chain;
  }

  lemma {:induction false} GrownContent(g: Geometry, v: View, file: Node, chain: seq<nat>, v1: View, added: seq<nat>,
                                        data3: map<nat, seq<u8>>, size: nat)
    requires FileMatches(g, v, file, chain) && chain != [] && file.size < size
    requires Grown(g, v, v1, added) && FullBlocks(v1.data, chain + added, g.bytesPerCluster)
    requires Wrote(v1.data, data3, chain + added, g.bytesPerCluster, file.size, Zeros(size - file.size))
    ensures Flat(data3, chain + added, g.bytesPerCluster)[..size] == Resized(Content(g, v, file, chain), size)
  {
    GrownPrefix(g, v, file, chain, v1, added);
    OverlayTail(Flat(v1.data, chain + added, g.bytesPerCluster), file.size, size);
  }

  lemma {:induction false} GrownPrefix(g: Geometry, v: View, file: Node, chain: seq<nat>, v1: View, added: seq<nat>)
    requires FileMatches(g, v, file, chain) && chain != [] && Grown(g, v, v1, added)
    ensures FullBlocks(v1.data, chain + added, g.bytesPerCluster)
            && file.size <= |Flat(v1.data, chain + added, g.bytesPerCluster)|
    ensures Flat(v1.data, chain + added, g.bytesPerCluster)[..file.size] == Content(g, v, file, chain)
  {
    ChainFull(g, v, file, chain);
    ChainKept(g, v, v1, chain, added);
    GrownComplete(g, v, v1, added);
    FlatPrefix(v.data, v1.data, chain, added, g.bytesPerCluster, file.size);
  }

  // Ending a chain early leaves two chains.
  lemma {:induction false} ChainCut(g: Geometry, fat: map<nat, nat>, chain: seq<nat>, n: nat)
    requires IsChain(g, fat, chain) && 0 < n < |chain|
    ensures var cut := fat[chain[n - 1] := END_OF_CHAIN];
            && IsChain(g, cut, chain[..n]) && IsChain(g, cut, chain[n..])
            && IsChain(g, Freed(cut, chain[n..]), chain[..n])
            && forall c :: c in chain[..n] ==> c !in chain[n..]
  {
    var cut, kept, tail := fat[chain[n - 1] := END_OF_CHAIN], chain[..n], chain[n..];
    forall i, j | 0 <= i < n <= j < |chain| ensures chain[i] != chain[j] {
      assert Differ(chain, i, j);
    }
    PrefixDistinct(chain, n);
    forall i | 0 <= i < n - 1 ensures Follows(cut, kept, i) && Follows(Freed(cut, tail), kept, i) {
      assert Follows(fat, chain, i) && Differ(chain, i, n - 1);
      assert chain[i] in kept;
    }
    forall i | 0 <= i < |tail| - 1 ensures Follows(cut, tail, i) {
      assert Follows(fat, chain, n + i);
    }
  }

  // Fewer clusters: the tail is cut off and released.
  lemma {:induction false} Shrunk(g: Geometry, v: View, file: Node, chain: seq<nat>, n: nat,
                                  data1: map<nat, seq<u8>>, size: nat)
    requires FileMatches(g, v, file, chain) && file.entry.Some? && 0 < n < |chain|
             && n == BlocksFor(size, g.bytesPerCluster)
    requires size < file.size
    requires RecordChanged(v.data, data1, file.entry.value, file.first, size)
    ensures var fat' := Freed(v.fat[chain[n - 1] := END_OF_CHAIN], chain[n..]);
            Truncated(g, v, file, chain, View(fat', data1), file.(size := size), chain[..n], size)
  {
    var B, place := g.bytesPerCluster, file.entry.value;
    var cut := v.fat[chain[n - 1] := END_OF_CHAIN];
    var v', file' := View(Freed(cut, chain[n..]), data1), file.(size := size);
    ChainCut(g, v.fat, chain, n);
    assert v'.fat.Keys == v.fat.Keys;
    assert chain[n - 1] in chain;
    OthersGrown(g, v, v, [], chain, v.data, v', place, file.first, size);
    assert place.cluster !in chain[..n];
    assert FileMatches(g, v', file', chain[..n]);
    BlocksForSize(size, B);
    ShrunkContent(g, v, file, chain, n, data1, size);
  }

  lemma {:induction false} ShrunkContent(g: Geometry, v: View, file: Node, chain: seq<nat>, n: nat,
                                         data1: map<nat, seq<u8>>, size: nat)
    requires FileMatches(g, v, file, chain) && file.entry.Some? && n <= |chain| && size <= file.size
             && size <= Origin(g.bytesPerCluster, n)
    requires RecordChanged(v.data, data1, file.entry.value, file.first, size)
    ensures FullBlocks(data1, chain[..n], g.bytesPerCluster)
    ensures Flat(data1, chain[..n], g.bytesPerCluster)[..size] == Content(g, v, file, chain)[..size]
  {
    var B := g.bytesPerCluster;
    ChainFull(g, v, file, chain);
    RecordAside(g, v, chain[..n], data1, file.entry.value, file.first, size);
    FlatConcat(v.data, chain[..n], chain[n..], B);
    SplitAt(chain, n);
    PrefixOfConcat(Flat(v.data, chain[..n], B), Flat(v.data, chain[n..], B), size);
  }

  method TruncateSame(vol: Volume, file: Node, size: nat, ghost chain: seq<nat>)
    requires vol.Valid() && FileMatches(vol.g, vol.view, file, chain) && file.entry.Some? && size <= SIZE_LIMIT
    requires BlocksFor(size, vol.g.bytesPerCluster) == |chain|
    modifies vol`image, vol`view
    ensures vol.Valid()
    ensures vol.view.fat == old(vol.view).fat
            && Truncated(vol.g, old(vol.view), file, chain, vol.view, file.(size := size), chain, size)
  {
    ChainFull(vol.g, vol.view, file, chain);
    BlocksForSize(size, vol.g.bytesPerCluster);
    ghost var v := vol.view;
    if size > file.size {
      ZeroFileRange(vol, file.first, file.size, size - file.size, chain);
    }
    ghost var data1 := vol.view.data;
    FirstInRange(vol.g, v, file, chain);
    WriteMetadata(vol, file.entry.value, file.first, size);
    SameClusters(vol.g, v, file, chain, data1, vol.view.data, size);
  }

  lemma {:induction false} FirstInRange(g: Geometry, v: View, file: Node, chain: seq<nat>)
    requires FileMatches(g, v, file, chain) && g.clusterCount <= RESERVED_CLUSTER - 2
    ensures file.first < FAT_VALUES
  {
  }

  lemma {:induction false} FreshInRange(g: Geometry, v: View, v1: View, added: seq<nat>, file: Node)
    requires Grown(g, v, v1, added) && added != [] && g.clusterCount <= RESERVED_CLUSTER - 2
    requires FileMatches(g, v, file, []) && file.entry.Some?
    ensures added[0] < FAT_VALUES
    ensures ValidCluster(g, file.entry.value.cluster) && file.entry.value.within + 32 <= g.bytesPerCluster
  {
    assert added[0] in added;
  }

  method TruncateToZero(vol: Volume, file: Node, ghost chain: seq<nat>)
    requires vol.Valid() && FileMatches(vol.g, vol.view, file, chain) && file.entry.Some?
    modifies vol
    ensures vol.Valid() && (old(vol.Accurate()) ==> vol.Accurate())
    ensures Truncated(vol.g, old(vol.view), file, chain, vol.view, Node(0, 0, file.entry), [], 0)
  {
    ghost var v := vol.view;
    WriteMetadata(vol, file.entry.value, 0, 0);
    Emptied(vol.g, v, file, chain, vol.view.data);
    var error := vol.FreeChain(file.first, chain);
  }

  method TruncateFromZero(vol: Volume, file: Node, size: nat)
    returns (error: Error, file': Node, ghost chain': seq<nat>)
    requires vol.Valid() && FileMatches(vol.g, vol.view, file, []) && file.entry.Some? && file.size == 0
             && 0 < size <= SIZE_LIMIT
    modifies vol
    ensures vol.Valid() && (old(vol.Accurate()) ==> vol.Accurate())
    ensures error == NoError || error == NoSpace
    ensures error == NoSpace <==> |Free(vol.g, old(vol.view).fat)| < BlocksFor(size, vol.g.bytesPerCluster)
    ensures error == NoError ==> Truncated(vol.g, old(vol.view), file, [], vol.view, file', chain', size)
    ensures error == NoSpace ==> file' == file && chain' == [] && vol.view.fat == old(vol.view).fat
                                 && KeepsUsed(old(vol.view), vol.view)
  {
    ghost var v := vol.view;
    var first, last;
    error, first, last, chain' := vol.AllocateChain(BlocksFor(size, vol.g.bytesPerCluster));
    if error != NoError {
      return error, file, [];
    }
    file' := RecordFilled(vol, file, size, first, v, chain');
  }

  method RecordFilled(vol: Volume, file: Node, size: nat, first: nat, ghost v: View, ghost added: seq<nat>)
    returns (file': Node)
    requires vol.Valid() && FileMatches(vol.g, v, file, []) && file.entry.Some? && file.size == 0
             && 0 < size <= SIZE_LIMIT
    requires Grown(vol.g, v, vol.view, added) && |added| == BlocksFor(size, vol.g.bytesPerCluster)
             && first == (if added == [] then 0 else added[0])
    modifies vol`image, vol`view
    ensures vol.Valid() && (old(vol.Accurate()) ==> vol.Accurate())
    ensures Truncated(vol.g, v, file, [], vol.view, file', added, size)
  {
    ghost var v1 := vol.view;
    BlocksForSize(size, vol.g.bytesPerCluster);
    FreshInRange(vol.g, v, v1, added, file);
    WriteMetadata(vol, file.entry.value, first, size);
    Filled(vol.g, v, file, v1, added, vol.view.data, size);
    assert vol.view == v1.(data := vol.view.data);
    file' := Node(first, size, file.entry);
  }

  method TruncateGrow(vol: Volume, file: Node, size: nat, ghost chain: seq<nat>)
    returns (error: Error, ghost chain': seq<nat>)
    requires vol.Valid() && FileMatches(vol.g, vol.view, file, chain) && file.entry.Some? && size <= SIZE_LIMIT
    requires 0 < |chain| < BlocksFor(size, vol.g.bytesPerCluster) && file.size < size
    modifies vol
    ensures vol.Valid() && (old(vol.Accurate()) ==> vol.Accurate())
    ensures error == NoError || error == NoSpace
    ensures error == NoSpace <==> |Free(vol.g, old(vol.view).fat)| < BlocksFor(size, vol.g.bytesPerCluster) - |chain|
    ensures error == NoError ==> Truncated(vol.g, old(vol.view), file, chain, vol.view, file.(size := size), chain',
                                           size)
    ensures error == NoSpace ==> chain' == chain && vol.view.fat == old(vol.view).fat
                                 && KeepsUsed(old(vol.view), vol.view)
  {
    ghost var v := vol.view;
    var oldClusters := BlocksFor(file.size, vol.g.bytesPerCluster);
    var lastKept := Seek(vol, file.first, oldClusters - 1, chain);
    var first, last;
    ghost var added;
    error, first, last, added := vol.AllocateChain(BlocksFor(size, vol.g.bytesPerCluster) - oldClusters);
    if error != NoError {
      return error, chain;
    }
    chain' := chain + added;
    Append(vol, file, size, lastKept, first, v, chain, added);
  }

  // Puts new clusters behind the file's own and records the new size.
  method Append(vol: Volume, file: Node, size: nat, lastKept: nat, first: nat, ghost v: View, ghost chain: seq<nat>,
                ghost added: seq<nat>)
    requires vol.Valid() && FileMatches(vol.g, v, file, chain) && file.entry.Some? && file.size < size <= SIZE_LIMIT
    requires Grown(vol.g, v, vol.view, added) && chain != [] && added != [] && lastKept == chain[|chain| - 1]
             && first == added[0]
    requires |chain| + |added| == BlocksFor(size, vol.g.bytesPerCluster)
    modifies vol`image, vol`view
    ensures vol.Valid() && (old(vol.Accurate()) ==> vol.Accurate())
    ensures Truncated(vol.g, v, file, chain, vol.view, file.(size := size), chain + added, size)
  {
    ghost var v1 := vol.view;
    JoinReady(vol.g, v, file, chain, v1, added);
    FirstInRange(vol.g, v, file, chain);
    ghost var data3 := LinkAndRecord(vol, file, size, lastKept, first, chain + added);
    GrownFile(vol.g, v, file, chain, v1, added, data3, vol.view.data, size);
  }

  lemma {:induction false} JoinReady(g: Geometry, v: View, file: Node, chain: seq<nat>, v1: View, added: seq<nat>)
    requires FileMatches(g, v, file, chain) && Grown(g, v, v1, added) && chain != [] && added != []
    ensures IsChain(g, v1.fat, chain) && IsChain(g, v1.fat[chain[|chain| - 1] := added[0]], chain + added)
    ensures ValidCluster(g, chain[|chain| - 1]) && v1.fat[chain[|chain| - 1]] != 0 && ValidCluster(g, added[0])
    ensures Complete(g, v1) && FullBlocks(v1.data, chain + added, g.bytesPerCluster)
  {
    ChainKept(g, v, v1, chain, added);
    ChainJoined(g, v1.fat, chain, added);
    ChainInUse(g, v1.fat, chain);
    GrownComplete(g, v, v1, added);
    assert chain[|chain| - 1] in chain && added[0] in added;
  }

  // Joins the new clusters to the file and clears it from the old size on.
  method LinkAdded(vol: Volume, file: Node, size: nat, lastKept: nat, first: nat, ghost longer: seq<nat>)
    requires vol.Valid() && ValidCluster(vol.g, lastKept) && ValidCluster(vol.g, first) && vol.view.fat[lastKept] != 0
    requires IsChain(vol.g, vol.view.fat[lastKept := first], longer) && longer[0] == file.first
    requires FullBlocks(vol.view.data, longer, vol.g.bytesPerCluster)
    requires file.size < size && |longer| == BlocksFor(size, vol.g.bytesPerCluster)
    modifies vol`image, vol`view
    ensures vol.Valid() && (old(vol.Accurate()) ==> vol.Accurate())
    ensures vol.view.fat == old(vol.view).fat[lastKept := first]
    ensures Wrote(old(vol.view).data, vol.view.data, longer, vol.g.bytesPerCluster, file.size, Zeros(size - file.size))
  {
    vol.LinkLast(lastKept, first);
    BlocksForSize(size, vol.g.bytesPerCluster);
    ZeroFileRange(vol, file.first, file.size, size - file.size, longer);
  }

  method LinkAndRecord(vol: Volume, file: Node, size: nat, lastKept: nat, first: nat, ghost longer: seq<nat>)
    returns (ghost data3: map<nat, seq<u8>>)
    requires vol.Valid() && ValidCluster(vol.g, lastKept) && ValidCluster(vol.g, first) && vol.view.fat[lastKept] != 0
    requires IsChain(vol.g, vol.view.fat[lastKept := first], longer) && longer[0] == file.first < FAT_VALUES
    requires FullBlocks(vol.view.data, longer, vol.g.bytesPerCluster)
    requires file.size < size <= SIZE_LIMIT && |longer| == BlocksFor(size, vol.g.bytesPerCluster)
    requires file.entry.Some? && ValidCluster(vol.g, file.entry.value.cluster)
             && file.entry.value.within + 32 <= vol.g.bytesPerCluster
    modifies vol`image, vol`view
    ensures vol.Valid() && (old(vol.Accurate()) ==> vol.Accurate())
    ensures vol.view == View(old(vol.view).fat[lastKept := first], vol.view.data)
    ensures Wrote(old(vol.view).data, data3, longer, vol.g.bytesPerCluster, file.size, Zeros(size - file.size))
    ensures RecordChanged(data3, vol.view.data, file.entry.value, file.first, size)
  {
    LinkAdded(vol, file, size, lastKept, first, longer);
    data3 := vol.view.data;
    WriteMetadata(vol, file.entry.value, file.first, size);
  }

  method TruncateShrink(vol: Volume, file: Node, size: nat, ghost chain: seq<nat>) returns (ghost chain': seq<nat>)
    requires vol.Valid() && FileMatches(vol.g, vol.view, file, chain) && file.entry.Some? && 0 < size < file.size
    requires BlocksFor(size, vol.g.bytesPerCluster) < |chain|
    modifies vol
    ensures vol.Valid() && (old(vol.Accurate()) ==> vol.Accurate())
    ensures Truncated(vol.g, old(vol.view), file, chain, vol.view, file.(size := size), chain', size)
  {
    var n := BlocksFor(size, vol.g.bytesPerCluster);
    ghost var v := vol.view;
    var lastKept := Seek(vol, file.first, n - 1, chain);
    var tail := Advance(vol, lastKept, chain, n - 1);
    CutAfter(vol, file, size, lastKept, n, chain);
    ChainCut(vol.g, v.fat, chain, n);
    Shrunk(vol.g, v, file, chain, n, vol.view.data, size);
    chain' := chain[..n];
    var error := vol.FreeChain(tail, chain[n..]);
  }

  // The last kept cluster ends the chain and the record gets its new size.
  method CutAfter(vol: Volume, file: Node, size: nat, lastKept: nat, ghost n: nat, ghost chain: seq<nat>)
    requires vol.Valid() && FileMatches(vol.g, vol.view, file, chain) && file.entry.Some? && size <= SIZE_LIMIT
    requires 0 < n < |chain| && lastKept == chain[n - 1]
    modifies vol
    ensures vol.Valid() && (old(vol.Accurate()) ==> vol.Accurate())
    ensures vol.view.fat == old(vol.view).fat[lastKept := END_OF_CHAIN]
    ensures RecordChanged(old(vol.view).data, vol.view.data, file.entry.value, file.first, size)
  {
    ghost var v := vol.view;
    ChainInUse(vol.g, v.fat, chain);
    assert lastKept in chain;
    FreeSame(vol.g, v.fat, lastKept, END_OF_CHAIN);
    FirstInRange(vol.g, v, file, chain);
    var error := vol.WriteFatEntry(lastKept, END_OF_CHAIN);
    WriteMetadata(vol, file.entry.value, file.first, size);
  }

  // truncate(): any new size.
  method Truncate(vol: Volume, file: Node, size: nat, ghost chain: seq<nat>)
    returns (error: Error, file': Node, ghost chain': seq<nat>)
    requires vol.Valid() && FileMatches(vol.g, vol.view, file, chain) && size <= SIZE_LIMIT
    modifies vol
    ensures vol.Valid() && (old(vol.Accurate()) ==> vol.Accurate())
    ensures error == InvalidArgument <==> file.entry.None?
    ensures error == NoSpace <==>
              file.entry.Some? && |chain| + |Free(vol.g, old(vol.view).fat)| < BlocksFor(size, vol.g.bytesPerCluster)
    ensures error != NoError && error != InvalidArgument ==> error == NoSpace
    ensures error == NoError ==> Truncated(vol.g, old(vol.view), file, chain, vol.view, file', chain', size)
    ensures error != NoError ==> file' == file && chain' == chain && vol.view.fat == old(vol.view).fat
                                 && KeepsUsed(old(vol.view), vol.view)
  {
    if file.entry.None? {
      return InvalidArgument, file, chain;
    }
    var oldClusters := BlocksFor(file.size, vol.g.bytesPerCluster);
    var newClusters := BlocksFor(size, vol.g.bytesPerCluster);
    BlockOrdering(file.size, size, vol.g.bytesPerCluster);
    BlockOrdering(size, file.size, vol.g.bytesPerCluster);
    assert |chain| == oldClusters;
    if oldClusters == newClusters {
      TruncateSame(vol, file, size, chain);
      return NoError, file.(size := size), chain;
    }
    if newClusters == 0 {
      TruncateToZero(vol, file, chain);
      return NoError, Node(0, 0, file.entry), [];
    }
    if oldClusters == 0 {
      assert chain == [];
      error, file', chain' := TruncateFromZero(vol, file, size);
      return;
    }
    if newClusters > oldClusters {
      error, chain' := TruncateGrow(vol, file, size, chain);
      return error, if error == NoError then file.(size := size) else file, chain';
    }
    chain' := TruncateShrink(vol, file, size, chain);
    return NoError, file.(size := size), chain';
  }

  // ---- Writing ----

  // What a write leaves alone: every cluster in use outside the file, but for
  // the file's own directory record.
  ghost predicate LeftAlone(v: View, v': View, chain: seq<nat>, entry: Option<Place>, first: nat, size: nat) {
    && v.fat.Keys == v.data.Keys == v'.fat.Keys == v'.data.Keys
    && (entry.Some? ==> entry.value.cluster in v.data && entry.value.within + 32 <= |v.data[entry.value.cluster]|)
    && first < FAT_VALUES && size <= SIZE_LIMIT
    && forall c :: c in v.fat && v.fat[c] != 0 && c !in chain ==> Same(v, v', c, entry, first, size)
  }

  ghost predicate Same(v: View, v': View, c: nat, entry: Option<Place>, first: nat, size: nat)
    requires c in v.fat && c in v.data && c in v'.fat && c in v'.data
    requires entry.Some? ==> entry.value.cluster in v.data && entry.value.within + 32 <= |v.data[entry.value.cluster]|
    requires first < FAT_VALUES && size <= SIZE_LIMIT
  {
    && v'.fat[c] == v.fat[c]
    && (v'.data[c] == v.data[c] || (entry.Some? && BlockKept(v.data[c], v'.data[c], c, entry.value, first, size)))
  }

  lemma {:induction false} Overwritten(g: Geometry, v: View, file: Node, chain: seq<nat>, data': map<nat, seq<u8>>,
                                       offset: nat, input: seq<u8>)
    requires FileMatches(g, v, file, chain) && offset + |input| <= file.size
    requires FullBlocks(v.data, chain, g.bytesPerCluster)
             && Wrote(v.data, data', chain, g.bytesPerCluster, offset, input)
    ensures FileMatches(g, v.(data := data'), file, chain)
    ensures Content(g, v.(data := data'), file, chain) == Overlay(Content(g, v, file, chain), offset, input)
  {
    var B, v' := g.bytesPerCluster, v.(data := data');
    WroteComplete(g, v, chain, data', offset, input);
    assert FileMatches(g, v', file, chain);
    ChainFull(g, v, file, chain);
    OverlayPrefix(Flat(v.data, chain, B), file.size, offset, input);
  }

  lemma {:induction false} WroteComplete(g: Geometry, v: View, chain: seq<nat>, data': map<nat, seq<u8>>,
                                         offset: nat, input: seq<u8>)
    requires Complete(g, v) && FullBlocks(v.data, chain, g.bytesPerCluster)
    requires Wrote(v.data, data', chain, g.bytesPerCluster, offset, input)
    ensures Complete(g, v.(data := data'))
  {
  }

  // Bytes replaced inside the file's size.
  method Overwrite(vol: Volume, file: Node, offset: nat, input: seq<u8>, ghost chain: seq<nat>)
    requires vol.Valid() && FileMatches(vol.g, vol.view, file, chain) && input != [] && offset + |input| <= file.size
    modifies vol`image, vol`view
    ensures vol.Valid() && (old(vol.Accurate()) ==> vol.Accurate())
    ensures vol.view.fat == old(vol.view).fat && FileMatches(vol.g, vol.view, file, chain)
    ensures Content(vol.g, vol.view, file, chain) == Overlay(Content(vol.g, old(vol.view), file, chain), offset, input)
    ensures vol.view.data.Keys == old(vol.view).data.Keys
    ensures forall c :: c in old(vol.view).data && c !in chain ==> vol.view.data[c] == old(vol.view).data[c]
  {
    ghost var v := vol.view;
    ChainFull(vol.g, v, file, chain);
    WriteAt(vol, file, offset, input, chain);
    Overwritten(vol.g, v, file, chain, vol.view.data, offset, input);
  }

  method WriteAt(vol: Volume, file: Node, offset: nat, input: seq<u8>, ghost chain: seq<nat>)
    requires vol.Valid() && FileMatches(vol.g, vol.view, file, chain) && input != [] && offset + |input| <= file.size
    requires FullBlocks(vol.view.data, chain, vol.g.bytesPerCluster)
    modifies vol`image, vol`view
    ensures vol.Valid() && vol.view.fat == old(vol.view).fat
    ensures Wrote(old(vol.view).data, vol.view.data, chain, vol.g.bytesPerCluster, offset, input)
  {
    BlocksForSize(file.size, vol.g.bytesPerCluster);
    var skip, within := Split(offset, file.size, vol.g.bytesPerCluster);
    var cluster := Seek(vol, file.first, skip, chain);
    WriteFrom(vol, cluster, within, input, chain, skip);
  }

  lemma {:induction false} WriteAside(v: View, v1: View, v2: View, chain: seq<nat>, chain1: seq<nat>,
                                      entry: Option<Place>, first: nat, size: nat)
    requires LeftAlone(v, v1, chain, entry, first, size) && OwnOrFree(v.fat, chain, chain1)
    requires v2.fat == v1.fat && v2.data.Keys == v1.data.Keys
    requires forall c :: c in v1.data && c !in chain1 ==> v2.data[c] == v1.data[c]
    ensures LeftAlone(v, v2, chain, entry, first, size)
  {
    forall c | c in v.fat && v.fat[c] != 0 && c !in chain ensures Same(v, v2, c, entry, first, size) {
      assert Same(v, v1, c, entry, first, size);
    }
  }

  ghost predicate Written(g: Geometry, v: View, file: Node, chain: seq<nat>, v': View, file': Node, chain': seq<nat>,
                          offset: nat, input: seq<u8>) {
    && FileMatches(g, v, file, chain) && FileMatches(g, v', file', chain') && file'.entry == file.entry
    && Content(g, v', file', chain') == Spliced(Content(g, v, file, chain), offset, input)
    && LeftAlone(v, v', chain, file.entry, file'.first, file'.size)
    && OwnOrFree(v.fat, chain, chain')
  }

  // write(): the file's bytes are the old ones with the input put in place.
  method Write(vol: Volume, file: Node, offset: nat, input: seq<u8>, ghost chain: seq<nat>)
    returns (error: Error, file': Node, ghost chain': seq<nat>)
    requires vol.Valid() && FileMatches(vol.g, vol.view, file, chain)
    modifies vol
    ensures vol.Valid() && (old(vol.Accurate()) ==> vol.Accurate())
    ensures error == InvalidArgument <==>
              offset + |input| > SIZE_LIMIT || (input != [] && offset + |input| > file.size && file.entry.None?)
    ensures error == NoSpace <==>
              && offset + |input| <= SIZE_LIMIT && input != [] && file.entry.Some?
              && |chain| + |Free(vol.g, old(vol.view).fat)| < BlocksFor(offset + |input|, vol.g.bytesPerCluster)
    ensures error != NoError && error != InvalidArgument ==> error == NoSpace
    ensures error == NoError ==> Written(vol.g, old(vol.view), file, chain, vol.view, file', chain', offset, input)
    ensures error != NoError ==> file' == file && chain' == chain && vol.view.fat == old(vol.view).fat
                                 && KeepsUsed(old(vol.view), vol.view)
  {
    file', chain' := file, chain;
    if offset > SIZE_LIMIT || |input| > SIZE_LIMIT - offset {
      return InvalidArgument, file, chain;
    }
    if |input| != 0 && offset + |input| > file.size {
      error, file', chain' := WriteGrowing(vol, file, offset, input, chain);
    } else {
      error := NoError;
      WriteInside(vol, file, offset, input, chain);
    }
  }

  method WriteInside(vol: Volume, file: Node, offset: nat, input: seq<u8>, ghost chain: seq<nat>)
    requires vol.Valid() && FileMatches(vol.g, vol.view, file, chain) && (input == [] || offset + |input| <= file.size)
    modifies vol`image, vol`view
    ensures vol.Valid() && (old(vol.Accurate()) ==> vol.Accurate())
    ensures Written(vol.g, old(vol.view), file, chain, vol.view, file, chain, offset, input)
    ensures input != [] ==> BlocksFor(offset + |input|, vol.g.bytesPerCluster) <= |chain|
  {
    BlockOrdering(file.size, offset + |input|, vol.g.bytesPerCluster);
    if |input| == 0 {
      FirstInRange(vol.g, vol.view, file, chain);
    } else {
      assert Resized(Content(vol.g, vol.view, file, chain), file.size) == Content(vol.g, vol.view, file, chain);
      FinishWrite(vol, file, offset, input, chain, vol.view, file, chain);
    }
  }

  method WriteGrowing(vol: Volume, file: Node, offset: nat, input: seq<u8>, ghost chain: seq<nat>)
    returns (error: Error, file': Node, ghost chain': seq<nat>)
    requires vol.Valid() && FileMatches(vol.g, vol.view, file, chain)
    requires input != [] && file.size < offset + |input| <= SIZE_LIMIT
    modifies vol
    ensures vol.Valid() && (old(vol.Accurate()) ==> vol.Accurate())
    ensures error == InvalidArgument <==> file.entry.None?
    ensures error == NoSpace <==>
              && file.entry.Some?
              && |chain| + |Free(vol.g, old(vol.view).fat)| < BlocksFor(offset + |input|, vol.g.bytesPerCluster)
    ensures error == NoError || error == InvalidArgument || error == NoSpace
    ensures error == NoError ==> Written(vol.g, old(vol.view), file, chain, vol.view, file', chain', offset, input)
    ensures error != NoError ==> file' == file && chain' == chain && vol.view.fat == old(vol.view).fat
                                 && KeepsUsed(old(vol.view), vol.view)
  {
    error, file', chain' := Truncate(vol, file, offset + |input|, chain);
    if error == NoError {
      FinishWrite(vol, file', offset, input, chain', old(vol.view), file, chain);
    }
  }

  // The second half of a write, after the file has its size.
  method FinishWrite(vol: Volume, file': Node, offset: nat, input: seq<u8>, ghost chain': seq<nat>, ghost v: View,
                     ghost file: Node, ghost chain: seq<nat>)
    requires vol.Valid() && FileMatches(vol.g, vol.view, file', chain') && input != []
    requires file'.size == Max(file.size, offset + |input|) && file'.entry == file.entry
    requires FileMatches(vol.g, v, file, chain) && OwnOrFree(v.fat, chain, chain')
    requires Content(vol.g, vol.view, file', chain') == Resized(Content(vol.g, v, file, chain), file'.size)
    requires vol.view == v || (file.entry.Some?
                               && OthersKept(v, vol.view, chain, file.entry.value, file'.first, file'.size))
    modifies vol`image, vol`view
    ensures vol.Valid() && (old(vol.Accurate()) ==> vol.Accurate()) && vol.view.fat == old(vol.view).fat
    ensures Written(vol.g, v, file, chain, vol.view, file', chain', offset, input)
  {
    ghost var v1 := vol.view;
    FirstInRange(vol.g, v1, file', chain');
    KeptIsAlone(vol.g, v, v1, file, chain, file'.first, file'.size);
    Overwrite(vol, file', offset, input, chain');
    WriteAside(v, v1, vol.view, chain, chain', file.entry, file'.first, file'.size);
  }

  lemma {:induction false} KeptIsAlone(g: Geometry, v: View, v1: View, file: Node, chain: seq<nat>, first: nat,
                                       size: nat)
    requires FileMatches(g, v, file, chain) && first < FAT_VALUES && size <= SIZE_LIMIT
    requires v1 == v || (file.entry.Some? && OthersKept(v, v1, chain, file.entry.value, first, size))
    ensures LeftAlone(v, v1, chain, file.entry, first, size)
  {
  }

  // Any other file, its clusters and its directory record elsewhere, is as it
  // was.
  lemma {:induction false} OtherFileKept(g: Geometry, v: View, v': View, file: Node, chain: seq<nat>, first: nat,
                                         size: nat, other: Node, clusters: seq<nat>)
    requires Complete(g, v) && LeftAlone(v, v', chain, file.entry, first, size)
    requires FileMatches(g, v, other, clusters)
    requires forall c :: c in clusters ==> c !in chain
    requires other.entry.Some? ==> other.entry.value.cluster !in chain
    requires file.entry.Some? ==> file.entry.value.cluster !in clusters
                                  && (other.entry.Some? ==> Separate(file.entry.value, other.entry.value))
    requires Complete(g, v')
    ensures FileMatches(g, v', other, clusters)
    ensures Content(g, v', other, clusters) == Content(g, v, other, clusters)
  {
    if clusters != [] {
      ChainInUse(g, v.fat, clusters);
      forall i | 0 <= i < |clusters| ensures v'.fat[clusters[i]] == v.fat[clusters[i]]
        && v'.data[clusters[i]] == v.data[clusters[i]] {
        assert clusters[i] in clusters;
        assert Same(v, v', clusters[i], file.entry, first, size);
      }
      ChainSame(g, v.fat, v'.fat, clusters);
    }
    ChainFull(g, v, other, clusters);
    FlatSame(v.data, v'.data, clusters, g.bytesPerCluster);
    if other.entry.Some? {
      RecordKept(v, v', file.entry, first, size, other.entry.value);
    }
  }

  predicate Separate(a: Place, b: Place) {
    a.cluster != b.cluster || a.within + 32 <= b.within || b.within + 32 <= a.within
  }

  lemma {:induction false} ChainSame(g: Geometry, fat: map<nat, nat>, fat': map<nat, nat>, chain: seq<nat>)
    requires IsChain(g, fat, chain) && forall i :: 0 <= i < |chain| ==>
               chain[i] in fat' && fat'[chain[i]] == fat[chain[i]]
    ensures IsChain(g, fat', chain)
  {
    forall i | 0 <= i < |chain| - 1 ensures Follows(fat', chain, i) {
      assert Follows(fat, chain, i);
    }
  }

  lemma {:induction false} RecordKept(v: View, v': View, entry: Option<Place>, first: nat, size: nat, other: Place)
    requires other.cluster in v.fat && other.cluster in v.data && other.cluster in v'.fat && other.cluster in v'.data
    requires entry.Some? ==> entry.value.cluster in v.data && entry.value.within + 32 <= |v.data[entry.value.cluster]|
    requires entry.Some? ==> Separate(entry.value, other)
    requires first < FAT_VALUES && size <= SIZE_LIMIT && other.within + 32 <= |v.data[other.cluster]|
    requires Same(v, v', other.cluster, entry, first, size)
    ensures |v'.data[other.cluster]| == |v.data[other.cluster]|
    ensures RecordFirst(v'.data[other.cluster], other.within) == RecordFirst(v.data[other.cluster], other.within)
    ensures RecordSize(v'.data[other.cluster], other.within) == RecordSize(v.data[other.cluster], other.within)
  {
    var c := other.cluster;
    if v'.data[c] != v.data[c] {
      assert RewrittenFrom(v.data[c], v'.data[c], entry.value.within, first, size);
    }
  }

  // ---- Whole runs ----

  // An operation that fails leaves the file as it was.
  lemma {:induction false} FailureKeeps(g: Geometry, v: View, v': View, file: Node, chain: seq<nat>)
    requires FileMatches(g, v, file, chain) && v'.fat == v.fat && KeepsUsed(v, v') && Complete(g, v')
    ensures FileMatches(g, v', file, chain) && Content(g, v', file, chain) == Content(g, v, file, chain)
  {
    if chain != [] {
      ChainInUse(g, v.fat, chain);
    }
    ChainFull(g, v, file, chain);
    FlatSame(v.data, v'.data, chain, g.bytesPerCluster);
  }

  // Nothing in use was lost to the operation, outside the file's own clusters
  // and its own directory record.
  ghost predicate Spared(v: View, v': View, file: Node, chain: seq<nat>, file': Node, chain': seq<nat>) {
    && file'.entry == file.entry && OwnOrFree(v.fat, chain, chain')
    && (LeftAlone(v, v', chain, file.entry, file'.first, file'.size) || (v'.fat == v.fat && KeepsUsed(v, v')))
  }

  method Perform(vol: Volume, file: Node, op: Operation, ghost chain: seq<nat>)
    returns (outcome: Outcome, file': Node, ghost chain': seq<nat>)
    requires vol.Valid() && FileMatches(vol.g, vol.view, file, chain)
    modifies vol
    ensures old(vol.Accurate()) ==> vol.Accurate()
    ensures vol.Valid() && FileMatches(vol.g, vol.view, file', chain')
            && Spared(old(vol.view), vol.view, file, chain, file', chain')
    ensures Plausible(Content(vol.g, old(vol.view), file, chain), op, outcome)
    ensures Content(vol.g, vol.view, file', chain') == Applied(Content(vol.g, old(vol.view), file, chain), op, outcome)
  {
    match op
    case WriteAt(offset, input) =>
      outcome, file', chain' := PerformWrite(vol, file, offset, input, chain);
    case TruncateTo(size) =>
      outcome, file', chain' := PerformTruncate(vol, file, size, chain);
    case ReadAt(from, count) =>
      var bytes := Read(vol, file, from, count, chain);
      return Got(bytes), file, chain;
  }

  method PerformWrite(vol: Volume, file: Node, offset: nat, input: seq<u8>, ghost chain: seq<nat>)
    returns (outcome: Outcome, file': Node, ghost chain': seq<nat>)
    requires vol.Valid() && FileMatches(vol.g, vol.view, file, chain)
    modifies vol
    ensures old(vol.Accurate()) ==> vol.Accurate()
    ensures vol.Valid() && FileMatches(vol.g, vol.view, file', chain') && (outcome == Done || outcome == Failed)
    ensures Spared(old(vol.view), vol.view, file, chain, file', chain')
    ensures var s := Content(vol.g, old(vol.view), file, chain);
            Content(vol.g, vol.view, file', chain') == if outcome.Failed? then s else Spliced(s, offset, input)
  {
    ghost var v := vol.view;
    var error;
    error, file', chain' := Write(vol, file, offset, input, chain);
    outcome := if error == NoError then Done else Failed;
    if error != NoError {
      FailureKeeps(vol.g, v, vol.view, file, chain);
    }
  }

  method PerformTruncate(vol: Volume, file: Node, size: u32, ghost chain: seq<nat>)
    returns (outcome: Outcome, file': Node, ghost chain': seq<nat>)
    requires vol.Valid() && FileMatches(vol.g, vol.view, file, chain)
    modifies vol
    ensures old(vol.Accurate()) ==> vol.Accurate()
    ensures vol.Valid() && FileMatches(vol.g, vol.view, file', chain') && (outcome == Done || outcome == Failed)
    ensures Spared(old(vol.view), vol.view, file, chain, file', chain')
    ensures var s := Content(vol.g, old(vol.view), file, chain);
            Content(vol.g, vol.view, file', chain') == if outcome.Failed? then s else Resized(s, size)
  {
    ghost var v := vol.view;
    var error;
    error, file', chain' := Truncate(vol, file, size, chain);
    outcome := if error == NoError then Done else Failed;
    if error != NoError {
      FailureKeeps(vol.g, v, vol.view, file, chain);
    } else {
      KeptIsAlone(vol.g, v, vol.view, file, chain, file'.first, file'.size);
    }
  }

  // ---- Several files on one volume ----

  // Two open files share no cluster, and neither holds the other's directory
  // record.
  ghost predicate Aside(a: Node, chain: seq<nat>, b: Node, clusters: seq<nat>) {
    && (forall c :: c in clusters ==> c !in chain)
    && (a.entry.Some? ==> a.entry.value.cluster !in clusters) && (b.entry.Some? ==> b.entry.value.cluster !in chain)
    && (a.entry.Some? && b.entry.Some? ==> Separate(a.entry.value, b.entry.value))
  }

  ghost predicate Together(g: Geometry, v: View, files: seq<Node>, chains: seq<seq<nat>>) {
    && |files| == |chains|
    && (forall i :: 0 <= i < |files| ==> FileMatches(g, v, files[i], chains[i]))
    && (forall i, j :: 0 <= i < |files| && 0 <= j < |files| && i != j ==>
          Aside(files[i], chains[i], files[j], chains[j]))
  }

  ghost function Contents(g: Geometry, v: View, files: seq<Node>, chains: seq<seq<nat>>): (r: seq<seq<u8>>)
    requires Together(g, v, files, chains)
    ensures |r| == |files| && forall i :: 0 <= i < |files| ==> r[i] == Content(g, v, files[i], chains[i])
  {
    seq(|files|, i requires 0 <= i < |files| => Content(g, v, files[i], chains[i]))
  }

  // An operation on one file keeps another one, its contents and its distance.
  lemma {:induction false} SparedOther(g: Geometry, v: View, v': View, file: Node, chain: seq<nat>, file': Node,
                                       chain': seq<nat>,
                                       other: Node, clusters: seq<nat>)
    requires FileMatches(g, v, file, chain) && FileMatches(g, v, other, clusters) && FileMatches(g, v', file', chain')
    requires Spared(v, v', file, chain, file', chain') && Aside(file, chain, other, clusters)
    ensures FileMatches(g, v', other, clusters) && Content(g, v', other, clusters) == Content(g, v, other, clusters)
    ensures Aside(file', chain', other, clusters) && Aside(other, clusters, file', chain')
  {
    if LeftAlone(v, v', chain, file.entry, file'.first, file'.size) {
      OtherFileKept(g, v, v', file, chain, file'.first, file'.size, other, clusters);
    } else {
      FailureKeeps(g, v, v', other, clusters);
    }
    if clusters != [] {
      ChainInUse(g, v.fat, clusters);
    }
  }

  lemma {:induction false} TogetherStep(g: Geometry, v: View, v': View, files: seq<Node>, chains: seq<seq<nat>>, k: nat,
                                        file': Node, chain': seq<nat>)
    requires Together(g, v, files, chains) && k < |files| && FileMatches(g, v', file', chain')
    requires Spared(v, v', files[k], chains[k], file', chain')
    ensures Together(g, v', files[k := file'], chains[k := chain'])
    ensures Contents(g, v', files[k := file'], chains[k := chain'])
            == Contents(g, v, files, chains)[k := Content(g, v', file', chain')]
  {
    var files', chains' := files[k := file'], chains[k := chain'];
    forall i | 0 <= i < |files| && i != k
      ensures FileMatches(g, v', files'[i], chains'[i])
              && Content(g, v', files'[i], chains'[i]) == Content(g, v, files[i], chains[i])
      ensures Aside(files'[k], chains'[k], files'[i], chains'[i]) && Aside(files'[i], chains'[i], files'[k], chains'[k])
    {
      SparedOther(g, v, v', files[k], chains[k], file', chain', files[i], chains[i]);
    }
    forall i, j | 0 <= i < |files'| && 0 <= j < |files'|
      && i != j ensures Aside(files'[i], chains'[i], files'[j], chains'[j]) {
      if i != k && j != k {
        assert Aside(files[i], chains[i], files[j], chains[j]);
      }
    }
  }

  method RunStep(vol: Volume, files: seq<Node>, call: Call, ghost chains: seq<seq<nat>>)
    returns (outcome: Outcome, files': seq<Node>, ghost chains': seq<seq<nat>>)
    requires vol.Valid() && Together(vol.g, vol.view, files, chains)
    modifies vol
    ensures old(vol.Accurate()) ==> vol.Accurate()
    ensures vol.Valid() && Together(vol.g, vol.view, files', chains')
    ensures PlausibleFor(Contents(vol.g, old(vol.view), files, chains), call, outcome)
    ensures Contents(vol.g, vol.view, files', chains')
            == AppliedTo(Contents(vol.g, old(vol.view), files, chains), call, outcome)
  {
    if call.file >= |files| {
      return Failed, files, chains;
    }
    ghost var v := vol.view;
    var file';
    ghost var chain';
    outcome, file', chain' := Perform(vol, files[call.file], call.op, chains[call.file]);
    TogetherStep(vol.g, v, vol.view, files, chains, call.file, file', chain');
    files', chains' := files[call.file := file'], chains[call.file := chain'];
  }

  // Any run of reads, writes and truncations over any number of files on one
  // volume, some of which may fail for want of space, behaves like the same run
  // on plain byte sequences: each file holds its own bytes, whatever is done to
  // the others.
  method Run(vol: Volume, files: seq<Node>, calls: seq<Call>, ghost chains: seq<seq<nat>>)
    returns (outcomes: seq<Outcome>, files': seq<Node>, ghost chains': seq<seq<nat>>)
    requires vol.Valid() && Together(vol.g, vol.view, files, chains)
    modifies vol
    ensures old(vol.Accurate()) ==> vol.Accurate()
    ensures vol.Valid() && Together(vol.g, vol.view, files', chains') && |outcomes| == |calls|
    ensures Contents(vol.g, vol.view, files', chains')
            == Replay(Contents(vol.g, old(vol.view), files, chains), calls, outcomes)
    ensures forall i :: 0 <= i < |calls| ==>
              PlausibleAt(Contents(vol.g, old(vol.view), files, chains), calls, outcomes, i)
  {
    ghost var start := Contents(vol.g, vol.view, files, chains);
    outcomes, files', chains' := [], files, chains;
    for i := 0 to |calls|
      invariant vol.Valid() && Together(vol.g, vol.view, files', chains') && |outcomes| == i
      invariant old(vol.Accurate()) ==> vol.Accurate()
      invariant Contents(vol.g, vol.view, files', chains') == Replay(start, calls[..i], outcomes)
      invariant forall k :: 0 <= k < i ==> PlausibleAt(start, calls[..i], outcomes, k)
    {
      var outcome;
      ghost var before := outcomes;
      outcome, files', chains' := RunStep(vol, files', calls[i], chains');
      outcomes := outcomes + [outcome];
      ReplayStep(start, calls, before, i, outcome, calls[..i + 1], outcomes);
    }
    assert calls[..|calls|] == calls;
  }
}
