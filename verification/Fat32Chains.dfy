/**
 Cluster allocation on a FAT32 volume: single entries, chains, the free-cluster
 counter and the allocation hint. Device calls succeed.
 */
module Fat32Chains {
  import opened Machine
  import opened Bytes
  import opened Blocks
  import opened Fat32Disk

  datatype Error = NoError | InvalidArgument | Corrupt | NoSpace | Loop

  datatype Link = End | Next(cluster: nat) | Broken

  // ---- Chains ----

  // An acyclic chain of valid clusters closed by an end marker.
  ghost predicate IsChain(g: Geometry, fat: map<nat, nat>, chain: seq<nat>) {
    && chain != []
    && (forall i :: 0 <= i < |chain| ==> ValidCluster(g, chain[i]) && chain[i] in fat)
    && Distinct(chain)
    && (forall i :: 0 <= i < |chain| - 1 ==> Follows(fat, chain, i))
    && fat[chain[|chain| - 1]] >= END_OF_CHAIN
  }

  ghost predicate Follows(fat: map<nat, nat>, chain: seq<nat>, i: nat)
    requires i + 1 < |chain|
  {
    chain[i] in fat && fat[chain[i]] == chain[i + 1]
  }

  ghost function Free(g: Geometry, fat: map<nat, nat>): set<nat> {
    set c: nat | 2 <= c <= g.clusterCount + 1 && c in fat && fat[c] == 0
  }

  // The table after every cluster of a chain is released.
  ghost function Freed(fat: map<nat, nat>, chain: seq<nat>): map<nat, nat> {
    map c | c in fat :: if c in chain then 0 else fat[c]
  }

  // A chain is no longer than the volume, so the traversal bound never cuts it.
  lemma {:induction false} ChainBound(g: Geometry, chain: seq<nat>)
    requires Distinct(chain) && forall i :: 0 <= i < |chain| ==> ValidCluster(g, chain[i])
    ensures |chain| <= g.clusterCount
  {
    DistinctSize(chain);
    SubsetSize(Clusters(chain), Range(2, g.clusterCount + 2));
  }

  // Taking and giving back one cluster moves the free count by one.
  lemma {:induction false} FreeTaken(g: Geometry, fat: map<nat, nat>, c: nat, value: nat)
    requires c in Free(g, fat) && value != 0
    ensures |Free(g, fat[c := value])| == |Free(g, fat)| - 1
  {
    assert Free(g, fat[c := value]) == Free(g, fat) - {c};
  }

  lemma {:induction false} FreeGiven(g: Geometry, fat: map<nat, nat>, c: nat)
    requires ValidCluster(g, c) && c in fat && fat[c] != 0
    ensures |Free(g, fat[c := 0])| == |Free(g, fat)| + 1 <= g.clusterCount
  {
    var after := Free(g, fat[c := 0]);
    assert after == Free(g, fat) + {c};
    SubsetSize(after, Range(2, g.clusterCount + 2));
  }

  // Distance in the cyclic scan that starts at `start`.
  function ScanDistance(g: Geometry, start: nat, c: nat): int {
    if start <= c then c - start else c - start + g.clusterCount
  }

  function Successor(g: Geometry, c: nat): nat {
    if c == g.clusterCount + 1 then 2 else c + 1
  }

  // The view after one free cluster is taken.
  ghost function Taken(g: Geometry, v: View, c: nat): View {
    View(v.fat[c := END_OF_CHAIN], v.data[c := Zeros(g.bytesPerCluster)])
  }

  // From view v, the clusters of `chain` were taken, cleared and linked, and
  // nothing else happened.
  ghost predicate Grown(g: Geometry, v: View, r: View, chain: seq<nat>) {
    && r.fat.Keys == v.fat.Keys && r.data.Keys == v.data.Keys && v.fat.Keys == v.data.Keys
    && (forall i :: 0 <= i < |chain| ==> chain[i] in Free(g, v.fat) && r.data[chain[i]] == Zeros(g.bytesPerCluster))
    && (chain != [] ==> IsChain(g, r.fat, chain))
    && (forall c :: c in v.fat && c !in chain ==> r.fat[c] == v.fat[c] && r.data[c] == v.data[c])
  }

  // Clusters that were in use keep their contents.
  ghost predicate KeepsUsed(v: View, r: View) {
    && v.fat.Keys == v.data.Keys == r.data.Keys
    && forall c :: c in v.fat && v.fat[c] != 0 ==> r.data[c] == v.data[c]
  }

  ghost function LinkedAfter(g: Geometry, v: View, last: nat, c: nat): View {
    var t := Taken(g, v, c);
    if last == 0 then t else t.(fat := t.fat[last := c])
  }

  ghost function Last(chain: seq<nat>): nat {
    if chain == [] then 0 else chain[|chain| - 1]
  }

  ghost function First(chain: seq<nat>): nat {
    if chain == [] then 0 else chain[0]
  }

  lemma {:induction false} GrownLast(g: Geometry, v: View, r: View, chain: seq<nat>)
    requires Grown(g, v, r, chain)
    ensures chain != [] ==> ValidCluster(g, Last(chain)) && Last(chain) in r.fat && r.fat[Last(chain)] != 0
  {
  }

  lemma {:induction false} ChainInUse(g: Geometry, fat: map<nat, nat>, chain: seq<nat>)
    requires IsChain(g, fat, chain)
    ensures forall c :: c in chain ==> c in fat && fat[c] != 0
  {
    forall i | 0 <= i < |chain| ensures fat[chain[i]] != 0 {
      if i < |chain| - 1 {
        assert Follows(fat, chain, i) && ValidCluster(g, chain[i + 1]);
      }
    }
  }

  lemma {:induction false} GrownStep(g: Geometry, v: View, r: View, chain: seq<nat>, c: nat)
    requires Grown(g, v, r, chain) && c in Free(g, r.fat)
    ensures c !in chain && c in v.fat && v.fat[c] == 0
    ensures Grown(g, v, LinkedAfter(g, r, Last(chain), c), chain + [c])
  {
    if chain != [] {
      ChainInUse(g, r.fat, chain);
    }
    ChainExtended(g, r.fat, chain, c);
  }

  // A new last cluster extends a chain.
  lemma {:induction false} ChainExtended(g: Geometry, fat: map<nat, nat>, chain: seq<nat>, c: nat)
    requires chain != [] ==> IsChain(g, fat, chain)
    requires ValidCluster(g, c) && c !in chain
    ensures var taken := fat[c := END_OF_CHAIN];
            IsChain(g, if chain == [] then taken else taken[chain[|chain| - 1] := c], chain + [c])
  {
    DistinctAppend(chain, c);
    var chain' := chain + [c];
    var n := |chain|;
    var fat' := if chain == [] then fat[c := END_OF_CHAIN] else fat[c := END_OF_CHAIN][chain[n - 1] := c];
    forall i | 0 <= i < n ensures Follows(fat', chain', i) {
      if i < n - 1 {
        assert Differ(chain, i, n - 1);
        assert Follows(fat, chain, i);
      }
    }
  }

  lemma {:induction false} GrownUndone(g: Geometry, v: View, r: View, chain: seq<nat>)
    requires Grown(g, v, r, chain)
    ensures Freed(r.fat, chain) == v.fat
    ensures KeepsUsed(v, r)
    ensures |Free(g, r.fat)| == |Free(g, v.fat)| - |chain|
  {
    GrownCount(g, v, r, chain);
    assert forall c :: c in chain ==> c in v.fat && v.fat[c] == 0;
  }

  // Growing a chain by n clusters uses n free ones.
  lemma {:induction false} GrownCount(g: Geometry, v: View, r: View, chain: seq<nat>)
    requires Grown(g, v, r, chain)
    ensures |Free(g, r.fat)| == |Free(g, v.fat)| - |chain|
  {
    DistinctSize(chain);
    var before, after, used := Free(g, v.fat), Free(g, r.fat), Clusters(chain);
    assert used <= before;
    assert after == before - used by {
      if chain != [] {
        ChainInUse(g, r.fat, chain);
      }
    }
  }

  // Relinking a used cluster changes no free entry.
  lemma {:induction false} FreeSame(g: Geometry, fat: map<nat, nat>, c: nat, value: nat)
    requires c in fat && fat[c] != 0 && value != 0
    ensures Free(g, fat[c := value]) == Free(g, fat)
  {
  }

  // Walking a chain whose first clusters were released already.
  lemma {:induction false} ChainPosition(g: Geometry, fat: map<nat, nat>, chain: seq<nat>, i: nat)
    requires IsChain(g, fat, chain) && i < |chain| && g.clusterCount <= RESERVED_CLUSTER - 2
    ensures var released := Freed(fat, chain[..i]);
            && chain[i] in released && released[chain[i]] == fat[chain[i]] != 0
            && released[chain[i] := 0] == Freed(fat, chain[..i + 1])
    ensures if i == |chain| - 1 then fat[chain[i]] >= END_OF_CHAIN
            else fat[chain[i]] == chain[i + 1] && 2 <= chain[i + 1] < RESERVED_CLUSTER && ValidCluster(g, chain[i + 1])
  {
    DistinctPrefix(chain, i);
    assert chain[..i + 1] == chain[..i] + [chain[i]];
    var released := Freed(fat, chain[..i]);
    assert released[chain[i] := 0].Keys == fat.Keys;
    assert released[chain[i] := 0] == Freed(fat, chain[..i + 1]);
    if i < |chain| - 1 {
      assert Follows(fat, chain, i) && ValidCluster(g, chain[i + 1]);
    }
  }

  class Volume {
    const g: Geometry
    var image: seq<u8>
    var hint: nat
    var freeKnown: bool
    var freeClusters: nat
    ghost var view: View

    // The bytes of the device are well laid out and say what `view` says.
    ghost predicate Valid()
      reads this
    {
      && Mounted(g, image) && Mirrored(g, image)
      && Represents(g, image, view) && Complete(g, view)
    }

    constructor (g: Geometry, image: seq<u8>, ghost view: View)
      requires Mounted(g, image) && Mirrored(g, image) && Represents(g, image, view)
      ensures Valid() && this.g == g && this.image == image && this.view == view && hint == 2 && !freeKnown
    {
      ViewComplete(g, image, view);
      this.g, this.image, this.view, hint, freeKnown, freeClusters := g, image, view, 2, false, 0;
    }

    method FatEntry(c: nat) returns (r: Option<nat>)
      requires Valid()
      ensures r == if ValidCluster(g, c) then Some(view.fat[c]) else None
    {
      if !ValidCluster(g, c) {
        return None;
      }
      ViewReads(g, image, view, c);
      return Some(Little32(image, FatOffset(g, g.activeFat, c)) % FAT_VALUES);
    }

    // Follows one link: the end marker, a usable cluster, or a broken chain.
    method NextCluster(c: nat) returns (link: Link)
      requires Valid()
      ensures link == if ValidCluster(g, c) then LinkOf(g, view.fat[c]) else Broken
    {
      var value := FatEntry(c);
      if value.None? {
        return Broken;
      }
      if value.value >= END_OF_CHAIN {
        return End;
      }
      if value.value == 0 || value.value == 1 || value.value == BAD_CLUSTER || value.value >= RESERVED_CLUSTER
         || !ValidCluster(g, value.value) {
        return Broken;
      }
      return Next(value.value);
    }

    // The new value goes to every mirrored table (or the active one only); the
    // upper four bits of each word and all other words and clusters stay.
    method WriteFatEntry(c: nat, value: nat) returns (error: Error)
      requires Valid() && value <= FAT_MASK
      modifies this`image, this`view
      ensures Valid()
      ensures !ValidCluster(g, c) ==> error == Corrupt && image == old(image) && view == old(view)
      ensures ValidCluster(g, c) ==> error == NoError && view == old(view).(fat := old(view).fat[c := value])
      ensures KeepsUpperBits(g, old(image), image)
      ensures OnlyWords(g, old(image), image, FirstCopy(g), CopyLimit(g), c)
    {
      if !ValidCluster(g, c) {
        return Corrupt;
      }
      var first, limit := FirstCopy(g), CopyLimit(g);
      var fat, bytes := first, image;
      while fat < limit
        invariant first <= fat <= limit <= g.fatCount
        invariant image == old(image) && view == old(view)
        invariant Mounted(g, bytes) && Updating(g, image, bytes, first, fat, c, value)
        invariant OnlyWords(g, image, bytes, first, fat, c)
      {
        FatRegion(g, bytes, fat, c);
        var offset := FatOffset(g, fat, c);
        var stored := Replaced(Little32(bytes, offset), value);
        UpdateStep(g, image, bytes, first, fat, c, value);
        OnlyStep(g, image, bytes, first, fat, c, Bytes32(stored));
        bytes := Overlay(bytes, offset, Bytes32(stored));
        fat := fat + 1;
      }
      UpdateDone(g, image, view, bytes, first, fat, c, value);
      image := bytes;
      view := view.(fat := view.fat[c := value]);
      ViewComplete(g, image, view);
      error := NoError;
    }

    method ReadCluster(c: nat, within: nat, count: nat) returns (data: seq<u8>)
      requires Valid() && ValidCluster(g, c) && within + count <= g.bytesPerCluster
      ensures data == view.data[c][within..within + count]
    {
      ViewReads(g, image, view, c);
      var at := ClusterOffset(g, c);
      SliceOfSlice(image, at, at + g.bytesPerCluster, within, count);
      data := image[at + within..at + within + count];
    }

    method WriteCluster(c: nat, within: nat, data: seq<u8>)
      requires Valid() && ValidCluster(g, c) && within + |data| <= g.bytesPerCluster
      modifies this`image, this`view
      ensures Valid()
      ensures view == old(view).(data := old(view).data[c := Overlay(old(view).data[c], within, data)])
    {
      ViewDataWritten(g, image, view, c, within, data);
      image := Overlay(image, ClusterOffset(g, c) + within, data);
      view := view.(data := view.data[c := Overlay(view.data[c], within, data)]);
      ViewComplete(g, image, view);
    }

    // The counter, when it is kept, equals the number of free entries.
    ghost predicate Accurate()
      reads this
    {
      freeKnown ==> freeClusters == |Free(g, view.fat)|
    }

    // The sector-by-sector clearing of a new cluster.
    method ZeroSector(c: nat, within: nat, ghost v: View)
      requires Valid() && ValidCluster(g, c) && within + g.bytesPerSector <= g.bytesPerCluster
      requires c in v.data && |v.data[c]| == g.bytesPerCluster
               && view == v.(data := v.data[c := Overlay(v.data[c], 0, Zeros(within))])
      modifies this`image, this`view
      ensures Valid() && view == v.(data := v.data[c := Overlay(v.data[c], 0, Zeros(within + g.bytesPerSector))])
    {
      ZerosGrow(v.data[c], 0, within, g.bytesPerSector);
      WriteCluster(c, within, Zeros(g.bytesPerSector));
    }

    method ZeroCluster(c: nat)
      requires Valid() && ValidCluster(g, c)
      modifies this`image, this`view
      ensures Valid()
      ensures view == old(view).(data := old(view).data[c := Zeros(g.bytesPerCluster)])
    {
      ghost var v := view;
      var sector, within := 0, 0;
      while sector < g.sectorsPerCluster
        invariant Valid() && 0 <= sector <= g.sectorsPerCluster
        invariant within == sector * g.bytesPerSector && within <= g.bytesPerCluster
        invariant view == v.(data := v.data[c := Overlay(v.data[c], 0, Zeros(within))])
      {
        SectorStep(g, image, sector);
        ZeroSector(c, within, v);
        sector, within := sector + 1, within + g.bytesPerSector;
      }
      SectorStep(g, image, sector);
      assert Overlay(v.data[c], 0, Zeros(g.bytesPerCluster)) == Zeros(g.bytesPerCluster);
    }

    // The first free cluster of the cyclic scan from the hint, marked as the end
    // of a chain and cleared; fails only when no cluster is free.
    method AllocateCluster() returns (r: Option<nat>)
      requires Valid()
      modifies this
      ensures Valid() && freeKnown == old(freeKnown)
      ensures r.None? <==> Free(g, old(view).fat) == {}
      ensures r.None? ==> view == old(view) && freeClusters == old(freeClusters)
      ensures r.Some? ==> r.value in Free(g, old(view).fat) && view == Taken(g, old(view), r.value)
                          && hint == Successor(g, r.value)
      ensures r.Some? ==>
                var start := if ValidCluster(g, old(hint)) then old(hint) else 2;
                forall d :: d in Free(g, old(view).fat) ==> ScanDistance(g, start, r.value) <= ScanDistance(g, start, d)
      ensures old(Accurate()) ==> Accurate()
    {
      var candidate := hint;
      if !ValidCluster(g, candidate) {
        candidate := 2;
      }
      ghost var start := candidate;
      var scanned := 0;
      while scanned < g.clusterCount
        invariant Valid() && view == old(view) && freeKnown == old(freeKnown) && freeClusters == old(freeClusters)
        invariant 0 <= scanned <= g.clusterCount && ValidCluster(g, candidate)
        invariant scanned < g.clusterCount ==> ScanDistance(g, start, candidate) == scanned
        invariant forall d :: d in Free(g, view.fat) ==> scanned <= ScanDistance(g, start, d)
      {
        var value := FatEntry(candidate);
        if value == Some(0) {
          Take(candidate);
          return Some(candidate);
        }
        candidate := if candidate == g.clusterCount + 1 then 2 else candidate + 1;
        scanned := scanned + 1;
      }
      return None;
    }

    // Marks, clears and counts one free cluster.
    method Take(c: nat)
      requires Valid() && c in Free(g, view.fat)
      modifies this
      ensures Valid() && freeKnown == old(freeKnown)
      ensures view == Taken(g, old(view), c) && hint == Successor(g, c)
      ensures old(Accurate()) ==> Accurate()
    {
      FreeTaken(g, view.fat, c, END_OF_CHAIN);
      var error := WriteFatEntry(c, END_OF_CHAIN);
      ZeroCluster(c);
      hint := if c == g.clusterCount + 1 then 2 else c + 1;
      if freeKnown && freeClusters != 0 {
        freeClusters := freeClusters - 1;
      }
    }

    // Releases every cluster of a chain and no other.
    method FreeChain(first: nat, ghost chain: seq<nat>) returns (error: Error)
      requires Valid()
      requires if first == 0 then chain == [] else IsChain(g, view.fat, chain) && chain[0] == first
      modifies this
      ensures Valid() && freeKnown == old(freeKnown)
      ensures error == NoError
      ensures view == old(view).(fat := Freed(old(view).fat, chain))
      ensures old(Accurate()) ==> Accurate()
    {
      if first == 0 {
        assert Freed(view.fat, []) == view.fat;
        return NoError;
      }
      ChainBound(g, chain);
      var cluster, traversed := first, 0;
      while traversed < g.clusterCount
        invariant Valid() && freeKnown == old(freeKnown)
        invariant 0 <= traversed < |chain| && cluster == chain[traversed]
        invariant view == old(view).(fat := Freed(old(view).fat, chain[..traversed]))
        invariant old(Accurate()) ==> Accurate()
      {
        var next := ReleaseNext(cluster, old(view), chain, traversed);
        if next >= END_OF_CHAIN {
          assert chain[..traversed + 1] == chain;
          return NoError;
        }
        if next == 0 || next == 1 || next == BAD_CLUSTER || next >= RESERVED_CLUSTER || !ValidCluster(g, next) {
          return Corrupt;
        }
        cluster := next;
        traversed := traversed + 1;
      }
      return Loop;
    }

    // One step along a chain that is being released.
    method ReleaseNext(c: nat, ghost v: View, ghost chain: seq<nat>, ghost i: nat) returns (next: nat)
      requires Valid() && IsChain(g, v.fat, chain) && i < |chain| && c == chain[i]
               && view == v.(fat := Freed(v.fat, chain[..i]))
      modifies this
      ensures Valid() && freeKnown == old(freeKnown) && view == v.(fat := Freed(v.fat, chain[..i + 1]))
      ensures if i == |chain| - 1 then next >= END_OF_CHAIN
              else next == chain[i + 1] && 2 <= next < RESERVED_CLUSTER && ValidCluster(g, next)
      ensures old(Accurate()) ==> Accurate()
    {
      ChainPosition(g, v.fat, chain, i);
      var value := FatEntry(c);
      next := value.value;
      ReleaseOne(c);
    }

    method ReleaseOne(c: nat)
      requires Valid() && ValidCluster(g, c) && view.fat[c] != 0
      modifies this
      ensures Valid() && freeKnown == old(freeKnown)
      ensures view == old(view).(fat := old(view).fat[c := 0])
      ensures old(Accurate()) ==> Accurate()
    {
      FreeGiven(g, view.fat, c);
      var error := WriteFatEntry(c, 0);
      if freeKnown && freeClusters < g.clusterCount {
        freeClusters := freeClusters + 1;
      }
      if c < hint {
        hint := c;
      }
    }

    method LinkLast(last: nat, next: nat)
      requires Valid() && ValidCluster(g, last) && ValidCluster(g, next) && view.fat[last] != 0
      modifies this`image, this`view
      ensures Valid()
      ensures view == old(view).(fat := old(view).fat[last := next])
      ensures old(Accurate()) ==> Accurate()
    {
      FreeSame(g, view.fat, last, next);
      var error := WriteFatEntry(last, next);
    }

    // Takes a free cluster and, unless it is the first, links it behind `last`.
    method AddLink(last: nat) returns (added: Option<nat>)
      requires Valid()
      requires last != 0 ==> ValidCluster(g, last) && view.fat[last] != 0
      modifies this
      ensures Valid() && freeKnown == old(freeKnown)
      ensures added.None? <==> Free(g, old(view).fat) == {}
      ensures added.None? ==> view == old(view)
      ensures added.Some? ==> added.value in Free(g, old(view).fat)
                              && view == LinkedAfter(g, old(view), last, added.value)
      ensures old(Accurate()) ==> Accurate()
    {
      added := AllocateCluster();
      if added.Some? && last != 0 {
        LinkLast(last, added.value);
      }
    }

    // One more cluster for a chain that is being built from view v.
    method Extend(last: nat, ghost v: View, ghost chain: seq<nat>) returns (added: Option<nat>, ghost longer: seq<nat>)
      requires Valid() && Grown(g, v, view, chain) && last == Last(chain)
      modifies this
      ensures Valid() && freeKnown == old(freeKnown)
      ensures added.None? ==> Free(g, view.fat) == {} && Grown(g, v, view, chain)
      ensures added.Some? ==>
                && |longer| == |chain| + 1 && Last(longer) == added.value
                && First(longer) == (if First(chain) == 0 then added.value else First(chain))
                && Grown(g, v, view, longer)
      ensures old(Accurate()) ==> Accurate()
    {
      GrownLast(g, v, view, chain);
      added := AddLink(last);
      longer := chain;
      if added.Some? {
        longer := chain + [added.value];
        GrownStep(g, v, old(view), chain, added.value);
      }
    }

    // Releases a half-built chain.
    method GiveUp(first: nat, ghost v: View, ghost chain: seq<nat>)
      requires Valid() && Grown(g, v, view, chain) && first == First(chain)
      requires Free(g, view.fat) == {}
      modifies this
      ensures Valid() && freeKnown == old(freeKnown)
      ensures view.fat == v.fat && KeepsUsed(v, view)
      ensures |Free(g, v.fat)| == |chain|
      ensures old(Accurate()) ==> Accurate()
    {
      GrownUndone(g, v, view, chain);
      var error := FreeChain(first, chain);
    }

    // A chain of exactly `count` new, cleared clusters. When space runs out on
    // the way, every entry gets its old value back.
    method AllocateChain(count: nat) returns (error: Error, first: nat, last: nat, ghost chain: seq<nat>)
      requires Valid()
      modifies this
      ensures Valid() && freeKnown == old(freeKnown)
      ensures error == NoError || error == NoSpace
      ensures error == NoSpace <==> |Free(g, old(view).fat)| < count
      ensures error == NoError ==>
                && |chain| == count && Grown(g, old(view), view, chain)
                && last == Last(chain) && first == (if count == 0 then 0 else chain[0])
      ensures error == NoSpace ==> view.fat == old(view).fat && KeepsUsed(old(view), view)
      ensures old(Accurate()) ==> Accurate()
    {
      var built;
      built, first, last, chain := BuildChain(count);
      GrownCount(g, old(view), view, chain);
      if built < count {
        GiveUp(first, old(view), chain);
        return NoSpace, first, last, chain;
      }
      error := NoError;
    }

    // The loop of allocate_chain: as many new clusters as there are, up to `count`.
    method BuildChain(count: nat) returns (built: nat, first: nat, last: nat, ghost chain: seq<nat>)
      requires Valid()
      modifies this
      ensures Valid() && freeKnown == old(freeKnown)
      ensures built <= count && |chain| == built && (built < count ==> Free(g, view.fat) == {})
      ensures Grown(g, old(view), view, chain)
      ensures last == Last(chain) && first == First(chain)
      ensures old(Accurate()) ==> Accurate()
    {
      first, last, chain, built := 0, 0, [], 0;
      while built < count
        invariant Valid() && freeKnown == old(freeKnown)
        invariant 0 <= built <= count && |chain| == built
        invariant Grown(g, old(view), view, chain)
        invariant last == Last(chain) && first == First(chain)
        invariant old(Accurate()) ==> Accurate()
      {
        ghost var longer;
        var added;
        added, longer := Extend(last, old(view), chain);
        if added.None? {
          return;
        }
        first := if first == 0 then added.value else first;
        last := added.value;
        chain := longer;
        built := built + 1;
      }
    }
  }

  // next_cluster's reading of a 28-bit entry.
  function LinkOf(g: Geometry, value: nat): Link {
    if value >= END_OF_CHAIN then End
    else if value == BAD_CLUSTER || value >= RESERVED_CLUSTER || !ValidCluster(g, value) then Broken
    else Next(value)
  }
}
