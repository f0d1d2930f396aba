/**
 The FAT32 volume as bytes on a device (drivers/fs/fat32/fat32.hpp): where the
 allocation tables and the clusters lie, and what reading and writing one table
 entry or part of one cluster does to everything else.
 */
module Fat32Disk {
  import opened Machine
  import opened Bytes

  const FAT_MASK := 0x0fff_ffff
  const BAD_CLUSTER := 0x0fff_fff7
  const END_OF_CHAIN := 0x0fff_fff8
  const RESERVED_CLUSTER := 0x0fff_fff0
  const FAT_VALUES := 0x1000_0000

  datatype Geometry = Geometry(
    bytesPerSector: nat,
    sectorsPerCluster: nat,
    bytesPerCluster: nat,
    reservedSectors: nat,
    fatSectors: nat,
    fatCount: nat,
    activeFat: nat,
    firstDataSector: nat,
    clusterCount: nat,
    mirrorFats: bool)

  // The sizes mount() has checked: the tables hold an entry for every cluster
  // and the data area fits on the device.
  ghost predicate Fits(g: Geometry, size: nat) {
    && g.bytesPerCluster == g.bytesPerSector * g.sectorsPerCluster
    && g.firstDataSector == g.reservedSectors + g.fatCount * g.fatSectors
    && (g.clusterCount + 2) * 4 <= g.fatSectors * g.bytesPerSector
    && (g.firstDataSector + g.clusterCount * g.sectorsPerCluster) * g.bytesPerSector <= size
  }

  // What mount() has checked before any other operation runs. The products are
  // behind a quantifier so that a proof unfolds them only by naming Fits.
  ghost predicate Mounted(g: Geometry, image: seq<u8>) {
    && 512 <= g.bytesPerSector && 0 < g.sectorsPerCluster && 0 < g.bytesPerCluster
    && 0 < g.reservedSectors && 0 < g.fatSectors && g.activeFat < g.fatCount
    && 0 < g.clusterCount <= RESERVED_CLUSTER - 2
    && forall size: nat :: size == |image| ==> Fits(g, size)
  }

  predicate ValidCluster(g: Geometry, c: int) {
    2 <= c <= g.clusterCount + 1
  }

  function FatOffset(g: Geometry, fat: nat, c: nat): nat {
    (g.reservedSectors + fat * g.fatSectors) * g.bytesPerSector + c * 4
  }

  function ClusterOffset(g: Geometry, c: nat): nat
    requires 2 <= c
  {
    (g.firstDataSector + (c - 2) * g.sectorsPerCluster) * g.bytesPerSector
  }

  // ---- Layout ----

  // Tables follow each other and end where the data area begins.
  lemma {:induction false} FatRegion(g: Geometry, image: seq<u8>, fat: nat, c: nat)
    requires Mounted(g, image) && fat < g.fatCount && ValidCluster(g, c)
    ensures FatOffset(g, fat, c) + 4 <= FatOffset(g, fat + 1, 0) <= g.firstDataSector * g.bytesPerSector <= |image|
  {
    assert Fits(g, |image|);
    var s := g.reservedSectors + fat * g.fatSectors;
    assert g.reservedSectors + (fat + 1) * g.fatSectors == s + g.fatSectors;
    assert (s + g.fatSectors) * g.bytesPerSector == s * g.bytesPerSector + g.fatSectors * g.bytesPerSector;
    MulMono(fat + 1, g.fatCount, g.fatSectors);
    MulMono(s + g.fatSectors, g.firstDataSector, g.bytesPerSector);
    MulMono(g.firstDataSector, g.firstDataSector + g.clusterCount * g.sectorsPerCluster, g.bytesPerSector);
  }

  lemma {:induction false} FatOrder(g: Geometry, fat: nat, fat': nat)
    requires fat < fat'
    ensures FatOffset(g, fat + 1, 0) <= FatOffset(g, fat', 0)
  {
    MulMono(fat + 1, fat', g.fatSectors);
    MulMono(g.reservedSectors + (fat + 1) * g.fatSectors, g.reservedSectors + fat' * g.fatSectors, g.bytesPerSector);
  }

  // Words of the tables never overlap.
  lemma {:induction false} FatDisjoint(g: Geometry, image: seq<u8>, fat: nat, c: nat, fat': nat, c': nat)
    requires Mounted(g, image) && fat < g.fatCount && fat' < g.fatCount && ValidCluster(g, c) && ValidCluster(g, c')
    requires fat != fat' || c != c'
    ensures FatOffset(g, fat, c) + 4 <= FatOffset(g, fat', c') || FatOffset(g, fat', c') + 4 <= FatOffset(g, fat, c)
  {
    FatRegion(g, image, fat, c);
    FatRegion(g, image, fat', c');
    if fat < fat' {
      FatOrder(g, fat, fat');
    } else if fat' < fat {
      FatOrder(g, fat', fat);
    }
  }

  lemma {:induction false} SectorRow(first: nat, k: nat, count: nat, per: nat, bytes: nat, size: nat)
    requires k < count && (first + count * per) * bytes <= size
    ensures first * bytes <= (first + k * per) * bytes
    ensures (first + k * per) * bytes + bytes * per == (first + (k + 1) * per) * bytes <= size
  {
    var s := k * per;
    assert s >= 0;
    assert (k + 1) * per == s + per;
    MulMono(first, first + s, bytes);
    MulMono(k + 1, count, per);
    MulMono(first + (s + per), first + count * per, bytes);
  }

  // Clusters follow each other in the data area.
  lemma {:induction false} ClusterRegion(g: Geometry, image: seq<u8>, c: nat)
    requires Mounted(g, image) && ValidCluster(g, c)
    ensures g.firstDataSector * g.bytesPerSector <= ClusterOffset(g, c)
            && ClusterOffset(g, c) + g.bytesPerCluster <= |image|
    ensures ClusterOffset(g, c) + g.bytesPerCluster == ClusterOffset(g, c + 1)
  {
    assert Fits(g, |image|);
    SectorRow(g.firstDataSector, c - 2, g.clusterCount, g.sectorsPerCluster, g.bytesPerSector, |image|);
  }

  lemma {:induction false} ClusterOrder(g: Geometry, image: seq<u8>, c: nat, d: nat)
    requires Mounted(g, image) && ValidCluster(g, c) && ValidCluster(g, d) && c < d
    ensures ClusterOffset(g, c) + g.bytesPerCluster <= ClusterOffset(g, d)
  {
    ClusterRegion(g, image, c);
    MulMono(c - 1, d - 2, g.sectorsPerCluster);
    MulMono(g.firstDataSector + (c - 1) * g.sectorsPerCluster, g.firstDataSector + (d - 2) * g.sectorsPerCluster,
            g.bytesPerSector);
  }

  // ---- The logical view of the bytes ----

  ghost function RawEntry(g: Geometry, image: seq<u8>, fat: nat, c: nat): u32
    requires Mounted(g, image) && fat < g.fatCount && ValidCluster(g, c)
  {
    FatRegion(g, image, fat, c);
    Little32(image, FatOffset(g, fat, c))
  }

  ghost function Cluster(g: Geometry, image: seq<u8>, c: nat): (s: seq<u8>)
    requires Mounted(g, image) && ValidCluster(g, c)
    ensures |s| == g.bytesPerCluster
  {
    ClusterRegion(g, image, c);
    image[ClusterOffset(g, c)..ClusterOffset(g, c) + g.bytesPerCluster]
  }

  // The 28-bit entries of the active table and the contents of every cluster.
  datatype View = View(fat: map<nat, nat>, data: map<nat, seq<u8>>)

  // One cluster of the view is what the bytes say.
  ghost predicate Cell(g: Geometry, image: seq<u8>, v: View, c: nat)
    requires Mounted(g, image) && ValidCluster(g, c)
  {
    && c in v.fat && v.fat[c] == RawEntry(g, image, g.activeFat, c) % FAT_VALUES
    && c in v.data && v.data[c] == Cluster(g, image, c)
  }

  ghost predicate Represents(g: Geometry, image: seq<u8>, v: View)
    requires Mounted(g, image)
  {
    && v.fat.Keys == v.data.Keys == Range(2, g.clusterCount + 2)
    && forall c: nat {:trigger Cell(g, image, v, c)} :: ValidCluster(g, c) ==> Cell(g, image, v, c)
  }

  // With mirroring on, all tables agree in their low 28 bits.
  ghost predicate Mirrored(g: Geometry, image: seq<u8>)
    requires Mounted(g, image)
  {
    g.mirrorFats ==>
      forall fat: nat, c: nat :: fat < g.fatCount && ValidCluster(g, c) ==>
        RawEntry(g, image, fat, c) % FAT_VALUES == RawEntry(g, image, g.activeFat, c) % FAT_VALUES
  }

  lemma {:induction false} EntryWritten(g: Geometry, image: seq<u8>, fat: nat, c: nat, stored: u32)
    requires Mounted(g, image) && fat < g.fatCount && ValidCluster(g, c)
    ensures FatOffset(g, fat, c) + 4 <= |image|
    ensures var image' := Overlay(image, FatOffset(g, fat, c), Bytes32(stored));
            && Mounted(g, image')
            && (forall k: nat, d: nat :: k < g.fatCount && ValidCluster(g, d) ==>
                  RawEntry(g, image', k, d) == if k == fat && d == c then stored else RawEntry(g, image, k, d))
            && (forall d: nat :: ValidCluster(g, d) ==> Cluster(g, image', d) == Cluster(g, image, d))
  {
    FatRegion(g, image, fat, c);
    var at := FatOffset(g, fat, c);
    var image' := Overlay(image, at, Bytes32(stored));
    forall k: nat, d: nat | k < g.fatCount && ValidCluster(g, d)
      ensures RawEntry(g, image', k, d) == if k == fat && d == c then stored else RawEntry(g, image, k, d)
    {
      FatRegion(g, image, k, d);
      if k == fat && d == c {
        assert Little32(image', at) == Little32(image'[at..at + 4], 0);
      } else {
        FatDisjoint(g, image, fat, c, k, d);
      }
    }
    forall d: nat | ValidCluster(g, d) ensures Cluster(g, image', d) == Cluster(g, image, d) {
      ClusterRegion(g, image, d);
      OverlayElsewhere(image, at, Bytes32(stored), ClusterOffset(g, d), ClusterOffset(g, d) + g.bytesPerCluster);
    }
  }

  lemma {:induction false} ClusterWritten(g: Geometry, image: seq<u8>, c: nat, within: nat, data: seq<u8>, d: nat)
    requires Mounted(g, image) && ValidCluster(g, c) && ValidCluster(g, d) && within + |data| <= g.bytesPerCluster
    ensures ClusterOffset(g, c) + within + |data| <= |image|
    ensures var image' := Overlay(image, ClusterOffset(g, c) + within, data);
            Cluster(g, image', d) == if d == c then Overlay(Cluster(g, image, c), within, data)
              else Cluster(g, image, d)
  {
    ClusterRegion(g, image, c);
    if d == c {
      OverlayInside(image, ClusterOffset(g, c) + within, data, ClusterOffset(g, c),
                    ClusterOffset(g, c) + g.bytesPerCluster);
    } else {
      OtherCluster(g, image, c, within, data, d);
    }
  }

  lemma {:induction false} OtherCluster(g: Geometry, image: seq<u8>, c: nat, within: nat, data: seq<u8>, d: nat)
    requires Mounted(g, image) && ValidCluster(g, c) && ValidCluster(g, d) && within + |data| <= g.bytesPerCluster
             && d != c
    requires ClusterOffset(g, c) + within + |data| <= |image|
    ensures Cluster(g, Overlay(image, ClusterOffset(g, c) + within, data), d) == Cluster(g, image, d)
  {
    ClusterRegion(g, image, d);
    if c < d {
      ClusterOrder(g, image, c, d);
    } else {
      ClusterOrder(g, image, d, c);
    }
    OverlayElsewhere(image, ClusterOffset(g, c) + within, data, ClusterOffset(g, d),
                     ClusterOffset(g, d) + g.bytesPerCluster);
  }

  lemma {:induction false} WordKept(g: Geometry, image: seq<u8>, at: nat, data: seq<u8>, k: nat, d: nat)
    requires Mounted(g, image) && k < g.fatCount && ValidCluster(g, d)
    requires g.firstDataSector * g.bytesPerSector <= at && at + |data| <= |image|
    ensures RawEntry(g, Overlay(image, at, data), k, d) == RawEntry(g, image, k, d)
  {
    FatRegion(g, image, k, d);
  }

  lemma {:induction false} DataWritten(g: Geometry, image: seq<u8>, c: nat, within: nat, data: seq<u8>)
    requires Mounted(g, image) && ValidCluster(g, c) && within + |data| <= g.bytesPerCluster
    ensures ClusterOffset(g, c) + within + |data| <= |image|
    ensures var image' := Overlay(image, ClusterOffset(g, c) + within, data);
            && SameWords(g, image, image')
            && (forall d: nat :: ValidCluster(g, d) ==>
                  Cluster(g, image', d) == if d == c then Overlay(Cluster(g, image, c), within, data)
                    else Cluster(g, image, d))
  {
    ClusterRegion(g, image, c);
    var at := ClusterOffset(g, c) + within;
    var image' := Overlay(image, at, data);
    forall k: nat, d: nat | k < g.fatCount && ValidCluster(g, d) ensures RawEntry(g, image', k, d)
      == RawEntry(g, image, k, d) {
      WordKept(g, image, at, data, k, d);
    }
    forall d: nat | ValidCluster(g, d)
      ensures Cluster(g, image', d) == if d == c then Overlay(Cluster(g, image, c), within, data)
              else Cluster(g, image, d)
    {
      ClusterWritten(g, image, c, within, data, d);
    }
  }

  // Reading through the view.
  lemma {:induction false} ViewReads(g: Geometry, image: seq<u8>, v: View, c: nat)
    requires Mounted(g, image) && ValidCluster(g, c) && Represents(g, image, v)
    ensures FatOffset(g, g.activeFat, c) + 4 <= |image|
    ensures c in v.fat && v.fat[c] == Little32(image, FatOffset(g, g.activeFat, c)) % FAT_VALUES
    ensures ClusterOffset(g, c) + g.bytesPerCluster <= |image|
    ensures c in v.data && v.data[c] == image[ClusterOffset(g, c)..ClusterOffset(g, c) + g.bytesPerCluster]
  {
    assert Cell(g, image, v, c);
    FatRegion(g, image, g.activeFat, c);
    ClusterRegion(g, image, c);
  }

  ghost predicate SameWords(g: Geometry, image: seq<u8>, image': seq<u8>)
    requires Mounted(g, image) && Mounted(g, image')
  {
    forall k: nat, d: nat :: k < g.fatCount && ValidCluster(g, d) ==>
      RawEntry(g, image', k, d) == RawEntry(g, image, k, d)
  }

  // Writing part of a cluster changes that cluster of the view and nothing else.
  lemma {:induction false} ViewDataWritten(g: Geometry, image: seq<u8>, v: View, c: nat, within: nat, data: seq<u8>)
    requires Mounted(g, image) && ValidCluster(g, c) && within + |data| <= g.bytesPerCluster && Represents(g, image, v)
    ensures ClusterOffset(g, c) + within + |data| <= |image|
    ensures c in v.data && |v.data[c]| == g.bytesPerCluster
    ensures var image' := Overlay(image, ClusterOffset(g, c) + within, data);
            && Mounted(g, image')
            && (Mirrored(g, image) ==> Mirrored(g, image'))
            && Represents(g, image', v.(data := v.data[c := Overlay(v.data[c], within, data)]))
  {
    assert Cell(g, image, v, c);
    DataWritten(g, image, c, within, data);
    var image' := Overlay(image, ClusterOffset(g, c) + within, data);
    var v' := v.(data := v.data[c := Overlay(v.data[c], within, data)]);
    forall d: nat | ValidCluster(g, d) ensures Cell(g, image', v', d) {
      assert Cell(g, image, v, d);
    }
  }

  // (old & 0xf0000000) | value
  function Replaced(word: u32, value: nat): (r: u32)
    requires value <= FAT_MASK
    ensures r % FAT_VALUES == value && r / FAT_VALUES == word / FAT_VALUES
  {
    word / FAT_VALUES * FAT_VALUES + value
  }

  // Tables first to fat - 1 have the new value for cluster c, nothing else changed.
  ghost predicate Updating(g: Geometry, image: seq<u8>, image': seq<u8>, first: nat, fat: nat, c: nat, value: nat)
    requires Mounted(g, image) && Mounted(g, image') && value <= FAT_MASK
  {
    && (forall k: nat, d: nat :: k < g.fatCount && ValidCluster(g, d) ==>
          RawEntry(g, image', k, d) == if first <= k < fat && d == c then Replaced(RawEntry(g, image, k, d), value)
                                       else RawEntry(g, image, k, d))
    && (forall d: nat :: ValidCluster(g, d) ==> Cluster(g, image', d) == Cluster(g, image, d))
  }

  // The copies that a write goes to.
  function FirstCopy(g: Geometry): nat {
    if g.mirrorFats then 0 else g.activeFat
  }

  function CopyLimit(g: Geometry): nat {
    if g.mirrorFats then g.fatCount else g.activeFat + 1
  }

  // The byte belongs to the word of cluster c in one of the copies.
  ghost predicate InWord(g: Geometry, first: nat, limit: nat, c: nat, o: nat) {
    exists fat: nat :: first <= fat < limit && WordHolds(FatOffset(g, fat, c), o)
  }

  predicate WordHolds(at: nat, o: nat) {
    at <= o < at + 4
  }

  // No byte differs outside the words of cluster c in these copies.
  ghost predicate OnlyWords(g: Geometry, image: seq<u8>, image': seq<u8>, first: nat, limit: nat, c: nat) {
    |image'| == |image| && forall o :: 0 <= o < |image| ==> InWord(g, first, limit, c, o) || image'[o] == image[o]
  }

  lemma {:induction false} OnlyStep(g: Geometry, image: seq<u8>, image': seq<u8>, first: nat, fat: nat, c: nat,
                                    word: seq<u8>)
    requires OnlyWords(g, image, image', first, fat, c) && first <= fat
    requires |word| == 4 && FatOffset(g, fat, c) + 4 <= |image|
    ensures OnlyWords(g, image, Overlay(image', FatOffset(g, fat, c), word), first, fat + 1, c)
  {
    var at := FatOffset(g, fat, c);
    var after := Overlay(image', at, word);
    forall o | 0 <= o < |image| ensures InWord(g, first, fat + 1, c, o) || after[o] == image[o] {
      if InWord(g, first, fat, c, o) {
        var f: nat :| first <= f < fat && WordHolds(FatOffset(g, f, c), o);
        assert WordHolds(FatOffset(g, f, c), o);
      } else if WordHolds(at, o) {
        assert InWord(g, first, fat + 1, c, o);
      }
    }
  }

  lemma {:induction false} UpdateStep(g: Geometry, image: seq<u8>, image': seq<u8>, first: nat, fat: nat, c: nat,
                                      value: nat)
    requires Mounted(g, image) && Mounted(g, image') && value <= FAT_MASK
    requires first <= fat < g.fatCount && ValidCluster(g, c)
    requires Updating(g, image, image', first, fat, c, value)
    ensures var stored := Replaced(RawEntry(g, image', fat, c), value);
            && FatOffset(g, fat, c) + 4 <= |image'|
            && var r := Overlay(image', FatOffset(g, fat, c), Bytes32(stored));
            && Mounted(g, r) && Updating(g, image, r, first, fat + 1, c, value)
  {
    EntryWritten(g, image', fat, c, Replaced(RawEntry(g, image', fat, c), value));
  }

  lemma {:induction false} UpdateDone(g: Geometry, image: seq<u8>, v: View, image': seq<u8>, first: nat, fat: nat,
                                      c: nat, value: nat)
    requires Mounted(g, image) && Mounted(g, image') && value <= FAT_MASK && Represents(g, image, v)
    requires first <= g.activeFat < fat && ValidCluster(g, c)
    requires g.mirrorFats ==> first == 0 && fat == g.fatCount
    requires Updating(g, image, image', first, fat, c, value)
    ensures Mirrored(g, image) ==> Mirrored(g, image')
    ensures Represents(g, image', v.(fat := v.fat[c := value]))
    ensures KeepsUpperBits(g, image, image')
  {
    var v' := v.(fat := v.fat[c := value]);
    assert Cell(g, image, v, c);
    forall d: nat | ValidCluster(g, d) ensures Cell(g, image', v', d) {
      assert Cell(g, image, v, d);
    }
  }

  ghost predicate KeepsUpperBits(g: Geometry, image: seq<u8>, image': seq<u8>)
    requires Mounted(g, image) && Mounted(g, image')
  {
    forall k: nat, d: nat :: k < g.fatCount && ValidCluster(g, d) ==>
      RawEntry(g, image', k, d) / FAT_VALUES == RawEntry(g, image, k, d) / FAT_VALUES
  }

  // A view has an entry and a full cluster for every cluster number.
  ghost predicate Complete(g: Geometry, v: View) {
    && v.fat.Keys == v.data.Keys == Range(2, g.clusterCount + 2)
    && forall c :: c in v.data ==> |v.data[c]| == g.bytesPerCluster
  }

  lemma {:induction false} ViewComplete(g: Geometry, image: seq<u8>, v: View)
    requires Mounted(g, image) && Represents(g, image, v)
    ensures Complete(g, v)
  {
    forall c | c in v.data ensures |v.data[c]| == g.bytesPerCluster {
      assert Cell(g, image, v, c);
    }
  }

  // Sectors of a cluster, in bytes.
  lemma {:induction false} SectorStep(g: Geometry, image: seq<u8>, sector: nat)
    requires Mounted(g, image)
    ensures sector < g.sectorsPerCluster ==>
              sector * g.bytesPerSector + g.bytesPerSector == (sector + 1) * g.bytesPerSector <= g.bytesPerCluster
    ensures g.sectorsPerCluster * g.bytesPerSector == g.bytesPerCluster
  {
    assert Fits(g, |image|);
    if sector < g.sectorsPerCluster {
      MulMono(sector + 1, g.sectorsPerCluster, g.bytesPerSector);
    }
  }
}
