/**
 Blocks of an ext4 volume: the bitmap of every group, the free counts, and the
 allocation and release of single blocks.

 The device is kept in parts that never overlap: the superblock, the table of
 group descriptors, the bitmap blocks and all blocks that hold no metadata.
 */
module Ext4Volume {
  import opened Machine
  import opened Bytes
  import opened Blocks
  import opened Ext4Extents
  import opened Ext4Bitmaps

  // ---- Counting free blocks ----

  function FreeIn(used: seq<bool>, lo: nat, hi: nat): (n: nat)
    requires lo <= hi <= |used|
    decreases hi
  {
    if lo == hi then 0 else FreeIn(used, lo, hi - 1) + if used[hi - 1] then 0 else 1
  }

  lemma {:induction false} FreeInSet(used: seq<bool>, lo: nat, hi: nat, k: nat, value: bool)
    requires lo <= hi <= |used| && k < |used| && used[k] != value
    ensures FreeIn(used[k := value], lo, hi)
         == FreeIn(used, lo, hi) + if lo <= k < hi then (if value then -1 else 1) else 0
    decreases hi
  {
    if lo < hi {
      FreeInSet(used, lo, hi - 1, k, value);
    }
  }

  lemma {:induction false} FreeBound(used: seq<bool>, lo: nat, hi: nat)
    requires lo <= hi <= |used|
    ensures FreeIn(used, lo, hi) <= hi - lo
    decreases hi
  {
    if lo < hi {
      FreeBound(used, lo, hi - 1);
    }
  }

  lemma {:induction false} NoneFree(used: seq<bool>, lo: nat, hi: nat)
    requires lo <= hi <= |used|
    ensures FreeIn(used, lo, hi) == 0 <==> forall i :: lo <= i < hi ==> used[i]
    decreases hi
  {
    if lo < hi {
      NoneFree(used, lo, hi - 1);
    }
  }

  ghost function GroupEnd(perGroup: nat, g: nat, n: nat): nat {
    Min(Origin(perGroup, g + 1), n)
  }

  // Every group's count is the number of clear bits in its bitmap.
  ghost predicate Counted(perGroup: nat, used: seq<bool>, groupFree: seq<nat>) {
    && 0 < perGroup && |groupFree| == BlocksFor(|used|, perGroup)
    && forall g :: 0 <= g < |groupFree| ==> GroupCounted(perGroup, used, groupFree, g)
  }

  ghost predicate GroupCounted(perGroup: nat, used: seq<bool>, groupFree: seq<nat>, g: nat)
    requires g < |groupFree|
  {
    && Origin(perGroup, g) <= GroupEnd(perGroup, g, |used|)
    && groupFree[g] == FreeIn(used, Origin(perGroup, g), GroupEnd(perGroup, g, |used|))
  }

  lemma {:induction false} QuotientBelow(k: nat, n: nat, p: nat)
    requires 0 < p && k < n
    ensures Quotient(k, p) < BlocksFor(n, p)
  {
    BlocksForSize(n, p);
    QuotientAt(k, p, Quotient(k, p));
    if BlocksFor(n, p) < Quotient(k, p) {
      OriginOrder(p, BlocksFor(n, p), Quotient(k, p));
    }
  }

  lemma {:induction false} CountSet(perGroup: nat, used: seq<bool>, groupFree: seq<nat>, k: nat, value: bool)
    requires Counted(perGroup, used, groupFree) && k < |used| && used[k] != value
    ensures var g := Quotient(k, perGroup);
            && g < |groupFree|
            && (value ==> groupFree[g] > 0 && Counted(perGroup, used[k := value], groupFree[g := groupFree[g] - 1]))
            && (!value ==> Counted(perGroup, used[k := value], groupFree[g := groupFree[g] + 1]))
  {
    var g, n := Quotient(k, perGroup), |used|;
    QuotientBelow(k, n, perGroup);
    QuotientAt(k, perGroup, g);
    assert GroupCounted(perGroup, used, groupFree, g);
    FreeInSet(used, Origin(perGroup, g), GroupEnd(perGroup, g, n), k, value);
    if value {
      CountOthers(perGroup, used, groupFree, k, value, groupFree[g] - 1);
    } else {
      CountOthers(perGroup, used, groupFree, k, value, groupFree[g] + 1);
    }
  }

  lemma {:induction false} CountOthers(perGroup: nat, used: seq<bool>, groupFree: seq<nat>, k: nat, value: bool,
                                       count: nat)
    requires Counted(perGroup, used, groupFree) && k < |used| && used[k] != value && Quotient(k, perGroup) < |groupFree|
    requires GroupCounted(perGroup, used[k := value], groupFree[Quotient(k, perGroup) := count], Quotient(k, perGroup))
    ensures Counted(perGroup, used[k := value], groupFree[Quotient(k, perGroup) := count])
  {
    var g, n := Quotient(k, perGroup), |used|;
    var used', groupFree' := used[k := value], groupFree[g := count];
    forall h | 0 <= h < |groupFree'| ensures GroupCounted(perGroup, used', groupFree', h) {
      if h != g {
        assert GroupCounted(perGroup, used, groupFree, h);
        QuotientAt(k, perGroup, h);
        FreeInSet(used, Origin(perGroup, h), GroupEnd(perGroup, h, n), k, value);
      }
    }
  }

  // ---- The volume ----

  datatype Layout = Layout(blockSize: nat, blockCount: nat, firstData: nat, perGroup: nat, reserved: set<nat>,
                           format: Descriptors, inodeTableBlocks: nat)

  // Which blocks are in use, from the first data block on, and the contents of
  // the blocks that hold no metadata.
  datatype Disk = Disk(used: seq<bool>, data: map<nat, seq<u8>>)

  ghost predicate Formatted(l: Layout, d: Disk) {
    && 1024 <= l.blockSize <= 4096 && l.firstData < l.blockCount <= PHYSICAL_LIMIT
    && |d.used| == l.blockCount - l.firstData
    && l.firstData in l.reserved
    && (forall b :: b in l.reserved ==> InUse(l, d, b))
    && d.data.Keys == Range(0, l.blockCount) - l.reserved
    && (forall b :: b in d.data ==> |d.data[b]| == l.blockSize)
  }

  predicate InUse(l: Layout, d: Disk, b: nat) {
    l.firstData <= b && b - l.firstData < |d.used| && d.used[b - l.firstData]
  }

  // ---- The bytes behind the view ----

  ghost function Described(l: Layout, table: seq<u8>, groups: nat, g: nat): Descriptor
    requires Table(l.format, table, groups) && g < groups
  {
    DescriptorFits(l.format, table, groups, g);
    DescriptorAt(l.format, table, Origin(l.format.size, g))
  }

  // release_block refuses the blocks that a group's descriptor names.
  predicate Protected(l: Layout, d: Descriptor, block: nat) {
    block == d.blockBitmap || block == d.inodeBitmap || d.inodeTable <= block < d.inodeTable + l.inodeTableBlocks
  }

  ghost predicate GroupBooked(l: Layout, table: seq<u8>, bitmaps: map<nat, seq<u8>>, groupFree: seq<nat>, g: nat)
    requires Table(l.format, table, |groupFree|) && g < |groupFree|
  {
    var d := Described(l, table, |groupFree|, g);
    && d.free == groupFree[g]
    && ValidBlock(d.blockBitmap, l.blockCount) && ValidBlock(d.inodeBitmap, l.blockCount)
       && ValidBlock(d.inodeTable, l.blockCount)
    && d.blockBitmap in bitmaps && |bitmaps[d.blockBitmap]| == l.blockSize
    && forall b :: Protected(l, d, b) ==> b in l.reserved
  }

  ghost predicate OwnBitmap(l: Layout, table: seq<u8>, groups: nat, g: nat, h: nat)
    requires Table(l.format, table, groups) && g < groups && h < groups
  {
    Described(l, table, groups, g).blockBitmap != Described(l, table, groups, h).blockBitmap
  }

  // The bit of a group's bitmap block.
  ghost predicate BitIs(l: Layout, table: seq<u8>, groups: nat, bitmaps: map<nat, seq<u8>>, g: nat, bit: nat,
                        value: bool)
    requires Table(l.format, table, groups)
  {
    && g < groups
    && var bitmap := Described(l, table, groups, g).blockBitmap;
    && bitmap in bitmaps && bit / 8 < |bitmaps[bitmap]|
    && (value <==> BitAt(bitmaps[bitmap], bit))
  }

  ghost predicate BitBooked(l: Layout, table: seq<u8>, groups: nat, bitmaps: map<nat, seq<u8>>, used: seq<bool>, k: nat)
    requires Table(l.format, table, groups) && 0 < l.perGroup && k < |used|
  {
    BitIs(l, table, groups, bitmaps, Quotient(k, l.perGroup), Remainder(k, l.perGroup), used[k])
  }

  ghost predicate GroupsBooked(l: Layout, table: seq<u8>, bitmaps: map<nat, seq<u8>>, groupFree: seq<nat>) {
    && Table(l.format, table, |groupFree|)
    && (forall g :: 0 <= g < |groupFree| ==> GroupBooked(l, table, bitmaps, groupFree, g))
    && (forall g, h :: 0 <= g < |groupFree| && 0 <= h < |groupFree| && g != h ==>
          OwnBitmap(l, table, |groupFree|, g, h))
  }

  ghost predicate BitsBooked(l: Layout, table: seq<u8>, groups: nat, bitmaps: map<nat, seq<u8>>, used: seq<bool>) {
    && Table(l.format, table, groups) && 0 < l.perGroup
    && forall k :: 0 <= k < |used| ==> BitBooked(l, table, groups, bitmaps, used, k)
  }

  // The bytes of the metadata say what the view and the counters say. The
  // details are behind a quantifier so that a proof unfolds them only by naming
  // BookedIn.
  ghost predicate Booked(l: Layout, superblock: seq<u8>, table: seq<u8>, bitmaps: map<nat, seq<u8>>, used: seq<bool>,
                         groupFree: seq<nat>, freeBlocks: nat) {
    forall layout: Layout :: layout == l ==> BookedIn(layout, superblock, table, bitmaps, used, groupFree, freeBlocks)
  }

  ghost predicate BookedIn(l: Layout, superblock: seq<u8>, table: seq<u8>, bitmaps: map<nat, seq<u8>>, used: seq<bool>,
                         groupFree: seq<nat>, freeBlocks: nat) {
    && 0 < l.perGroup <= 8 * l.blockSize <= 0x8000 && (!l.format.wide ==> |used| < 0x1_0000_0000)
       && |used| <= PHYSICAL_LIMIT
    && |superblock| == 1024 && SuperFree(superblock, l.format.wide) == freeBlocks
    && GroupsBooked(l, table, bitmaps, groupFree) && BitsBooked(l, table, |groupFree|, bitmaps, used)
  }

  // A new count in one descriptor moves no location.
  lemma {:induction false} DescribedAfter(l: Layout, table: seq<u8>, groups: nat, g: nat, n: nat, h: nat)
    requires Table(l.format, table, groups) && g < groups && h < groups && n < 0x1_0000
    ensures Origin(l.format.size, g) + l.format.size <= |table|
    ensures var table' := WithFree(l.format, table, Origin(l.format.size, g), n);
            && Table(l.format, table', groups)
            && Described(l, table', groups, h)
            == if h == g then Described(l, table, groups, h).(free := n) else Described(l, table, groups, h)
  {
    var size := l.format.size;
    DescriptorFits(l.format, table, groups, g);
    DescriptorFits(l.format, table, groups, h);
    if h < g {
      OriginOrder(size, h, g);
      FreeElsewhere(l.format, table, Origin(size, g), n, Origin(size, h));
    } else if g < h {
      OriginOrder(size, g, h);
      FreeElsewhere(l.format, table, Origin(size, g), n, Origin(size, h));
    } else {
      FreeWritten(l.format, table, Origin(size, g), n);
    }
  }

  lemma {:induction false} SameBlock(i: nat, k: nat, p: nat)
    requires 0 < p && Quotient(i, p) == Quotient(k, p) && Remainder(i, p) == Remainder(k, p)
    ensures i == k
  {
    QuotientSplits(i, p);
    QuotientSplits(k, p);
  }

  // The metadata after one bit and its group's count have changed.
  ghost predicate Rebooked(l: Layout, table: seq<u8>, bitmaps: map<nat, seq<u8>>, groups: nat, g: nat, bit: nat,
                           value: bool, n: nat,
                           table': seq<u8>, bitmaps': map<nat, seq<u8>>) {
    && Table(l.format, table, groups) && g < groups && n < 0x1_0000
    && Origin(l.format.size, g) + l.format.size <= |table|
    && table' == WithFree(l.format, table, Origin(l.format.size, g), n)
    && var bitmap := Described(l, table, groups, g).blockBitmap;
    && bitmap in bitmaps && bit / 8 < |bitmaps[bitmap]|
    && bitmaps' == bitmaps[bitmap := PutAt(bitmaps[bitmap], bit, value)]
  }

  lemma {:induction false} GroupsAfter(l: Layout, table: seq<u8>, bitmaps: map<nat, seq<u8>>, groupFree: seq<nat>,
                                       g: nat, bit: nat,
                                       value: bool, n: nat, table': seq<u8>, bitmaps': map<nat, seq<u8>>,
                                         groupFree': seq<nat>)
    requires GroupsBooked(l, table, bitmaps, groupFree)
    requires Rebooked(l, table, bitmaps, |groupFree|, g, bit, value, n, table', bitmaps')
             && groupFree' == groupFree[g := n]
    ensures GroupsBooked(l, table', bitmaps', groupFree')
  {
    var groups := |groupFree|;
    DescribedAfter(l, table, groups, g, n, g);
    forall h | 0 <= h < groups ensures GroupBooked(l, table', bitmaps', groupFree', h) {
      assert GroupBooked(l, table, bitmaps, groupFree, h);
      DescribedAfter(l, table, groups, g, n, h);
      var d, d' := Described(l, table, groups, h), Described(l, table', groups, h);
      forall b | Protected(l, d', b) ensures b in l.reserved {
        assert Protected(l, d, b);
      }
    }
    forall h, i | 0 <= h < groups && 0 <= i < groups && h != i ensures OwnBitmap(l, table', groups, h, i) {
      assert OwnBitmap(l, table, groups, h, i);
      DescribedAfter(l, table, groups, g, n, h);
      DescribedAfter(l, table, groups, g, n, i);
    }
  }

  lemma {:induction false} BitAfter(l: Layout, table: seq<u8>, bitmaps: map<nat, seq<u8>>, groups: nat, g: nat,
                                    bit: nat, value: bool, n: nat,
                                    table': seq<u8>, bitmaps': map<nat, seq<u8>>, h: nat, other: nat, was: bool)
    requires Rebooked(l, table, bitmaps, groups, g, bit, value, n, table', bitmaps') && Table(l.format, table', groups)
    requires BitIs(l, table, groups, bitmaps, h, other, was) && (h != g ==> OwnBitmap(l, table, groups, g, h))
    ensures BitIs(l, table', groups, bitmaps', h, other, if h == g && other == bit then value else was)
  {
    DescribedAfter(l, table, groups, g, n, h);
    if h == g {
      PutAtBit(bitmaps[Described(l, table, groups, g).blockBitmap], bit, value, other);
    }
  }

  lemma {:induction false} BitBookedAfter(l: Layout, table: seq<u8>, bitmaps: map<nat, seq<u8>>, groupFree: seq<nat>,
                                          used: seq<bool>, k: nat,
                                          g: nat, bit: nat, value: bool, n: nat, table': seq<u8>,
                                            bitmaps': map<nat, seq<u8>>,
                                          used': seq<bool>, i: nat, h: nat, other: nat)
    requires GroupsBooked(l, table, bitmaps, groupFree) && k < |used| && i < |used| && used' == used[k := value]
             && 0 < l.perGroup
    requires g == Quotient(k, l.perGroup) && bit == Remainder(k, l.perGroup) && h == Quotient(i, l.perGroup)
             && other == Remainder(i, l.perGroup)
    requires Rebooked(l, table, bitmaps, |groupFree|, g, bit, value, n, table', bitmaps')
             && Table(l.format, table', |groupFree|)
    requires BitIs(l, table, |groupFree|, bitmaps, h, other, used[i])
    ensures BitIs(l, table', |groupFree|, bitmaps', h, other, used'[i])
  {
    var groups := |groupFree|;
    assert h != g ==> OwnBitmap(l, table, groups, g, h);
    BitAfter(l, table, bitmaps, groups, g, bit, value, n, table', bitmaps', h, other, used[i]);
    if h == g && other == bit {
      SameBlock(i, k, l.perGroup);
    }
  }

  lemma {:induction false} BitsAfter(l: Layout, table: seq<u8>, bitmaps: map<nat, seq<u8>>, groupFree: seq<nat>,
                                     used: seq<bool>, k: nat,
                                     value: bool, n: nat, table': seq<u8>, bitmaps': map<nat, seq<u8>>,
                                       used': seq<bool>)
    requires GroupsBooked(l, table, bitmaps, groupFree) && BitsBooked(l, table, |groupFree|, bitmaps, used)
             && k < |used|
    requires Rebooked(l, table, bitmaps, |groupFree|, Quotient(k, l.perGroup), Remainder(k, l.perGroup), value, n,
                      table', bitmaps')
    requires used' == used[k := value]
    ensures BitsBooked(l, table', |groupFree|, bitmaps', used')
  {
    var groups, g, bit := |groupFree|, Quotient(k, l.perGroup), Remainder(k, l.perGroup);
    DescribedAfter(l, table, groups, g, n, g);
    forall i | 0 <= i < |used'| ensures BitBooked(l, table', groups, bitmaps', used', i) {
      assert BitBooked(l, table, groups, bitmaps, used, i);
      BitBookedAfter(l, table, bitmaps, groupFree, used, k, g, bit, value, n, table', bitmaps', used', i,
                     Quotient(i, l.perGroup), Remainder(i, l.perGroup));
    }
  }

  // A count is at most a group's size.
  lemma {:induction false} CountBound(perGroup: nat, used: seq<bool>, groupFree: seq<nat>, g: nat)
    requires Counted(perGroup, used, groupFree) && g < |groupFree|
    ensures groupFree[g] <= perGroup
  {
    assert GroupCounted(perGroup, used, groupFree, g);
    FreeBound(used, Origin(perGroup, g), GroupEnd(perGroup, g, |used|));
  }

  // The counts after one bit has changed.
  lemma {:induction false} CountsAfter(perGroup: nat, used: seq<bool>, groupFree: seq<nat>, k: nat, g: nat, value: bool)
    requires Counted(perGroup, used, groupFree) && k < |used| && used[k] != value && g == Quotient(k, perGroup)
    ensures g < |groupFree| && (value ==> 0 < groupFree[g] && 0 < FreeIn(used, 0, |used|))
    ensures var n := if value then groupFree[g] - 1 else groupFree[g] + 1;
            n <= perGroup && Counted(perGroup, used[k := value], groupFree[g := n])
    ensures FreeIn(used[k := value], 0, |used|)
            == (if value then FreeIn(used, 0, |used|) - 1 else FreeIn(used, 0, |used|) + 1) <= |used|
  {
    CountSet(perGroup, used, groupFree, k, value);
    FreeInSet(used, 0, |used|, k, value);
    var n := if value then groupFree[g] - 1 else groupFree[g] + 1;
    CountBound(perGroup, used[k := value], groupFree[g := n], g);
    FreeBound(used[k := value], 0, |used|);
  }

  lemma {:induction false} BitFormatted(l: Layout, d: Disk, k: nat, value: bool, d': Disk)
    requires Formatted(l, d) && k < |d.used| && (!value ==> l.firstData + k !in l.reserved)
    requires d' == Disk(d.used[k := value], d.data)
    ensures Formatted(l, d')
  {
    forall b | b in l.reserved ensures InUse(l, d', b) {
      assert InUse(l, d, b);
    }
  }

  // What one bit changes in the view and in the counts.
  lemma {:induction false} BitSet(l: Layout, d: Disk, groupFree: seq<nat>, g: nat, bit: nat, k: nat, value: bool)
    requires Formatted(l, d) && Counted(l.perGroup, d.used, groupFree) && bit < l.perGroup
    requires k == Origin(l.perGroup, g) + bit < |d.used| && d.used[k] != value
    requires !value ==> l.firstData + k !in l.reserved
    ensures g < |groupFree| && (value ==> 0 < groupFree[g] && 0 < FreeIn(d.used, 0, |d.used|))
    ensures var n := if value then groupFree[g] - 1 else groupFree[g] + 1;
            n <= l.perGroup && Counted(l.perGroup, d.used[k := value], groupFree[g := n])
    ensures FreeIn(d.used[k := value], 0, |d.used|)
            == (if value then FreeIn(d.used, 0, |d.used|) - 1 else FreeIn(d.used, 0, |d.used|) + 1) <= |d.used|
    ensures Formatted(l, Disk(d.used[k := value], d.data))
  {
    QuotientAt(k, l.perGroup, g);
    CountsAfter(l.perGroup, d.used, groupFree, k, g, value);
    BitFormatted(l, d, k, value, Disk(d.used[k := value], d.data));
  }

  class Volume {
    const l: Layout
    const groups: nat
    var superblock: seq<u8>
    var descriptors: seq<u8>
    var bitmaps: map<nat, seq<u8>>
    var data: map<nat, seq<u8>>
    var freeBlocks: nat
    ghost var used: seq<bool>
    ghost var groupFree: seq<nat>

    ghost function View(): Disk
      reads this
    {
      Disk(used, data)
    }

    ghost predicate Valid()
      reads this
    {
      && Formatted(l, View()) && |groupFree| == groups
      && Counted(l.perGroup, used, groupFree)
      && freeBlocks == FreeIn(used, 0, |used|)
      && Booked(l, superblock, descriptors, bitmaps, used, groupFree, freeBlocks)
    }

    constructor (l: Layout, superblock: seq<u8>, descriptors: seq<u8>, bitmaps: map<nat, seq<u8>>,
                 data: map<nat, seq<u8>>,
                 groups: nat, freeBlocks: nat, ghost used: seq<bool>, ghost groupFree: seq<nat>)
      requires Formatted(l, Disk(used, data)) && |groupFree| == groups && Counted(l.perGroup, used, groupFree)
      requires freeBlocks == FreeIn(used, 0, |used|)
               && Booked(l, superblock, descriptors, bitmaps, used, groupFree, freeBlocks)
      ensures Valid() && this.l == l && View() == Disk(used, data)
    {
      this.l, this.groups := l, groups;
      this.superblock, this.descriptors, this.bitmaps, this.data := superblock, descriptors, bitmaps, data;
      this.freeBlocks, this.used, this.groupFree := freeBlocks, used, groupFree;
    }

    lemma Unfold()
      requires Booked(l, superblock, descriptors, bitmaps, used, groupFree, freeBlocks)
      ensures BookedIn(l, superblock, descriptors, bitmaps, used, groupFree, freeBlocks)
    {
    }

    // read_group_descriptor.
    method ReadDescriptor(group: nat) returns (d: Descriptor)
      requires Valid() && group < groups
      ensures Table(l.format, descriptors, groups) && d == Described(l, descriptors, groups, group)
              && d.free == groupFree[group]
      ensures d.blockBitmap in bitmaps && |bitmaps[d.blockBitmap]| == l.blockSize
      ensures forall b :: Protected(l, d, b) ==> b in l.reserved
    {
      Unfold();
      assert GroupBooked(l, descriptors, bitmaps, groupFree, group);
      DescriptorFits(l.format, descriptors, groups, group);
      OriginIsProduct(l.format.size, group);
      d := DescriptorAt(l.format, descriptors, group * l.format.size);
    }

    // The first clear bit of a group, if its bitmap has one.
    method FindInGroup(group: nat, bitmap: nat) returns (found: Option<nat>)
      requires Valid() && group < groups && Table(l.format, descriptors, groups)
               && bitmap == Described(l, descriptors, groups, group).blockBitmap && bitmap in bitmaps
      ensures found.None? <==> groupFree[group] == 0
      ensures found.Some? ==>
                var k := Origin(l.perGroup, group) + found.value;
                found.value < l.perGroup && FirstFree(used, Origin(l.perGroup, group), k)
    {
      assert GroupCounted(l.perGroup, used, groupFree, group);
      OriginIsProduct(l.perGroup, group);
      ghost var lo, hi := Origin(l.perGroup, group), GroupEnd(l.perGroup, group, |used|);
      NoneFree(used, lo, hi);
      var first := group * l.perGroup;
      var count := Min(l.perGroup, l.blockCount - l.firstData - first);
      for bit := 0 to count
        invariant forall i :: lo <= i < lo + bit ==> used[i]
      {
        BitHere(group, bit, bitmap);
        if !BitAt(bitmaps[bitmap], bit) {
          return Some(bit);
        }
      }
      return None;
    }

    // The bit in the block is the bit of the view.
    lemma BitHere(group: nat, bit: nat, bitmap: nat)
      requires Valid() && group < groups && Table(l.format, descriptors, groups)
               && bitmap == Described(l, descriptors, groups, group).blockBitmap
      requires bit < l.perGroup && Origin(l.perGroup, group) + bit < |used|
      ensures bitmap in bitmaps && bit / 8 < |bitmaps[bitmap]|
      ensures used[Origin(l.perGroup, group) + bit] <==> BitAt(bitmaps[bitmap], bit)
    {
      var k := Origin(l.perGroup, group) + bit;
      QuotientAt(k, l.perGroup, group);
      QuotientSplits(k, l.perGroup);
      BitFound(l, superblock, descriptors, bitmaps, used, groupFree, freeBlocks, k);
    }

    // Changes one bit together with its group's count and the total.
    method SetBit(group: nat, bit: nat, d: Descriptor, value: bool)
      requires Valid() && group < groups && Table(l.format, descriptors, groups)
      requires d == Described(l, descriptors, groups, group) && d.free == groupFree[group]
      requires bit < l.perGroup && Origin(l.perGroup, group) + bit < |used|
               && used[Origin(l.perGroup, group) + bit] != value
      requires !value ==> l.firstData + (Origin(l.perGroup, group) + bit) !in l.reserved
      modifies this`superblock, this`descriptors, this`bitmaps, this`freeBlocks, this`used, this`groupFree
      ensures Valid() && used == old(used)[Origin(l.perGroup, group) + bit := value]
      ensures freeBlocks == if value then old(freeBlocks) - 1 else old(freeBlocks) + 1
    {
      ghost var k := Origin(l.perGroup, group) + bit;
      BitSet(l, View(), groupFree, group, bit, k, value);
      var n := if value then d.free - 1 else d.free + 1;
      var total := if value then freeBlocks - 1 else freeBlocks + 1;
      ghost var after := Disk(used[k := value], data);
      superblock, descriptors, bitmaps := Rebook(l, superblock, descriptors, bitmaps, groups, group, bit, d, value,
                                                 n, total,
                                                 used, groupFree, freeBlocks, after.used, groupFree[group := n]);
      freeBlocks, used, groupFree := total, after.used, groupFree[group := n];
      assert View() == after;
    }

    // allocate_block: the first free block, marked and cleared. A group whose
    // count is not zero always has a clear bit.
    method AllocateBlock() returns (error: Error, block: nat)
      requires Valid()
      modifies this
      ensures Valid() && (error == NoError || error == NoSpace)
      ensures error == NoSpace <==> forall i :: 0 <= i < |old(used)| ==> old(used)[i]
      ensures error == NoSpace ==> View() == old(View())
      ensures error == NoError ==>
                && l.firstData <= block && FirstFree(old(used), 0, block - l.firstData)
                && View() == Taken(l, old(View()), block)
                && freeBlocks == old(freeBlocks) - 1
    {
      block := 0;
      for group := 0 to groups
        invariant View() == old(View()) && Valid() && freeBlocks == old(freeBlocks)
        invariant forall i :: 0 <= i < |used| && i < Origin(l.perGroup, group) ==> used[i]
      {
        var d := ReadDescriptor(group);
        if d.free == 0 {
          FullGroup(l.perGroup, used, groupFree, group);
          continue;
        }
        var found := FindInGroup(group, d.blockBitmap);
        if found.None? {
          error := Corrupt;
          return;
        }
        block := Mark(group, found.value, d);
        return NoError, block;
      }
      BlocksForSize(|used|, l.perGroup);
      return NoSpace, 0;
    }

    method Mark(group: nat, bit: nat, d: Descriptor) returns (block: nat)
      requires Valid() && group < groups && Table(l.format, descriptors, groups)
      requires d == Described(l, descriptors, groups, group) && d.free == groupFree[group]
      requires bit < l.perGroup && Origin(l.perGroup, group) + bit < |used| && !used[Origin(l.perGroup, group) + bit]
      modifies this
      ensures Valid() && block == l.firstData + (Origin(l.perGroup, group) + bit)
      ensures View() == Taken(l, old(View()), block) && freeBlocks == old(freeBlocks) - 1
    {
      OriginIsProduct(l.perGroup, group);
      block := l.firstData + (group * l.perGroup + bit);
      FreeHoldsData(l, View(), block);
      SetBit(group, bit, d, true);
      ZeroBlock(block);
    }

    method ZeroBlock(block: nat)
      requires Valid() && block in data
      modifies this`data
      ensures Valid() && data == old(data)[block := Zeros(l.blockSize)]
    {
      DataStored(l, View(), block, Zeros(l.blockSize));
      data := data[block := Zeros(l.blockSize)];
    }

    // release_block: clears the block and its bit, unless the block is one of
    // its group's own metadata blocks.
    method ReleaseBlock(block: nat) returns (error: Error)
      requires Valid()
      requires block in l.reserved ==> OwnMetadata(block)
      modifies this
      ensures Valid() && (error == NoError || error == InvalidArgument || error == Corrupt)
      ensures error == InvalidArgument <==>
                !ValidBlock(block, l.blockCount) || block < l.firstData || block in l.reserved
      ensures error == Corrupt <==> error != InvalidArgument && !old(used)[block - l.firstData]
      ensures error != NoError ==> View() == old(View()) && freeBlocks == old(freeBlocks)
      ensures error == NoError ==> View() == Returned(l, old(View()), block) && freeBlocks == old(freeBlocks) + 1
    {
      if !ValidBlock(block, l.blockCount) || block < l.firstData {
        return InvalidArgument;
      }
      var k := block - l.firstData;
      QuotientIsDivision(k, l.perGroup);
      QuotientBelow(k, |used|, l.perGroup);
      QuotientSplits(k, l.perGroup);
      var group, bit := k / l.perGroup, k % l.perGroup;
      var d := ReadDescriptor(group);
      if Protected(l, d, block) {
        return InvalidArgument;
      }
      BitHere(group, bit, d.blockBitmap);
      if !BitAt(bitmaps[d.blockBitmap], bit) {
        return Corrupt;
      }
      Unmark(group, bit, d, block);
      error := NoError;
    }

    // The block is metadata that its own group's descriptor names.
    ghost predicate OwnMetadata(block: nat)
      requires Valid()
      reads this
    {
      && l.firstData <= block && Table(l.format, descriptors, groups) && 0 < l.perGroup
         && Quotient(block - l.firstData, l.perGroup) < groups
      && Protected(l, Described(l, descriptors, groups, Quotient(block - l.firstData, l.perGroup)), block)
    }

    method Unmark(group: nat, bit: nat, d: Descriptor, block: nat)
      requires Valid() && group < groups && Table(l.format, descriptors, groups)
      requires d == Described(l, descriptors, groups, group) && d.free == groupFree[group]
      requires bit < l.perGroup && Origin(l.perGroup, group) + bit < |used| && used[Origin(l.perGroup, group) + bit]
      requires block == l.firstData + (Origin(l.perGroup, group) + bit) && block !in l.reserved && block < l.blockCount
      modifies this
      ensures Valid() && View() == Returned(l, old(View()), block) && freeBlocks == old(freeBlocks) + 1
    {
      assert block in data;
      ZeroBlock(block);
      SetBit(group, bit, d, false);
    }
  }

  // The descriptor and the bitmap block with one bit changed.
  method Rewrite(l: Layout, table: seq<u8>, bitmaps: map<nat, seq<u8>>, groups: nat, group: nat, bit: nat,
                 d: Descriptor, value: bool, n: nat)
    returns (table': seq<u8>, bitmaps': map<nat, seq<u8>>)
    requires Table(l.format, table, groups) && group < groups && n < 0x1_0000 && d == Described(l, table, groups, group)
    requires d.blockBitmap in bitmaps && bit / 8 < |bitmaps[d.blockBitmap]|
    ensures Rebooked(l, table, bitmaps, groups, group, bit, value, n, table', bitmaps')
  {
    DescriptorFits(l.format, table, groups, group);
    OriginIsProduct(l.format.size, group);
    bitmaps' := bitmaps[d.blockBitmap := PutAt(bitmaps[d.blockBitmap], bit, value)];
    table' := WithFree(l.format, table, group * l.format.size, n);
  }

  // The metadata after such a change: the bitmap block, the descriptor, the
  // superblock.
  method Rebook(l: Layout, superblock: seq<u8>, table: seq<u8>, bitmaps: map<nat, seq<u8>>, groups: nat, group: nat,
                bit: nat,
                d: Descriptor, value: bool, n: nat, total: nat, ghost used: seq<bool>, ghost groupFree: seq<nat>,
                ghost freeBlocks: nat, ghost used': seq<bool>, ghost groupFree': seq<nat>)
    returns (superblock': seq<u8>, table': seq<u8>, bitmaps': map<nat, seq<u8>>)
    requires Booked(l, superblock, table, bitmaps, used, groupFree, freeBlocks) && |groupFree| == groups
             && group < groups
    requires Table(l.format, table, groups) && d == Described(l, table, groups, group) && n <= l.perGroup
             && total <= |used|
    requires bit < l.perGroup && Origin(l.perGroup, group) + bit < |used|
    requires used' == used[Origin(l.perGroup, group) + bit := value] && groupFree' == groupFree[group := n]
    ensures Booked(l, superblock', table', bitmaps', used', groupFree', total)
  {
    ghost var k := Origin(l.perGroup, group) + bit;
    QuotientAt(k, l.perGroup, group);
    QuotientSplits(k, l.perGroup);
    BitFound(l, superblock, table, bitmaps, used, groupFree, freeBlocks, k);
    table', bitmaps' := Rewrite(l, table, bitmaps, groups, group, bit, d, value, n);
    BookedAfter(l, superblock, table, bitmaps, used, groupFree, freeBlocks, k, group, bit, value, n, total,
                table', bitmaps', used', groupFree');
    superblock' := WithSuperFree(superblock, l.format.wide, total);
  }

  lemma {:induction false} BitFound(l: Layout, superblock: seq<u8>, table: seq<u8>, bitmaps: map<nat, seq<u8>>,
                                    used: seq<bool>,
                                    groupFree: seq<nat>, freeBlocks: nat, k: nat)
    requires Booked(l, superblock, table, bitmaps, used, groupFree, freeBlocks) && k < |used|
    ensures 0 < l.perGroup <= 0x8000 && Table(l.format, table, |groupFree|)
    ensures BitBooked(l, table, |groupFree|, bitmaps, used, k)
  {
    assert BookedIn(l, superblock, table, bitmaps, used, groupFree, freeBlocks);
  }

  // A block that is not in use holds no metadata.
  lemma {:induction false} FreeHoldsData(l: Layout, d: Disk, block: nat)
    requires Formatted(l, d) && l.firstData <= block < l.blockCount && !InUse(l, d, block)
    ensures block !in l.reserved && block in d.data
  {
  }

  lemma {:induction false} DataStored(l: Layout, d: Disk, block: nat, bytes: seq<u8>)
    requires Formatted(l, d) && block in d.data && |bytes| == l.blockSize
    ensures Formatted(l, d.(data := d.data[block := bytes]))
  {
    var d' := d.(data := d.data[block := bytes]);
    assert d'.data.Keys == d.data.Keys;
    forall b | b in l.reserved ensures InUse(l, d', b) {
      assert InUse(l, d, b);
    }
  }

  lemma {:induction false} BookedAfter(l: Layout, superblock: seq<u8>, table: seq<u8>, bitmaps: map<nat, seq<u8>>,
                                       used: seq<bool>,
                                       groupFree: seq<nat>, freeBlocks: nat, k: nat, g: nat, bit: nat, value: bool,
                                         n: nat, total: nat,
                                       table': seq<u8>, bitmaps': map<nat, seq<u8>>, used': seq<bool>,
                                         groupFree': seq<nat>)
    requires Booked(l, superblock, table, bitmaps, used, groupFree, freeBlocks) && k < |used|
    requires 0 < l.perGroup && g == Quotient(k, l.perGroup) && bit == Remainder(k, l.perGroup) && total <= |used|
    requires Rebooked(l, table, bitmaps, |groupFree|, g, bit, value, n, table', bitmaps')
    requires used' == used[k := value] && groupFree' == groupFree[g := n]
    ensures |superblock| == 1024 && (if l.format.wide then total < 0x1_0000_0000_0000_0000 else total < 0x1_0000_0000)
    ensures Booked(l, WithSuperFree(superblock, l.format.wide, total), table', bitmaps', used', groupFree', total)
  {
    assert BookedIn(l, superblock, table, bitmaps, used, groupFree, freeBlocks);
    SuperWritten(superblock, l.format.wide, total);
    GroupsAfter(l, table, bitmaps, groupFree, g, bit, value, n, table', bitmaps', groupFree');
    BitsAfter(l, table, bitmaps, groupFree, used, k, value, n, table', bitmaps', used');
  }

  // The first clear bit from `lo` on.
  predicate FirstFree(used: seq<bool>, lo: nat, k: nat) {
    lo <= k < |used| && !used[k] && forall i :: lo <= i < k ==> used[i]
  }

  lemma {:induction false} FullGroup(perGroup: nat, used: seq<bool>, groupFree: seq<nat>, g: nat)
    requires Counted(perGroup, used, groupFree) && g < |groupFree| && groupFree[g] == 0
    ensures forall i :: Origin(perGroup, g) <= i < |used| && i < Origin(perGroup, g + 1) ==> used[i]
  {
    assert GroupCounted(perGroup, used, groupFree, g);
    NoneFree(used, Origin(perGroup, g), GroupEnd(perGroup, g, |used|));
  }

  ghost function Taken(l: Layout, d: Disk, block: nat): Disk
    requires l.firstData <= block < l.firstData + |d.used|
  {
    Disk(d.used[block - l.firstData := true], d.data[block := Zeros(l.blockSize)])
  }

  ghost function Returned(l: Layout, d: Disk, block: nat): Disk
    requires l.firstData <= block < l.firstData + |d.used|
  {
    Disk(d.used[block - l.firstData := false], d.data[block := Zeros(l.blockSize)])
  }
}
