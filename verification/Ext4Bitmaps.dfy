/**
 The bookkeeping of an ext4 volume as bytes: block bitmaps, group descriptors
 and the free counts of the superblock.
 */
module Ext4Bitmaps {
  import opened Machine
  import opened Bytes
  import opened Blocks

  // ---- Bits of a byte ----

  function Pow2(n: nat): (p: nat)
    ensures 0 < p
  {
    if n == 0 then 1 else 2 * Pow2(n - 1)
  }

  predicate Bit(b: nat, j: nat)
    decreases j
  {
    if j == 0 then b % 2 == 1 else Bit(b / 2, j - 1)
  }

  // The byte with bit j set or cleared.
  function Put(b: nat, j: nat, value: bool): nat
    decreases j
  {
    if j == 0 then b / 2 * 2 + (if value then 1 else 0) else b % 2 + 2 * Put(b / 2, j - 1, value)
  }

  lemma {:induction false} PutBit(b: nat, j: nat, value: bool, i: nat)
    ensures Bit(Put(b, j, value), i) <==> if i == j then value else Bit(b, i)
    decreases j
  {
    if j > 0 {
      assert Put(b, j, value) % 2 == b % 2 && Put(b, j, value) / 2 == Put(b / 2, j - 1, value);
      if i > 0 {
        PutBit(b / 2, j - 1, value, i - 1);
      }
    }
  }

  lemma {:induction false} PutBound(b: nat, j: nat, value: bool, n: nat)
    requires b < Pow2(n) && j < n
    ensures Put(b, j, value) < Pow2(n)
    decreases j
  {
    if j > 0 {
      PutBound(b / 2, j - 1, value, n - 1);
    }
  }

  // Testing, setting and clearing through the mask 1 << j.
  lemma {:induction false} MaskBit(b: nat, j: nat)
    ensures Bit(b, j) <==> b / Pow2(j) % 2 == 1
    decreases j
  {
    if j > 0 {
      MaskBit(b / 2, j - 1);
      Halves(b, Pow2(j - 1));
    }
  }

  lemma {:induction false} Halves(b: nat, p: nat)
    requires 0 < p
    ensures b / (2 * p) == b / 2 / p
  {
    var q, r := b / 2 / p, b / 2 % p;
    assert b / 2 == q * p + r;
    assert b == q * (2 * p) + (2 * r + b % 2);
    QuotientUnique(b, q, 2 * r + b % 2, 2 * p);
  }

  lemma {:induction false} MaskPut(b: nat, j: nat, value: bool)
    ensures Put(b, j, value) == if Bit(b, j) == value then b else if value then b + Pow2(j) else b - Pow2(j)
    decreases j
  {
    if j > 0 {
      MaskPut(b / 2, j - 1, value);
    }
  }

  // ---- Bits of a bitmap block ----

  predicate BitAt(bitmap: seq<u8>, k: nat)
    requires k / 8 < |bitmap|
  {
    Bit(bitmap[k / 8], k % 8)
  }

  function PutAt(bitmap: seq<u8>, k: nat, value: bool): (r: seq<u8>)
    requires k / 8 < |bitmap|
    ensures |r| == |bitmap|
  {
    ByteBound(bitmap[k / 8], k % 8, value);
    bitmap[k / 8 := Put(bitmap[k / 8], k % 8, value)]
  }

  lemma {:induction false} ByteBound(b: u8, j: nat, value: bool)
    requires j < 8
    ensures Put(b, j, value) < 0x100
  {
    assert Pow2(8) == 2 * Pow2(7) && Pow2(6) == 2 * Pow2(5) && Pow2(4) == 2 * Pow2(3) && Pow2(2) == 2 * Pow2(1) == 4;
    PutBound(b, j, value, 8);
  }

  lemma {:induction false} PutAtBit(bitmap: seq<u8>, k: nat, value: bool, i: nat)
    requires k / 8 < |bitmap| && i / 8 < |bitmap|
    ensures BitAt(PutAt(bitmap, k, value), i) <==> if i == k then value else BitAt(bitmap, i)
  {
    if i / 8 == k / 8 {
      PutBit(bitmap[k / 8], k % 8, value, i % 8);
    }
  }

  // ---- Group descriptors ----

  // Descriptor size and whether the upper halves of the fields are in use.
  datatype Descriptors = Descriptors(size: nat, wide: bool)

  predicate Sane(f: Descriptors) {
    32 <= f.size && (f.wide ==> 64 <= f.size)
  }

  ghost predicate Table(f: Descriptors, table: seq<u8>, groups: nat) {
    Sane(f) && |table| == Origin(f.size, groups)
  }

  lemma {:induction false} DescriptorFits(f: Descriptors, table: seq<u8>, groups: nat, g: nat)
    requires Table(f, table, groups) && g < groups
    ensures Origin(f.size, g) + f.size <= |table|
  {
    OriginOrder(f.size, g, groups);
  }

  // A 32-bit field with its upper half 0x20 bytes further.
  function Location(f: Descriptors, table: seq<u8>, at: nat): nat
    requires at + 4 <= |table| && (f.wide ==> at + 0x24 <= |table|)
  {
    Little32(table, at) + if f.wide then Little32(table, at + 0x20) * 0x1_0000_0000 else 0
  }

  function FreeCount(f: Descriptors, table: seq<u8>, at: nat): nat
    requires at + 0xe <= |table| && (f.wide ==> at + 0x2e <= |table|)
  {
    Little16(table, at + 0xc) + if f.wide then Little16(table, at + 0x2c) * 0x1_0000 else 0
  }

  // write_group_free_counts; the other counts keep their values.
  function WithFree(f: Descriptors, table: seq<u8>, at: nat, n: nat): (r: seq<u8>)
    requires Sane(f) && at + f.size <= |table| && n < 0x1_0000
    ensures |r| == |table|
  {
    var low := Overlay(table, at + 0xc, Bytes16(n));
    if f.wide then Overlay(low, at + 0x2c, Bytes16(0)) else low
  }

  // What the allocator reads of a descriptor.
  datatype Descriptor = Descriptor(blockBitmap: nat, inodeBitmap: nat, inodeTable: nat, free: nat)

  function DescriptorAt(f: Descriptors, table: seq<u8>, at: nat): Descriptor
    requires Sane(f) && at + f.size <= |table|
  {
    Descriptor(Location(f, table, at), Location(f, table, at + 4), Location(f, table, at + 8), FreeCount(f, table, at))
  }

  lemma {:induction false} FreeWritten(f: Descriptors, table: seq<u8>, at: nat, n: nat)
    requires Sane(f) && at + f.size <= |table| && n < 0x1_0000
    ensures DescriptorAt(f, WithFree(f, table, at, n), at) == DescriptorAt(f, table, at).(free := n)
  {
    var low := Overlay(table, at + 0xc, Bytes16(n));
    Stored16(table, at + 0xc, n);
    if f.wide {
      Stored16(low, at + 0x2c, 0);
    }
  }

  lemma {:induction false} Stored16(s: seq<u8>, at: nat, n: nat)
    requires at + 2 <= |s| && n < 0x1_0000
    ensures Little16(Overlay(s, at, Bytes16(n)), at) == n
  {
    var r := Overlay(s, at, Bytes16(n));
    assert r[at] == r[at..at + 2][0] && r[at + 1] == r[at..at + 2][1];
  }

  lemma {:induction false} FreeElsewhere(f: Descriptors, table: seq<u8>, at: nat, n: nat, other: nat)
    requires Sane(f) && at + f.size <= |table| && other + f.size <= |table| && n < 0x1_0000
    requires other + f.size <= at || at + f.size <= other
    ensures DescriptorAt(f, WithFree(f, table, at, n), other) == DescriptorAt(f, table, other)
  {
    var r := WithFree(f, table, at, n);
    forall i | other <= i < other + f.size ensures r[i] == table[i] {
      FreeUntouched(f, table, at, n, i);
    }
    SameDescriptor(f, table, r, other);
  }

  lemma {:induction false} FreeUntouched(f: Descriptors, table: seq<u8>, at: nat, n: nat, i: nat)
    requires Sane(f) && at + f.size <= |table| && n < 0x1_0000 && i < |table| && (i < at || at + f.size <= i)
    ensures WithFree(f, table, at, n)[i] == table[i]
  {
  }

  lemma {:induction false} SameDescriptor(f: Descriptors, table: seq<u8>, r: seq<u8>, at: nat)
    requires Sane(f) && at + f.size <= |table| == |r| && forall i :: at <= i < at + f.size ==> r[i] == table[i]
    ensures DescriptorAt(f, r, at) == DescriptorAt(f, table, at)
  {
    SameLocation(f, table, r, at);
    SameLocation(f, table, r, at + 4);
    SameLocation(f, table, r, at + 8);
  }

  lemma {:induction false} SameLocation(f: Descriptors, table: seq<u8>, r: seq<u8>, at: nat)
    requires at + 4 <= |table| == |r| && (f.wide ==> at + 36 <= |table|)
    requires forall i :: at <= i < at + 4 || (f.wide && at + 32 <= i < at + 36) ==> r[i] == table[i]
    ensures Location(f, r, at) == Location(f, table, at)
  {
  }

  // ---- The superblock ----

  function SuperFree(superblock: seq<u8>, wide: bool): nat
    requires |superblock| == 1024
  {
    Little32(superblock, 0x0c) + if wide then Little32(superblock, 0x158) * 0x1_0000_0000 else 0
  }

  // write_superblock_free_counts; the inode count keeps its value.
  function WithSuperFree(superblock: seq<u8>, wide: bool, n: nat): (r: seq<u8>)
    requires |superblock| == 1024 && (if wide then n < 0x1_0000_0000_0000_0000 else n < 0x1_0000_0000)
    ensures |r| == 1024
  {
    var low := Overlay(superblock, 0x0c, Bytes32(n % 0x1_0000_0000));
    if wide then Overlay(low, 0x158, Bytes32(n / 0x1_0000_0000)) else low
  }

  lemma {:induction false} SuperWritten(superblock: seq<u8>, wide: bool, n: nat)
    requires |superblock| == 1024 && (if wide then n < 0x1_0000_0000_0000_0000 else n < 0x1_0000_0000)
    ensures SuperFree(WithSuperFree(superblock, wide, n), wide) == n
  {
    var low := Overlay(superblock, 0x0c, Bytes32(n % 0x1_0000_0000));
    Stored32(superblock, 0x0c, n % 0x1_0000_0000);
    if wide {
      Stored32(low, 0x158, n / 0x1_0000_0000);
    }
  }

  lemma {:induction false} Stored32(s: seq<u8>, at: nat, n: nat)
    requires at + 4 <= |s| && n < 0x1_0000_0000
    ensures Little32(Overlay(s, at, Bytes32(n)), at) == n
  {
    var r, b := Overlay(s, at, Bytes32(n)), Bytes32(n);
    assert r[at..at + 4] == b;
    assert r[at] == r[at..at + 4][0] && r[at + 1] == r[at..at + 4][1];
    assert r[at + 2] == r[at..at + 4][2] && r[at + 3] == r[at..at + 4][3];
  }
}
