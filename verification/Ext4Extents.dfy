/**
 The extent map an ext4 inode keeps in its 60 bytes of block data: how a
 logical block of a file is found and how one more block is appended.
 */
module Ext4Extents {
  import opened Machine
  import opened Bytes

  const EXTENT_MAGIC := 0xf30a
  const MAX_LENGTH := 32768
  const BLOCK_LIMIT := 0x1_0000_0000
  const PHYSICAL_LIMIT := 0x1_0000_0000_0000

  datatype Error = NoError | InvalidArgument | Unsupported | NoSpace | Corrupt | NotFound | AlreadyExists

  // A run of logical blocks; `raw` is the length field, above 32768 for a run
  // that is allocated but not initialized.
  datatype Extent = Extent(first: u32, raw: u16, physical: nat)

  datatype Mapping = Mapped(physical: nat) | Hole | Broken

  function Length(e: Extent): nat {
    if e.raw > MAX_LENGTH then e.raw - MAX_LENGTH else e.raw
  }

  function End(e: Extent): nat {
    e.first + Length(e)
  }

  predicate ValidBlock(block: nat, blockCount: nat) {
    block != 0 && block < blockCount
  }

  // ---- The bytes ----

  // An extent node of depth 0 in the inode that map_extents accepts.
  predicate IsRoot(root: seq<u8>) {
    && |root| == 60 && Little16(root, 0) == EXTENT_MAGIC && Little16(root, 6) == 0
    && Little16(root, 2) <= Little16(root, 4) <= 4
  }

  function ExtentAt(root: seq<u8>, i: nat): Extent
    requires |root| == 60 && i < 4
  {
    var at := 12 + 12 * i;
    Extent(Little32(root, at), Little16(root, at + 4), Little16(root, at + 6) * BLOCK_LIMIT + Little32(root, at + 8))
  }

  function Extents(root: seq<u8>): (exts: seq<Extent>)
    requires |root| == 60 && Little16(root, 2) <= 4
    ensures |exts| == Little16(root, 2)
  {
    seq(Little16(root, 2), i requires 0 <= i < 4 => ExtentAt(root, i))
  }

  // The block data of a new inode: magic, no entries, room for four.
  function EmptyRoot(): (root: seq<u8>)
    ensures IsRoot(root) && Extents(root) == [] && Little16(root, 4) == 4
  {
    Bytes16(EXTENT_MAGIC) + [0, 0, 4, 0] + Zeros(54)
  }

  function Record(e: Extent): (bytes: seq<u8>)
    requires e.physical < PHYSICAL_LIMIT
    ensures |bytes| == 12
  {
    Bytes32(e.first) + Bytes16(e.raw) + Bytes16(e.physical / BLOCK_LIMIT) + Bytes32(e.physical % BLOCK_LIMIT)
  }

  lemma {:induction false} RecordDecodes(root: seq<u8>, i: nat, e: Extent)
    requires |root| == 60 && i < 4 && e.physical < PHYSICAL_LIMIT
    ensures ExtentAt(Overlay(root, 12 + 12 * i, Record(e)), i) == e
  {
    var at, r := 12 + 12 * i, Record(e);
    var root' := Overlay(root, at, r);
    assert root'[at..at + 12] == r;
    assert r[0..4] == Bytes32(e.first) && r[4..6] == Bytes16(e.raw);
    assert r[6..8] == Bytes16(e.physical / BLOCK_LIMIT) && r[8..12] == Bytes32(e.physical % BLOCK_LIMIT);
    FieldAt(root', at, r, 0, 4);
    FieldAt(root', at, r, 4, 2);
    FieldAt(root', at, r, 6, 2);
    FieldAt(root', at, r, 8, 4);
  }

  lemma {:induction false} FieldAt(root: seq<u8>, at: nat, r: seq<u8>, field: nat, size: nat)
    requires at + |r| <= |root| && root[at..at + |r|] == r && field + size <= |r|
    ensures size == 4 ==> Little32(root, at + field) == Little32(r[field..field + 4], 0)
    ensures size == 2 ==> Little16(root, at + field) == Little16(r[field..field + 2], 0)
  {
    SliceOfSlice(root, at, at + |r|, field, size);
    if size == 4 {
      Little32Slice(root, at + field, at + field + 4, at + field);
    } else if size == 2 {
      Little16Slice(root, at + field, at + field + 2, at + field);
    }
  }

  // Bytes written outside a record leave it alone.
  lemma {:induction false} ExtentElsewhere(root: seq<u8>, at: nat, bytes: seq<u8>, i: nat)
    requires |root| == 60 && i < 4 && at + |bytes| <= 60
    requires at + |bytes| <= 12 + 12 * i || 24 + 12 * i <= at
    ensures ExtentAt(Overlay(root, at, bytes), i) == ExtentAt(root, i)
  {
  }

  // ---- Finding a block ----

  // The scan of map_extents over the entries of a leaf.
  function Lookup(exts: seq<Extent>, logical: nat, previousEnd: nat, blockCount: nat): Mapping {
    if exts == [] then Hole
    else
      var e := exts[0];
      if e.raw == 0 || e.first < previousEnd || End(e) > BLOCK_LIMIT then Broken
      else if e.first <= logical < End(e) then Resolve(e, logical, blockCount)
      else Lookup(exts[1..], logical, End(e), blockCount)
  }

  function Resolve(e: Extent, logical: nat, blockCount: nat): Mapping
    requires e.first <= logical
  {
    if e.raw > MAX_LENGTH then Hole
    else if ValidBlock(e.physical + (logical - e.first), blockCount) then Mapped(e.physical + (logical - e.first))
    else Broken
  }

  // map_extents on a node of depth 0.
  method MapExtents(root: seq<u8>, logical: u32, blockCount: nat) returns (m: Mapping)
    requires |root| == 60 && Little16(root, 6) == 0
    ensures m == if IsRoot(root) then Lookup(Extents(root), logical, 0, blockCount) else Broken
  {
    if Little16(root, 0) != EXTENT_MAGIC {
      return Broken;
    }
    var entries := Little16(root, 2);
    var maximum := Little16(root, 4);
    if entries > maximum || maximum > (60 - 12) / 12 {
      return Broken;
    }
    ghost var exts := Extents(root);
    var previousEnd: nat, index := 0, 0;
    while index < entries
      invariant 0 <= index <= entries
      invariant Lookup(exts, logical, 0, blockCount) == Lookup(exts[index..], logical, previousEnd, blockCount)
    {
      assert exts[index..][0] == exts[index] && exts[index..][1..] == exts[index + 1..];
      var e := ExtentAt(root, index);
      if e.raw == 0 || e.first < previousEnd || End(e) > BLOCK_LIMIT {
        return Broken;
      }
      previousEnd := End(e);
      if e.first <= logical < previousEnd {
        return Resolve(e, logical, blockCount);
      }
      index := index + 1;
    }
    return Hole;
  }

  // Extents that follow each other without overlap.
  ghost predicate Sorted(exts: seq<Extent>) {
    && (forall i :: 0 <= i < |exts| ==> exts[i].raw != 0 && End(exts[i]) <= BLOCK_LIMIT)
    && (forall i, j :: 0 <= i < j < |exts| ==> End(exts[i]) <= exts[j].first)
  }

  ghost predicate Covers(e: Extent, logical: nat) {
    e.first <= logical < End(e)
  }

  // On sorted extents the scan is a search: the extent that covers the block
  // decides, wherever it stands, and a block that none covers is a hole.
  lemma {:induction false} LookupCovered(exts: seq<Extent>, logical: nat, previousEnd: nat, blockCount: nat, i: nat)
    requires Sorted(exts) && i < |exts| && Covers(exts[i], logical) && previousEnd <= exts[0].first
    ensures Lookup(exts, logical, previousEnd, blockCount) == Resolve(exts[i], logical, blockCount)
  {
    if i > 0 {
      assert End(exts[0]) <= exts[i].first;
      LookupCovered(exts[1..], logical, End(exts[0]), blockCount, i - 1);
    }
  }

  lemma {:induction false} LookupMissed(exts: seq<Extent>, logical: nat, previousEnd: nat, blockCount: nat)
    requires Sorted(exts) && forall i :: 0 <= i < |exts| ==> !Covers(exts[i], logical)
    requires exts != [] ==> previousEnd <= exts[0].first
    ensures Lookup(exts, logical, previousEnd, blockCount) == Hole
  {
    if exts != [] {
      assert !Covers(exts[0], logical);
      LookupMissed(exts[1..], logical, End(exts[0]), blockCount);
    }
  }

  // What follows a sorted front does not change what the front covers; behind
  // it, an extent that starts before the front ends spoils every other lookup.
  lemma {:induction false} LookupFront(front: seq<Extent>, rest: seq<Extent>, logical: nat, previousEnd: nat,
                                       blockCount: nat, i: nat)
    requires Sorted(front) && i < |front| && Covers(front[i], logical) && previousEnd <= front[0].first
    ensures Lookup(front + rest, logical, previousEnd, blockCount) == Resolve(front[i], logical, blockCount)
  {
    assert (front + rest)[0] == front[0] && (front + rest)[1..] == front[1..] + rest;
    if i > 0 {
      assert End(front[0]) <= front[i].first;
      LookupFront(front[1..], rest, logical, End(front[0]), blockCount, i - 1);
    }
  }

  lemma {:induction false} LookupBehind(front: seq<Extent>, rest: seq<Extent>, logical: nat, previousEnd: nat,
                                        blockCount: nat)
    requires Sorted(front) && rest != [] && (front != [] ==> previousEnd <= front[0].first)
    requires rest[0].first < if front == [] then previousEnd else End(front[|front| - 1])
    requires forall i :: 0 <= i < |front| ==> !Covers(front[i], logical)
    ensures Lookup(front + rest, logical, previousEnd, blockCount) == Broken
  {
    if front == [] {
      assert front + rest == rest;
    } else {
      assert (front + rest)[0] == front[0] && (front + rest)[1..] == front[1..] + rest && !Covers(front[0], logical);
      LookupBehind(front[1..], rest, logical, End(front[0]), blockCount);
    }
  }

  // ---- Appending a block ----

  // The last extent grows when the new block continues it on both sides; the
  // first comparison is made in 32 bits.
  predicate Continues(e: Extent, logical: nat, physical: nat) {
    (e.first + e.raw) % BLOCK_LIMIT == logical && e.physical + e.raw == physical && e.raw < MAX_LENGTH
  }

  function Appended(exts: seq<Extent>, logical: u32, physical: nat): Option<seq<Extent>> {
    if exts != [] && Continues(exts[|exts| - 1], logical, physical) then
      var last := exts[|exts| - 1];
      Some(exts[..|exts| - 1] + [last.(raw := last.raw + 1)])
    else if |exts| >= 4 then None
    else Some(exts + [Extent(logical, 1, physical)])
  }

  // append_extent, on the bytes.
  method AppendExtent(root: seq<u8>, logical: u32, physical: nat) returns (error: Error, root': seq<u8>)
    requires |root| == 60 && Little16(root, 2) <= 4 && physical < PHYSICAL_LIMIT
    ensures |root'| == 60 && (error == NoError || error == Unsupported || error == NoSpace)
    ensures error == Unsupported <==> Little16(root, 0) != EXTENT_MAGIC || Little16(root, 6) != 0
    ensures error == NoSpace <==> error != Unsupported && Appended(Extents(root), logical, physical).None?
    ensures error == NoError ==>
              Rewritten(root, root', Appended(Extents(root), logical, physical).value)
    ensures error != NoError ==> root' == root
  {
    root' := root;
    if Little16(root, 0) != EXTENT_MAGIC || Little16(root, 6) != 0 {
      return Unsupported, root;
    }
    var entries := Little16(root, 2);
    ghost var exts := Extents(root);
    if entries != 0 {
      var last := ExtentAt(root, entries - 1);
      assert exts[entries - 1] == last;
      if Continues(last, logical, physical) {
        root' := SetLength(root, entries - 1, last.raw + 1);
        return NoError, root';
      }
    }
    if entries >= 4 {
      return NoSpace, root;
    }
    root' := AddRecord(root, Extent(logical, 1, physical));
    error := NoError;
  }

  // New extents under the same header.
  ghost predicate Rewritten(root: seq<u8>, root': seq<u8>, exts: seq<Extent>) {
    && SameHeader(root, root')
    && Little16(root', 2) <= 4 && Extents(root') == exts
  }

  ghost predicate SameHeader(root: seq<u8>, root': seq<u8>) {
    && |root| == |root'| == 60
    && Little16(root', 0) == Little16(root, 0) && Little16(root', 4) == Little16(root, 4)
       && Little16(root', 6) == Little16(root, 6)
  }

  lemma {:induction false} LengthStored(root: seq<u8>, i: nat, raw: u16)
    requires |root| == 60 && i < 4
    ensures var root' := Overlay(root, 12 + 12 * i + 4, Bytes16(raw));
            ExtentAt(root', i) == ExtentAt(root, i).(raw := raw) && SameHeader(root, root')
              && Little16(root', 2) == Little16(root, 2)
  {
    var at, bytes := 12 + 12 * i + 4, Bytes16(raw);
    var root' := Overlay(root, at, bytes);
    assert root'[at..at + 2] == bytes && bytes[0..2] == bytes;
    FieldAt(root', at, bytes, 0, 2);
  }

  // The length field of the last extent rewritten in place.
  method SetLength(root: seq<u8>, i: nat, raw: u16) returns (root': seq<u8>)
    requires |root| == 60 && i < 4 && Little16(root, 2) == i + 1
    ensures Rewritten(root, root', Extents(root)[..i] + [ExtentAt(root, i).(raw := raw)])
  {
    root' := Overlay(root, 12 + 12 * i + 4, Bytes16(raw));
    LengthStored(root, i, raw);
    forall k | 0 <= k < i ensures ExtentAt(root', k) == ExtentAt(root, k) {
      ExtentElsewhere(root, 12 + 12 * i + 4, Bytes16(raw), k);
    }
  }

  // A record and the new count written in place.
  method AddRecord(root: seq<u8>, e: Extent) returns (root': seq<u8>)
    requires |root| == 60 && Little16(root, 2) < 4 && e.physical < PHYSICAL_LIMIT
    ensures Rewritten(root, root', Extents(root) + [e])
  {
    var mid := WriteRecord(root, e);
    root' := WriteCount(mid, Little16(root, 2) + 1);
  }

  method WriteRecord(root: seq<u8>, e: Extent) returns (root': seq<u8>)
    requires |root| == 60 && Little16(root, 2) < 4 && e.physical < PHYSICAL_LIMIT
    ensures SameHeader(root, root') && Little16(root', 2) == Little16(root, 2)
            && ExtentAt(root', Little16(root, 2)) == e
    ensures forall k :: 0 <= k < Little16(root, 2) ==> ExtentAt(root', k) == ExtentAt(root, k)
  {
    var n := Little16(root, 2);
    root' := Overlay(root, 12 + 12 * n, Record(e));
    RecordDecodes(root, n, e);
    forall k | 0 <= k < n ensures ExtentAt(root', k) == ExtentAt(root, k) {
      ExtentElsewhere(root, 12 + 12 * n, Record(e), k);
    }
  }

  method WriteCount(root: seq<u8>, count: u16) returns (root': seq<u8>)
    requires |root| == 60
    ensures SameHeader(root, root') && Little16(root', 2) == count
    ensures forall k :: 0 <= k < 4 ==> ExtentAt(root', k) == ExtentAt(root, k)
  {
    root' := Overlay(root, 2, Bytes16(count));
    assert root'[2..4] == Bytes16(count) && Bytes16(count)[0..2] == Bytes16(count);
    FieldAt(root', 2, Bytes16(count), 0, 2);
    forall k | 0 <= k < 4 ensures ExtentAt(root', k) == ExtentAt(root, k) {
      ExtentElsewhere(root, 2, Bytes16(count), k);
    }
  }

  // ---- What appending means for lookups ----

  ghost predicate Past(exts: seq<Extent>, logical: nat) {
    forall i :: 0 <= i < |exts| ==> End(exts[i]) <= logical
  }

  lemma {:induction false} AppendSorted(exts: seq<Extent>, logical: u32, physical: nat)
    requires Sorted(exts) && Past(exts, logical) && Appended(exts, logical, physical).Some?
    ensures Sorted(Appended(exts, logical, physical).value)
  {
    if exts != [] {
      assert End(exts[|exts| - 1]) <= logical;
    }
  }

  // Appending past all extents adds exactly one mapping.
  lemma {:induction false} AppendMaps(exts: seq<Extent>, logical: u32, physical: nat, blockCount: nat, l: nat)
    requires Sorted(exts) && Past(exts, logical) && ValidBlock(physical, blockCount)
             && Appended(exts, logical, physical).Some?
    ensures Lookup(Appended(exts, logical, physical).value, l, 0, blockCount)
         == if l == logical then Mapped(physical) else Lookup(exts, l, 0, blockCount)
  {
    var exts', n := Appended(exts, logical, physical).value, |exts|;
    AppendSorted(exts, logical, physical);
    if l == logical {
      AppendedCovers(exts, logical, physical, blockCount);
      LookupCovered(exts', l, 0, blockCount, |exts'| - 1);
    } else if i :| 0 <= i < n && Covers(exts[i], l) {
      AppendedKeeps(exts, logical, physical, blockCount, l, i);
      LookupCovered(exts, l, 0, blockCount, i);
      LookupCovered(exts', l, 0, blockCount, i);
    } else {
      LookupMissed(exts, l, 0, blockCount);
      forall i | 0 <= i < |exts'| ensures !Covers(exts'[i], l) {
        AppendedKeeps(exts, logical, physical, blockCount, l, i);
      }
      LookupMissed(exts', l, 0, blockCount);
    }
  }

  lemma {:induction false} AppendedCovers(exts: seq<Extent>, logical: u32, physical: nat, blockCount: nat)
    requires Sorted(exts) && Past(exts, logical) && ValidBlock(physical, blockCount)
             && Appended(exts, logical, physical).Some?
    ensures var exts' := Appended(exts, logical, physical).value;
            && exts' != [] && Covers(exts'[|exts'| - 1], logical)
            && Resolve(exts'[|exts'| - 1], logical, blockCount) == Mapped(physical)
  {
    if exts != [] {
      assert End(exts[|exts| - 1]) <= logical;
    }
  }

  // Every other block is covered as before.
  lemma {:induction false} AppendedKeeps(exts: seq<Extent>, logical: u32, physical: nat, blockCount: nat, l: nat,
                                         i: nat)
    requires Sorted(exts) && Past(exts, logical) && l != logical && Appended(exts, logical, physical).Some?
    requires i < |Appended(exts, logical, physical).value|
    ensures var e := Appended(exts, logical, physical).value[i];
            if i < |exts| then
              (Covers(e, l) <==> Covers(exts[i], l))
                && (Covers(e, l) ==> Resolve(e, l, blockCount) == Resolve(exts[i], l, blockCount))
            else !Covers(e, l)
  {
    if i < |exts| {
      assert End(exts[i]) <= logical;
    }
  }

  // Exactly then: with an extent reaching past the new block, the block that
  // was appended is not found.
  lemma {:induction false} AppendNotPast(exts: seq<Extent>, logical: u32, physical: nat, blockCount: nat)
    requires Sorted(exts) && Appended(exts, logical, physical).Some? && ValidBlock(physical, blockCount)
    requires Lookup(exts, logical, 0, blockCount) != Mapped(physical)
    ensures Lookup(Appended(exts, logical, physical).value, logical, 0, blockCount) == Mapped(physical) <==>
              Past(exts, logical)
  {
    if Past(exts, logical) {
      AppendMaps(exts, logical, physical, blockCount, logical);
    } else {
      AppendHidden(exts, logical, physical, 0, blockCount);
    }
  }

  lemma {:induction false} AppendHidden(exts: seq<Extent>, logical: u32, physical: nat, previousEnd: nat,
                                        blockCount: nat)
    requires Sorted(exts) && !Past(exts, logical) && Appended(exts, logical, physical).Some?
             && ValidBlock(physical, blockCount)
    requires previousEnd <= exts[0].first
    requires Lookup(exts, logical, previousEnd, blockCount) != Mapped(physical)
    ensures Lookup(Appended(exts, logical, physical).value, logical, previousEnd, blockCount) != Mapped(physical)
  {
    var exts' := Appended(exts, logical, physical).value;
    if |exts| > 1 && !Covers(exts[0], logical) {
      assert !Past(exts[1..], logical) by {
        var i :| 0 <= i < |exts| && End(exts[i]) > logical;
        if i == 0 {
          assert End(exts[0]) <= exts[1].first && End(exts[1]) > logical;
          assert exts[1..][0] == exts[1];
        } else {
          assert exts[1..][i - 1] == exts[i];
        }
      }
      AppendTail(exts, logical, physical);
      AppendHidden(exts[1..], logical, physical, End(exts[0]), blockCount);
    }
  }

  lemma {:induction false} AppendTail(exts: seq<Extent>, logical: u32, physical: nat)
    requires |exts| > 1 && Appended(exts, logical, physical).Some?
    ensures Appended(exts[1..], logical, physical).Some?
    ensures Appended(exts, logical, physical).value == [exts[0]] + Appended(exts[1..], logical, physical).value
  {
  }

  // A file of one block at a size of zero, as a failed growth leaves it, grows
  // to two: both new blocks are appended, the first to a position that is mapped
  // already, and the second position cannot be looked up.
  lemma {:induction false} LostExample()
    ensures Appended([Extent(0, 1, 10)], 0, 20) == Some([Extent(0, 1, 10), Extent(0, 1, 20)])
    ensures Appended([Extent(0, 1, 10), Extent(0, 1, 20)], 1, 30)
         == Some([Extent(0, 1, 10), Extent(0, 1, 20), Extent(1, 1, 30)])
    ensures Lookup([Extent(0, 1, 10), Extent(0, 1, 20), Extent(1, 1, 30)], 0, 0, 100) == Mapped(10)
    ensures Lookup([Extent(0, 1, 10), Extent(0, 1, 20), Extent(1, 1, 30)], 1, 0, 100) == Broken
  {
    var one := [Extent(0, 1, 10)];
    var two := one + [Extent(0, 1, 20)];
    assert one[0] == Extent(0, 1, 10) && !Continues(one[0], 0, 20);
    assert two == [Extent(0, 1, 10), Extent(0, 1, 20)] && two[1] == Extent(0, 1, 20) && !Continues(two[1], 1, 30);
    assert two + [Extent(1, 1, 30)] == [Extent(0, 1, 10), Extent(0, 1, 20), Extent(1, 1, 30)];
    LookupFront(one, [Extent(0, 1, 20), Extent(1, 1, 30)], 0, 0, 100, 0);
    LookupBehind(one, [Extent(0, 1, 20), Extent(1, 1, 30)], 1, 0, 100);
    assert one + [Extent(0, 1, 20), Extent(1, 1, 30)] == [Extent(0, 1, 10), Extent(0, 1, 20), Extent(1, 1, 30)];
  }
}
