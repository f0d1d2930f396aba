/**
 One directory block of an ext4 volume: records that tile the block, the live
 entries they hold, and the byte edits that add and remove one entry.
 */
module Ext4Records {
  import opened Machine
  import opened Bytes

  // Whether records carry a type byte, and how many inodes there are.
  datatype Format = Format(types: bool, inodeCount: nat)

  datatype Entry = Entry(offset: nat, inode: nat, name: seq<u8>, kind: nat)

  function Inode(b: seq<u8>, o: nat): nat
    requires o + 8 <= |b|
  {
    Little32(b, o)
  }

  function RecordSize(b: seq<u8>, o: nat): nat
    requires o + 8 <= |b|
  {
    Little16(b, o + 4)
  }

  function NameSize(f: Format, b: seq<u8>, o: nat): nat
    requires o + 8 <= |b|
  {
    if f.types then b[o + 6] else Little16(b, o + 6)
  }

  predicate Shaped(b: seq<u8>, o: nat) {
    o + 8 <= |b| && 8 <= RecordSize(b, o) <= |b| - o && RecordSize(b, o) % 4 == 0
  }

  predicate Legal(f: Format, b: seq<u8>, o: nat) {
    && Shaped(b, o)
    && NameSize(f, b, o) <= 255 && NameSize(f, b, o) <= RecordSize(b, o) - 8
    && Inode(b, o) <= f.inodeCount
  }

  function EntryAt(f: Format, b: seq<u8>, o: nat): Entry
    requires Legal(f, b, o)
  {
    Entry(o, Inode(b, o), b[o + 8..o + 8 + NameSize(f, b, o)], if f.types then b[o + 7] else 0)
  }

  // Legal records from `o` to the very end of the block.
  predicate Tiled(f: Format, b: seq<u8>, o: nat)
    decreases |b| - o
  {
    o == |b| || (Legal(f, b, o) && Tiled(f, b, o + RecordSize(b, o)))
  }

  function Here(f: Format, b: seq<u8>, o: nat): seq<Entry>
    requires Legal(f, b, o)
  {
    if Inode(b, o) != 0 then [EntryAt(f, b, o)] else []
  }

  // The live entries from `o` on, in order.
  function Live(f: Format, b: seq<u8>, o: nat): seq<Entry>
    requires Tiled(f, b, o)
    decreases |b| - o
  {
    if o == |b| then [] else Here(f, b, o) + Live(f, b, o + RecordSize(b, o))
  }

  // ---- Listing ----

  // The walk of for_each over one block; the caller has read the inodes.
  method List(f: Format, b: seq<u8>) returns (ok: bool, entries: seq<Entry>)
    ensures ok <==> Tiled(f, b, 0)
    ensures ok ==> entries == Live(f, b, 0)
  {
    var o := 0;
    entries := [];
    while o < |b|
      invariant 0 <= o <= |b| && (Tiled(f, b, 0) <==> Tiled(f, b, o))
      invariant Tiled(f, b, 0) ==> Live(f, b, 0) == entries + Live(f, b, o)
    {
      if !Legal(f, b, o) {
        return false, [];
      }
      Listed(f, b, o, entries);
      entries, o := entries + Here(f, b, o), o + RecordSize(b, o);
    }
    ok := true;
  }

  lemma {:induction false} Listed(f: Format, b: seq<u8>, o: nat, entries: seq<Entry>)
    requires o < |b| && Legal(f, b, o)
    ensures o + RecordSize(b, o) <= |b| && (Tiled(f, b, o) <==> Tiled(f, b, o + RecordSize(b, o)))
    ensures Tiled(f, b, o) ==> entries + Live(f, b, o) == (entries + Here(f, b, o)) + Live(f, b, o + RecordSize(b, o))
  {
    if Tiled(f, b, o) {
      SeqAssoc(entries, Here(f, b, o), Live(f, b, o + RecordSize(b, o)));
    }
  }

  // ---- Changing one record ----

  // Record `o` is found by walking from `q`.
  predicate Reaches(f: Format, b: seq<u8>, q: nat, o: nat)
    decreases |b| - q
  {
    q == o || (q < o && Legal(f, b, q) && Reaches(f, b, q + RecordSize(b, q), o))
  }

  function Before(f: Format, b: seq<u8>, q: nat, o: nat): seq<Entry>
    requires Reaches(f, b, q, o)
    decreases |b| - q
  {
    if q == o then [] else Here(f, b, q) + Before(f, b, q + RecordSize(b, q), o)
  }

  lemma {:induction false} ReachOrder(f: Format, b: seq<u8>, q: nat, o: nat)
    requires Reaches(f, b, q, o)
    ensures q <= o
  {
  }

  lemma {:induction false} LiveSplit(f: Format, b: seq<u8>, q: nat, o: nat)
    requires Reaches(f, b, q, o)
    ensures Tiled(f, b, q) <==> Tiled(f, b, o)
    ensures Tiled(f, b, o) ==> Live(f, b, q) == Before(f, b, q, o) + Live(f, b, o)
    decreases |b| - q
  {
    if q != o {
      var next := q + RecordSize(b, q);
      LiveSplit(f, b, next, o);
      if Tiled(f, b, o) {
        SeqAssoc(Here(f, b, q), Before(f, b, next, o), Live(f, b, o));
      }
    }
  }

  // What lies before a change is not affected by it.
  lemma {:induction false} BeforeSame(f: Format, b: seq<u8>, b': seq<u8>, q: nat, o: nat)
    requires Reaches(f, b, q, o) && |b'| == |b| && o <= |b| && b'[..o] == b[..o]
    ensures Reaches(f, b', q, o) && Before(f, b', q, o) == Before(f, b, q, o)
    decreases |b| - q
  {
    if q != o {
      var next := q + RecordSize(b, q);
      ReachOrder(f, b, next, o);
      RecordSame(f, b, b', q);
      BeforeSame(f, b, b', next, o);
    }
  }

  // Nor is what lies behind it.
  lemma {:induction false} BehindSame(f: Format, b: seq<u8>, b': seq<u8>, q: nat)
    requires Tiled(f, b, q) && |b'| == |b| && q <= |b| && forall k :: q <= k < |b| ==> b'[k] == b[k]
    ensures Tiled(f, b', q) && Live(f, b', q) == Live(f, b, q)
    decreases |b| - q
  {
    if q != |b| {
      RecordSame(f, b, b', q);
      BehindSame(f, b, b', q + RecordSize(b, q));
    }
  }

  // Equal bytes are equal records.
  lemma {:induction false} RecordSame(f: Format, b: seq<u8>, b': seq<u8>, q: nat)
    requires Legal(f, b, q) && |b'| == |b|
    requires forall k :: q <= k < q + RecordSize(b, q) ==> b'[k] == b[k]
    ensures Legal(f, b', q) && RecordSize(b', q) == RecordSize(b, q) && Here(f, b', q) == Here(f, b, q)
  {
    assert b'[q] == b[q] && b'[q + 1] == b[q + 1] && b'[q + 2] == b[q + 2] && b'[q + 3] == b[q + 3];
    assert b'[q + 4] == b[q + 4] && b'[q + 5] == b[q + 5] && b'[q + 6] == b[q + 6] && b'[q + 7] == b[q + 7];
    assert b'[q + 8..q + 8 + NameSize(f, b, q)] == b[q + 8..q + 8 + NameSize(f, b, q)];
  }

  // A change confined to the record at `o` changes only its own entries.
  lemma {:induction false} Replaced(f: Format, b: seq<u8>, b': seq<u8>, o: nat, next: nat, now: seq<Entry>)
    requires Reaches(f, b, 0, o) && o < next <= |b| && Tiled(f, b, next)
    requires |b'| == |b| && b'[..o] == b[..o] && b'[next..] == b[next..]
    requires Tiled(f, b', next) ==> Tiled(f, b', o) && Live(f, b', o) == now + Live(f, b', next)
    ensures Tiled(f, b', 0)
    ensures Live(f, b', 0) == Before(f, b, 0, o) + (now + Live(f, b, next))
  {
    BeforeSame(f, b, b', 0, o);
    assert forall k :: next <= k < |b| ==> b'[k] == b'[next..][k - next] && b[k] == b[next..][k - next];
    BehindSame(f, b, b', next);
    LiveSplit(f, b', 0, o);
  }

  // ---- Adding an entry ----

  // The bytes a record needs: header and name, rounded up to four.
  function Needed(nameSize: nat): nat {
    (8 + nameSize + 3) / 4 * 4
  }

  // A dead record of the size, or a live one with that much slack behind it.
  predicate Fits(b: seq<u8>, o: nat, needed: nat)
    requires o + 8 <= |b|
  {
    if Inode(b, o) != 0 then RecordSize(b, o) >= Needed(b[o + 6]) + needed else RecordSize(b, o) >= needed
  }

  predicate NoRoom(f: Format, b: seq<u8>, o: nat, needed: nat)
    requires Tiled(f, b, o)
    decreases |b| - o
  {
    o == |b| || (!Fits(b, o, needed) && NoRoom(f, b, o + RecordSize(b, o), needed))
  }

  datatype Slot = Found(offset: nat) | Full | Malformed

  // The scan of insert_directory_entry over one block.
  method FindSlot(f: Format, b: seq<u8>, needed: nat) returns (slot: Slot)
    ensures slot.Malformed? ==> !Tiled(f, b, 0)
    ensures slot.Found? ==> Shaped(b, slot.offset) && Fits(b, slot.offset, needed)
    ensures Tiled(f, b, 0) && slot.Found? ==> Reaches(f, b, 0, slot.offset) && Tiled(f, b, slot.offset)
    ensures Tiled(f, b, 0) ==> (slot.Full? <==> NoRoom(f, b, 0, needed))
  {
    var o := 0;
    while o < |b|
      invariant 0 <= o <= |b| && (Tiled(f, b, 0) ==> Tiled(f, b, o) && Reaches(f, b, 0, o))
      invariant Tiled(f, b, 0) ==> (NoRoom(f, b, 0, needed) <==> NoRoom(f, b, o, needed))
    {
      if !Shaped(b, o) {
        return Malformed;
      }
      if Fits(b, o, needed) {
        return Found(o);
      }
      if Tiled(f, b, 0) {
        ReachNext(f, b, 0, o);
      }
      o := o + RecordSize(b, o);
    }
    return Full;
  }

  lemma {:induction false} ReachNext(f: Format, b: seq<u8>, q: nat, o: nat)
    requires Reaches(f, b, q, o) && Legal(f, b, o)
    ensures Reaches(f, b, q, o + RecordSize(b, o))
    decreases |b| - q
  {
    if q != o {
      ReachOrder(f, b, q + RecordSize(b, q), o);
      ReachNext(f, b, q + RecordSize(b, q), o);
    }
  }

  function Header(inode: u32, size: u16, nameSize: u8, kind: u8): (bytes: seq<u8>)
    ensures |bytes| == 8
  {
    Bytes32(inode) + Bytes16(size) + [nameSize, kind]
  }

  function RecordBytes(inode: u32, size: u16, name: seq<u8>, kind: u8): (bytes: seq<u8>)
    requires |name| <= 255 && 8 + |name| <= size
    ensures |bytes| == size
  {
    Header(inode, size, |name|, kind) + name + Zeros(size - 8 - |name|)
  }

  // A record written over the bytes from `o` on is read back.
  lemma {:induction false} RecordWritten(f: Format, b: seq<u8>, o: nat, inode: u32, size: u16, name: seq<u8>, kind: u8)
    requires 0 < |name| <= 255 && 8 + |name| <= size && size % 4 == 0 && o + size <= |b| && inode <= f.inodeCount
    requires !f.types ==> kind == 0
    ensures var b' := Overlay(b, o, RecordBytes(inode, size, name, kind));
            && Legal(f, b', o) && RecordSize(b', o) == size && EntryAt(f, b', o) == Entry(o, inode, name, kind)
  {
    var bytes := RecordBytes(inode, size, name, kind);
    var b' := Overlay(b, o, bytes);
    HeaderBytes(b', o, bytes, inode, size, |name|, kind);
    assert bytes[8..8 + |name|] == name;
    SliceOfSlice(b', o, o + |bytes|, 8, |name|);
  }

  lemma {:induction false} HeaderBytes(b: seq<u8>, o: nat, bytes: seq<u8>, inode: u32, size: u16, nameSize: u8,
                                       kind: u8)
    requires 8 <= |bytes| && o + |bytes| <= |b| && b[o..o + |bytes|] == bytes
             && bytes[..8] == Header(inode, size, nameSize, kind)
    ensures Little32(b, o) == inode && Little16(b, o + 4) == size && b[o + 6] == nameSize && b[o + 7] == kind
  {
    var h := Header(inode, size, nameSize, kind);
    forall k | 0 <= k < 8 ensures b[o + k] == h[k] {
      assert b[o + k] == b[o..o + |bytes|][k] == bytes[k] == bytes[..8][k];
    }
    assert h[0..4] == Bytes32(inode) && h[4..6] == Bytes16(size);
    assert b[o] == h[0] && b[o + 1] == h[1] && b[o + 2] == h[2] && b[o + 3] == h[3];
    assert b[o + 4] == h[4] && b[o + 5] == h[5] && b[o + 6] == h[6] && b[o + 7] == h[7];
    assert h[0] == Bytes32(inode)[0] && h[1] == Bytes32(inode)[1] && h[2] == Bytes32(inode)[2]
           && h[3] == Bytes32(inode)[3];
    assert h[4] == Bytes16(size)[0] && h[5] == Bytes16(size)[1];
  }

  // Cutting a record down to what its entry needs.
  lemma {:induction false} RecordCut(f: Format, b: seq<u8>, o: nat, size: u16)
    requires Legal(f, b, o) && 8 + NameSize(f, b, o) <= size <= RecordSize(b, o) && size % 4 == 0
    ensures var b' := Overlay(b, o + 4, Bytes16(size));
            Legal(f, b', o) && RecordSize(b', o) == size && Inode(b', o) == Inode(b, o)
              && EntryAt(f, b', o) == EntryAt(f, b, o)
  {
    var b' := Overlay(b, o + 4, Bytes16(size));
    assert b'[o + 4..o + 6] == Bytes16(size);
    Little16Slice(b', o + 4, o + 6, o + 4);
    OverlayElsewhere(b, o + 4, Bytes16(size), o + 8, o + 8 + NameSize(f, b, o));
  }

  // One entry more, the others in their places.
  ghost predicate InsertedAt(f: Format, b: seq<u8>, b': seq<u8>, e: Entry, k: nat) {
    && Tiled(f, b, 0) && Tiled(f, b', 0) && |b'| == |b|
    && k <= |Live(f, b, 0)| && Live(f, b', 0) == Live(f, b, 0)[..k] + [e] + Live(f, b, 0)[k..]
  }

  ghost predicate RemovedAt(f: Format, b: seq<u8>, b': seq<u8>, k: nat) {
    && Tiled(f, b, 0) && Tiled(f, b', 0) && |b'| == |b|
    && k < |Live(f, b, 0)| && Live(f, b', 0) == Live(f, b, 0)[..k] + Live(f, b, 0)[k + 1..]
  }

  lemma {:induction false} SpliceIn(before: seq<Entry>, own: seq<Entry>, e: Entry, after: seq<Entry>)
    ensures var all := before + (own + after);
            before + ((own + [e]) + after) == all[..|before| + |own|] + [e] + all[|before| + |own|..]
  {
  }

  lemma {:induction false} SpliceOut(before: seq<Entry>, e: Entry, after: seq<Entry>)
    ensures var all := before + ([e] + after);
            all[|before|] == e && before + after == all[..|before|] + all[|before| + 1..]
  {
  }

  // One record from `o` to `next`, with these live entries.
  predicate IsRecord(f: Format, b: seq<u8>, o: nat, next: nat, here: seq<Entry>) {
    Legal(f, b, o) && o + RecordSize(b, o) == next && Here(f, b, o) == here
  }

  predicate SameOutside(b: seq<u8>, b': seq<u8>, o: nat, next: nat) {
    |b'| == |b| && o <= next <= |b| && b'[..o] == b[..o] && b'[next..] == b[next..]
  }

  lemma {:induction false} TiledFrom(f: Format, b: seq<u8>, o: nat, next: nat, here: seq<Entry>)
    requires IsRecord(f, b, o, next, here)
    ensures Tiled(f, b, o) <==> Tiled(f, b, next)
    ensures Tiled(f, b, next) ==> Live(f, b, o) == here + Live(f, b, next)
  {
  }

  // The live entries when the record at `o` is replaced by other records.
  lemma {:induction false} LiveReplaced(f: Format, b: seq<u8>, b': seq<u8>, o: nat, next: nat, was: seq<Entry>,
                                        now: seq<Entry>)
    requires Tiled(f, b, 0) && Reaches(f, b, 0, o) && IsRecord(f, b, o, next, was) && SameOutside(b, b', o, next)
    requires Tiled(f, b', next) ==> Tiled(f, b', o) && Live(f, b', o) == now + Live(f, b', next)
    ensures Tiled(f, b', 0) && Tiled(f, b, next)
    ensures Live(f, b, 0) == Before(f, b, 0, o) + (was + Live(f, b, next))
    ensures Live(f, b', 0) == Before(f, b, 0, o) + (now + Live(f, b, next))
  {
    LiveSplit(f, b, 0, o);
    TiledFrom(f, b, o, next, was);
    Replaced(f, b, b', o, next, now);
  }

  // A dead record takes the entry whole.
  lemma {:induction false} Reused(f: Format, b: seq<u8>, b': seq<u8>, o: nat, next: nat, e: Entry)
    requires Tiled(f, b, 0) && Reaches(f, b, 0, o) && SameOutside(b, b', o, next)
    requires IsRecord(f, b, o, next, []) && IsRecord(f, b', o, next, [e])
    ensures InsertedAt(f, b, b', e, |Before(f, b, 0, o)|)
  {
    TiledFrom(f, b', o, next, [e]);
    LiveReplaced(f, b, b', o, next, [], [e]);
    SpliceIn(Before(f, b, 0, o), [], e, Live(f, b, next));
    assert [] + [e] == [e];
  }

  lemma {:induction false} TwoRecords(f: Format, b: seq<u8>, o: nat, middle: nat, next: nat, own: Entry, e: Entry)
    requires IsRecord(f, b, o, middle, [own]) && IsRecord(f, b, middle, next, [e])
    ensures Tiled(f, b, next) ==> Tiled(f, b, o) && Live(f, b, o) == ([own] + [e]) + Live(f, b, next)
  {
    TiledFrom(f, b, o, middle, [own]);
    TiledFrom(f, b, middle, next, [e]);
  }

  // A live record is cut, and the entry goes into the slack behind it.
  lemma {:induction false} SplitOff(f: Format, b: seq<u8>, b': seq<u8>, o: nat, middle: nat, next: nat, own: Entry,
                                    e: Entry)
    requires Tiled(f, b, 0) && Reaches(f, b, 0, o) && SameOutside(b, b', o, next)
    requires IsRecord(f, b, o, next, [own]) && IsRecord(f, b', o, middle, [own]) && IsRecord(f, b', middle, next, [e])
    ensures InsertedAt(f, b, b', e, |Before(f, b, 0, o)| + 1)
  {
    TwoRecords(f, b', o, middle, next, own, e);
    LiveReplaced(f, b, b', o, next, [own], [own] + [e]);
    SpliceIn(Before(f, b, 0, o), [own], e, Live(f, b, next));
  }

  lemma {:induction false} Dropped(f: Format, b: seq<u8>, b': seq<u8>, o: nat, next: nat, e: Entry)
    requires Tiled(f, b, 0) && Reaches(f, b, 0, o) && SameOutside(b, b', o, next)
    requires IsRecord(f, b, o, next, [e]) && IsRecord(f, b', o, next, [])
    ensures RemovedAt(f, b, b', |Before(f, b, 0, o)|) && Live(f, b, 0)[|Before(f, b, 0, o)|] == e
  {
    TiledFrom(f, b', o, next, []);
    LiveReplaced(f, b, b', o, next, [e], []);
    RemovedSplit(f, b, b', Before(f, b, 0, o), e, Live(f, b, next));
  }

  lemma {:induction false} RemovedSplit(f: Format, b: seq<u8>, b': seq<u8>, before: seq<Entry>, e: Entry,
                                        after: seq<Entry>)
    requires Tiled(f, b, 0) && Tiled(f, b', 0) && |b'| == |b|
    requires Live(f, b, 0) == before + ([e] + after) && Live(f, b', 0) == before + ([] + after)
    ensures RemovedAt(f, b, b', |before|) && Live(f, b, 0)[|before|] == e
  {
    SpliceOut(before, e, after);
    assert [] + after == after;
  }

  // The bytes of an entry put over a dead record.
  method PutWhole(f: Format, b: seq<u8>, o: nat, inode: u32, name: seq<u8>, kind: u8) returns (b': seq<u8>)
    requires Legal(f, b, o) && Inode(b, o) == 0
    requires 0 < |name| <= 255 && Needed(|name|) <= RecordSize(b, o) && 0 < inode <= f.inodeCount
             && (!f.types ==> kind == 0)
    ensures SameOutside(b, b', o, o + RecordSize(b, o))
    ensures IsRecord(f, b', o, o + RecordSize(b, o), [Entry(o, inode, name, kind)])
  {
    var bytes := RecordBytes(inode, RecordSize(b, o), name, kind);
    b' := Overlay(b, o, bytes);
    RecordWritten(f, b, o, inode, RecordSize(b, o), name, kind);
  }

  method CutRecord(f: Format, b: seq<u8>, o: nat, size: u16) returns (b': seq<u8>)
    requires Legal(f, b, o) && 8 + NameSize(f, b, o) <= size <= RecordSize(b, o) && size % 4 == 0
    ensures SameOutside(b, b', o, o + size) && IsRecord(f, b', o, o + size, Here(f, b, o))
  {
    b' := Overlay(b, o + 4, Bytes16(size));
    RecordCut(f, b, o, size);
  }

  // What a live record needs, and what is left of it, are record sizes.
  lemma {:induction false} BehindSizes(f: Format, b: seq<u8>, o: nat, nameSize: nat)
    requires Legal(f, b, o) && Inode(b, o) != 0 && Fits(b, o, Needed(nameSize))
    ensures 8 + NameSize(f, b, o) <= Needed(b[o + 6]) <= RecordSize(b, o) && Needed(b[o + 6]) % 4 == 0
    ensures var left := RecordSize(b, o) - Needed(b[o + 6]); 8 + nameSize <= left && left % 4 == 0
  {
    assert NameSize(f, b, o) == b[o + 6];
  }

  // A record stays what it was while bytes behind it change.
  lemma {:induction false} RecordBefore(f: Format, cut: seq<u8>, b': seq<u8>, o: nat, middle: nat, next: nat,
                                        here: seq<Entry>)
    requires IsRecord(f, cut, o, middle, here) && SameOutside(cut, b', middle, next)
    ensures IsRecord(f, b', o, middle, here)
  {
    forall k | o <= k < middle ensures b'[k] == cut[k] {
      assert b'[..middle][k] == cut[..middle][k];
    }
    RecordSame(f, cut, b', o);
  }

  // The bytes of an entry put behind what a live record needs.
  method PutBehind(f: Format, b: seq<u8>, o: nat, inode: u32, name: seq<u8>, kind: u8) returns (b': seq<u8>)
    requires Legal(f, b, o) && Inode(b, o) != 0
    requires 0 < |name| <= 255 && Fits(b, o, Needed(|name|)) && 0 < inode <= f.inodeCount && (!f.types ==> kind == 0)
    ensures SameOutside(b, b', o, o + RecordSize(b, o))
    ensures IsRecord(f, b', o, o + Needed(b[o + 6]), Here(f, b, o))
    ensures IsRecord(f, b', o + Needed(b[o + 6]), o + RecordSize(b, o),
                     [Entry(o + Needed(b[o + 6]), inode, name, kind)])
  {
    BehindSizes(f, b, o, |name|);
    b' := PutAfter(f, b, o, Needed(b[o + 6]), inode, name, kind);
  }

  method PutAfter(f: Format, b: seq<u8>, o: nat, actual: u16, inode: u32, name: seq<u8>, kind: u8) returns (b': seq<u8>)
    requires Legal(f, b, o) && 8 + NameSize(f, b, o) <= actual <= RecordSize(b, o) && actual % 4 == 0
    requires 0 < |name| <= 255 && 8 + |name| <= RecordSize(b, o) - actual && (RecordSize(b, o) - actual) % 4 == 0
    requires 0 < inode <= f.inodeCount && (!f.types ==> kind == 0)
    ensures SameOutside(b, b', o, o + RecordSize(b, o)) && IsRecord(f, b', o, o + actual, Here(f, b, o))
    ensures IsRecord(f, b', o + actual, o + RecordSize(b, o), [Entry(o + actual, inode, name, kind)])
  {
    var size := RecordSize(b, o);
    var cut := CutRecord(f, b, o, actual);
    b' := PutRecord(f, cut, o + actual, size - actual, inode, name, kind);
    RecordBefore(f, cut, b', o, o + actual, o + size, Here(f, b, o));
    OutsideTwice(b, cut, b', o, o + actual, o + size);
  }

  method PutRecord(f: Format, b: seq<u8>, o: nat, size: u16, inode: u32, name: seq<u8>, kind: u8) returns (b': seq<u8>)
    requires 0 < |name| <= 255 && 8 + |name| <= size && size % 4 == 0 && o + size <= |b| && 0 < inode <= f.inodeCount
    requires !f.types ==> kind == 0
    ensures SameOutside(b, b', o, o + size) && IsRecord(f, b', o, o + size, [Entry(o, inode, name, kind)])
  {
    b' := Overlay(b, o, RecordBytes(inode, size, name, kind));
    RecordWritten(f, b, o, inode, size, name, kind);
  }

  lemma {:induction false} OutsideTwice(b: seq<u8>, cut: seq<u8>, b': seq<u8>, o: nat, middle: nat, next: nat)
    requires SameOutside(b, cut, o, middle) && SameOutside(cut, b', middle, next)
    ensures SameOutside(b, b', o, next)
  {
    assert b'[..o] == b'[..middle][..o] && cut[..middle][..o] == cut[..o];
    assert b[next..] == b[middle..][next - middle..] && cut[next..] == cut[middle..][next - middle..];
  }

  // The entry goes into the first slot of the block that takes it.
  method InsertInto(f: Format, b: seq<u8>, inode: u32, name: seq<u8>, kind: u8)
    returns (slot: Slot, b': seq<u8>, ghost e: Entry, ghost k: nat)
    requires Tiled(f, b, 0) && 0 < |name| <= 255 && 0 < inode <= f.inodeCount && (!f.types ==> kind == 0)
    ensures !slot.Malformed?
    ensures slot.Full? <==> NoRoom(f, b, 0, Needed(|name|))
    ensures slot.Full? ==> b' == b
    ensures slot.Found? ==> InsertedAt(f, b, b', e, k) && e.inode == inode && e.name == name && e.kind == kind
  {
    b', e, k := b, Entry(0, inode, name, kind), 0;
    slot := FindSlot(f, b, Needed(|name|));
    if !slot.Found? {
      return;
    }
    b', e, k := PutAt(f, b, slot.offset, inode, name, kind);
  }

  method PutAt(f: Format, b: seq<u8>, o: nat, inode: u32, name: seq<u8>, kind: u8)
    returns (b': seq<u8>, ghost e: Entry, ghost k: nat)
    requires Tiled(f, b, 0) && Reaches(f, b, 0, o) && Legal(f, b, o) && Fits(b, o, Needed(|name|))
    requires 0 < |name| <= 255 && 0 < inode <= f.inodeCount && (!f.types ==> kind == 0)
    ensures InsertedAt(f, b, b', e, k) && e.inode == inode && e.name == name && e.kind == kind
  {
    ghost var next := o + RecordSize(b, o);
    if Inode(b, o) != 0 {
      b' := PutBehind(f, b, o, inode, name, kind);
      e, k := Entry(o + Needed(b[o + 6]), inode, name, kind), |Before(f, b, 0, o)| + 1;
      SplitOff(f, b, b', o, e.offset, next, EntryAt(f, b, o), e);
    } else {
      b' := PutWhole(f, b, o, inode, name, kind);
      e, k := Entry(o, inode, name, kind), |Before(f, b, 0, o)|;
      Reused(f, b, b', o, next, e);
    }
  }

  // ---- Removing an entry ----

  method ClearInode(f: Format, b: seq<u8>, o: nat) returns (b': seq<u8>)
    requires o + 8 <= |b|
    ensures |b'| == |b|
    ensures Legal(f, b, o) ==> SameOutside(b, b', o, o + RecordSize(b, o))
                               && IsRecord(f, b', o, o + RecordSize(b, o), [])
  {
    b' := Overlay(b, o, [0, 0, 0, 0]);
    assert b'[o..o + 4] == [0, 0, 0, 0];
    assert b'[o] == b'[o..o + 4][0] && b'[o + 1] == b'[o..o + 4][1] && b'[o + 2] == b'[o..o + 4][2]
           && b'[o + 3] == b'[o..o + 4][3];
  }

  // erase_directory_entry on one block.
  method Erase(f: Format, b: seq<u8>, within: nat) returns (ok: bool, b': seq<u8>)
    requires 8 <= |b|
    ensures ok <==> within <= |b| - 8 && Inode(b, within) != 0
    ensures !ok ==> b' == b
    ensures ok && Tiled(f, b, 0) && Reaches(f, b, 0, within) && Legal(f, b, within) ==>
              && RemovedAt(f, b, b', |Before(f, b, 0, within)|)
              && Live(f, b, 0)[|Before(f, b, 0, within)|] == EntryAt(f, b, within)
  {
    if within > |b| - 8 || Inode(b, within) == 0 {
      return false, b;
    }
    b' := ClearInode(f, b, within);
    ok := true;
    if Tiled(f, b, 0) && Reaches(f, b, 0, within) && Legal(f, b, within) {
      Dropped(f, b, b', within, within + RecordSize(b, within), EntryAt(f, b, within));
    }
  }

  // ---- The entries of a block as a set ----

  lemma {:induction false} LiveFrom(f: Format, b: seq<u8>, o: nat, i: nat)
    requires Tiled(f, b, o) && i < |Live(f, b, o)|
    ensures o <= Live(f, b, o)[i].offset && Reaches(f, b, o, Live(f, b, o)[i].offset)
    ensures Legal(f, b, Live(f, b, o)[i].offset) && EntryAt(f, b, Live(f, b, o)[i].offset) == Live(f, b, o)[i]
    ensures Live(f, b, o)[i].inode != 0
    decreases |b| - o
  {
    var n := |Here(f, b, o)|;
    if i >= n {
      LiveFrom(f, b, o + RecordSize(b, o), i - n);
      ReachOrder(f, b, o + RecordSize(b, o), Live(f, b, o)[i].offset);
    }
  }

  // Live entries stand at increasing offsets, so none repeats another.
  lemma {:induction false} LiveIncreasing(f: Format, b: seq<u8>, o: nat, i: nat, j: nat)
    requires Tiled(f, b, o) && i < j < |Live(f, b, o)|
    ensures Live(f, b, o)[i].offset < Live(f, b, o)[j].offset
    decreases |b| - o
  {
    var n, next := |Here(f, b, o)|, o + RecordSize(b, o);
    if i >= n {
      LiveIncreasing(f, b, next, i - n, j - n);
    } else {
      LiveFrom(f, b, next, j - n);
    }
  }
}
