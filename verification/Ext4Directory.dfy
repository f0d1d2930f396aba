/**
 Directories of an ext4 volume: the entries of all blocks of a directory as one
 set, looked up, added, erased and moved.
 */
module Ext4Directory {
  import opened Machine
  import opened Blocks
  import opened Ext4Extents
  import opened Ext4Volume
  import opened Ext4Files
  import opened Ext4Records

  // A live entry and the block that holds it.
  datatype Dirent = Dirent(block: nat, entry: Entry)

  datatype FileType = Regular | Directory | SymbolicLink

  function KindOf(f: Format, t: FileType): u8 {
    if !f.types then 0 else if t.Directory? then 2 else if t.SymbolicLink? then 7 else 1
  }

  // ---- Entries as sets ----

  ghost function BlockEntries(f: Format, b: seq<u8>): set<Entry>
    requires Tiled(f, b, 0)
  {
    set e | e in Live(f, b, 0)
  }

  lemma {:induction false} InsertedSet(f: Format, b: seq<u8>, b': seq<u8>, e: Entry, k: nat)
    requires InsertedAt(f, b, b', e, k)
    ensures BlockEntries(f, b') == BlockEntries(f, b) + {e} && e !in BlockEntries(f, b)
  {
    var s, s' := Live(f, b, 0), Live(f, b', 0);
    assert s == s[..k] + s[k..];
    if e in BlockEntries(f, b) {
      var i :| 0 <= i < |s| && s[i] == e;
      if i < k {
        assert s'[i] == e && s'[k] == e;
        LiveIncreasing(f, b', 0, i, k);
      } else {
        assert s'[i + 1] == e && s'[k] == e;
        LiveIncreasing(f, b', 0, k, i + 1);
      }
    }
  }

  lemma {:induction false} RemovedSet(f: Format, b: seq<u8>, b': seq<u8>, k: nat)
    requires RemovedAt(f, b, b', k)
    ensures BlockEntries(f, b') == BlockEntries(f, b) - {Live(f, b, 0)[k]}
  {
    var s := Live(f, b, 0);
    forall i | 0 <= i < |s| && i != k ensures s[i] != s[k] {
      if i < k {
        LiveIncreasing(f, b, 0, i, k);
      } else {
        LiveIncreasing(f, b, 0, k, i);
      }
    }
    SetWithout(s, k);
  }

  lemma {:induction false} SetWithout(s: seq<Entry>, k: nat)
    requires k < |s| && forall i :: 0 <= i < |s| && i != k ==> s[i] != s[k]
    ensures forall e :: e in s[..k] + s[k + 1..] <==> e in s && e != s[k]
  {
    forall e | e in s && e != s[k] ensures e in s[..k] + s[k + 1..] {
      var i :| 0 <= i < |s| && s[i] == e;
      assert if i < k then s[..k][i] == e else s[k + 1..][i - k - 1] == e;
    }
  }

  ghost predicate Ordered(f: Format, data: map<nat, seq<u8>>, blocks: seq<nat>) {
    forall p :: p in blocks ==> p in data && Tiled(f, data[p], 0)
  }

  ghost function Entries(f: Format, data: map<nat, seq<u8>>, blocks: seq<nat>): set<Dirent>
    requires Ordered(f, data, blocks)
  {
    set p, e | p in blocks && e in Live(f, data[p], 0) :: Dirent(p, e)
  }

  lemma {:induction false} EntriesHere(f: Format, data: map<nat, seq<u8>>, blocks: seq<nat>, p: nat, b: seq<u8>)
    requires Ordered(f, data, blocks) && p in blocks && Tiled(f, b, 0)
    ensures Ordered(f, data[p := b], blocks)
    ensures forall q, e :: Dirent(q, e) in Entries(f, data[p := b], blocks) <==>
                           if q == p then e in BlockEntries(f, b) else Dirent(q, e) in Entries(f, data, blocks)
  {
  }

  lemma {:induction false} EntriesElsewhere(f: Format, data: map<nat, seq<u8>>, blocks: seq<nat>, p: nat, b: seq<u8>)
    requires Ordered(f, data, blocks) && p !in blocks
    ensures Ordered(f, data[p := b], blocks) && Entries(f, data[p := b], blocks) == Entries(f, data, blocks)
  {
  }

  lemma {:induction false} EntriesAdded(f: Format, data: map<nat, seq<u8>>, blocks: seq<nat>, p: nat, b: seq<u8>,
                                        e: Entry, k: nat)
    requires Ordered(f, data, blocks) && p in blocks && InsertedAt(f, data[p], b, e, k)
    ensures Ordered(f, data[p := b], blocks)
    ensures Entries(f, data[p := b], blocks) == Entries(f, data, blocks) + {Dirent(p, e)}
    ensures Dirent(p, e) !in Entries(f, data, blocks)
  {
    InsertedSet(f, data[p], b, e, k);
    EntriesHere(f, data, blocks, p, b);
    forall x ensures x in Entries(f, data[p := b], blocks) <==> x in Entries(f, data, blocks) + {Dirent(p, e)} {
      assert x == Dirent(x.block, x.entry);
    }
  }

  lemma {:induction false} EntriesRemoved(f: Format, data: map<nat, seq<u8>>, blocks: seq<nat>, p: nat, b: seq<u8>,
                                          k: nat)
    requires Ordered(f, data, blocks) && p in blocks && RemovedAt(f, data[p], b, k)
    ensures Ordered(f, data[p := b], blocks)
    ensures Entries(f, data[p := b], blocks) == Entries(f, data, blocks) - {Dirent(p, Live(f, data[p], 0)[k])}
  {
    RemovedSet(f, data[p], b, k);
    EntriesHere(f, data, blocks, p, b);
    forall x ensures x in Entries(f, data[p := b], blocks) <==>
                     x in Entries(f, data, blocks) - {Dirent(p, Live(f, data[p], 0)[k])} {
      assert x == Dirent(x.block, x.entry);
    }
  }

  // ---- Directories on a volume ----

  // Every block of the directory is tiled by legal records.
  ghost predicate DirMatches(l: Layout, f: Format, d: Disk, dir: Node, owned: seq<nat>) {
    && Holds(l, d, dir.root, Stock(owned, [])) && dir.size == Origin(l.blockSize, |owned|)
    && 8 <= l.blockSize && dir.size <= SIZE_LIMIT
    && Ordered(f, d.data, owned)
  }

  // Storing a whole block keeps every map on the volume.
  lemma {:induction false} HoldsStored(l: Layout, d: Disk, root: seq<u8>, owned: seq<nat>, p: nat, b: seq<u8>)
    requires Holds(l, d, root, Stock(owned, [])) && p in d.data && |b| == l.blockSize
    ensures Formatted(l, d.(data := d.data[p := b])) && Holds(l, d.(data := d.data[p := b]), root, Stock(owned, []))
  {
    var d', all := d.(data := d.data[p := b]), All(Stock(owned, []));
    assert d'.data.Keys == d.data.Keys;
    forall i | 0 <= i < |all| ensures OwnBlock(l, d', all[i]) {
      assert OwnBlock(l, d, all[i]);
    }
  }

  // How many blocks a directory has.
  method DirBlocks(vol: Volume, f: Format, dir: Node, ghost owned: seq<nat>) returns (blocks: nat)
    requires DirMatches(vol.l, f, vol.View(), dir, owned)
    ensures blocks == |owned| <= SIZE_LIMIT
  {
    CeilIsBlocks(dir.size, vol.l.blockSize);
    BlocksForWhole(|owned|, vol.l.blockSize);
    blocks := (dir.size + vol.l.blockSize - 1) / vol.l.blockSize;
  }

  // The physical block behind a logical one.
  method BlockOf(l: Layout, ghost d: Disk, root: seq<u8>, logical: u32, ghost owned: seq<nat>)
    returns (mapping: Mapping)
    requires Holds(l, d, root, Stock(owned, [])) && logical < |owned|
    ensures mapping == Mapped(owned[logical]) && owned[logical] in d.data && owned[logical] in owned
  {
    MapOwned(l, d, root, Stock(owned, []), logical);
    mapping := MapExtents(root, logical, l.blockCount);
  }

  // ---- Lookup ----

  method FindName(entries: seq<Entry>, name: seq<u8>) returns (found: Option<Entry>)
    ensures found.None? <==> forall e :: e in entries ==> e.name != name
    ensures found.Some? ==> found.value in entries && found.value.name == name
  {
    for i := 0 to |entries|
      invariant forall e :: e in entries[..i] ==> e.name != name
    {
      if entries[i].name == name {
        return Some(entries[i]);
      }
      assert entries[..i + 1] == entries[..i] + [entries[i]];
    }
    assert entries[..|entries|] == entries;
    return None;
  }

  ghost predicate Named(es: set<Dirent>, name: seq<u8>, x: Dirent) {
    x in es && x.entry.name == name
  }

  // lookup(): some entry of the name, if there is one.
  method LookupBlock(vol: Volume, f: Format, dir: Node, logical: nat, name: seq<u8>, ghost owned: seq<nat>)
    returns (found: Option<Dirent>)
    requires vol.Valid() && DirMatches(vol.l, f, vol.View(), dir, owned) && logical < |owned| <= SIZE_LIMIT
    ensures found.None? <==> forall x :: x in Entries(f, vol.data, owned) && x.block == owned[logical] ==>
              x.entry.name != name
    ensures found.Some? ==> Named(Entries(f, vol.data, owned), name, found.value)
  {
    var mapping := BlockOf(vol.l, vol.View(), dir.root, logical, owned);
    var ok, entries := List(f, vol.data[mapping.physical]);
    var entry := FindName(entries, name);
    if entry.Some? {
      found := Some(Dirent(mapping.physical, entry.value));
      assert Named(Entries(f, vol.data, owned), name, found.value);
    } else {
      found := None;
    }
  }

  method Lookup(vol: Volume, f: Format, dir: Node, name: seq<u8>, ghost owned: seq<nat>) returns (found: Option<Dirent>)
    requires vol.Valid() && DirMatches(vol.l, f, vol.View(), dir, owned)
    ensures found.None? <==> forall x :: x in Entries(f, vol.data, owned) ==> x.entry.name != name
    ensures found.Some? ==> Named(Entries(f, vol.data, owned), name, found.value)
  {
    var blocks := DirBlocks(vol, f, dir, owned);
    for logical := 0 to blocks
      invariant Missing(f, vol.data, owned, logical, name)
    {
      found := LookupBlock(vol, f, dir, logical, name, owned);
      if found.Some? {
        return;
      }
      MissingNext(f, vol.data, owned, logical, name);
    }
    assert owned[..|owned|] == owned;
    return None;
  }

  // The first n blocks have no entry with the name.
  ghost predicate Missing(f: Format, data: map<nat, seq<u8>>, owned: seq<nat>, n: nat, name: seq<u8>)
    requires Ordered(f, data, owned) && n <= |owned|
  {
    forall x :: x in Entries(f, data, owned) && x.block in owned[..n] ==> x.entry.name != name
  }

  lemma {:induction false} MissingNext(f: Format, data: map<nat, seq<u8>>, owned: seq<nat>, n: nat, name: seq<u8>)
    requires Ordered(f, data, owned) && n < |owned| && Missing(f, data, owned, n, name)
    requires forall x :: x in Entries(f, data, owned) && x.block == owned[n] ==> x.entry.name != name
    ensures Missing(f, data, owned, n + 1, name)
  {
    assert owned[..n + 1] == owned[..n] + [owned[n]];
  }

  // ---- Adding ----

  // One block has a new entry, which the directory did not have before.
  ghost predicate AddedTo(f: Format, size: nat, data: map<nat, seq<u8>>, data': map<nat, seq<u8>>, owned: seq<nat>,
                          added: Dirent, b: seq<u8>) {
    && Ordered(f, data, owned) && Ordered(f, data', owned)
    && added.block in owned && |b| == size && data' == data[added.block := b]
    && added !in Entries(f, data, owned) && Entries(f, data', owned) == Entries(f, data, owned) + {added}
  }

  // The first n blocks have no room.
  ghost predicate Crowded(f: Format, data: map<nat, seq<u8>>, owned: seq<nat>, n: nat, needed: nat)
    requires Ordered(f, data, owned) && n <= |owned|
  {
    forall p :: p in owned[..n] ==> NoRoom(f, data[p], 0, needed)
  }

  lemma {:induction false} CrowdedNext(f: Format, data: map<nat, seq<u8>>, owned: seq<nat>, n: nat, needed: nat)
    requires Ordered(f, data, owned) && n < |owned| && Crowded(f, data, owned, n, needed)
    requires NoRoom(f, data[owned[n]], 0, needed)
    ensures Crowded(f, data, owned, n + 1, needed)
  {
    assert owned[..n + 1] == owned[..n] + [owned[n]];
  }

  // insert_directory_entry: the entry goes into the first block with room.
  method Insert(vol: Volume, f: Format, dir: Node, name: seq<u8>, inode: u32, t: FileType, ghost owned: seq<nat>)
    returns (error: Error, ghost added: Dirent, ghost b: seq<u8>)
    requires vol.Valid() && DirMatches(vol.l, f, vol.View(), dir, owned) && 0 < inode <= f.inodeCount
    modifies vol`data
    ensures vol.Valid() && DirMatches(vol.l, f, vol.View(), dir, owned)
    ensures error == NoError || error == NoSpace || error == InvalidArgument
    ensures error == InvalidArgument <==> |name| == 0 || |name| > 255
    ensures error == NoSpace <==> error != InvalidArgument
                                  && forall p :: p in owned ==> NoRoom(f, old(vol.data)[p], 0, Needed(|name|))
    ensures error != NoError ==> vol.data == old(vol.data)
    ensures error == NoError ==>
              && AddedTo(f, vol.l.blockSize, old(vol.data), vol.data, owned, added, b)
              && added.entry.name == name && added.entry.inode == inode && added.entry.kind == KindOf(f, t)
  {
    added, b := Dirent(0, Entry(0, 0, [], 0)), [];
    if |name| == 0 || |name| > 255 {
      return InvalidArgument, added, b;
    }
    var blocks := DirBlocks(vol, f, dir, owned);
    for logical := 0 to blocks
      invariant vol.data == old(vol.data) && vol.Valid() && DirMatches(vol.l, f, vol.View(), dir, owned)
      invariant Crowded(f, vol.data, owned, logical, Needed(|name|))
    {
      var mapping := BlockOf(vol.l, vol.View(), dir.root, logical, owned);
      var done;
      done, added, b := InsertBlock(vol, f, dir, mapping.physical, name, inode, KindOf(f, t), owned);
      if done {
        return NoError, added, b;
      }
      CrowdedNext(f, vol.data, owned, logical, Needed(|name|));
    }
    assert owned[..|owned|] == owned;
    error := NoSpace;
  }

  method InsertBlock(vol: Volume, f: Format, ghost dir: Node, p: nat, name: seq<u8>, inode: u32, kind: u8,
                     ghost owned: seq<nat>)
    returns (done: bool, ghost added: Dirent, ghost b: seq<u8>)
    requires vol.Valid() && DirMatches(vol.l, f, vol.View(), dir, owned) && 0 < inode <= f.inodeCount
             && (!f.types ==> kind == 0)
    requires 0 < |name| <= 255 && p in owned
    modifies vol`data
    ensures vol.Valid() && DirMatches(vol.l, f, vol.View(), dir, owned)
    ensures !done <==> NoRoom(f, old(vol.data)[p], 0, Needed(|name|))
    ensures !done ==> vol.data == old(vol.data)
    ensures done ==>
              && AddedTo(f, vol.l.blockSize, old(vol.data), vol.data, owned, added, b)
              && added.entry.name == name && added.entry.inode == inode && added.entry.kind == kind
  {
    var slot, b';
    ghost var e, k;
    slot, b', e, k := InsertInto(f, vol.data[p], inode, name, kind);
    added, b := Dirent(p, e), b';
    done := slot.Found?;
    if done {
      HoldsStored(vol.l, vol.View(), dir.root, owned, p, b');
      EntriesAdded(f, vol.data, owned, p, b', e, k);
      vol.data := vol.data[p := b'];
    }
  }

  // ---- Erasing ----

  lemma {:induction false} EntryFacts(f: Format, data: map<nat, seq<u8>>, blocks: seq<nat>, x: Dirent)
    requires Ordered(f, data, blocks) && x in Entries(f, data, blocks)
    ensures x.block in blocks && 0 < x.entry.inode <= f.inodeCount
    ensures Reaches(f, data[x.block], 0, x.entry.offset) && Legal(f, data[x.block], x.entry.offset)
    ensures EntryAt(f, data[x.block], x.entry.offset) == x.entry
  {
    var s := Live(f, data[x.block], 0);
    var i :| 0 <= i < |s| && s[i] == x.entry;
    LiveFrom(f, data[x.block], 0, i);
  }

  // erase_directory_entry, at the place lookup() gave.
  method EraseEntry(vol: Volume, f: Format, dir: Node, x: Dirent, ghost owned: seq<nat>)
    returns (error: Error, ghost b: seq<u8>)
    requires vol.Valid() && DirMatches(vol.l, f, vol.View(), dir, owned) && x in Entries(f, vol.data, owned)
    modifies vol`data
    ensures vol.Valid() && DirMatches(vol.l, f, vol.View(), dir, owned) && error == NoError
    ensures |b| == vol.l.blockSize && vol.data == old(vol.data)[x.block := b]
    ensures Entries(f, vol.data, owned) == Entries(f, old(vol.data), owned) - {x}
  {
    EntryFacts(f, vol.data, owned, x);
    var ok, b' := Erase(f, vol.data[x.block], x.entry.offset);
    b := b';
    if !ok {
      return Corrupt, b;
    }
    ghost var k := |Before(f, vol.data[x.block], 0, x.entry.offset)|;
    HoldsStored(vol.l, vol.View(), dir.root, owned, x.block, b');
    EntriesRemoved(f, vol.data, owned, x.block, b', k);
    vol.data := vol.data[x.block := b'];
    error := NoError;
  }

  // ---- Moving ----

  // Directories without a common block have no common entry.
  lemma {:induction false} EntriesApart(f: Format, data: map<nat, seq<u8>>, a: seq<nat>, b: seq<nat>)
    requires Ordered(f, data, a) && Ordered(f, data, b) && Disjoint(a, b)
    ensures Entries(f, data, a) !! Entries(f, data, b)
  {
    forall x | x in Entries(f, data, a) ensures x !in Entries(f, data, b) {
      assert x.block in a;
    }
  }

  // A block of one directory changed; the other directory did not.
  lemma {:induction false} DirAside(l: Layout, f: Format, d: Disk, dir: Node, owned: seq<nat>, p: nat, b: seq<u8>)
    requires DirMatches(l, f, d, dir, owned) && p !in owned && p in d.data && |b| == l.blockSize
    ensures DirMatches(l, f, d.(data := d.data[p := b]), dir, owned)
    ensures Entries(f, d.data[p := b], owned) == Entries(f, d.data, owned)
  {
    HoldsStored(l, d, dir.root, owned, p, b);
    EntriesElsewhere(f, d.data, owned, p, b);
  }

  // Before and after a move: source and destination entries. In one directory
  // the two are the same set.
  ghost predicate Moved(same: bool, src: set<Dirent>, dst: set<Dirent>, src': set<Dirent>, dst': set<Dirent>,
                        from: seq<u8>, to: seq<u8>, former: Dirent, moved: Dirent) {
    && Named(src, from, former) && moved.entry.name == to && moved.entry.inode == former.entry.inode && moved !in dst
    && (forall x :: x in dst ==> x.entry.name != to)
    && (if same then src' == dst' == dst + {moved} - {former} else src' == src - {former} && dst' == dst + {moved})
  }

  // move(): lookup, insert under the new name, erase the old entry.
  method Move(vol: Volume, f: Format, src: Node, dst: Node, from: seq<u8>, to: seq<u8>, t: FileType,
              ghost a: seq<nat>, ghost b: seq<nat>) returns (error: Error, ghost former: Dirent, ghost moved: Dirent)
    requires vol.Valid() && DirMatches(vol.l, f, vol.View(), src, a) && DirMatches(vol.l, f, vol.View(), dst, b)
    requires (src == dst && a == b) || Disjoint(a, b)
    modifies vol`data
    ensures vol.Valid() && DirMatches(vol.l, f, vol.View(), src, a) && DirMatches(vol.l, f, vol.View(), dst, b)
    ensures error == NotFound <==> forall x :: x in Entries(f, old(vol.data), a) ==> x.entry.name != from
    ensures error == AlreadyExists <==>
              error != NotFound && exists x :: x in Entries(f, old(vol.data), b) && x.entry.name == to
    ensures error != NoError ==> vol.data == old(vol.data)
    ensures error == NoError ==>
              Moved(a == b, Entries(f, old(vol.data), a), Entries(f, old(vol.data), b),
                    Entries(f, vol.data, a), Entries(f, vol.data, b), from, to, former, moved)
    ensures a != b ==> Entries(f, old(vol.data), a) !! Entries(f, old(vol.data), b)
  {
    if a != b {
      EntriesApart(f, vol.data, a, b);
    }
    former, moved := Dirent(0, Entry(0, 0, [], 0)), Dirent(0, Entry(0, 0, [], 0));
    var file := Lookup(vol, f, src, from, a);
    if file.None? {
      return NotFound, former, moved;
    }
    var duplicate := Lookup(vol, f, dst, to, b);
    if duplicate.Some? {
      return AlreadyExists, former, moved;
    }
    former := file.value;
    EntryFacts(f, vol.data, a, file.value);
    error, moved := Transfer(vol, f, src, dst, file.value, to, t, a, b);
  }

  method Transfer(vol: Volume, f: Format, src: Node, dst: Node, file: Dirent, to: seq<u8>, t: FileType,
                  ghost a: seq<nat>, ghost b: seq<nat>) returns (error: Error, ghost moved: Dirent)
    requires vol.Valid() && DirMatches(vol.l, f, vol.View(), src, a) && DirMatches(vol.l, f, vol.View(), dst, b)
    requires ((src == dst && a == b) || Disjoint(a, b)) && file in Entries(f, vol.data, a)
    modifies vol`data
    ensures vol.Valid() && DirMatches(vol.l, f, vol.View(), src, a) && DirMatches(vol.l, f, vol.View(), dst, b)
    ensures error == NoError || error == NoSpace || error == InvalidArgument
    ensures error != NoError ==> vol.data == old(vol.data)
    ensures error == NoError ==>
              && moved.entry.name == to && moved.entry.inode == file.entry.inode
                 && moved !in Entries(f, old(vol.data), b)
              && (if a == b then Entries(f, vol.data, a) == Entries(f, old(vol.data), a) + {moved} - {file}
                  else
                    && Entries(f, vol.data, a) == Entries(f, old(vol.data), a) - {file}
                    && Entries(f, vol.data, b) == Entries(f, old(vol.data), b) + {moved})
  {
    EntryFacts(f, vol.data, a, file);
    ghost var d0, block := vol.View(), [];
    error, moved, block := Insert(vol, f, dst, to, file.entry.inode, t, b);
    if error != NoError {
      return;
    }
    ghost var d1 := vol.View();
    if a != b {
      DirAside(vol.l, f, d0, src, a, moved.block, block);
    }
    error, block := EraseEntry(vol, f, src, file, a);
    if a != b {
      DirAside(vol.l, f, d1, dst, b, file.block, block);
    }
  }

  ghost predicate UniqueNames(es: set<Dirent>) {
    forall x, y :: x in es && y in es && x.entry.name == y.entry.name ==> x == y
  }

  // An inode that is named once.
  ghost predicate OnlyName(es: set<Dirent>, x: Dirent) {
    x in es && forall y :: y in es && y.entry.inode == x.entry.inode ==> y == x
  }

  // After a move the inode is found under exactly the new name, in both
  // directories together, and every other entry is where it was.
  lemma {:induction false} MoveRenames(same: bool, src: set<Dirent>, dst: set<Dirent>, src': set<Dirent>,
                                       dst': set<Dirent>, from: seq<u8>, to: seq<u8>, former: Dirent, moved: Dirent)
    requires Moved(same, src, dst, src', dst', from, to, former, moved) && if same then src == dst else src !! dst
    requires UniqueNames(src) && UniqueNames(dst)
    ensures UniqueNames(src') && UniqueNames(dst')
    ensures Named(dst', to, moved) && forall x :: Named(dst', to, x) ==> x == moved
    ensures forall x :: !Named(src', from, x)
    ensures forall x: Dirent :: x.entry.name != from && x.entry.name != to ==>
              (x in src' <==> x in src) && (x in dst' <==> x in dst)
    ensures OnlyName(src + dst, former) ==> OnlyName(src' + dst', moved) && moved.entry.inode == former.entry.inode
  {
    if OnlyName(src + dst, former) {
      forall y | y in src' + dst' && y.entry.inode == moved.entry.inode ensures y == moved {
        assert y != moved ==> y in src + dst && y != former;
      }
    }
  }
}
