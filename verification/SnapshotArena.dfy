/**
 The arena for fork snapshots: a sorted table of free extents, first fit, full
 coalescing, and a table that never overflows.
 */
module SnapshotArena {
  import opened Machine
  import opened BlockList

  const ALIGNMENT := 16
  const WORD_LIMIT := 0xffff_ffff
  const GRAIN := Grain(ALIGNMENT, 1)

  datatype Extent = Extent(address: nat, size: nat)

  datatype Status = Success | NoSpace | InvalidArgument

  // ---- The table of free extents ----

  function FreeList(blocks: seq<Block>): seq<Extent> {
    if blocks == [] then []
    else (if blocks[0].user == 0 then [Extent(blocks[0].address, blocks[0].bytes)] else []) + FreeList(blocks[1..])
  }

  // What is handed out.
  ghost function Live(blocks: seq<Block>): set<Extent> {
    set b | b in blocks && b.user != 0 :: Extent(b.address, b.bytes)
  }

  lemma {:induction false} FreeConcat(a: seq<Block>, b: seq<Block>)
    ensures FreeList(a + b) == FreeList(a) + FreeList(b)
  {
    if a == [] {
      assert a + b == b;
    } else {
      assert (a + b)[1..] == a[1..] + b;
      FreeConcat(a[1..], b);
      SeqAssoc(if a[0].user == 0 then [Extent(a[0].address, a[0].bytes)] else [], FreeList(a[1..]), FreeList(b));
    }
  }

  // Between two free extents there is always something allocated.
  lemma {:induction false} FreeBound(blocks: seq<Block>)
    requires Apart(blocks)
    ensures |FreeList(blocks)| <= UsedCount(blocks) + 1
    ensures blocks != [] && blocks[0].user != 0 ==> |FreeList(blocks)| <= UsedCount(blocks)
  {
    if |blocks| > 1 {
      FreeBound(blocks[1..]);
    } else if |blocks| == 1 {
      assert blocks[1..] == [];
    }
  }

  // The block behind an entry of the table.
  lemma {:induction false} Locate(blocks: seq<Block>, i: nat) returns (k: nat)
    requires i < |FreeList(blocks)|
    ensures k < |blocks| && blocks[k].user == 0 && |FreeList(blocks[..k])| == i
    ensures FreeList(blocks)[i] == Extent(blocks[k].address, blocks[k].bytes)
  {
    if blocks[0].user == 0 && i == 0 {
      k := 0;
    } else {
      var n := if blocks[0].user == 0 then 1 else 0;
      k := Locate(blocks[1..], i - n);
      k := k + 1;
      assert blocks[..k][1..] == blocks[1..][..k - 1];
    }
  }

  function Erased(s: seq<Extent>, i: nat): seq<Extent>
    requires i < |s|
  {
    s[..i] + s[i + 1..]
  }

  function Inserted(s: seq<Extent>, i: nat, e: Extent): seq<Extent>
    requires i <= |s|
  {
    s[..i] + [e] + s[i..]
  }

  // ---- Allocating ----

  function Pieces(b: Block, size: nat): seq<Block>
    requires size <= b.bytes
  {
    if size == b.bytes then [Block(b.address, size, b.address)]
    else [Block(b.address, size, b.address), Block(b.address + size, b.bytes - size, 0)]
  }

  function Shrunk(f: seq<Extent>, i: nat, size: nat): seq<Extent>
    requires i < |f| && size <= f[i].size
  {
    if size == f[i].size then Erased(f, i) else f[i := Extent(f[i].address + size, f[i].size - size)]
  }

  ghost predicate Table(blocks: seq<Block>, begin: nat, end: nat) {
    && Tiles(GRAIN, blocks, begin, end) && Apart(blocks)
    && forall b :: b in blocks ==> (b.user == 0 || b.user == b.address) && 0 < b.address
  }

  lemma {:induction false} FreePieces(b: Block, size: nat)
    requires 0 < size <= b.bytes && 0 < b.address
    ensures FreeList(Pieces(b, size)) == if size == b.bytes then [] else [Extent(b.address + size, b.bytes - size)]
  {
    var pieces := Pieces(b, size);
    if size == b.bytes {
      assert pieces[1..] == [];
    } else {
      assert pieces[1..] == [pieces[1]] && [pieces[1]][1..] == [];
      assert FreeList([pieces[1]]) == [Extent(pieces[1].address, pieces[1].bytes)];
    }
  }

  lemma {:induction false} TakeKeeps(blocks: seq<Block>, begin: nat, end: nat, i: nat, k: nat, size: nat)
    requires Table(blocks, begin, end) && k < |blocks| && blocks[k].user == 0 && |FreeList(blocks[..k])| == i
    requires 0 < size <= blocks[k].bytes && Aligned(size, ALIGNMENT)
    ensures i < |FreeList(blocks)| && FreeList(blocks)[i] == Extent(blocks[k].address, blocks[k].bytes)
    ensures var now := blocks[..k] + (Pieces(blocks[k], size) + blocks[k + 1..]);
            && Table(now, begin, end) && FreeList(now) == Shrunk(FreeList(blocks), i, size)
            && UsedBytes(now) == UsedBytes(blocks) + size && UsedCount(now) == UsedCount(blocks) + 1
  {
    var left, b, right := blocks[..k], blocks[k], blocks[k + 1..];
    var pieces := Pieces(b, size);
    assert blocks == left + ([b] + right) && b in blocks;
    TakeTiles(blocks, begin, end, k, size);
    UsedReplace(left, [b], pieces, right);
    TakeFree(left, b, right, size);
    assert forall x :: x in left + (pieces + right) ==> x in left || x in pieces || x in right;
  }

  lemma {:induction false} TakeTiles(blocks: seq<Block>, begin: nat, end: nat, k: nat, size: nat)
    requires Tiles(GRAIN, blocks, begin, end) && Apart(blocks) && k < |blocks| && blocks[k].user == 0
             && 0 < blocks[k].address
    requires 0 < size <= blocks[k].bytes && Aligned(size, ALIGNMENT)
    ensures var now := blocks[..k] + (Pieces(blocks[k], size) + blocks[k + 1..]);
            Tiles(GRAIN, now, begin, end) && Apart(now)
    ensures UsedBytes(Pieces(blocks[k], size)) == size && UsedCount(Pieces(blocks[k], size)) == 1
    ensures UsedBytes([blocks[k]]) == 0 && UsedCount([blocks[k]]) == 0
  {
    var left, b, right := blocks[..k], blocks[k], blocks[k + 1..];
    var pieces := Pieces(b, size);
    assert blocks == left + ([b] + right);
    TilesWithin(GRAIN, blocks, begin, end, k);
    OnePiece(GRAIN, b);
    if size == b.bytes {
      OnePiece(GRAIN, pieces[0]);
    } else {
      AlignedSum(b.address, size, ALIGNMENT);
      TwoPieces(GRAIN, pieces[0], pieces[1]);
    }
    TilesReplaceAt(GRAIN, blocks, k, pieces, begin, end);
    CarvedApart(left, b, pieces, right);
  }

  lemma {:induction false} TakeFree(left: seq<Block>, b: Block, right: seq<Block>, size: nat)
    requires b.user == 0 && 0 < size <= b.bytes && 0 < b.address
    ensures var f := FreeList(left + ([b] + right));
            && |FreeList(left)| < |f| && f[|FreeList(left)|] == Extent(b.address, b.bytes)
            && FreeList(left + (Pieces(b, size) + right)) == Shrunk(f, |FreeList(left)|, size)
  {
    FreeConcat(left, [b] + right);
    FreeConcat([b], right);
    FreeConcat(left, Pieces(b, size) + right);
    FreeConcat(Pieces(b, size), right);
    FreePieces(b, size);
    assert [b][1..] == [];
  }

  // ---- Releasing ----

  // How many free extents lie before an address.
  ghost predicate PositionOf(f: seq<Extent>, address: nat, p: nat) {
    && p <= |f| && (forall i :: 0 <= i < p ==> f[i].address < address) && (p < |f| ==> address <= f[p].address)
  }

  // The table after an extent at position p comes back.
  function Restored(f: seq<Extent>, p: nat, a: Extent): seq<Extent>
    requires p <= |f|
  {
    var previous := p > 0 && f[p - 1].address + f[p - 1].size == a.address;
    var next := p < |f| && a.address + a.size == f[p].address;
    if previous && next then Erased(f[p - 1 := Extent(f[p - 1].address, f[p - 1].size + a.size + f[p].size)], p)
    else if previous then f[p - 1 := Extent(f[p - 1].address, f[p - 1].size + a.size)]
    else if next then f[p := Extent(a.address, a.size + f[p].size)]
    else Inserted(f, p, a)
  }

  // Free extents of a tiled list lie inside its range, in order.
  lemma {:induction false} FreeWithin(blocks: seq<Block>, begin: nat, end: nat, i: nat)
    requires Tiles(GRAIN, blocks, begin, end) && i < |FreeList(blocks)|
    ensures begin <= FreeList(blocks)[i].address && 0 < FreeList(blocks)[i].size
    ensures FreeList(blocks)[i].address + FreeList(blocks)[i].size <= end
  {
    var k := Locate(blocks, i);
    TilesWithin(GRAIN, blocks, begin, end, k);
  }

  // Which neighbours of a used block are free can be read off the table.
  lemma {:induction false} Neighbours(left: seq<Block>, b: Block, right: seq<Block>, begin: nat, end: nat)
    requires Tiles(GRAIN, left + ([b] + right), begin, end) && b.user != 0
    ensures var f := FreeList(left + ([b] + right));
            var p := |FreeList(left)|;
            && PositionOf(f, b.address, p) && f == FreeList(left) + FreeList(right)
            && ((p > 0 && f[p - 1].address + f[p - 1].size == b.address) <==> FreeLast(left))
            && ((p < |f| && b.address + b.bytes == f[p].address) <==> FreeFirst(right))
            && (p > 0 ==> f[p - 1].address + f[p - 1].size <= b.address)
               && (p < |f| ==> b.address + b.bytes <= f[p].address)
    ensures Edges(left, b, right)
  {
    FreeConcat(left, [b] + right);
    FreeConcat([b], right);
    assert [b][1..] == [] && FreeList([b]) == [];
    var lo := TilesSplit(GRAIN, left, [b] + right, begin, end);
    assert ([b] + right)[0] == b && ([b] + right)[1..] == right;
    LeftEdge(left, begin, lo);
    RightEdge(right, lo + b.bytes, end);
    forall i | 0 <= i < |FreeList(left)| ensures FreeList(left)[i].address < b.address {
      FreeWithin(left, begin, lo, i);
    }
  }

  lemma {:induction false} LeftEdge(left: seq<Block>, begin: nat, end: nat)
    requires Tiles(GRAIN, left, begin, end)
    ensures var f := FreeList(left);
            && ((f != [] && f[|f| - 1].address + f[|f| - 1].size == end) <==> FreeLast(left))
            && (f != [] ==> f[|f| - 1].address + f[|f| - 1].size <= end)
    ensures FreeLast(left) ==>
              FreeList(left) == FreeList(left[..|left| - 1])
                + [Extent(left[|left| - 1].address, left[|left| - 1].bytes)]
  {
    if left != [] {
      var n := |left| - 1;
      assert left == left[..n] + [left[n]];
      FreeConcat(left[..n], [left[n]]);
      assert [left[n]][1..] == [];
      var middle := TilesSplit(GRAIN, left[..n], [left[n]], begin, end);
      assert end == middle + left[n].bytes;
      if FreeList(left[..n]) != [] {
        FreeWithin(left[..n], begin, middle, |FreeList(left[..n])| - 1);
      }
    }
  }

  lemma {:induction false} RightEdge(right: seq<Block>, begin: nat, end: nat)
    requires Tiles(GRAIN, right, begin, end)
    ensures var f := FreeList(right);
            && ((f != [] && f[0].address == begin) <==> FreeFirst(right))
            && (f != [] ==> begin <= f[0].address)
    ensures FreeFirst(right) ==> FreeList(right) == [Extent(right[0].address, right[0].bytes)] + FreeList(right[1..])
  {
    if right != [] && FreeList(right[1..]) != [] {
      FreeWithin(right[1..], begin + right[0].bytes, end, 0);
    }
  }

  lemma {:induction false} RestoredFree(left: seq<Block>, b: Block, right: seq<Block>, begin: nat, end: nat)
    requires Tiles(GRAIN, left + ([b] + right), begin, end) && b.user != 0
    ensures |FreeList(left)| <= |FreeList(left + ([b] + right))|
    ensures FreeList(Coalesced(left + ([b] + right), |left|))
         == Restored(FreeList(left + ([b] + right)), |FreeList(left)|, Extent(b.address, b.bytes))
  {
    Neighbours(left, b, right, begin, end);
    CoalescedShape(left, b, right);
    FreeThree(LeftRest(left), Absorbed(left, b, right), RightRest(right));
    RestoredParts(left, b, right);
  }

  // Both neighbours of the returned block can be read off the table.
  ghost predicate Edges(left: seq<Block>, b: Block, right: seq<Block>) {
    var l, r := FreeList(left), FreeList(right);
    && ((l != [] && l[|l| - 1].address + l[|l| - 1].size == b.address) <==> FreeLast(left))
    && ((r != [] && b.address + b.bytes == r[0].address) <==> FreeFirst(right))
    && (FreeLast(left) ==> l == FreeList(LeftRest(left)) + [Extent(left[|left| - 1].address, left[|left| - 1].bytes)])
    && (FreeFirst(right) ==> r == [Extent(right[0].address, right[0].bytes)] + FreeList(RightRest(right)))
  }

  lemma {:induction false} RestoredParts(left: seq<Block>, b: Block, right: seq<Block>)
    requires Edges(left, b, right)
    ensures var f := Absorbed(left, b, right);
            (Restored(FreeList(left) + FreeList(right), |FreeList(left)|, Extent(b.address, b.bytes))
             == FreeList(LeftRest(left)) + ([Extent(f.address, f.bytes)] + FreeList(RightRest(right))))
  {
    var a := Extent(b.address, b.bytes);
    var x := if FreeLast(left) then Extent(left[|left| - 1].address, left[|left| - 1].bytes) else a;
    var y := if FreeFirst(right) then Extent(right[0].address, right[0].bytes) else a;
    RestoredCases(FreeList(left), FreeList(LeftRest(left)), x, a, y, FreeList(RightRest(right)), FreeList(right),
                  FreeLast(left), FreeFirst(right));
  }

  lemma {:induction false} RestoredCases(l: seq<Extent>, l': seq<Extent>, x: Extent, a: Extent, y: Extent,
                                         r': seq<Extent>, r: seq<Extent>,
                                         previous: bool, next: bool)
    requires (l != [] && l[|l| - 1].address + l[|l| - 1].size == a.address) <==> previous
    requires (r != [] && a.address + a.size == r[0].address) <==> next
    requires (if previous then l == l' + [x] else l == l') && (if next then r == [y] + r' else r == r')
    ensures Restored(l + r, |l|, a)
         == l' + ([Extent(if previous then x.address else a.address,
                          (if previous then x.size else 0) + a.size + (if next then y.size else 0))] + r')
  {
    if previous && next {
      RestoredBoth(l', x, a, y, r');
    } else if previous {
      RestoredLeft(l', x, a, r);
    } else if next {
      RestoredRight(l, a, y, r');
    } else {
      assert Restored(l + r, |l|, a) == Inserted(l + r, |l|, a);
    }
  }

  lemma {:induction false} RestoredBoth(l: seq<Extent>, x: Extent, a: Extent, y: Extent, r: seq<Extent>)
    requires x.address + x.size == a.address && a.address + a.size == y.address
    ensures Restored((l + [x]) + ([y] + r), |l + [x]|, a) == l + ([Extent(x.address, x.size + a.size + y.size)] + r)
  {
  }

  lemma {:induction false} RestoredLeft(l: seq<Extent>, x: Extent, a: Extent, r: seq<Extent>)
    requires x.address + x.size == a.address && !(r != [] && a.address + a.size == r[0].address)
    ensures Restored((l + [x]) + r, |l + [x]|, a) == l + ([Extent(x.address, x.size + a.size)] + r)
  {
  }

  lemma {:induction false} RestoredRight(l: seq<Extent>, a: Extent, y: Extent, r: seq<Extent>)
    requires a.address + a.size == y.address && !(l != [] && l[|l| - 1].address + l[|l| - 1].size == a.address)
    ensures Restored(l + ([y] + r), |l|, a) == l + ([Extent(a.address, a.size + y.size)] + r)
  {
  }

  lemma {:induction false} FreeThree(left: seq<Block>, f: Block, right: seq<Block>)
    requires f.user == 0
    ensures FreeList(left + ([f] + right)) == FreeList(left) + ([Extent(f.address, f.bytes)] + FreeList(right))
  {
    FreeConcat(left, [f] + right);
    FreeConcat([f], right);
    assert [f][1..] == [] && FreeList([f]) == [Extent(f.address, f.bytes)];
  }

  lemma {:induction false} ReturnKeeps(blocks: seq<Block>, begin: nat, end: nat, k: nat)
    requires Table(blocks, begin, end) && k < |blocks| && blocks[k].user != 0
    ensures var b, f, p := blocks[k], FreeList(blocks), |FreeList(blocks[..k])|;
            && Table(Coalesced(blocks, k), begin, end) && PositionOf(f, b.address, p)
            && FreeList(Coalesced(blocks, k)) == Restored(f, p, Extent(b.address, b.bytes))
            && (p > 0 ==> f[p - 1].address + f[p - 1].size <= b.address)
               && (p < |f| ==> b.address + b.bytes <= f[p].address)
            && UsedBytes(Coalesced(blocks, k)) == UsedBytes(blocks) - b.bytes
               && UsedCount(Coalesced(blocks, k)) == UsedCount(blocks) - 1
  {
    var left, b, right := blocks[..k], blocks[k], blocks[k + 1..];
    assert blocks == left + ([b] + right);
    CoalescedTiles(GRAIN, blocks, begin, end, k);
    Neighbours(left, b, right, begin, end);
    RestoredFree(left, b, right, begin, end);
    CoalescedUsers(blocks, k);
  }

  // Joining blocks gives nobody a new address.
  lemma {:induction false} CoalescedUsers(blocks: seq<Block>, k: nat)
    requires k < |blocks| && forall b :: b in blocks ==> (b.user == 0 || b.user == b.address) && 0 < b.address
    ensures forall b :: b in Coalesced(blocks, k) ==> (b.user == 0 || b.user == b.address) && 0 < b.address
    ensures forall b :: b in Coalesced(blocks, k) && b.user != 0 ==> b in blocks
  {
    var one := blocks[k := blocks[k].(user := 0)];
    assert blocks[k] in blocks;
    JoinUsers(one, k);
    var two := JoinNext(one, k);
    if k > 0 {
      JoinUsers(two, k - 1);
    }
  }

  lemma {:induction false} JoinUsers(blocks: seq<Block>, k: nat)
    requires k < |blocks| && forall b :: b in blocks ==> (b.user == 0 || b.user == b.address) && 0 < b.address
    ensures k + 1 < |blocks| && blocks[k].user == 0 ==>
              && (forall b :: b in Join(blocks, k) ==> (b.user == 0 || b.user == b.address) && 0 < b.address)
              && (forall b :: b in Join(blocks, k) && b.user != 0 ==> b in blocks)
  {
    if k + 1 < |blocks| && blocks[k].user == 0 {
      assert blocks[k] in blocks;
      forall b | b in Join(blocks, k) ensures b == Merged(blocks[k], blocks[k + 1]) || b in blocks {
      }
    }
  }

  // ---- The arena ----

  function RoundUp(n: nat): nat {
    (n + (ALIGNMENT - 1)) / ALIGNMENT * ALIGNMENT
  }

  lemma {:induction false} RoundFacts(n: nat)
    ensures n <= RoundUp(n) < n + ALIGNMENT && RoundUp(n) % ALIGNMENT == 0 && Aligned(RoundUp(n), ALIGNMENT)
  {
    AlignedIsModulo(RoundUp(n), ALIGNMENT);
  }

  // release() refuses these outright.
  predicate Refused(a: Extent, begin: nat, end: nat, taken: nat) {
    || a.address == 0 || a.size == 0 || begin == 0 || a.address % ALIGNMENT != 0 || a.size % ALIGNMENT != 0
    || a.address < begin || a.address >= end || a.size > end - a.address || a.size > taken
  }

  class Snapshots {
    const free: array<Extent>
    var count: nat
    var begin: nat
    var end: nat
    var taken: nat
    ghost var blocks: seq<Block>

    ghost predicate Valid()
      reads this, free
    {
      && 0 < free.Length && count <= free.Length && free[..count] == FreeList(blocks)
      && Table(blocks, begin, end) && (begin == 0 ==> blocks == []) && end <= WORD_LIMIT
      && taken == UsedBytes(blocks) && (begin != 0 ==> begin < end && Aligned(end, ALIGNMENT))
    }

    constructor (capacity: nat)
      requires 0 < capacity
      ensures Valid() && fresh(free) && free.Length == capacity && begin == 0 && blocks == []
    {
      free := new Extent[capacity](_ => Extent(0, 0));
      count, begin, end, taken, blocks := 0, 0, 0, 0, [];
      new;
      assert free[..0] == [];
    }

    method Initialize(from: u32, to: u32) returns (status: Status)
      requires Valid()
      modifies this, free
      ensures Valid() && (status == Success || status == InvalidArgument)
      ensures status == Success ==> from <= begin < end <= to && blocks == [Block(begin, end - begin, 0)]
      ensures status == InvalidArgument ==> blocks == old(blocks) && begin == old(begin) && end == old(end)
      ensures status == InvalidArgument <==>
                (from + 15) % 0x1_0000_0000 / 16 * 16 == 0 || (from + 15) % 0x1_0000_0000 / 16 * 16 >= to / 16 * 16
    {
      var first := (from + 15) % 0x1_0000_0000 / 16 * 16;
      var last := to / 16 * 16;
      if first == 0 || first >= last {
        return InvalidArgument;
      }
      AlignedIsModulo(first, ALIGNMENT);
      AlignedIsModulo(last, ALIGNMENT);
      OnePiece(GRAIN, Block(first, last - first, 0));
      begin, end, taken := first, last, 0;
      blocks := [Block(first, last - first, 0)];
      free[0] := Extent(first, last - first);
      count := 1;
      assert blocks[1..] == [];
      for i := 1 to free.Length
        modifies free
        invariant free[0] == Extent(first, last - first)
      {
        free[i] := Extent(0, 0);
      }
      status := Success;
    }

    // erase(): the entries behind close the gap.
    method EraseAt(position: nat)
      requires position < count <= free.Length
      modifies this`count, free
      ensures count == old(count) - 1 && free[..count] == Erased(old(free[..count]), position)
    {
      ghost var s := free[..count];
      for i := position + 1 to count
        modifies free
        invariant forall k :: 0 <= k < position ==> free[k] == s[k]
        invariant forall k :: position <= k < i - 1 ==> free[k] == s[k + 1]
        invariant forall k :: i - 1 < k < count ==> free[k] == s[k]
        invariant i - 1 < count
      {
        free[i - 1] := free[i];
      }
      count := count - 1;
      free[count] := Extent(0, 0);
    }

    // The entries behind make room for one more.
    method InsertAt(position: nat, e: Extent)
      requires position <= count < free.Length
      modifies this`count, free
      ensures count == old(count) + 1 && free[..count] == Inserted(old(free[..count]), position, e)
    {
      ghost var s := free[..count];
      var i := count;
      while i > position
        modifies free
        invariant position <= i <= count
        invariant forall k :: 0 <= k < i ==> free[k] == s[k]
        invariant forall k :: i < k <= count ==> free[k] == s[k - 1]
      {
        free[i] := free[i - 1];
        i := i - 1;
      }
      free[position] := e;
      count := count + 1;
    }

    // allocate(): the front of the first extent that is large enough.
    method Allocate(requested: u32) returns (a: Extent)
      requires Valid()
      modifies this, free
      ensures Valid() && begin == old(begin) && end == old(end)
      ensures a.size == 0 <==>
                || requested == 0 || begin == 0 || requested > WORD_LIMIT - (ALIGNMENT - 1)
                || forall i :: 0 <= i < |FreeList(old(blocks))| ==> FreeList(old(blocks))[i].size < RoundUp(requested)
      ensures a.size == 0 ==> blocks == old(blocks)
      ensures a.size != 0 ==>
                && a.size == RoundUp(requested) && a.address % ALIGNMENT == 0 && a !in Live(old(blocks))
                && Live(blocks) == Live(old(blocks)) + {a} && UsedCount(blocks) == UsedCount(old(blocks)) + 1
                && (exists i :: FirstFit(FreeList(old(blocks)), a, i)) && Took(old(blocks), blocks, a)
    {
      if requested == 0 || begin == 0 || requested > WORD_LIMIT - (ALIGNMENT - 1) {
        return Extent(0, 0);
      }
      var size := RoundUp(requested);
      RoundFacts(requested);
      ghost var f := FreeList(blocks);
      var i := FindFit(size);
      if i == count {
        return Extent(0, 0);
      }
      ghost var before := blocks;
      a := TakeAt(i, size);
      assert FirstFit(f, a, i);
      TookOut(before, blocks, begin, end, a);
    }

    method FindFit(size: nat) returns (i: nat)
      requires Valid()
      ensures i <= count && (i < count ==> FreeList(blocks)[i].size >= size)
      ensures forall j :: 0 <= j < i ==> FreeList(blocks)[j].size < size
    {
      i := 0;
      while i < count && free[i].size < size
        invariant 0 <= i <= count && forall j :: 0 <= j < i ==> FreeList(blocks)[j].size < size
      {
        assert free[i] == free[..count][i];
        i := i + 1;
      }
      assert i < count ==> free[i] == free[..count][i];
    }

    method TakeAt(i: nat, size: nat) returns (a: Extent)
      requires Valid() && i < count && 0 < size <= FreeList(blocks)[i].size && Aligned(size, ALIGNMENT)
      modifies this, free
      ensures Valid() && begin == old(begin) && end == old(end)
      ensures a == Extent(FreeList(old(blocks))[i].address, size) && a.address % ALIGNMENT == 0
              && a !in Live(old(blocks))
      ensures Live(blocks) == Live(old(blocks)) + {a} && UsedCount(blocks) == UsedCount(old(blocks)) + 1
    {
      ghost var f := FreeList(blocks);
      ghost var k := Locate(blocks, i);
      TakeKeeps(blocks, begin, end, i, k, size);
      TakeLive(blocks, begin, end, k, size);
      assert free[i] == free[..count][i];
      a := Extent(free[i].address, size);
      free[i] := Extent(free[i].address + size, free[i].size - size);
      assert free[..count] == f[i := Extent(f[i].address + size, f[i].size - size)];
      if free[i].size == 0 {
        EraseAt(i);
        assert free[..count] == Erased(f, i);
      }
      taken := taken + size;
      blocks := blocks[..k] + (Pieces(blocks[k], size) + blocks[k + 1..]);
    }

    // Where an extent belongs in the table.
    method FindPosition(a: Extent) returns (p: nat)
      requires Valid()
      ensures PositionOf(FreeList(blocks), a.address, p)
    {
      p := 0;
      while p < count && free[p].address < a.address
        invariant 0 <= p <= count && forall i :: 0 <= i < p ==> FreeList(blocks)[i].address < a.address
      {
        assert free[p] == free[..count][p];
        p := p + 1;
      }
      assert p < count ==> free[p] == free[..count][p];
    }

    // The four ways an extent comes back.
    method PutBack(p: nat, a: Extent) returns (status: Status)
      requires p <= count <= free.Length
      modifies this`count, free
      ensures count <= free.Length && (status == Success || status == NoSpace)
      ensures status == NoSpace <==> |Restored(old(free[..count]), p, a)| > free.Length
      ensures free[..count] == if status == Success then Restored(old(free[..count]), p, a) else old(free[..count])
    {
      ghost var f := free[..count];
      assert p > 0 ==> free[p - 1] == f[p - 1];
      assert p < count ==> free[p] == f[p];
      var mergePrevious := p != 0 && free[p - 1].address + free[p - 1].size == a.address;
      var mergeNext := p != count && a.address + a.size == free[p].address;
      if mergePrevious {
        free[p - 1] := Extent(free[p - 1].address, free[p - 1].size + a.size);
        if mergeNext {
          free[p - 1] := Extent(free[p - 1].address, free[p - 1].size + free[p].size);
          assert free[..count] == f[p - 1 := Extent(f[p - 1].address, f[p - 1].size + a.size + f[p].size)];
          EraseAt(p);
        }
      } else if mergeNext {
        free[p] := Extent(a.address, free[p].size + a.size);
      } else {
        if count == free.Length {
          return NoSpace;
        }
        InsertAt(p, a);
      }
      status := Success;
    }

    // release(): anything that is handed out can come back while no more
    // allocations are live than the table has entries. A caller that returns
    // some other range gets it accepted as long as none of it is free.
    method Release(a: Extent) returns (status: Status)
      requires Valid()
      modifies this, free
      ensures Valid() && begin == old(begin) && end == old(end)
      ensures status == InvalidArgument <==> Refused(a, begin, end, old(taken)) || Meeting(FreeList(old(blocks)), a)
      ensures a in Live(old(blocks)) ==> status != InvalidArgument
      ensures Answered(old(blocks), blocks, a, free.Length, status)
    {
      if a in Live(blocks) {
        NotRefused(blocks, begin, end, a);
        LiveApart(blocks, begin, end, a);
      }
      if Refused(a, begin, end, taken) {
        return InvalidArgument;
      }
      var p := FindPosition(a);
      Conflicts(blocks, begin, end, a, p);
      assert p > 0 ==> free[p - 1] == free[..count][p - 1];
      assert p < count ==> free[p] == free[..count][p];
      if (p != 0 && free[p - 1].address + free[p - 1].size > a.address)
         || (p != count && a.address + a.size > free[p].address) {
        return InvalidArgument;
      }
      status := Accept(p, a);
    }

    method Accept(p: nat, a: Extent) returns (status: Status)
      requires Valid() && !Refused(a, begin, end, taken) && PositionOf(FreeList(blocks), a.address, p)
               && !Meeting(FreeList(blocks), a)
      modifies this, free
      ensures Valid() && begin == old(begin) && end == old(end) && status != InvalidArgument
      ensures Answered(old(blocks), blocks, a, free.Length, status)
    {
      ghost var next := Regained(blocks, begin, end, a, p, free.Length);
      status := PutBack(p, a);
      if status == Success {
        taken := taken - a.size;
        blocks := next;
      }
    }

    // invariant(): the arena's own check never fails once it has a range.
    method Invariant() returns (ok: bool)
      requires Valid()
      ensures ok <==> begin != 0
    {
      if begin == 0 || begin >= end || count > free.Length || taken > end - begin {
        SumFree(blocks, begin, end);
        return false;
      }
      var bytes, previous := 0, begin;
      ghost var f := FreeList(blocks);
      for i := 0 to count
        invariant bytes == Sum(f[..i]) && previous == if i == 0 then begin else f[i - 1].address + f[i - 1].size
      {
        assert free[i] == free[..count][i];
        FreeWithin(blocks, begin, end, i);
        if i > 0 {
          FreeSorted(blocks, begin, end, i - 1);
        }
        if free[i].size == 0 || free[i].address < previous || free[i].address < begin || free[i].address >= end
           || free[i].size > end - free[i].address {
          return false;
        }
        previous := free[i].address + free[i].size;
        bytes := bytes + free[i].size;
        assert f[..i + 1][..i] == f[..i];
      }
      assert f[..count] == f;
      SumFree(blocks, begin, end);
      ok := bytes == end - begin - taken;
    }
  }

  predicate Overlap(e: Extent, a: Extent) {
    e.address < a.address + a.size && a.address < e.address + e.size
  }

  ghost predicate Meeting(f: seq<Extent>, a: Extent) {
    exists e :: e in f && Overlap(e, a)
  }

  predicate Touch(e: Extent, a: Extent) {
    e.address + e.size == a.address || a.address + a.size == e.address
  }

  ghost predicate Freed(f: seq<Extent>, x: nat) {
    exists e :: e in f && Within(e, x)
  }

  // The range is free now and nothing else is; what did not meet it is still
  // handed out.
  ghost predicate Gave(blocks: seq<Block>, now: seq<Block>, a: Extent) {
    && (forall x: nat :: Freed(FreeList(now), x) <==> Freed(FreeList(blocks), x) || Within(a, x))
    && (forall e :: e in Live(blocks) && !Overlap(e, a) ==> e in Live(now))
    && UsedBytes(now) == UsedBytes(blocks) - a.size
  }

  // The range was free and is not any more; nothing else changed.
  ghost predicate Took(blocks: seq<Block>, now: seq<Block>, a: Extent) {
    forall x: nat :: (Freed(FreeList(now), x) <==> Freed(FreeList(blocks), x) && !Within(a, x))
             && (Within(a, x) ==> Freed(FreeList(blocks), x))
  }

  lemma {:induction false} TookOut(blocks: seq<Block>, now: seq<Block>, begin: nat, end: nat, a: Extent)
    requires Table(blocks, begin, end) && Table(now, begin, end) && a !in Live(blocks)
             && Live(now) == Live(blocks) + {a}
    ensures Took(blocks, now, a)
  {
    assert Live(blocks) == Live(now) - {a};
    var k := FindLive(now, a);
    TilesWithin(GRAIN, now, begin, end, k);
    forall x: nat
      ensures Freed(FreeList(now), x) <==> Freed(FreeList(blocks), x) && !Within(a, x)
      ensures Within(a, x) ==> Freed(FreeList(blocks), x)
    {
      FreedWithout(now, blocks, begin, end, a, x);
      if Within(a, x) {
        Complement(now, begin, end, x);
      }
    }
  }

  // What a release does: it succeeds unless the table is full and the range
  // touches nothing in it, which cannot happen while no more allocations are
  // live than the table has entries.
  ghost predicate Answered(blocks: seq<Block>, now: seq<Block>, a: Extent, capacity: nat, status: Status) {
    && (status != Success ==> now == blocks)
    && (status == Success ==> Gave(blocks, now, a))
    && (status == NoSpace ==> |FreeList(blocks)| == capacity && forall e :: e in FreeList(blocks) ==> !Touch(e, a))
    && (a in Live(blocks) ==>
          && (status == NoSpace ==> UsedCount(blocks) > capacity)
          && (status == Success ==> Live(now) == Live(blocks) - {a} && UsedCount(now) == UsedCount(blocks) - 1))
  }

  function Sum(f: seq<Extent>): nat {
    if f == [] then 0 else Sum(f[..|f| - 1]) + f[|f| - 1].size
  }

  lemma {:induction false} SumConcat(f: seq<Extent>, g: seq<Extent>)
    ensures Sum(f + g) == Sum(f) + Sum(g)
  {
    if g == [] {
      assert f + g == f;
    } else {
      var n := |g| - 1;
      assert (f + g)[..|f + g| - 1] == f + g[..n];
      SumConcat(f, g[..n]);
    }
  }

  // What is free and what is handed out make up the range.
  lemma {:induction false} SumFree(blocks: seq<Block>, begin: nat, end: nat)
    requires Tiles(GRAIN, blocks, begin, end)
    ensures Sum(FreeList(blocks)) + UsedBytes(blocks) == end - begin
  {
    if blocks != [] {
      SumFree(blocks[1..], begin + blocks[0].bytes, end);
      var own := if blocks[0].user == 0 then [Extent(blocks[0].address, blocks[0].bytes)] else [];
      SumConcat(own, FreeList(blocks[1..]));
      assert own != [] ==> own[..0] == [];
    }
  }

  // ---- Ranges that are not what was handed out ----

  // Free extents in order do not meet.
  lemma {:induction false} FreeOrder(blocks: seq<Block>, begin: nat, end: nat, i: nat, j: nat)
    requires Table(blocks, begin, end) && i < j < |FreeList(blocks)|
    ensures FreeList(blocks)[i].address + FreeList(blocks)[i].size < FreeList(blocks)[j].address
  {
    FreeSorted(blocks, begin, end, j - 1);
    FreeWithin(blocks, begin, end, j - 1);
    if i < j - 1 {
      FreeOrder(blocks, begin, end, i, j - 1);
    }
  }

  // Looking at the two neighbours finds every conflict.
  lemma {:induction false} Conflicts(blocks: seq<Block>, begin: nat, end: nat, a: Extent, p: nat)
    requires Table(blocks, begin, end) && PositionOf(FreeList(blocks), a.address, p) && 0 < a.size
    ensures var f := FreeList(blocks);
            Meeting(f, a) <==>
              (p > 0 && f[p - 1].address + f[p - 1].size > a.address) || (p < |f| && a.address + a.size > f[p].address)
  {
    var f := FreeList(blocks);
    if p > 0 && f[p - 1].address + f[p - 1].size > a.address {
      assert f[p - 1] in f && Overlap(f[p - 1], a);
    } else if p < |f| && a.address + a.size > f[p].address {
      FreeWithin(blocks, begin, end, p);
      assert f[p] in f && Overlap(f[p], a);
    } else {
      forall i | 0 <= i < |f| ensures !Overlap(f[i], a) {
        if i < p - 1 {
          FreeOrder(blocks, begin, end, i, p - 1);
        } else if p < i {
          FreeOrder(blocks, begin, end, p, i);
        }
      }
    }
  }

  ghost predicate Clear(blocks: seq<Block>, a: Extent) {
    forall b :: b in blocks && b.user == 0 ==> !Overlap(Extent(b.address, b.bytes), a)
  }

  lemma {:induction false} InFree(blocks: seq<Block>, k: nat)
    requires k < |blocks| && blocks[k].user == 0
    ensures Extent(blocks[k].address, blocks[k].bytes) in FreeList(blocks)
  {
    var left, right := blocks[..k], blocks[k + 1..];
    assert blocks == left + ([blocks[k]] + right);
    FreeThree(left, blocks[k], right);
    assert Extent(blocks[k].address, blocks[k].bytes)
           == (FreeList(left) + ([Extent(blocks[k].address, blocks[k].bytes)] + FreeList(right)))[|FreeList(left)|];
  }

  // The same bytes handed out in other pieces; only pieces that meet the range
  // differ.
  ghost predicate Recut(blocks: seq<Block>, now: seq<Block>, begin: nat, end: nat, a: Extent) {
    && Table(now, begin, end) && FreeList(now) == FreeList(blocks) && UsedBytes(now) == UsedBytes(blocks)
    && now != [] && blocks != [] && (now[0].user == 0 <==> blocks[0].user == 0)
    && forall b :: b in blocks && b.user != 0 && !Overlap(Extent(b.address, b.bytes), a) ==> b in now
  }

  // A range with nothing free in it can be seen as one piece.
  lemma {:induction false} RecutFor(blocks: seq<Block>, begin: nat, end: nat, a: Extent) returns (now: seq<Block>)
    requires Table(blocks, begin, end) && begin <= a.address && a.address + a.size <= end && 0 < a.size
             && Clear(blocks, a)
    requires Aligned(a.address, ALIGNMENT) && Aligned(a.address + a.size, ALIGNMENT)
    ensures Recut(blocks, now, begin, end, a) && Block(a.address, a.size, a.address) in now
    decreases |blocks|, a.address - begin
  {
    var b := blocks[0];
    assert b in blocks;
    if begin + b.bytes <= a.address {
      RestTable(blocks, begin, end, a);
      var behind := RecutFor(blocks[1..], begin + b.bytes, end, a);
      now := RecutBehind(blocks, behind, begin, end, a);
    } else if begin < a.address {
      CutRecut(blocks, begin, end, a.address - begin, a);
      var cut := Cut(blocks, a.address - begin);
      RestTable(cut, begin, end, a);
      var behind := RecutFor(cut[1..], a.address, end, a);
      now := RecutBehind(cut, behind, begin, end, a);
      RecutThrough(blocks, cut, now, begin, end, a);
    } else if b.bytes == a.size {
      now := blocks;
    } else if b.bytes > a.size {
      CutRecut(blocks, begin, end, a.size, a);
      now := Cut(blocks, a.size);
      assert now[0] in now;
    } else {
      NextUsed(blocks, begin, end, a);
      FuseRecut(blocks, begin, end, a);
      now := RecutFor(Fused(blocks), begin, end, a);
      RecutThrough(blocks, Fused(blocks), now, begin, end, a);
    }
  }

  lemma {:induction false} RestTable(blocks: seq<Block>, begin: nat, end: nat, a: Extent)
    requires Table(blocks, begin, end) && blocks != [] && Clear(blocks, a)
    ensures Table(blocks[1..], begin + blocks[0].bytes, end) && Clear(blocks[1..], a)
  {
    assert forall x :: x in blocks[1..] ==> x in blocks;
  }

  lemma {:induction false} RecutThrough(blocks: seq<Block>, cut: seq<Block>, now: seq<Block>, begin: nat, end: nat,
                                        a: Extent)
    requires Recut(blocks, cut, begin, end, a) && Recut(cut, now, begin, end, a)
    ensures Recut(blocks, now, begin, end, a)
  {
  }

  lemma {:induction false} RecutBehind(blocks: seq<Block>, behind: seq<Block>, begin: nat, end: nat, a: Extent)
    returns (now: seq<Block>)
    requires Table(blocks, begin, end) && blocks != [] && Recut(blocks[1..], behind, begin + blocks[0].bytes, end, a)
    ensures Recut(blocks, now, begin, end, a) && forall b :: b in behind ==> b in now
  {
    now := [blocks[0]] + behind;
    assert blocks == [blocks[0]] + blocks[1..] && now[1..] == behind && blocks[0] in blocks;
  }

  // A used block in front, cut in two.
  function Cut(blocks: seq<Block>, n: nat): seq<Block>
    requires blocks != [] && n < blocks[0].bytes
  {
    var b := blocks[0];
    [Block(b.address, n, b.address)] + ([Block(b.address + n, b.bytes - n, b.address + n)] + blocks[1..])
  }

  lemma {:induction false} CutRecut(blocks: seq<Block>, begin: nat, end: nat, n: nat, a: Extent)
    requires Table(blocks, begin, end) && blocks != [] && 0 < n < blocks[0].bytes && Clear(blocks, a)
    requires Aligned(begin + n, ALIGNMENT) && Overlap(Extent(blocks[0].address, blocks[0].bytes), a)
    ensures Recut(blocks, Cut(blocks, n), begin, end, a) && Clear(Cut(blocks, n), a)
  {
    var b, rest := blocks[0], blocks[1..];
    assert b in blocks && blocks == [b] + rest;
    var x, y := Block(b.address, n, b.address), Block(b.address + n, b.bytes - n, b.address + n);
    var tail := [y] + rest;
    assert Cut(blocks, n) == [x] + tail && ([x] + tail)[1..] == tail && tail[1..] == rest;
    ApartConcat([y], rest);
    ApartConcat([x], tail);
  }

  // Two used blocks in front, seen as one.
  function Fused(blocks: seq<Block>): seq<Block>
    requires |blocks| > 1
  {
    [Merged(blocks[0], blocks[1])] + blocks[2..]
  }

  lemma {:induction false} NextUsed(blocks: seq<Block>, begin: nat, end: nat, a: Extent)
    requires Table(blocks, begin, end) && Clear(blocks, a) && blocks != []
    requires begin == a.address && blocks[0].bytes < a.size && a.address + a.size <= end
    ensures |blocks| > 1 && blocks[0].user != 0 && blocks[1].user != 0
    ensures Overlap(Extent(blocks[0].address, blocks[0].bytes), a)
            && Overlap(Extent(blocks[1].address, blocks[1].bytes), a)
  {
    var rest := blocks[1..];
    assert Tiles(GRAIN, rest, begin + blocks[0].bytes, end);
    assert rest != [] && rest[0] == blocks[1];
    assert blocks[0] in blocks && blocks[1] in blocks;
  }

  lemma {:induction false} FuseRecut(blocks: seq<Block>, begin: nat, end: nat, a: Extent)
    requires Table(blocks, begin, end) && Clear(blocks, a) && |blocks| > 1 && blocks[0].user != 0 && blocks[1].user != 0
    requires Overlap(Extent(blocks[0].address, blocks[0].bytes), a)
             && Overlap(Extent(blocks[1].address, blocks[1].bytes), a)
    ensures Recut(blocks, Fused(blocks), begin, end, a) && Clear(Fused(blocks), a)
  {
    var x, y, rest := blocks[0], blocks[1], blocks[2..];
    assert blocks == [x, y] + rest && x in blocks && y in blocks;
    assert blocks[1..] == [y] + rest && ([y] + rest)[1..] == rest && Fused(blocks)[1..] == rest;
    assert Tiles(GRAIN, [y] + rest, begin + x.bytes, end);
    assert UsedBytes(blocks) == x.bytes + UsedBytes([y] + rest) && FreeList(blocks) == FreeList([y] + rest);
    ApartConcat([y], rest);
    ApartConcat([Merged(x, y)], rest);
  }

  // ---- What a release does to the blocks ----

  // Whatever the range was, it comes back whole.
  lemma {:induction false} Regained(blocks: seq<Block>, begin: nat, end: nat, a: Extent, p: nat, capacity: nat)
    returns (next: seq<Block>)
    requires Table(blocks, begin, end) && !Refused(a, begin, end, UsedBytes(blocks))
             && PositionOf(FreeList(blocks), a.address, p)
    requires !Meeting(FreeList(blocks), a) && |FreeList(blocks)| <= capacity
    ensures Table(next, begin, end) && FreeList(next) == Restored(FreeList(blocks), p, a)
            && UsedBytes(next) == UsedBytes(blocks) - a.size
    ensures Answered(blocks, next, a, capacity, Success)
    ensures |Restored(FreeList(blocks), p, a)| > capacity ==> Answered(blocks, blocks, a, capacity, NoSpace)
  {
    var now := Pieced(blocks, begin, end, a);
    var p';
    p', next := ReturnFacts(now, begin, end, a);
    SamePosition(FreeList(blocks), a.address, p, p');
    GaveBack(blocks, now, next, begin, end, a);
    Untouched(blocks, begin, end, a, p);
    Settled(blocks, next, a, p, capacity);
  }

  lemma {:induction false} Settled(blocks: seq<Block>, next: seq<Block>, a: Extent, p: nat, capacity: nat)
    requires Gave(blocks, next, a) && p <= |FreeList(blocks)| <= capacity
             && FreeList(next) == Restored(FreeList(blocks), p, a)
    requires |FreeList(next)| > |FreeList(blocks)| ==> forall e :: e in FreeList(blocks) ==> !Touch(e, a)
    requires a in Live(blocks) ==>
               Live(next) == Live(blocks) - {a} && UsedCount(next) == UsedCount(blocks) - 1
                 && |FreeList(next)| <= UsedCount(blocks)
    ensures Answered(blocks, next, a, capacity, Success)
    ensures |FreeList(next)| > capacity ==> Answered(blocks, blocks, a, capacity, NoSpace)
  {
  }

  // The blocks with the range as one of the pieces handed out.
  lemma {:induction false} Pieced(blocks: seq<Block>, begin: nat, end: nat, a: Extent) returns (now: seq<Block>)
    requires Table(blocks, begin, end) && !Refused(a, begin, end, UsedBytes(blocks)) && !Meeting(FreeList(blocks), a)
    ensures Table(now, begin, end) && FreeList(now) == FreeList(blocks) && UsedBytes(now) == UsedBytes(blocks)
            && a in Live(now)
    ensures now == blocks || (a !in Live(blocks) && Recut(blocks, now, begin, end, a))
  {
    now := blocks;
    if a !in Live(blocks) {
      AsOnePiece(blocks, begin, end, a);
      now := RecutFor(blocks, begin, end, a);
    }
  }

  lemma {:induction false} SamePosition(f: seq<Extent>, address: nat, p: nat, p': nat)
    requires PositionOf(f, address, p) && PositionOf(f, address, p')
    ensures p == p'
  {
  }

  lemma {:induction false} AsOnePiece(blocks: seq<Block>, begin: nat, end: nat, a: Extent)
    requires Table(blocks, begin, end) && !Refused(a, begin, end, UsedBytes(blocks))
    requires !Meeting(FreeList(blocks), a)
    ensures Clear(blocks, a) && Aligned(a.address, ALIGNMENT) && Aligned(a.address + a.size, ALIGNMENT)
  {
    AlignedIsModulo(a.address, ALIGNMENT);
    AlignedIsModulo(a.size, ALIGNMENT);
    AlignedSum(a.address, a.size, ALIGNMENT);
    forall b | b in blocks && b.user == 0 ensures !Overlap(Extent(b.address, b.bytes), a) {
      var k :| 0 <= k < |blocks| && blocks[k] == b;
      InFree(blocks, k);
    }
  }

  lemma {:induction false} GaveBack(blocks: seq<Block>, now: seq<Block>, next: seq<Block>, begin: nat, end: nat,
                                    a: Extent)
    requires Table(now, begin, end) && Table(next, begin, end) && (now == blocks || Recut(blocks, now, begin, end, a))
    requires a in Live(now) && Live(next) == Live(now) - {a} && UsedBytes(next) == UsedBytes(now) - a.size && 0 < a.size
    ensures Gave(blocks, next, a)
  {
    forall x: nat ensures Freed(FreeList(next), x) <==> Freed(FreeList(now), x) || Within(a, x) {
      FreedWithout(now, next, begin, end, a, x);
    }
    forall e | e in Live(blocks) && !Overlap(e, a) ensures e in Live(next) {
      var k := FindLive(blocks, e);
      assert blocks[k] in now;
    }
  }

  // An address is free after the extent that held it has gone.
  lemma {:induction false} FreedWithout(now: seq<Block>, next: seq<Block>, begin: nat, end: nat, a: Extent, x: nat)
    requires Table(now, begin, end) && Table(next, begin, end) && a in Live(now) && Live(next) == Live(now) - {a}
    ensures Freed(FreeList(next), x) <==> Freed(FreeList(now), x) || Within(a, x)
  {
    var k := FindLive(now, a);
    TilesWithin(GRAIN, now, begin, end, k);
    if begin <= x < end {
      Complement(now, begin, end, x);
      Complement(next, begin, end, x);
      if Within(a, x) {
        forall e | e in Live(now) && Within(e, x) ensures e == a {
          LiveOnce(now, begin, end, a, e, x);
        }
      } else {
        assert forall e :: Within(e, x) ==> (e in Live(now) <==> e in Live(next));
      }
    } else {
      FreedInside(now, begin, end, x);
      FreedInside(next, begin, end, x);
    }
  }

  lemma {:induction false} FreedInside(blocks: seq<Block>, begin: nat, end: nat, x: nat)
    requires Tiles(GRAIN, blocks, begin, end) && !(begin <= x < end)
    ensures !Freed(FreeList(blocks), x)
  {
    forall e | e in FreeList(blocks) ensures !Within(e, x) {
      var i :| 0 <= i < |FreeList(blocks)| && FreeList(blocks)[i] == e;
      FreeWithin(blocks, begin, end, i);
    }
  }

  lemma {:induction false} LiveOnce(blocks: seq<Block>, begin: nat, end: nat, a: Extent, e: Extent, x: nat)
    requires Tiles(GRAIN, blocks, begin, end) && a in Live(blocks) && e in Live(blocks) && Within(a, x) && Within(e, x)
    ensures a == e
  {
    var i := FindLive(blocks, a);
    var j := FindLive(blocks, e);
    if i < j {
      TilesIncrease(GRAIN, blocks, begin, end, i, j);
    } else if j < i {
      TilesIncrease(GRAIN, blocks, begin, end, j, i);
    }
  }

  // A new entry is needed only where no free extent touches the range.
  lemma {:induction false} Untouched(blocks: seq<Block>, begin: nat, end: nat, a: Extent, p: nat)
    requires Table(blocks, begin, end) && PositionOf(FreeList(blocks), a.address, p) && 0 < a.size
    requires !Meeting(FreeList(blocks), a)
    ensures |Restored(FreeList(blocks), p, a)| > |FreeList(blocks)| ==>
              forall e :: e in FreeList(blocks) ==> !Touch(e, a)
  {
    var f := FreeList(blocks);
    if |Restored(f, p, a)| > |f| {
      Conflicts(blocks, begin, end, a, p);
      forall e | e in f ensures !Touch(e, a) {
        var i :| 0 <= i < |f| && f[i] == e;
        FreeWithin(blocks, begin, end, i);
        if i < p - 1 {
          FreeOrder(blocks, begin, end, i, p - 1);
        } else if p < i {
          FreeWithin(blocks, begin, end, p);
          FreeOrder(blocks, begin, end, p, i);
        }
      }
    }
  }

  // Nothing free meets what is handed out.
  lemma {:induction false} LiveApart(blocks: seq<Block>, begin: nat, end: nat, a: Extent)
    requires Table(blocks, begin, end) && a in Live(blocks)
    ensures !Meeting(FreeList(blocks), a)
  {
    var p, next := ReturnFacts(blocks, begin, end, a);
    var k := FindLive(blocks, a);
    TilesWithin(GRAIN, blocks, begin, end, k);
    Conflicts(blocks, begin, end, a, p);
  }

  // Everything a release does to the blocks.
  lemma {:induction false} ReturnFacts(blocks: seq<Block>, begin: nat, end: nat, a: Extent)
    returns (p: nat, next: seq<Block>)
    requires Table(blocks, begin, end) && a in Live(blocks)
    ensures Table(next, begin, end) && PositionOf(FreeList(blocks), a.address, p)
    ensures FreeList(next) == Restored(FreeList(blocks), p, a) && |FreeList(next)| <= UsedCount(blocks)
    ensures var f := FreeList(blocks);
            (p > 0 ==> f[p - 1].address + f[p - 1].size <= a.address)
              && (p < |f| ==> a.address + a.size <= f[p].address)
    ensures UsedBytes(next) == UsedBytes(blocks) - a.size && UsedCount(next) == UsedCount(blocks) - 1
            && Live(next) == Live(blocks) - {a}
  {
    var k := FindLive(blocks, a);
    p, next := |FreeList(blocks[..k])|, Coalesced(blocks, k);
    ReturnKeeps(blocks, begin, end, k);
    ReturnLive(blocks, begin, end, k);
    ReturnRoom(blocks, begin, end, k);
  }

  lemma {:induction false} FindLive(blocks: seq<Block>, a: Extent) returns (k: nat)
    requires a in Live(blocks)
    ensures k < |blocks| && blocks[k].user != 0 && a == Extent(blocks[k].address, blocks[k].bytes)
  {
    var b :| b in blocks && b.user != 0 && a == Extent(b.address, b.bytes);
    k :| 0 <= k < |blocks| && blocks[k] == b;
  }

  // What is handed out passes every check.
  lemma {:induction false} NotRefused(blocks: seq<Block>, begin: nat, end: nat, a: Extent)
    requires Table(blocks, begin, end) && a in Live(blocks) && Aligned(end, ALIGNMENT)
    ensures !Refused(a, begin, end, UsedBytes(blocks))
  {
    var k := FindLive(blocks, a);
    TilesWithin(GRAIN, blocks, begin, end, k);
    AlignedIsModulo(a.address, ALIGNMENT);
    BlockEnd(blocks, begin, end, k);
    var left, b, right := blocks[..k], blocks[k], blocks[k + 1..];
    assert blocks == left + ([b] + right);
    UsedConcat(left, [b] + right);
    UsedConcat([b], right);
    OnePiece(GRAIN, b);
    assert blocks[0] in blocks;
    TilesWithin(GRAIN, blocks, begin, end, 0);
  }

  // Blocks end where the next begins, on the grain.
  lemma {:induction false} BlockEnd(blocks: seq<Block>, begin: nat, end: nat, k: nat)
    requires Tiles(GRAIN, blocks, begin, end) && k < |blocks| && Aligned(end, ALIGNMENT)
    ensures blocks[k].bytes % ALIGNMENT == 0
  {
    var left, right := blocks[..k], blocks[k..];
    assert blocks == left + right;
    var lo := TilesSplit(GRAIN, left, right, begin, end);
    assert right[0] == blocks[k];
    AlignedIsModulo(lo, ALIGNMENT);
    AlignedIsModulo(end, ALIGNMENT);
    if |right| > 1 {
      assert right[1..][0].address == lo + blocks[k].bytes;
      AlignedIsModulo(lo + blocks[k].bytes, ALIGNMENT);
    } else {
      assert right[1..] == [];
    }
  }

  lemma {:induction false} ReturnLive(blocks: seq<Block>, begin: nat, end: nat, k: nat)
    requires Table(blocks, begin, end) && k < |blocks| && blocks[k].user != 0
    ensures Live(Coalesced(blocks, k)) == Live(blocks) - {Extent(blocks[k].address, blocks[k].bytes)}
  {
    OwnAddress(blocks, begin, end, k);
    forall x: Block | x.user != 0 ensures x in Coalesced(blocks, k) <==> x in blocks && x != blocks[k] {
      UsedAfter(blocks, k, x);
    }
    LiveWithout(blocks, Coalesced(blocks, k), k);
  }

  lemma {:induction false} UsedAfter(blocks: seq<Block>, k: nat, x: Block)
    requires k < |blocks| && x.user != 0 && forall j :: 0 <= j < |blocks| && j != k ==>
               blocks[j].address != blocks[k].address
    ensures x in Coalesced(blocks, k) <==> x in blocks && x != blocks[k]
  {
    var left, b, right := blocks[..k], blocks[k], blocks[k + 1..];
    assert blocks == left + ([b] + right);
    CoalescedShape(left, b, right);
    assert x in Coalesced(blocks, k) <==> x in LeftRest(left) || x in RightRest(right);
    if x in left || x in right {
      UsedStays(left, right, x);
    }
  }

  lemma {:induction false} LiveWithout(blocks: seq<Block>, now: seq<Block>, k: nat)
    requires k < |blocks| && blocks[k].user != 0
    requires forall j :: 0 <= j < |blocks| && j != k ==> blocks[j].address != blocks[k].address
    requires forall x: Block :: x.user != 0 ==> (x in now <==> x in blocks && x != blocks[k])
    ensures Live(now) == Live(blocks) - {Extent(blocks[k].address, blocks[k].bytes)}
  {
    var a := Extent(blocks[k].address, blocks[k].bytes);
    forall e | e in Live(blocks) && e != a ensures e in Live(now) {
      var x :| x in blocks && x.user != 0 && e == Extent(x.address, x.bytes);
    }
    forall e | e in Live(now) ensures e in Live(blocks) && e != a {
      var x :| x in now && x.user != 0 && e == Extent(x.address, x.bytes);
    }
  }

  lemma {:induction false} OwnAddress(blocks: seq<Block>, begin: nat, end: nat, k: nat)
    requires Tiles(GRAIN, blocks, begin, end) && k < |blocks|
    ensures forall j :: 0 <= j < |blocks| && j != k ==> blocks[j].address != blocks[k].address
  {
    forall j | 0 <= j < |blocks| && j != k ensures blocks[j].address != blocks[k].address {
      if j < k {
        TilesIncrease(GRAIN, blocks, begin, end, j, k);
        TilesWithin(GRAIN, blocks, begin, end, j);
      } else {
        TilesIncrease(GRAIN, blocks, begin, end, k, j);
        TilesWithin(GRAIN, blocks, begin, end, k);
      }
    }
  }

  lemma {:induction false} UsedStays(left: seq<Block>, right: seq<Block>, x: Block)
    requires (x in left || x in right) && x.user != 0
    ensures x in LeftRest(left) || x in RightRest(right)
  {
    if x in left {
      var i :| 0 <= i < |left| && left[i] == x;
      assert FreeLast(left) ==> LeftRest(left)[i] == x;
    } else {
      var i :| 0 <= i < |right| && right[i] == x;
      assert FreeFirst(right) ==> RightRest(right)[i - 1] == x;
    }
  }

  // The table after a release is no longer than the allocations before it.
  lemma {:induction false} ReturnRoom(blocks: seq<Block>, begin: nat, end: nat, k: nat)
    requires Table(blocks, begin, end) && k < |blocks| && blocks[k].user != 0
    ensures |FreeList(Coalesced(blocks, k))| <= UsedCount(blocks)
  {
    CoalescedTiles(GRAIN, blocks, begin, end, k);
    FreeBound(Coalesced(blocks, k));
  }

  ghost predicate FirstFit(f: seq<Extent>, a: Extent, i: nat) {
    i < |f| && a.address == f[i].address && a.size <= f[i].size && forall j :: 0 <= j < i ==> f[j].size < a.size
  }

  lemma {:induction false} TakeLive(blocks: seq<Block>, begin: nat, end: nat, k: nat, size: nat)
    requires Table(blocks, begin, end) && k < |blocks| && blocks[k].user == 0 && 0 < size <= blocks[k].bytes
    ensures var now := blocks[..k] + (Pieces(blocks[k], size) + blocks[k + 1..]);
            var a := Extent(blocks[k].address, size);
            Live(now) == Live(blocks) + {a} && a !in Live(blocks) && a.address % ALIGNMENT == 0
  {
    var left, b, right := blocks[..k], blocks[k], blocks[k + 1..];
    var pieces, a := Pieces(b, size), Extent(b.address, size);
    var now := left + (pieces + right);
    assert blocks == left + ([b] + right) && b in blocks;
    TilesWithin(GRAIN, blocks, begin, end, k);
    AlignedIsModulo(b.address, ALIGNMENT);
    OwnAddress(blocks, begin, end, k);
    assert pieces[0] in now;
    forall x | x in now && x.user != 0 ensures x in blocks || x == pieces[0] {
      assert x in left || x in pieces || x in right;
    }
    forall x | x in blocks && x.user != 0 ensures x in now {
      assert x in left || x in right;
    }
  }

  // ---- What the table says about the range ----

  lemma {:induction false} LiveCount(blocks: seq<Block>, begin: nat, end: nat)
    requires Tiles(GRAIN, blocks, begin, end)
    ensures |Live(blocks)| == UsedCount(blocks)
  {
    if blocks != [] {
      var b, rest := blocks[0], blocks[1..];
      LiveCount(rest, begin + b.bytes, end);
      assert blocks == [b] + rest;
      if b.user == 0 {
        assert Live(blocks) == Live(rest);
      } else {
        forall x | x in rest ensures x.address != b.address {
          var i :| 0 <= i < |rest| && rest[i] == x;
          TilesWithin(GRAIN, rest, begin + b.bytes, end, i);
        }
        assert Live(blocks) == Live(rest) + {Extent(b.address, b.bytes)};
      }
    }
  }

  // Never more free extents than allocations, plus one.
  lemma {:induction false} FewFree(blocks: seq<Block>, begin: nat, end: nat)
    requires Table(blocks, begin, end)
    ensures |FreeList(blocks)| <= |Live(blocks)| + 1
  {
    FreeBound(blocks);
    LiveCount(blocks, begin, end);
  }

  // Free extents are sorted and do not touch.
  lemma {:induction false} FreeSorted(blocks: seq<Block>, begin: nat, end: nat, i: nat)
    requires Table(blocks, begin, end) && i + 1 < |FreeList(blocks)|
    ensures FreeList(blocks)[i].address + FreeList(blocks)[i].size < FreeList(blocks)[i + 1].address
  {
    var b, rest := blocks[0], blocks[1..];
    assert Apart(rest) && forall x :: x in rest ==> x in blocks;
    if b.user == 0 && i == 0 {
      RightEdge(rest, begin + b.bytes, end);
    } else {
      FreeSorted(rest, begin + b.bytes, end, if b.user == 0 then i - 1 else i);
    }
  }

  predicate Within(e: Extent, x: nat) {
    e.address <= x < e.address + e.size
  }

  // Every address of the range is in exactly one extent, free or handed out.
  lemma {:induction false} Complement(blocks: seq<Block>, begin: nat, end: nat, x: nat)
    requires Tiles(GRAIN, blocks, begin, end) && begin <= x < end
    ensures (exists e :: e in FreeList(blocks) && Within(e, x)) <==> !exists e :: e in Live(blocks) && Within(e, x)
  {
    var b, rest := blocks[0], blocks[1..];
    var own := Extent(b.address, b.bytes);
    assert blocks == [b] + rest;
    if x < begin + b.bytes {
      forall e | e in FreeList(rest) ensures !Within(e, x) {
        var i :| 0 <= i < |FreeList(rest)| && FreeList(rest)[i] == e;
        FreeWithin(rest, begin + b.bytes, end, i);
      }
      forall r | r in rest ensures !Within(Extent(r.address, r.bytes), x) {
        var i :| 0 <= i < |rest| && rest[i] == r;
        TilesWithin(GRAIN, rest, begin + b.bytes, end, i);
      }
      assert Within(own, x) && (if b.user == 0 then own in FreeList(blocks) else b in blocks);
    } else {
      Complement(rest, begin + b.bytes, end, x);
      assert !Within(own, x);
      forall e | Within(e, x) ensures e in FreeList(blocks) <==> e in FreeList(rest) {
      }
      forall e | Within(e, x) ensures e in Live(blocks) <==> e in Live(rest) {
      }
    }
  }

  // With everything released one extent spans the arena.
  lemma {:induction false} AllReleased(blocks: seq<Block>, begin: nat, end: nat)
    requires Table(blocks, begin, end) && begin < end && Live(blocks) == {}
    ensures FreeList(blocks) == [Extent(begin, end - begin)]
  {
    forall b | b in blocks ensures b.user == 0 {
      assert b.user != 0 ==> Extent(b.address, b.bytes) in Live(blocks);
    }
    AllFree(GRAIN, blocks, begin, end);
    assert blocks[1..] == [];
  }

  // ---- Runs ----

  datatype Call = Take(requested: u32) | Give(extent: Extent)

  datatype Answer = Taken(extent: Extent) | Given(status: Status)

  // Whether an address is handed out after some calls, given their answers.
  ghost predicate Out(calls: seq<Call>, answers: seq<Answer>, x: nat)
    requires |calls| == |answers|
  {
    if calls == [] then false
    else
      var n := |calls| - 1;
      StillOut(Out(calls[..n], answers[..n], x), calls[n], answers[n], x)
  }

  ghost predicate StillOut(before: bool, call: Call, answer: Answer, x: nat) {
    match call
    case Take(_) => before || (answer.Taken? && Within(answer.extent, x))
    case Give(a) => before && !(answer == Given(Success) && Within(a, x))
  }

  // An answer hands out only what nobody holds, as much as was asked for, and
  // takes back only what is held.
  ghost predicate Fair(call: Call, answer: Answer, calls: seq<Call>, answers: seq<Answer>)
    requires |calls| == |answers|
  {
    match call
    case Take(requested) =>
      && answer.Taken?
      && (answer.extent.size == 0 || answer.extent.size == RoundUp(requested))
      && forall x: nat :: Within(answer.extent, x) ==> !Out(calls, answers, x)
    case Give(a) => answer.Given? && (answer.status == Success ==>
                                        forall x: nat :: Within(a, x) ==> Out(calls, answers, x))
  }

  ghost predicate AllFair(calls: seq<Call>, answers: seq<Answer>) {
    |calls| == |answers| && forall i :: 0 <= i < |calls| ==> Fair(calls[i], answers[i], calls[..i], answers[..i])
  }

  // The table lists exactly the addresses of the range that are not handed out.
  ghost predicate Accounts(f: seq<Extent>, begin: nat, end: nat, calls: seq<Call>, answers: seq<Answer>) {
    |calls| == |answers| && forall x: nat :: Freed(f, x) <==> begin <= x < end && !Out(calls, answers, x)
  }

  method Perform(arena: Snapshots, call: Call, ghost calls: seq<Call>, ghost answers: seq<Answer>)
    returns (answer: Answer)
    requires arena.Valid() && Accounts(FreeList(arena.blocks), arena.begin, arena.end, calls, answers)
    modifies arena, arena.free
    ensures arena.Valid() && arena.begin == old(arena.begin) && arena.end == old(arena.end)
    ensures Fair(call, answer, calls, answers)
    ensures Accounts(FreeList(arena.blocks), arena.begin, arena.end, calls + [call], answers + [answer])
  {
    ghost var f := FreeList(arena.blocks);
    match call
    case Take(requested) =>
      var a := arena.Allocate(requested);
      answer := Taken(a);
      TakeAccounts(f, FreeList(arena.blocks), arena.begin, arena.end, a, call, calls, answers);
    case Give(a) =>
      var status := arena.Release(a);
      answer := Given(status);
      GiveAccounts(f, FreeList(arena.blocks), arena.begin, arena.end, a, status, call, calls, answers);
  }

  lemma {:induction false} OutStep(calls: seq<Call>, answers: seq<Answer>, call: Call, answer: Answer, x: nat)
    requires |calls| == |answers|
    ensures Out(calls + [call], answers + [answer], x) <==> StillOut(Out(calls, answers, x), call, answer, x)
  {
    assert (calls + [call])[..|calls|] == calls && (answers + [answer])[..|calls|] == answers;
  }

  lemma {:induction false} TakeAccounts(f: seq<Extent>, f': seq<Extent>, begin: nat, end: nat, a: Extent, call: Call,
                                        calls: seq<Call>, answers: seq<Answer>)
    requires Accounts(f, begin, end, calls, answers) && call.Take? && (a.size == 0 ==> f' == f)
    requires a.size != 0 ==> forall x: nat :: (Freed(f', x) <==> Freed(f, x) && !Within(a, x))
                               && (Within(a, x) ==> Freed(f, x))
    ensures Accounts(f', begin, end, calls + [call], answers + [Taken(a)])
    ensures forall x: nat :: Within(a, x) ==> !Out(calls, answers, x)
  {
    forall x: nat ensures Freed(f', x) <==> begin <= x < end && !Out(calls + [call], answers + [Taken(a)], x) {
      OutStep(calls, answers, call, Taken(a), x);
      assert Freed(f, x) <==> begin <= x < end && !Out(calls, answers, x);
    }
  }

  lemma {:induction false} GiveAccounts(f: seq<Extent>, f': seq<Extent>, begin: nat, end: nat, a: Extent,
                                        status: Status, call: Call,
                                        calls: seq<Call>, answers: seq<Answer>)
    requires Accounts(f, begin, end, calls, answers) && call == Give(a) && (status != Success ==> f' == f)
    requires status == Success ==> begin <= a.address && a.address + a.size <= end && !Meeting(f, a)
                                   && forall x: nat :: Freed(f', x) <==> Freed(f, x) || Within(a, x)
    ensures Accounts(f', begin, end, calls + [call], answers + [Given(status)])
    ensures status == Success ==> forall x: nat :: Within(a, x) ==> Out(calls, answers, x)
  {
    forall x: nat | status == Success && Within(a, x) ensures Out(calls, answers, x) {
      assert forall e :: e in f && Within(e, x) ==> Overlap(e, a);
      assert !Freed(f, x);
    }
    forall x: nat ensures Freed(f', x) <==> begin <= x < end && !Out(calls + [call], answers + [Given(status)], x) {
      OutStep(calls, answers, call, Given(status), x);
      assert Freed(f, x) <==> begin <= x < end && !Out(calls, answers, x);
    }
  }

  method PerformAll(arena: Snapshots, calls: seq<Call>) returns (answers: seq<Answer>)
    requires arena.Valid() && Accounts(FreeList(arena.blocks), arena.begin, arena.end, [], [])
    modifies arena, arena.free
    ensures arena.Valid() && arena.begin == old(arena.begin) && arena.end == old(arena.end)
    ensures AllFair(calls, answers) && Accounts(FreeList(arena.blocks), arena.begin, arena.end, calls, answers)
  {
    answers := [];
    for i := 0 to |calls|
      invariant arena.Valid() && arena.begin == old(arena.begin) && arena.end == old(arena.end)
      invariant AllFair(calls[..i], answers)
                && Accounts(FreeList(arena.blocks), arena.begin, arena.end, calls[..i], answers)
    {
      var answer := Perform(arena, calls[i], calls[..i], answers);
      FairStep(calls[..i], answers, calls[i], answer);
      answers := answers + [answer];
      assert calls[..i + 1] == calls[..i] + [calls[i]];
    }
    assert calls[..|calls|] == calls;
  }

  lemma {:induction false} FairStep(calls: seq<Call>, answers: seq<Answer>, call: Call, answer: Answer)
    requires AllFair(calls, answers) && Fair(call, answer, calls, answers)
    ensures AllFair(calls + [call], answers + [answer])
  {
    var calls', answers' := calls + [call], answers + [answer];
    forall i | 0 <= i < |calls'| ensures Fair(calls'[i], answers'[i], calls'[..i], answers'[..i]) {
      assert calls'[..i] == calls[..i] && answers'[..i] == answers[..i];
      assert i == |calls| ==> calls[..i] == calls && answers[..i] == answers;
    }
  }

  // Any run over one arena, releases of foreign ranges included: no address is
  // handed out twice, the table lists exactly what is not handed out, and when
  // that is everything it is a single extent.
  method Run(capacity: nat, from: u32, to: u32, calls: seq<Call>)
    returns (free: seq<Extent>, begin: nat, end: nat, answers: seq<Answer>)
    requires 0 < capacity
    ensures begin < end || begin == end == 0
    ensures AllFair(calls, answers) && Accounts(free, begin, end, calls, answers) && |free| <= capacity
    ensures begin < end && (forall x: nat :: !Out(calls, answers, x)) ==> free == [Extent(begin, end - begin)]
  {
    var arena := new Snapshots(capacity);
    var status := arena.Initialize(from, to);
    Opening(arena.blocks, arena.begin, arena.end);
    answers := PerformAll(arena, calls);
    free, begin, end := arena.free[..arena.count], arena.begin, arena.end;
    if begin < end && forall x: nat :: !Out(calls, answers, x) {
      NothingOut(arena.blocks, begin, end, calls, answers);
    }
  }

  lemma {:induction false} Opening(blocks: seq<Block>, begin: nat, end: nat)
    requires blocks == [] || (begin < end && blocks == [Block(begin, end - begin, 0)])
    requires Tiles(GRAIN, blocks, begin, end)
    ensures Accounts(FreeList(blocks), begin, end, [], [])
  {
    forall x: nat ensures Freed(FreeList(blocks), x) <==> begin <= x < end && !Out([], [], x) {
      if begin <= x < end {
        Complement(blocks, begin, end, x);
      } else {
        FreedInside(blocks, begin, end, x);
      }
    }
  }

  lemma {:induction false} NothingOut(blocks: seq<Block>, begin: nat, end: nat, calls: seq<Call>, answers: seq<Answer>)
    requires Table(blocks, begin, end) && begin < end && Accounts(FreeList(blocks), begin, end, calls, answers)
    requires forall x: nat :: !Out(calls, answers, x)
    ensures FreeList(blocks) == [Extent(begin, end - begin)]
  {
    forall e | e in Live(blocks) ensures false {
      var k := FindLive(blocks, e);
      TilesWithin(GRAIN, blocks, begin, end, k);
      Complement(blocks, begin, end, e.address);
      assert Within(e, e.address) && Freed(FreeList(blocks), e.address);
    }
    assert Live(blocks) == {};
    AllReleased(blocks, begin, end);
  }
}
