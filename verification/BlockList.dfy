/**
 Memory as a list of blocks, used or free, that tile a range: cutting one block
 in two, joining free neighbours, and counting what is used.
 */
module BlockList {
  import opened Machine

  // A block of memory. `user` is zero while the block is free.
  datatype Block = Block(address: nat, bytes: nat, user: nat)

  // A multiple of the alignment.
  predicate Aligned(value: nat, alignment: nat) {
    0 < alignment && (value == 0 || (alignment <= value && Aligned(value - alignment, alignment)))
  }

  lemma {:induction false} AlignedIsModulo(value: nat, alignment: nat)
    requires 0 < alignment
    ensures Aligned(value, alignment) <==> value % alignment == 0
  {
    if alignment <= value {
      AlignedIsModulo(value - alignment, alignment);
      var q := (value - alignment) / alignment;
      assert value - alignment == q * alignment + (value - alignment) % alignment;
      QuotientUnique(value, q + 1, (value - alignment) % alignment, alignment);
    } else {
      QuotientUnique(value, 0, value, alignment);
    }
  }

  function AlignUp(value: nat, alignment: nat): (r: nat)
    requires 0 < alignment
    ensures value <= r < value + alignment && Aligned(r, alignment)
  {
    AlignFacts(value, alignment);
    (value + alignment - 1) / alignment * alignment
  }

  lemma {:induction false} AlignFacts(value: nat, alignment: nat)
    requires 0 < alignment
    ensures var r := (value + alignment - 1) / alignment * alignment;
            value <= r < value + alignment && Aligned(r, alignment)
  {
    var q := (value + alignment - 1) / alignment;
    assert value + alignment - 1 == q * alignment + (value + alignment - 1) % alignment;
    Multiple(q, alignment);
  }

  lemma {:induction false} Multiple(q: nat, n: nat)
    requires 0 < n
    ensures Aligned(q * n, n)
  {
    if q > 0 {
      Multiple(q - 1, n);
      MulMono(1, q, n);
      assert q * n - n == (q - 1) * n;
    }
  }

  // Blocks begin at multiples of a word and are never smaller than `least`.
  datatype Grain = Grain(word: nat, least: nat)

  // Blocks that follow each other from `begin` to `end` without a gap.
  ghost predicate Tiles(g: Grain, blocks: seq<Block>, begin: nat, end: nat) {
    if blocks == [] then begin == end
    else
      && blocks[0].address == begin && Aligned(begin, g.word) && g.least <= blocks[0].bytes
      && Tiles(g, blocks[1..], begin + blocks[0].bytes, end)
  }

  // No free block stands next to another.
  ghost predicate Apart(blocks: seq<Block>) {
    |blocks| <= 1 || ((blocks[0].user != 0 || blocks[1].user != 0) && Apart(blocks[1..]))
  }

  function UsedBytes(blocks: seq<Block>): nat {
    if blocks == [] then 0 else (if blocks[0].user == 0 then 0 else blocks[0].bytes) + UsedBytes(blocks[1..])
  }

  function UsedCount(blocks: seq<Block>): nat {
    if blocks == [] then 0 else (if blocks[0].user == 0 then 0 else 1) + UsedCount(blocks[1..])
  }

  lemma {:induction false} TilesConcat(g: Grain, a: seq<Block>, b: seq<Block>, begin: nat, middle: nat, end: nat)
    requires Tiles(g, a, begin, middle) && Tiles(g, b, middle, end)
    ensures Tiles(g, a + b, begin, end)
  {
    if a == [] {
      assert a + b == b;
    } else {
      TilesConcat(g, a[1..], b, begin + a[0].bytes, middle, end);
      assert (a + b)[1..] == a[1..] + b;
    }
  }

  lemma {:induction false} TilesSplit(g: Grain, a: seq<Block>, b: seq<Block>, begin: nat, end: nat)
    returns (middle: nat)
    requires Tiles(g, a + b, begin, end)
    ensures begin <= middle <= end && Tiles(g, a, begin, middle) && Tiles(g, b, middle, end)
    ensures b != [] ==> middle == b[0].address
  {
    if a == [] {
      assert a + b == b;
      middle := begin;
      TilesOrder(g, b, begin, end);
    } else {
      assert (a + b)[1..] == a[1..] + b;
      middle := TilesSplit(g, a[1..], b, begin + a[0].bytes, end);
    }
  }

  lemma {:induction false} TilesOrder(g: Grain, a: seq<Block>, begin: nat, end: nat)
    requires Tiles(g, a, begin, end)
    ensures begin <= end
  {
    if a != [] {
      TilesOrder(g, a[1..], begin + a[0].bytes, end);
    }
  }

  ghost predicate Meets(a: seq<Block>, b: seq<Block>) {
    a == [] || b == [] || a[|a| - 1].user != 0 || b[0].user != 0
  }

  lemma {:induction false} ApartConcat(a: seq<Block>, b: seq<Block>)
    ensures Apart(a + b) <==> Apart(a) && Apart(b) && Meets(a, b)
  {
    if a == [] {
      assert a + b == b;
    } else {
      assert (a + b)[1..] == a[1..] + b;
      ApartConcat(a[1..], b);
      if |a| > 1 {
        assert (a + b)[1] == a[1] && a[1..][|a| - 2] == a[|a| - 1];
      }
    }
  }

  lemma {:induction false} UsedConcat(a: seq<Block>, b: seq<Block>)
    ensures UsedBytes(a + b) == UsedBytes(a) + UsedBytes(b) && UsedCount(a + b) == UsedCount(a) + UsedCount(b)
  {
    if a == [] {
      assert a + b == b;
    } else {
      assert (a + b)[1..] == a[1..] + b;
      UsedConcat(a[1..], b);
    }
  }

  // Addresses grow along the list.
  lemma {:induction false} TilesIncrease(g: Grain, blocks: seq<Block>, begin: nat, end: nat, i: nat, j: nat)
    requires Tiles(g, blocks, begin, end) && i < j < |blocks|
    ensures begin <= blocks[i].address && blocks[i].address + blocks[i].bytes <= blocks[j].address
    ensures blocks[j].address + blocks[j].bytes <= end
  {
    TilesWithin(g, blocks[1..], begin + blocks[0].bytes, end, j - 1);
    if i > 0 {
      TilesIncrease(g, blocks[1..], begin + blocks[0].bytes, end, i - 1, j - 1);
    }
  }

  lemma {:induction false} TilesWithin(g: Grain, blocks: seq<Block>, begin: nat, end: nat, i: nat)
    requires Tiles(g, blocks, begin, end) && i < |blocks|
    ensures begin <= blocks[i].address && blocks[i].address + blocks[i].bytes <= end
    ensures g.least <= blocks[i].bytes && Aligned(blocks[i].address, g.word)
  {
    if i > 0 {
      TilesWithin(g, blocks[1..], begin + blocks[0].bytes, end, i - 1);
    } else {
      TilesOrder(g, blocks[1..], begin + blocks[0].bytes, end);
    }
  }

  lemma {:induction false} AlignedSum(a: nat, b: nat, n: nat)
    requires Aligned(a, n) && Aligned(b, n)
    ensures Aligned(a + b, n)
    decreases a
  {
    if a > 0 {
      AlignedSum(a - n, b, n);
      assert (a + b) - n == (a - n) + b;
    }
  }

  lemma {:induction false} OnePiece(g: Grain, x: Block)
    requires Aligned(x.address, g.word) && g.least <= x.bytes
    ensures Tiles(g, [x], x.address, x.address + x.bytes) && Apart([x])
    ensures UsedBytes([x]) == (if x.user == 0 then 0 else x.bytes) && UsedCount([x]) == if x.user == 0 then 0 else 1
  {
    assert [x][1..] == [];
  }

  lemma {:induction false} TwoPieces(g: Grain, x: Block, y: Block)
    requires Aligned(x.address, g.word) && g.least <= x.bytes && Aligned(y.address, g.word) && g.least <= y.bytes
    requires y.address == x.address + x.bytes && x.user != 0 && y.user == 0
    ensures Tiles(g, [x, y], x.address, y.address + y.bytes) && Apart([x, y])
    ensures UsedBytes([x, y]) == x.bytes && UsedCount([x, y]) == 1
  {
    OnePiece(g, y);
    assert [x, y][1..] == [y];
  }

  lemma {:induction false} TilesReplace(g: Grain, left: seq<Block>, was: seq<Block>, now: seq<Block>, right: seq<Block>,
                                        begin: nat, end: nat, hi: nat)
    requires was != [] && Tiles(g, left + (was + right), begin, end)
    requires Tiles(g, was, was[0].address, hi) && Tiles(g, now, was[0].address, hi)
    ensures Tiles(g, left + (now + right), begin, end)
  {
    var lo := TilesSplit(g, left, was + right, begin, end);
    assert (was + right)[0] == was[0];
    var middle := TilesSplit(g, was, right, lo, end);
    TilesEnd(g, was, lo, middle, hi);
    TilesConcat(g, now, right, lo, middle, end);
    TilesConcat(g, left, now + right, begin, lo, end);
  }

  // One block of a list gives way to others that fill the same place.
  lemma {:induction false} TilesReplaceAt(g: Grain, blocks: seq<Block>, i: nat, now: seq<Block>, begin: nat, end: nat)
    requires Tiles(g, blocks, begin, end) && i < |blocks|
             && Tiles(g, now, blocks[i].address, blocks[i].address + blocks[i].bytes)
    ensures Tiles(g, blocks[..i] + (now + blocks[i + 1..]), begin, end)
  {
    var left, b, right := blocks[..i], blocks[i], blocks[i + 1..];
    assert blocks == left + ([b] + right);
    TilesWithin(g, blocks, begin, end, i);
    OnePiece(g, b);
    TilesReplace(g, left, [b], now, right, begin, end, b.address + b.bytes);
  }

  lemma {:induction false} TilesEnd(g: Grain, blocks: seq<Block>, begin: nat, end: nat, end': nat)
    requires Tiles(g, blocks, begin, end) && Tiles(g, blocks, begin, end')
    ensures end == end'
  {
    if blocks != [] {
      TilesEnd(g, blocks[1..], begin + blocks[0].bytes, end, end');
    }
  }

  lemma {:induction false} UsedReplace(left: seq<Block>, was: seq<Block>, now: seq<Block>, right: seq<Block>)
    ensures UsedBytes(left + (now + right)) == UsedBytes(left + (was + right)) - UsedBytes(was) + UsedBytes(now)
    ensures UsedCount(left + (now + right)) == UsedCount(left + (was + right)) - UsedCount(was) + UsedCount(now)
  {
    UsedConcat(was, right);
    UsedConcat(now, right);
    UsedConcat(left, was + right);
    UsedConcat(left, now + right);
  }

  lemma {:induction false} CarvedApart(left: seq<Block>, b: Block, pieces: seq<Block>, right: seq<Block>)
    requires Apart(left + ([b] + right)) && b.user == 0 && Apart(pieces) && 1 <= |pieces| <= 2 && pieces[0].user != 0
    ensures Apart(left + (pieces + right))
  {
    ApartConcat(left, [b] + right);
    ApartConcat([b], right);
    ApartConcat(pieces, right);
    ApartConcat(left, pieces + right);
  }

  function Merged(x: Block, y: Block): Block {
    Block(x.address, x.bytes + y.bytes, x.user)
  }

  lemma {:induction false} MergeTiles(g: Grain, left: seq<Block>, x: Block, y: Block, right: seq<Block>, begin: nat,
                                      end: nat)
    requires Tiles(g, left + ([x, y] + right), begin, end)
    ensures Tiles(g, left + ([Merged(x, y)] + right), begin, end)
  {
    var lo := TilesSplit(g, left, [x, y] + right, begin, end);
    assert ([x, y] + right)[0] == x && ([x, y] + right)[1..] == [y] + right && ([y] + right)[1..] == right;
    var z := Merged(x, y);
    assert ([z] + right)[1..] == right;
    assert Tiles(g, [z] + right, lo, end);
    TilesConcat(g, left, [z] + right, begin, lo, end);
  }

  lemma {:induction false} MergeUsed(left: seq<Block>, x: Block, y: Block, right: seq<Block>)
    requires x.user == y.user == 0
    ensures UsedBytes(left + ([Merged(x, y)] + right)) == UsedBytes(left + ([x, y] + right))
    ensures UsedCount(left + ([Merged(x, y)] + right)) == UsedCount(left + ([x, y] + right))
  {
    UsedReplace(left, [x, y], [Merged(x, y)], right);
    assert [x, y][1..] == [y] && [y][1..] == [] && [Merged(x, y)][1..] == [];
  }

  // The neighbours of a released block that are free are absorbed; then no
  // two free blocks meet.
  lemma {:induction false} ReleaseApart(left: seq<Block>, b: Block, right: seq<Block>, f: Block)
    requires Apart(left + ([b] + right)) && b.user != 0 && f.user == 0
    ensures Apart(LeftRest(left) + ([f] + RightRest(right)))
  {
    ApartConcat(left, [b] + right);
    ApartConcat([b], right);
    if FreeLast(left) {
      LeftTrimmed(left);
    }
    ApartConcat([f], RightRest(right));
    ApartConcat(LeftRest(left), [f] + RightRest(right));
  }

  lemma {:induction false} LeftTrimmed(left: seq<Block>)
    requires Apart(left) && left != [] && left[|left| - 1].user == 0
    ensures Apart(left[..|left| - 1]) && (|left| > 1 ==> left[|left| - 2].user != 0)
  {
    var n := |left| - 1;
    assert left == left[..n] + left[n..];
    ApartConcat(left[..n], left[n..]);
  }

  // A list of free blocks in which no two meet is one block.
  lemma {:induction false} AllFree(g: Grain, blocks: seq<Block>, begin: nat, end: nat)
    requires Tiles(g, blocks, begin, end) && Apart(blocks) && begin < end && forall b :: b in blocks ==> b.user == 0
    ensures blocks == [Block(begin, end - begin, 0)]
  {
    forall i | 0 <= i < |blocks| ensures blocks[i].user == 0 {
      assert blocks[i] in blocks;
    }
    assert |blocks| == 1 ==> blocks[1..] == [];
  }

  function Join(blocks: seq<Block>, i: nat): seq<Block>
    requires i + 1 < |blocks|
  {
    blocks[..i] + ([Merged(blocks[i], blocks[i + 1])] + blocks[i + 2..])
  }

  function JoinNext(blocks: seq<Block>, i: nat): seq<Block>
    requires i < |blocks|
  {
    if i + 1 < |blocks| && blocks[i + 1].user == 0 then Join(blocks, i) else blocks
  }

  function JoinPrevious(blocks: seq<Block>, i: nat): seq<Block>
    requires i < |blocks|
  {
    if i > 0 && blocks[i - 1].user == 0 then Join(blocks, i - 1) else blocks
  }

  function Coalesced(blocks: seq<Block>, i: nat): seq<Block>
    requires i < |blocks|
  {
    JoinPrevious(JoinNext(blocks[i := blocks[i].(user := 0)], i), i)
  }

  // What a free neighbour on either side loses to the block.
  predicate FreeLast(left: seq<Block>) {
    left != [] && left[|left| - 1].user == 0
  }

  predicate FreeFirst(right: seq<Block>) {
    right != [] && right[0].user == 0
  }

  function LeftRest(left: seq<Block>): seq<Block> {
    if FreeLast(left) then left[..|left| - 1] else left
  }

  function RightRest(right: seq<Block>): seq<Block> {
    if FreeFirst(right) then right[1..] else right
  }

  function Absorbed(left: seq<Block>, b: Block, right: seq<Block>): Block {
    Block(if FreeLast(left) then left[|left| - 1].address else b.address,
          (if FreeLast(left) then left[|left| - 1].bytes else 0) + b.bytes
            + (if FreeFirst(right) then right[0].bytes else 0), 0)
  }

  lemma {:induction false} CoalescedShape(left: seq<Block>, b: Block, right: seq<Block>)
    ensures Coalesced(left + ([b] + right), |left|) == LeftRest(left) + ([Absorbed(left, b, right)] + RightRest(right))
  {
    var blocks, f := left + ([b] + right), b.(user := 0);
    assert blocks[|left|] == b && blocks[|left| := f] == left + ([f] + right);
    var next := NextShape(left, f, right);
    var last := PreviousShape(left, next, RightRest(right));
    assert last == Absorbed(left, b, right);
  }

  lemma {:induction false} CoalescedApart(blocks: seq<Block>, i: nat)
    requires Apart(blocks) && i < |blocks| && blocks[i].user != 0
    ensures Apart(Coalesced(blocks, i))
  {
    var left, right := blocks[..i], blocks[i + 1..];
    assert blocks == left + ([blocks[i]] + right);
    CoalescedShape(left, blocks[i], right);
    ReleaseApart(left, blocks[i], right, Absorbed(left, blocks[i], right));
  }

  lemma {:induction false} NextShape(left: seq<Block>, f: Block, right: seq<Block>) returns (g: Block)
    requires f.user == 0
    ensures g == if FreeFirst(right) then Merged(f, right[0]) else f
    ensures JoinNext(left + ([f] + right), |left|) == left + ([g] + RightRest(right))
  {
    var blocks, i := left + ([f] + right), |left|;
    g := JoinNext(blocks, i)[i];
    assert blocks[..i] == left && blocks[i] == f;
    if right != [] {
      assert blocks[i + 1] == right[0] && blocks[i + 2..] == right[1..];
    }
  }

  lemma {:induction false} PreviousShape(left: seq<Block>, f: Block, right: seq<Block>) returns (g: Block)
    requires f.user == 0
    ensures g == if FreeLast(left) then Merged(left[|left| - 1], f) else f
    ensures JoinPrevious(left + ([f] + right), |left|) == LeftRest(left) + ([g] + right)
  {
    var blocks, i := left + ([f] + right), |left|;
    g := f;
    if left != [] && left[i - 1].user == 0 {
      g := Merged(left[i - 1], f);
      assert blocks[..i - 1] == left[..i - 1] && blocks[i + 1..] == right;
      assert blocks[i - 1] == left[i - 1] && blocks[i] == f;
    }
  }

  lemma {:induction false} JoinTiles(g: Grain, blocks: seq<Block>, begin: nat, end: nat, i: nat)
    requires Tiles(g, blocks, begin, end) && i + 1 < |blocks| && blocks[i].user == blocks[i + 1].user == 0
    ensures Tiles(g, Join(blocks, i), begin, end)
    ensures UsedBytes(Join(blocks, i)) == UsedBytes(blocks) && UsedCount(Join(blocks, i)) == UsedCount(blocks)
  {
    assert blocks == blocks[..i] + ([blocks[i], blocks[i + 1]] + blocks[i + 2..]);
    MergeTiles(g, blocks[..i], blocks[i], blocks[i + 1], blocks[i + 2..], begin, end);
    MergeUsed(blocks[..i], blocks[i], blocks[i + 1], blocks[i + 2..]);
  }

  lemma {:induction false} FreedTiles(g: Grain, blocks: seq<Block>, begin: nat, end: nat, i: nat)
    requires Tiles(g, blocks, begin, end) && i < |blocks| && blocks[i].user != 0
    ensures var now := blocks[i := blocks[i].(user := 0)];
            Tiles(g, now, begin, end) && UsedBytes(now) == UsedBytes(blocks) - blocks[i].bytes
              && UsedCount(now) == UsedCount(blocks) - 1
  {
    var left, b, right := blocks[..i], blocks[i], blocks[i + 1..];
    var f := b.(user := 0);
    assert blocks == left + ([b] + right) && blocks[i := f] == left + ([f] + right);
    TilesWithin(g, blocks, begin, end, i);
    OnePiece(g, b);
    OnePiece(g, f);
    TilesReplaceAt(g, blocks, i, [f], begin, end);
    UsedReplace(left, [b], [f], right);
  }

  // Releasing a block keeps the tiling and leaves no two free blocks together.
  lemma {:induction false} CoalescedTiles(g: Grain, blocks: seq<Block>, begin: nat, end: nat, i: nat)
    requires Tiles(g, blocks, begin, end) && Apart(blocks) && i < |blocks| && blocks[i].user != 0
    ensures Tiles(g, Coalesced(blocks, i), begin, end) && Apart(Coalesced(blocks, i))
    ensures UsedBytes(Coalesced(blocks, i)) == UsedBytes(blocks) - blocks[i].bytes
    ensures UsedCount(Coalesced(blocks, i)) == UsedCount(blocks) - 1
  {
    FreedTiles(g, blocks, begin, end, i);
    var one := blocks[i := blocks[i].(user := 0)];
    if i + 1 < |one| && one[i + 1].user == 0 {
      JoinTiles(g, one, begin, end, i);
    }
    var two := JoinNext(one, i);
    if i > 0 && two[i - 1].user == 0 {
      JoinTiles(g, two, begin, end, i - 1);
    }
    CoalescedApart(blocks, i);
  }
}
