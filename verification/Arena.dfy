/**
 A first-fit arena whose block headers lie inside the memory it hands out, with
 alignment, splitting and full coalescing.
 */
module Arena {
  import opened Machine
  import opened BlockList

  // The size of a machine word and the largest address.
  datatype Platform = Platform(word: nat, limit: nat)

  datatype Request = Request(bytes: nat, alignment: nat)

  predicate Sane(m: Platform) {
    0 < m.word && m.word <= m.limit
  }

  function HeaderSize(m: Platform): nat {
    m.word + m.word + m.word
  }

  predicate PowerOfTwo(n: nat) {
    n == 1 || (n > 1 && n % 2 == 0 && PowerOfTwo(n / 2))
  }

  function GrainOf(m: Platform): Grain {
    Grain(m.word, HeaderSize(m))
  }

  // ---- Users ----

  // What a user was given lies in its own block past the header, aligned.
  ghost predicate Inside(m: Platform, b: Block, r: Request) {
    && b.address + HeaderSize(m) <= b.user && b.user + r.bytes <= b.address + b.bytes && 0 < r.bytes
    && Aligned(b.user, r.alignment)
  }

  ghost predicate Served(m: Platform, blocks: seq<Block>, live: map<nat, Request>) {
    && (forall b :: b in blocks && b.user != 0 ==> b.user in live && Inside(m, b, live[b.user]))
    && (forall u :: u in live ==> Holds(blocks, u))
  }

  ghost predicate Holds(blocks: seq<Block>, user: nat) {
    user != 0 && exists b :: b in blocks && b.user == user
  }

  // Two live allocations never share a byte.
  lemma {:induction false} LiveDisjoint(m: Platform, blocks: seq<Block>, begin: nat, end: nat,
                                        live: map<nat, Request>, u: nat, v: nat)
    requires Tiles(GrainOf(m), blocks, begin, end) && Served(m, blocks, live) && u in live && v in live && u != v
    ensures u + live[u].bytes <= v || v + live[v].bytes <= u
  {
    assert Holds(blocks, u) && Holds(blocks, v);
    var b :| b in blocks && b.user == u;
    var c :| c in blocks && c.user == v;
    var i :| 0 <= i < |blocks| && blocks[i] == b;
    var j :| 0 <= j < |blocks| && blocks[j] == c;
    if i < j {
      TilesIncrease(GrainOf(m), blocks, begin, end, i, j);
    } else {
      TilesIncrease(GrainOf(m), blocks, begin, end, j, i);
    }
  }

  // No user appears in two blocks.
  lemma {:induction false} UserOnce(m: Platform, blocks: seq<Block>, begin: nat, end: nat, live: map<nat, Request>,
                                    i: nat, j: nat)
    requires Tiles(GrainOf(m), blocks, begin, end) && Served(m, blocks, live) && i < j < |blocks| && blocks[i].user != 0
    ensures blocks[i].user != blocks[j].user
  {
    TilesIncrease(GrainOf(m), blocks, begin, end, i, j);
    assert blocks[i] in blocks && blocks[j] in blocks;
  }

  // ---- Allocation ----

  // Where a free block would put the request, if it can.
  function Position(m: Platform, b: Block, r: Request): Option<nat>
    requires 0 < r.alignment
  {
    var start := b.address + HeaderSize(m);
    if b.user != 0 || start + (r.alignment - 1) > m.limit then None
    else
      var user := AlignUp(start, r.alignment);
      var padding := user - b.address;
      if padding > b.bytes || r.bytes > b.bytes - padding then None else Some(user)
  }

  // The block with its user, and the rest of it as a free block if that is
  // worth a header.
  function Carved(m: Platform, b: Block, user: nat, bytes: nat): seq<Block>
    requires Sane(m) && b.address <= user
  {
    var consumed := user - b.address + bytes;
    var rounded := AlignUp(consumed, m.word);
    if consumed + (m.word - 1) <= m.limit && rounded <= b.bytes && b.bytes - rounded >= HeaderSize(m) + m.word then
      [Block(b.address, rounded, user), Block(b.address + rounded, b.bytes - rounded, 0)]
    else [b.(user := user)]
  }

  // The pieces cover the block and serve the request.
  lemma {:induction false} CarvedFacts(m: Platform, b: Block, r: Request)
    requires Sane(m) && 0 < r.alignment && 0 < r.bytes && Position(m, b, r).Some?
    requires HeaderSize(m) <= b.bytes && Aligned(b.address, m.word)
    ensures var user := Position(m, b, r).value;
            var pieces := Carved(m, b, user, r.bytes);
            && Tiles(GrainOf(m), pieces, b.address, b.address + b.bytes) && Apart(pieces)
            && 1 <= |pieces| <= 2 && pieces[0].user == user && Inside(m, pieces[0], r)
               && (|pieces| == 2 ==> pieces[1].user == 0)
            && UsedBytes(pieces) == pieces[0].bytes && UsedCount(pieces) == 1
  {
    var user := Position(m, b, r).value;
    var pieces := Carved(m, b, user, r.bytes);
    if |pieces| == 2 {
      AlignedSum(b.address, pieces[0].bytes, m.word);
      TwoPieces(GrainOf(m), pieces[0], pieces[1]);
      assert pieces == [pieces[0], pieces[1]];
    } else {
      OnePiece(GrainOf(m), pieces[0]);
      assert pieces == [pieces[0]];
    }
  }

  // ---- Allocation on the list ----

  // The address a free block would hand out is nobody's yet.
  lemma {:induction false} UserIsFresh(m: Platform, blocks: seq<Block>, begin: nat, end: nat,
                                       live: map<nat, Request>, i: nat, user: nat)
    requires Tiles(GrainOf(m), blocks, begin, end) && Served(m, blocks, live) && i < |blocks| && blocks[i].user == 0
    requires blocks[i].address < user < blocks[i].address + blocks[i].bytes
    ensures user !in live
  {
    if user in live {
      assert Holds(blocks, user);
      var j :| 0 <= j < |blocks| && blocks[j].user == user;
      assert blocks[j] in blocks;
      if i < j {
        TilesIncrease(GrainOf(m), blocks, begin, end, i, j);
      } else {
        TilesIncrease(GrainOf(m), blocks, begin, end, j, i);
      }
    }
  }

  lemma {:induction false} CarvedServed(m: Platform, left: seq<Block>, b: Block, pieces: seq<Block>,
                                        right: seq<Block>, live: map<nat, Request>, r: Request)
    requires Served(m, left + ([b] + right), live) && b.user == 0 && 1 <= |pieces| <= 2
    requires pieces[0].user != 0 && pieces[0].user !in live && Inside(m, pieces[0], r)
             && (|pieces| == 2 ==> pieces[1].user == 0)
    ensures Served(m, left + (pieces + right), live[pieces[0].user := r])
  {
    var was, now, live' := left + ([b] + right), left + (pieces + right), live[pieces[0].user := r];
    forall x | x in now && x.user != 0 ensures x.user in live' && Inside(m, x, live'[x.user]) {
      assert x in was || x == pieces[0];
    }
    forall u | u in live' ensures Holds(now, u) {
      if u == pieces[0].user {
        assert pieces[0] in now;
      } else {
        assert Holds(was, u);
        var x :| x in was && x.user == u;
        assert x in now;
      }
    }
  }

  lemma {:induction false} MergeServed(m: Platform, left: seq<Block>, x: Block, y: Block, right: seq<Block>,
                                       live: map<nat, Request>)
    requires Served(m, left + ([x, y] + right), live) && x.user == y.user == 0
    ensures Served(m, left + ([Merged(x, y)] + right), live)
  {
    var was, now := left + ([x, y] + right), left + ([Merged(x, y)] + right);
    forall b | b in now && b.user != 0 ensures b in was {
      assert b in left || b in right;
    }
    forall u | u in live ensures Holds(now, u) {
      assert Holds(was, u);
      var b :| b in was && b.user == u;
      assert b in left || b in right;
      assert b in now;
    }
  }

  // A block gives up its user.
  lemma {:induction false} FreedServed(m: Platform, blocks: seq<Block>, begin: nat, end: nat,
                                       live: map<nat, Request>, i: nat)
    requires Tiles(GrainOf(m), blocks, begin, end) && Served(m, blocks, live) && i < |blocks| && blocks[i].user != 0
    ensures Served(m, blocks[i := blocks[i].(user := 0)], live - {blocks[i].user})
  {
    var now, user := blocks[i := blocks[i].(user := 0)], blocks[i].user;
    forall j | 0 <= j < |blocks| && j != i ensures blocks[j].user != user {
      if i < j {
        UserOnce(m, blocks, begin, end, live, i, j);
      } else if blocks[j].user != 0 {
        UserOnce(m, blocks, begin, end, live, j, i);
      }
    }
    forall b | b in now && b.user != 0 ensures b.user in live - {user} && Inside(m, b, live[b.user]) {
      var j :| 0 <= j < |now| && now[j] == b;
      assert j != i && blocks[j] == b && b in blocks;
    }
    forall u | u in live - {user} ensures Holds(now, u) {
      assert Holds(blocks, u);
      var j :| 0 <= j < |blocks| && blocks[j].user == u;
      assert now[j] == blocks[j] && now[j] in now;
    }
  }

  // ---- The list operations ----

  lemma {:induction false} PlaceKeeps(m: Platform, blocks: seq<Block>, begin: nat, end: nat, live: map<nat, Request>,
                                      i: nat, user: nat, r: Request)
    requires Sane(m) && Tiles(GrainOf(m), blocks, begin, end) && Apart(blocks) && Served(m, blocks, live)
    requires i < |blocks| && 0 < r.bytes && 0 < r.alignment && Position(m, blocks[i], r) == Some(user)
    ensures var pieces := Carved(m, blocks[i], user, r.bytes);
            var now := blocks[..i] + (pieces + blocks[i + 1..]);
            && Tiles(GrainOf(m), now, begin, end) && Apart(now) && Served(m, now, live[user := r])
            && pieces != [] && UsedBytes(now) == UsedBytes(blocks) + pieces[0].bytes
               && UsedCount(now) == UsedCount(blocks) + 1
    ensures user != 0 && user !in live
  {
    var left, b, right := blocks[..i], blocks[i], blocks[i + 1..];
    var pieces := Carved(m, b, user, r.bytes);
    assert blocks == left + ([b] + right);
    TilesWithin(GrainOf(m), blocks, begin, end, i);
    CarvedFacts(m, b, r);
    OnePiece(GrainOf(m), b);
    UserIsFresh(m, blocks, begin, end, live, i, user);
    TilesReplaceAt(GrainOf(m), blocks, i, pieces, begin, end);
    CarvedApart(left, b, pieces, right);
    CarvedServed(m, left, b, pieces, right, live, r);
    UsedReplace(left, [b], pieces, right);
  }

  lemma {:induction false} JoinServed(m: Platform, blocks: seq<Block>, live: map<nat, Request>, i: nat)
    requires Served(m, blocks, live) && i + 1 < |blocks| && blocks[i].user == blocks[i + 1].user == 0
    ensures Served(m, Join(blocks, i), live)
  {
    assert blocks == blocks[..i] + ([blocks[i], blocks[i + 1]] + blocks[i + 2..]);
    MergeServed(m, blocks[..i], blocks[i], blocks[i + 1], blocks[i + 2..], live);
  }

  lemma {:induction false} CoalescedServed(m: Platform, blocks: seq<Block>, begin: nat, end: nat,
                                           live: map<nat, Request>, i: nat)
    requires Tiles(GrainOf(m), blocks, begin, end) && Served(m, blocks, live) && i < |blocks| && blocks[i].user != 0
    ensures Served(m, Coalesced(blocks, i), live - {blocks[i].user})
  {
    var user := blocks[i].user;
    FreedServed(m, blocks, begin, end, live, i);
    var one := blocks[i := blocks[i].(user := 0)];
    if i + 1 < |one| && one[i + 1].user == 0 {
      JoinServed(m, one, live - {user}, i);
    }
    var two := JoinNext(one, i);
    if i > 0 && two[i - 1].user == 0 {
      JoinServed(m, two, live - {user}, i - 1);
    }
  }

  // The steps of release() on the list.
  method Coalesce(m: Platform, list: seq<Block>, i: nat, ghost begin: nat, ghost end: nat,
                  ghost live: map<nat, Request>)
    returns (blocks: seq<Block>)
    requires Tiles(GrainOf(m), list, begin, end) && Apart(list) && Served(m, list, live) && i < |list|
             && list[i].user != 0
    ensures Tiles(GrainOf(m), blocks, begin, end) && Apart(blocks) && Served(m, blocks, live - {list[i].user})
    ensures UsedBytes(blocks) == UsedBytes(list) - list[i].bytes && UsedCount(blocks) == UsedCount(list) - 1
    ensures list[i].user in live && blocks != []
  {
    blocks := list[i := list[i].(user := 0)];
    if i + 1 < |blocks| && blocks[i + 1].user == 0 {
      blocks := Join(blocks, i);
    }
    if i > 0 && blocks[i - 1].user == 0 {
      blocks := Join(blocks, i - 1);
    }
    assert blocks == Coalesced(list, i);
    CoalescedTiles(GrainOf(m), list, begin, end, i);
    CoalescedServed(m, list, begin, end, live, i);
    assert list[i] in list;
  }

  class Heap {
    const m: Platform
    var blocks: seq<Block>
    var used: nat
    var highWater: nat
    var allocations: nat
    ghost var begin: nat
    ghost var end: nat
    ghost var live: map<nat, Request>

    ghost predicate Valid()
      reads this
    {
      && Sane(m) && Shape() && (blocks != [] ==> 0 < begin < end <= m.limit) && Apart(blocks)
      && used == UsedBytes(blocks) && used <= highWater && allocations == UsedCount(blocks) == |live|
    }

    ghost predicate Shape()
      reads this
    {
      Tiles(GrainOf(m), blocks, begin, end) && Served(m, blocks, live)
    }

    constructor (m: Platform)
      requires Sane(m)
      ensures Valid() && this.m == m && blocks == [] && live == map[] && highWater == 0
    {
      this.m := m;
      blocks, used, highWater, allocations := [], 0, 0, 0;
      begin, end, live := 0, 0, map[];
    }

    method Initialize(storage: nat, bytes: nat) returns (ok: bool)
      requires Valid() && storage <= m.limit && bytes <= m.limit
      modifies this
      ensures Valid()
      ensures ok <==> old(blocks) == [] && storage != 0 && bytes >= HeaderSize(m) && Aligned(storage, m.word)
                      && storage + bytes <= m.limit
      ensures ok ==> blocks == [Block(storage, bytes, 0)] && live == map[] && begin == storage && end == storage + bytes
      ensures !ok ==> blocks == old(blocks) && live == old(live) && begin == old(begin) && end == old(end)
    {
      if blocks != [] || storage == 0 || bytes < HeaderSize(m) || !Aligned(storage, m.word)
         || bytes > m.limit - storage {
        return false;
      }
      OnePiece(GrainOf(m), Block(storage, bytes, 0));
      assert |live| == 0;
      blocks := [Block(storage, bytes, 0)];
      begin, end := storage, storage + bytes;
      ok := true;
    }

    // try_allocate: the first free block that can take the request.
    method TryAllocate(r: Request) returns (user: nat)
      requires Valid() && r.bytes <= m.limit && r.alignment <= m.limit
      modifies this
      ensures Valid() && begin == old(begin) && end == old(end)
      ensures user == 0 <==>
                r.bytes == 0 || !PowerOfTwo(r.alignment)
                  || forall i :: 0 <= i < |old(blocks)| ==> !CanTake(m, old(blocks)[i], r)
      ensures user == 0 ==> blocks == old(blocks) && live == old(live)
      ensures user != 0 ==> user !in old(live) && live == old(live)[user := r]
      ensures user != 0 ==> exists i :: FirstFit(m, old(blocks), r, i, user)
    {
      if r.bytes == 0 || !PowerOfTwo(r.alignment) {
        return 0;
      }
      var i := 0;
      while i < |blocks|
        invariant 0 <= i <= |blocks| && forall j :: 0 <= j < i ==> !CanTake(m, blocks[j], r)
      {
        var found := Position(m, blocks[i], r);
        if found.Some? {
          assert CanTake(m, blocks[i], r) && FirstFit(m, blocks, r, i, found.value);
          Place(i, found.value, r);
          return found.value;
        }
        i := i + 1;
      }
      return 0;
    }

    method Place(i: nat, user: nat, r: Request)
      requires Valid() && i < |blocks| && 0 < r.bytes && 0 < r.alignment && Position(m, blocks[i], r) == Some(user)
      modifies this
      ensures Valid() && begin == old(begin) && end == old(end)
      ensures user != 0 && user !in old(live) && live == old(live)[user := r]
    {
      var pieces := Carved(m, blocks[i], user, r.bytes);
      PlaceKeeps(m, blocks, begin, end, live, i, user, r);
      blocks := blocks[..i] + (pieces + blocks[i + 1..]);
      used := used + pieces[0].bytes;
      highWater := Max(used, highWater);
      allocations := allocations + 1;
      live := live[user := r];
    }

    // release: the block gives up its user and joins its free neighbours.
    method Release(pointer: nat) returns (ok: bool)
      requires Valid()
      modifies this
      ensures Valid() && begin == old(begin) && end == old(end)
      ensures ok <==> pointer == 0 || pointer in old(live)
      ensures live == if pointer == 0 then old(live) else old(live) - {pointer}
    {
      if pointer == 0 {
        return true;
      }
      var i := 0;
      while i < |blocks|
        invariant 0 <= i <= |blocks| && forall j :: 0 <= j < i ==> blocks[j].user != pointer
      {
        if blocks[i].user == pointer {
          assert blocks[i] in blocks;
          Free(i);
          return true;
        }
        i := i + 1;
      }
      assert pointer in live ==> Holds(blocks, pointer);
      assert live - {pointer} == live;
      return false;
    }

    method Free(i: nat)
      requires Valid() && i < |blocks| && blocks[i].user != 0
      modifies this
      ensures Valid() && begin == old(begin) && end == old(end) && live == old(live) - {old(blocks)[i].user}
    {
      var list := Coalesce(m, blocks, i, begin, end, live);
      MapDrop(live, blocks[i].user);
      used := used - blocks[i].bytes;
      allocations := allocations - 1;
      live := live - {blocks[i].user};
      blocks := list;
    }
  }

  ghost predicate CanTake(m: Platform, b: Block, r: Request) {
    0 < r.alignment && Position(m, b, r).Some?
  }

  ghost predicate FirstFit(m: Platform, blocks: seq<Block>, r: Request, i: nat, user: nat) {
    && 0 < r.alignment && i < |blocks| && Position(m, blocks[i], r) == Some(user)
    && forall j :: 0 <= j < i ==> !CanTake(m, blocks[j], r)
  }

  lemma {:induction false} MapDrop(live: map<nat, Request>, u: nat)
    requires u in live
    ensures |live - {u}| == |live| - 1
  {
    assert live == (live - {u})[u := live[u]];
  }

  // ---- Whole runs ----

  lemma {:induction false} AllReleased(m: Platform, blocks: seq<Block>, begin: nat, end: nat, live: map<nat, Request>)
    requires Tiles(GrainOf(m), blocks, begin, end) && Apart(blocks) && Served(m, blocks, live) && begin < end
             && live == map[]
    ensures blocks == [Block(begin, end - begin, 0)]
  {
    AllFree(GrainOf(m), blocks, begin, end);
  }

  datatype Call = Allocate(request: Request) | Return(pointer: nat)

  predicate Representable(m: Platform, call: Call) {
    call.Allocate? ==> call.request.bytes <= m.limit && call.request.alignment <= m.limit
  }

  // What is live after some calls, given what each of them returned.
  ghost function Live(calls: seq<Call>, results: seq<nat>): map<nat, Request>
    requires |calls| == |results|
  {
    if calls == [] then map[]
    else
      var n := |calls| - 1;
      Stepped(Live(calls[..n], results[..n]), calls[n], results[n])
  }

  ghost function Stepped(live: map<nat, Request>, call: Call, result: nat): map<nat, Request> {
    match call
    case Allocate(r) => if result == 0 then live else live[result := r]
    case Return(pointer) => live - {pointer}
  }

  // The arena's own record of what is live is the one the calls give. It is
  // behind a quantifier so that a proof unfolds it only by naming TrackedBy.
  ghost predicate Tracked(live: map<nat, Request>, calls: seq<Call>, results: seq<nat>) {
    forall known: seq<Call> :: known == calls ==> TrackedBy(live, known, results)
  }

  ghost predicate TrackedBy(live: map<nat, Request>, calls: seq<Call>, results: seq<nat>) {
    |calls| == |results| && live == Live(calls, results)
  }

  method Perform(heap: Heap, call: Call) returns (result: nat)
    requires heap.Valid() && Representable(heap.m, call)
    modifies heap
    ensures heap.Valid() && heap.begin == old(heap.begin) && heap.end == old(heap.end)
    ensures heap.live == Stepped(old(heap.live), call, result)
  {
    match call
    case Allocate(request) =>
      result := heap.TryAllocate(request);
    case Return(pointer) =>
      NoNullUser(heap.m, heap.blocks, heap.live);
      var done := heap.Release(pointer);
      result := 0;
  }

  // The blocks tile the storage, hold exactly what is live, and are one free
  // block again when nothing is.
  ghost predicate Standing(m: Platform, blocks: seq<Block>, used: nat, live: map<nat, Request>, begin: nat, end: nat) {
    && begin < end && Tiles(GrainOf(m), blocks, begin, end) && Apart(blocks) && Served(m, blocks, live)
    && used == UsedBytes(blocks) && UsedCount(blocks) == |live|
    && (live == map[] ==> blocks == [Block(begin, end - begin, 0)])
  }

  method Report(heap: Heap, ghost m: Platform, ghost storage: nat, ghost bytes: nat, ghost live: map<nat, Request>)
    returns (blocks: seq<Block>, used: nat)
    requires heap.Valid() && heap.m == m && heap.begin == storage && heap.end == storage + bytes && heap.live == live
             && 0 < bytes
    ensures Standing(m, blocks, used, live, storage, storage + bytes)
  {
    blocks, used := heap.blocks, heap.used;
    if live == map[] {
      AllReleased(m, blocks, storage, storage + bytes, live);
    }
  }

  // Any run of allocations and releases on one arena.
  method Run(m: Platform, storage: nat, bytes: nat, calls: seq<Call>)
    returns (blocks: seq<Block>, used: nat, results: seq<nat>)
    requires Sane(m) && 0 < storage && Aligned(storage, m.word) && HeaderSize(m) <= bytes && storage + bytes <= m.limit
    requires forall i :: 0 <= i < |calls| ==> Representable(m, calls[i])
    ensures |results| == |calls| && Standing(m, blocks, used, Live(calls, results), storage, storage + bytes)
  {
    var heap := Create(m, storage, bytes);
    results := PerformAll(heap, calls);
    blocks, used := Report(heap, m, storage, bytes, Live(calls, results));
  }

  method Create(m: Platform, storage: nat, bytes: nat) returns (heap: Heap)
    requires Sane(m) && 0 < storage && Aligned(storage, m.word) && HeaderSize(m) <= bytes && storage + bytes <= m.limit
    ensures fresh(heap) && heap.Valid() && heap.m == m && heap.live == map[] && heap.begin == storage
            && heap.end == storage + bytes
  {
    heap := new Heap(m);
    var ok := heap.Initialize(storage, bytes);
  }

  method Record(heap: Heap, call: Call, ghost seen: seq<Call>, results: seq<nat>) returns (results': seq<nat>)
    requires heap.Valid() && Representable(heap.m, call) && Tracked(heap.live, seen, results)
    modifies heap
    ensures heap.Valid() && heap.begin == old(heap.begin) && heap.end == old(heap.end)
    ensures Tracked(heap.live, seen + [call], results')
  {
    assert TrackedBy(heap.live, seen, results);
    var result := Perform(heap, call);
    LiveStep(seen, results, call, result);
    results' := results + [result];
  }

  method PerformAll(heap: Heap, calls: seq<Call>) returns (results: seq<nat>)
    requires heap.Valid() && heap.live == map[]
    requires forall i :: 0 <= i < |calls| ==> Representable(heap.m, calls[i])
    modifies heap
    ensures heap.Valid() && heap.begin == old(heap.begin) && heap.end == old(heap.end)
    ensures |results| == |calls| && heap.live == Live(calls, results)
  {
    results := [];
    for i := 0 to |calls|
      invariant heap.Valid() && heap.begin == old(heap.begin) && heap.end == old(heap.end)
      invariant Tracked(heap.live, calls[..i], results)
    {
      results := Record(heap, calls[i], calls[..i], results);
      assert calls[..i + 1] == calls[..i] + [calls[i]];
    }
    assert calls[..|calls|] == calls;
    assert TrackedBy(heap.live, calls, results);
  }

  lemma {:induction false} LiveStep(calls: seq<Call>, results: seq<nat>, call: Call, result: nat)
    requires |calls| == |results|
    ensures Live(calls + [call], results + [result]) == Stepped(Live(calls, results), call, result)
  {
    assert (calls + [call])[..|calls|] == calls && (results + [result])[..|calls|] == results;
  }

  lemma {:induction false} NoNullUser(m: Platform, blocks: seq<Block>, live: map<nat, Request>)
    requires Served(m, blocks, live)
    ensures 0 !in live
  {
    assert 0 in live ==> Holds(blocks, 0);
  }
}
