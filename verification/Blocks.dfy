/**
 Files made of equal blocks: a list of block numbers read and written as one
 plain byte sequence.
 */
module Blocks {
  import opened Machine
  import opened Bytes

  // File sizes are 32-bit numbers.
  const SIZE_LIMIT := 0xffff_ffff

  ghost predicate Distinct(chain: seq<nat>) {
    forall i, j :: 0 <= i < j < |chain| ==> Differ(chain, i, j)
  }

  ghost predicate Differ(chain: seq<nat>, i: nat, j: nat)
    requires i < j < |chain|
  {
    chain[i] != chain[j]
  }

  // No block repeats an earlier one.
  ghost predicate Disjoint(a: seq<nat>, b: seq<nat>) {
    forall x :: x in a ==> x !in b
  }

  lemma {:induction false} DistinctPrefix(chain: seq<nat>, n: nat)
    requires Distinct(chain) && n < |chain|
    ensures chain[n] !in chain[..n] && Distinct(chain[..n])
  {
    forall i | 0 <= i < n ensures chain[i] != chain[n] {
      assert Differ(chain, i, n);
    }
    forall i, j | 0 <= i < j < n ensures Differ(chain[..n], i, j) {
      assert Differ(chain, i, j);
    }
  }

  lemma {:induction false} DistinctAppend(chain: seq<nat>, c: nat)
    requires Distinct(chain) && c !in chain
    ensures Distinct(chain + [c])
  {
    forall i, j | 0 <= i < j < |chain| + 1 ensures Differ(chain + [c], i, j) {
      if j < |chain| {
        assert Differ(chain, i, j);
      }
    }
  }

  ghost function Clusters(chain: seq<nat>): (s: set<nat>)
    ensures forall c :: c in s <==> c in chain
  {
    set c | c in chain
  }

  lemma {:induction false} DistinctSize(chain: seq<nat>)
    requires Distinct(chain)
    ensures |Clusters(chain)| == |chain|
  {
    if chain != [] {
      var n := |chain| - 1;
      DistinctPrefix(chain, n);
      DistinctSize(chain[..n]);
      assert Clusters(chain) == Clusters(chain[..n]) + {chain[n]};
    }
  }

  // Where the i-th block of a file begins: i * B, without the product.
  ghost function Origin(B: nat, i: nat): nat {
    if i == 0 then 0 else Origin(B, i - 1) + B
  }

  lemma {:induction false} OriginIsProduct(B: nat, i: nat)
    ensures Origin(B, i) == i * B
  {
    if i > 0 {
      OriginIsProduct(B, i - 1);
    }
  }

  lemma {:induction false} OriginOrder(B: nat, i: nat, j: nat)
    requires i < j
    ensures Origin(B, i) + B <= Origin(B, j)
  {
    if i + 1 < j {
      OriginOrder(B, i, j - 1);
    }
  }

  // Quotient and remainder by counting, so that no proof meets a division.
  ghost function Quotient(n: nat, B: nat): nat
    requires 0 < B
  {
    if n < B then 0 else 1 + Quotient(n - B, B)
  }

  function Remainder(n: nat, B: nat): (r: nat)
    requires 0 < B
    ensures r < B && r <= n
  {
    if n < B then n else Remainder(n - B, B)
  }

  lemma {:induction false} QuotientIsDivision(n: nat, B: nat)
    requires 0 < B
    ensures Quotient(n, B) == n / B && Remainder(n, B) == n % B
  {
    QuotientSplits(n, B);
    OriginIsProduct(B, Quotient(n, B));
    QuotientUnique(n, Quotient(n, B), Remainder(n, B), B);
  }

  lemma {:induction false} QuotientSplits(n: nat, B: nat)
    requires 0 < B
    ensures n == Origin(B, Quotient(n, B)) + Remainder(n, B)
  {
    if n >= B {
      QuotientSplits(n - B, B);
      OriginShift(B, Quotient(n - B, B));
    }
  }

  lemma {:induction false} OriginShift(B: nat, i: nat)
    ensures Origin(B, i + 1) == Origin(B, i) + B
  {
  }

  // A number lies between two multiples only at its own quotient.
  lemma {:induction false} QuotientAt(n: nat, B: nat, g: nat)
    requires 0 < B
    ensures Origin(B, g) <= n < Origin(B, g + 1) <==> g == Quotient(n, B)
  {
    QuotientSplits(n, B);
    var q := Quotient(n, B);
    if g < q {
      OriginOrder(B, g, q);
    } else if q < g {
      OriginOrder(B, q, g);
    }
  }

  ghost predicate FullBlocks(data: map<nat, seq<u8>>, chain: seq<nat>, B: nat) {
    forall i :: 0 <= i < |chain| ==> chain[i] in data && |data[chain[i]]| == B
  }

  ghost function Flat(data: map<nat, seq<u8>>, chain: seq<nat>, B: nat): (s: seq<u8>)
    requires FullBlocks(data, chain, B)
    ensures |s| == Origin(B, |chain|)
  {
    if chain == [] then []
    else
      var n := |chain| - 1;
      Flat(data, chain[..n], B) + data[chain[n]]
  }

  lemma {:induction false} FlatConcat(data: map<nat, seq<u8>>, a: seq<nat>, b: seq<nat>, B: nat)
    requires FullBlocks(data, a, B) && FullBlocks(data, b, B)
    ensures FullBlocks(data, a + b, B)
    ensures Flat(data, a + b, B) == Flat(data, a, B) + Flat(data, b, B)
  {
    if b == [] {
      assert a + b == a;
    } else {
      var n := |b| - 1;
      FlatConcat(data, a, b[..n], B);
      assert (a + b)[..|a + b| - 1] == a + b[..n];
    }
  }

  lemma {:induction false} FlatSame(data: map<nat, seq<u8>>, data': map<nat, seq<u8>>, chain: seq<nat>, B: nat)
    requires FullBlocks(data, chain, B)
    requires forall i :: 0 <= i < |chain| ==> chain[i] in data' && data'[chain[i]] == data[chain[i]]
    ensures FullBlocks(data', chain, B) && Flat(data', chain, B) == Flat(data, chain, B)
  {
    if chain != [] {
      FlatSame(data, data', chain[..|chain| - 1], B);
    }
  }

  lemma {:induction false} FlatElsewhere(data: map<nat, seq<u8>>, chain: seq<nat>, B: nat, c: nat, block: seq<u8>)
    requires FullBlocks(data, chain, B) && c !in chain
    ensures FullBlocks(data[c := block], chain, B) && Flat(data[c := block], chain, B) == Flat(data, chain, B)
  {
    FlatSame(data, data[c := block], chain, B);
  }

  // The i-th block is the bytes from its origin on.
  lemma {:induction false} FlatSplit(data: map<nat, seq<u8>>, chain: seq<nat>, B: nat, i: nat)
    requires FullBlocks(data, chain, B) && i < |chain|
    ensures FullBlocks(data, chain[..i], B) && FullBlocks(data, chain[i + 1..], B)
    ensures Flat(data, chain, B) == Flat(data, chain[..i], B) + data[chain[i]] + Flat(data, chain[i + 1..], B)
    ensures |Flat(data, chain[..i], B)| == Origin(B, i)
  {
    FlatConcat(data, chain[..i + 1], chain[i + 1..], B);
    assert chain[..i + 1] + chain[i + 1..] == chain;
    assert chain[..i + 1][..i] == chain[..i];
  }

  lemma {:induction false} FlatSlice(data: map<nat, seq<u8>>, chain: seq<nat>, B: nat, i: nat, within: nat, count: nat)
    requires FullBlocks(data, chain, B) && i < |chain| && within + count <= B
    ensures Origin(B, i) + within + count <= |Flat(data, chain, B)|
    ensures Flat(data, chain, B)[Origin(B, i) + within..Origin(B, i) + within + count]
            == data[chain[i]][within..within + count]
  {
    FlatSplit(data, chain, B, i);
  }

  lemma {:induction false} FlatReplaced(data: map<nat, seq<u8>>, chain: seq<nat>, B: nat, i: nat, block: seq<u8>)
    requires FullBlocks(data, chain, B) && Distinct(chain) && i < |chain| && |block| == B
    ensures FullBlocks(data, chain[..i], B) && FullBlocks(data, chain[i + 1..], B)
    ensures FullBlocks(data[chain[i] := block], chain, B)
    ensures Flat(data[chain[i] := block], chain, B) == Flat(data, chain[..i], B) + block + Flat(data, chain[i + 1..], B)
  {
    var data' := data[chain[i] := block];
    DistinctElsewhere(chain, i);
    FlatElsewhere(data, chain[..i], B, chain[i], block);
    FlatElsewhere(data, chain[i + 1..], B, chain[i], block);
    assert FullBlocks(data', chain, B);
    FlatSplit(data', chain, B, i);
  }

  // Writing inside one block is writing inside the sequence.
  lemma {:induction false} FlatWritten(data: map<nat, seq<u8>>, chain: seq<nat>, B: nat, i: nat, within: nat,
                                       bytes: seq<u8>)
    requires FullBlocks(data, chain, B) && Distinct(chain) && i < |chain| && within + |bytes| <= B
    ensures var data' := data[chain[i] := Overlay(data[chain[i]], within, bytes)];
            && FullBlocks(data', chain, B)
            && Origin(B, i) + within + |bytes| <= |Flat(data, chain, B)|
            && Flat(data', chain, B) == Overlay(Flat(data, chain, B), Origin(B, i) + within, bytes)
  {
    FlatSplit(data, chain, B, i);
    var before, block, after := Flat(data, chain[..i], B), data[chain[i]], Flat(data, chain[i + 1..], B);
    FlatReplaced(data, chain, B, i, Overlay(block, within, bytes));
    assert before + Overlay(block, within, bytes) + after
           == Overlay(before + block + after, Origin(B, i) + within, bytes) by {
      OverlayMiddle(before, block, after, within, bytes);
    }
  }

  lemma {:induction false} DistinctElsewhere(chain: seq<nat>, i: nat)
    requires Distinct(chain) && i < |chain|
    ensures chain[i] !in chain[..i] && chain[i] !in chain[i + 1..]
  {
    forall j | 0 <= j < |chain| && j != i ensures chain[j] != chain[i] {
      assert if j < i then Differ(chain, j, i) else Differ(chain, i, j);
    }
  }

  function BlocksFor(size: nat, B: nat): nat
    requires 0 < B
  {
    if size == 0 then 0 else 1 + (size - 1) / B
  }

  // How many blocks hold `size` bytes.
  lemma {:induction false} BlocksForSize(size: nat, B: nat)
    requires 0 < B
    ensures size <= Origin(B, BlocksFor(size, B))
    ensures size > 0 ==> Origin(B, BlocksFor(size, B) - 1) < size
  {
    OriginIsProduct(B, BlocksFor(size, B));
    if size > 0 {
      var q := (size - 1) / B;
      OriginIsProduct(B, q);
      assert size - 1 == q * B + (size - 1) % B;
      assert (q + 1) * B == q * B + B;
    }
  }

  lemma {:induction false} BlocksForWhole(n: nat, B: nat)
    requires 0 < B
    ensures BlocksFor(Origin(B, n), B) == n
  {
    var size := Origin(B, n);
    var m := BlocksFor(size, B);
    BlocksForSize(size, B);
    if m < n {
      OriginOrder(B, m, n);
    } else if n < m && size > 0 {
      if n < m - 1 {
        OriginOrder(B, n, m - 1);
      }
    }
  }

  // A block index within the size is an index into the chain.
  lemma {:induction false} BlockIndex(offset: nat, size: nat, B: nat)
    requires 0 < B && offset < size
    ensures offset / B < BlocksFor(size, B) && offset == Origin(B, offset / B) + offset % B && offset % B < B
  {
    BlocksForSize(size, B);
    var q, n := offset / B, BlocksFor(size, B);
    OriginIsProduct(B, q);
    OriginIsProduct(B, n);
    assert offset == q * B + offset % B;
    if q >= n {
      MulMono(n, q, B);
      assert false;
    }
  }

  // `output` is the file's bytes from `at` on.
  ghost predicate ReadSoFar(data: map<nat, seq<u8>>, chain: seq<nat>, B: nat, at: nat, output: seq<u8>)
    requires FullBlocks(data, chain, B)
  {
    var flat := Flat(data, chain, B);
    at + |output| <= |flat| && output == flat[at..at + |output|]
  }

  lemma {:induction false} ReadMore(data: map<nat, seq<u8>>, chain: seq<nat>, B: nat, at: nat, output: seq<u8>,
                                    i: nat, within: nat, count: nat)
    requires FullBlocks(data, chain, B) && i < |chain| && within + count <= B
    requires ReadSoFar(data, chain, B, at, output) && at + |output| == Origin(B, i) + within
    ensures ReadSoFar(data, chain, B, at, output + data[chain[i]][within..within + count])
  {
    FlatSlice(data, chain, B, i, within, count);
    SliceGrow(Flat(data, chain, B), at, |output|, count);
  }

  // Bytes left past block i mean there is a block i + 1.
  lemma {:induction false} NextIndex(chain: seq<nat>, B: nat, i: nat, remaining: nat)
    requires 0 < B && 0 < remaining && i < |chain| && Origin(B, i) + B + remaining <= Origin(B, |chain|)
    ensures i + 1 < |chain| && Origin(B, i + 1) == Origin(B, i) + B
  {
    assert Origin(B, i + 1) == Origin(B, i) + B;
  }

  // The chain's bytes from `at` on were replaced by `bytes`; no other block changed.
  ghost predicate Wrote(data: map<nat, seq<u8>>, data': map<nat, seq<u8>>, chain: seq<nat>, B: nat, at: nat,
                        bytes: seq<u8>)
    requires FullBlocks(data, chain, B)
  {
    && data'.Keys == data.Keys
    && (forall c :: c in data && c !in chain ==> data'[c] == data[c])
    && FullBlocks(data', chain, B)
    && at + |bytes| <= |Flat(data, chain, B)|
    && Flat(data', chain, B) == Overlay(Flat(data, chain, B), at, bytes)
  }

  lemma {:induction false} WroteMore(data: map<nat, seq<u8>>, data': map<nat, seq<u8>>, chain: seq<nat>, B: nat,
                                     at: nat, bytes: seq<u8>, i: nat, within: nat, more: seq<u8>)
    requires FullBlocks(data, chain, B) && Distinct(chain) && Wrote(data, data', chain, B, at, bytes)
    requires i < |chain| && within + |more| <= B && at + |bytes| == Origin(B, i) + within
    ensures Wrote(data, data'[chain[i] := Overlay(data'[chain[i]], within, more)], chain, B, at, bytes + more)
  {
    var after := data'[chain[i] := Overlay(data'[chain[i]], within, more)];
    FlatWritten(data', chain, B, i, within, more);
    OverlayJoin(Flat(data, chain, B), at, bytes, more);
    assert Flat(after, chain, B) == Overlay(Flat(data, chain, B), at, bytes + more);
    assert after.Keys == data.Keys;
  }

  lemma {:induction false} WroteNext(data: map<nat, seq<u8>>, data': map<nat, seq<u8>>, chain: seq<nat>, B: nat,
                                     at: nat, input: seq<u8>,
                  done: nat, i: nat, within: nat, count: nat)
    requires done + count <= |input|
    requires FullBlocks(data, chain, B) && Distinct(chain) && Wrote(data, data', chain, B, at, input[..done])
    requires i < |chain| && within + count <= B && at + done == Origin(B, i) + within
    ensures Wrote(data, data'[chain[i] := Overlay(data'[chain[i]], within, input[done..done + count])], chain, B, at,
                  input[..done + count])
  {
    WroteMore(data, data', chain, B, at, input[..done], i, within, input[done..done + count]);
    assert input[..done] + input[done..done + count] == input[..done + count];
  }

  // An offset before the end of the last block falls into one of them.
  lemma {:induction false} ChainIndex(offset: nat, count: nat, B: nat)
    requires 0 < B && offset < Origin(B, count)
    ensures offset / B < count && offset == Origin(B, offset / B) + offset % B && offset % B < B
  {
    OriginIsProduct(B, count);
    OriginIsProduct(B, offset / B);
    var q := offset / B;
    assert offset == q * B + offset % B;
    if q >= count {
      MulMono(count, q, B);
      assert false;
    }
  }

  lemma {:induction false} OverlayTail(flat: seq<u8>, size: nat, size': nat)
    requires size <= size' <= |flat|
    ensures Overlay(flat, size, Zeros(size' - size))[..size'] == Resized(flat[..size], size')
  {
  }

  lemma {:induction false} FlatZeros(data: map<nat, seq<u8>>, chain: seq<nat>, B: nat)
    requires FullBlocks(data, chain, B) && forall i :: 0 <= i < |chain| ==> data[chain[i]] == Zeros(B)
    ensures Flat(data, chain, B) == Zeros(Origin(B, |chain|))
  {
    if chain != [] {
      FlatZeros(data, chain[..|chain| - 1], B);
    }
  }

  lemma {:induction false} FlatPrefix(data: map<nat, seq<u8>>, data': map<nat, seq<u8>>, chain: seq<nat>,
                                      added: seq<nat>, B: nat, size: nat)
    requires FullBlocks(data, chain, B) && FullBlocks(data', added, B) && size <= |Flat(data, chain, B)|
    requires forall c :: c in chain ==> c in data' && data'[c] == data[c]
    ensures FullBlocks(data', chain + added, B) && size <= |Flat(data', chain + added, B)|
    ensures Flat(data', chain + added, B)[..size] == Flat(data, chain, B)[..size]
  {
    FlatSame(data, data', chain, B);
    FlatConcat(data', chain, added, B);
    PrefixOfConcat(Flat(data', chain, B), Flat(data', added, B), size);
  }

  function Resized(s: seq<u8>, size: nat): (r: seq<u8>)
    ensures |r| == size
  {
    if size <= |s| then s[..size] else s + Zeros(size - |s|)
  }

  // The bytes after a write: grown with zeros as far as needed, then replaced.
  function Spliced(s: seq<u8>, offset: nat, input: seq<u8>): (r: seq<u8>)
    ensures |r| == if input == [] then |s| else Max(|s|, offset + |input|)
  {
    if input == [] then s else Overlay(Resized(s, Max(|s|, offset + |input|)), offset, input)
  }

  lemma {:induction false} OverlayPrefix(flat: seq<u8>, size: nat, offset: nat, input: seq<u8>)
    requires offset + |input| <= size <= |flat|
    ensures Overlay(flat, offset, input)[..size] == Overlay(flat[..size], offset, input)
  {
  }

  lemma {:induction false} BlockOrdering(a: nat, b: nat, B: nat)
    requires 0 < B
    ensures BlocksFor(a, B) < BlocksFor(b, B) ==> a < b
    ensures BlocksFor(a, B) == 0 <==> a == 0
  {
    if b <= a && b > 0 {
      DivMono(b - 1, a - 1, B);
    }
  }

  lemma {:induction false} DivMono(a: nat, b: nat, B: nat)
    requires a <= b && 0 < B
    ensures a / B <= b / B
  {
    var p, q := a / B, b / B;
    assert a == p * B + a % B && b == q * B + b % B;
    if p > q {
      MulMono(q + 1, p, B);
    }
  }

  lemma {:induction false} PrefixDistinct(chain: seq<nat>, n: nat)
    requires Distinct(chain) && n <= |chain|
    ensures Distinct(chain[..n]) && Distinct(chain[n..])
  {
    forall i, j | 0 <= i < j < n ensures Differ(chain[..n], i, j) {
      assert Differ(chain, i, j);
    }
    forall i, j | 0 <= i < j < |chain| - n ensures Differ(chain[n..], i, j) {
      assert Differ(chain, n + i, n + j);
    }
  }
}
