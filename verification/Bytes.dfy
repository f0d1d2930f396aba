/** Little-endian fields and splices of byte images. */
module Bytes {
  import opened Machine

  // little_u16 and little_u32 (drivers/fs/filesystem.hpp).
  function Little16(s: seq<u8>, at: nat): u16
    requires at + 2 <= |s|
  {
    s[at] as int + 0x100 * (s[at + 1] as int)
  }

  function Little32(s: seq<u8>, at: nat): u32
    requires at + 4 <= |s|
  {
    s[at] as int + 0x100 * (s[at + 1] as int) + 0x1_0000 * (s[at + 2] as int) + 0x100_0000 * (s[at + 3] as int)
  }

  function Bytes16(v: u16): (s: seq<u8>)
    ensures |s| == 2 && Little16(s, 0) == v
  {
    [v % 0x100, v / 0x100]
  }

  function Bytes32(v: u32): (s: seq<u8>)
    ensures |s| == 4 && Little32(s, 0) == v
  {
    [v % 0x100, v / 0x100 % 0x100, v / 0x1_0000 % 0x100, v / 0x100_0000]
  }

  function Zeros(n: nat): (s: seq<u8>)
    ensures |s| == n && forall i :: 0 <= i < n ==> s[i] == 0
  {
    seq(n, _ => 0)
  }

  // The image after `data` is written at `at`.
  function Overlay(s: seq<u8>, at: nat, data: seq<u8>): (r: seq<u8>)
    requires at + |data| <= |s|
    ensures |r| == |s|
    ensures r[at..at + |data|] == data
    ensures forall i :: 0 <= i < |s| && !(at <= i < at + |data|) ==> r[i] == s[i]
  {
    s[..at] + data + s[at + |data|..]
  }

  // A slice that the write does not touch is unchanged.
  lemma {:induction false} OverlayElsewhere(s: seq<u8>, at: nat, data: seq<u8>, lo: nat, hi: nat)
    requires at + |data| <= |s| && lo <= hi <= |s|
    requires hi <= at || at + |data| <= lo
    ensures Overlay(s, at, data)[lo..hi] == s[lo..hi]
  {
  }

  // A write inside a slice is a write into the slice.
  lemma {:induction false} OverlayInside(s: seq<u8>, at: nat, data: seq<u8>, lo: nat, hi: nat)
    requires lo <= at && at + |data| <= hi <= |s|
    ensures Overlay(s, at, data)[lo..hi] == Overlay(s[lo..hi], at - lo, data)
  {
  }

  // Two adjacent writes are one.
  lemma {:induction false} OverlayJoin(s: seq<u8>, at: nat, first: seq<u8>, second: seq<u8>)
    requires at + |first| + |second| <= |s|
    ensures Overlay(Overlay(s, at, first), at + |first|, second) == Overlay(s, at, first + second)
  {
  }

  // Writing inside one part of a concatenation.
  lemma {:induction false} OverlayMiddle(a: seq<u8>, b: seq<u8>, c: seq<u8>, at: nat, data: seq<u8>)
    requires at + |data| <= |b|
    ensures a + Overlay(b, at, data) + c == Overlay(a + b + c, |a| + at, data)
  {
  }

  lemma {:induction false} SliceOfSlice(s: seq<u8>, lo: nat, hi: nat, at: nat, count: nat)
    requires lo <= hi <= |s| && at + count <= hi - lo
    ensures s[lo..hi][at..at + count] == s[lo + at..lo + at + count]
  {
    var a, b := s[lo..hi][at..at + count], s[lo + at..lo + at + count];
    assert |a| == |b|;
    forall i | 0 <= i < count ensures a[i] == b[i] {
      assert a[i] == s[lo..hi][at + i];
    }
  }

  lemma {:induction false} SliceGrow(s: seq<u8>, at: nat, n: nat, count: nat)
    requires at + n + count <= |s|
    ensures s[at..at + n] + s[at + n..at + n + count] == s[at..at + (n + count)]
  {
  }

  lemma {:induction false} ZerosGrow(s: seq<u8>, at: nat, first: nat, second: nat)
    requires at + first + second <= |s|
    ensures Overlay(Overlay(s, at, Zeros(first)), at + first, Zeros(second)) == Overlay(s, at, Zeros(first + second))
  {
    assert Zeros(first) + Zeros(second) == Zeros(first + second);
    OverlayJoin(s, at, Zeros(first), Zeros(second));
  }

  // A field read through a slice.
  lemma {:induction false} Little16Slice(s: seq<u8>, lo: nat, hi: nat, at: nat)
    requires lo <= at && at + 2 <= hi <= |s|
    ensures Little16(s[lo..hi], at - lo) == Little16(s, at)
  {
  }

  lemma {:induction false} Little32Slice(s: seq<u8>, lo: nat, hi: nat, at: nat)
    requires lo <= at && at + 4 <= hi <= |s|
    ensures Little32(s[lo..hi], at - lo) == Little32(s, at)
  {
  }

  lemma {:induction false} PrefixOfConcat(a: seq<u8>, b: seq<u8>, n: nat)
    requires n <= |a|
    ensures (a + b)[..n] == a[..n]
  {
  }

  lemma {:induction false} SplitAt<T>(s: seq<T>, n: nat)
    requires n <= |s|
    ensures s[..n] + s[n..] == s
  {
  }
}
