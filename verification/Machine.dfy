/** Machine integers and small helpers shared by every component. */
module Machine {

  type u8 = x: int | 0 <= x < 0x100
  type u16 = x: int | 0 <= x < 0x1_0000
  type u32 = x: int | 0 <= x < 0x1_0000_0000

  datatype Option<+T> = None | Some(value: T)

  function Min(a: int, b: int): int {
    if a < b then a else b
  }

  function Max(a: int, b: int): int {
    if a < b then b else a
  }

  ghost function Range(lo: int, hi: int): (s: set<int>)
    requires lo <= hi
    ensures |s| == hi - lo
    ensures forall c :: c in s <==> lo <= c < hi
    decreases hi - lo
  {
    if lo == hi then {} else Range(lo, hi - 1) + {hi - 1}
  }

  lemma {:induction false} SubsetSize<T>(a: set<T>, b: set<T>)
    requires a <= b
    ensures |a| <= |b|
    ensures a < b ==> |a| < |b|
  {
    if a != {} {
      var x :| x in a;
      SubsetSize(a - {x}, b - {x});
    }
  }

  lemma {:induction false} MulMono(a: nat, b: nat, c: nat)
    requires a <= b
    ensures a * c <= b * c
  {
  }

  lemma {:induction false} SeqAssoc<T>(a: seq<T>, b: seq<T>, c: seq<T>)
    ensures (a + b) + c == a + (b + c)
  {
  }

  lemma {:induction false} QuotientUnique(n: nat, q: nat, r: nat, B: nat)
    requires 0 < B && n == q * B + r && r < B
    ensures n / B == q && n % B == r
  {
    var p := n / B;
    assert n == p * B + n % B;
    if p < q {
      MulMono(p + 1, q, B);
    } else if q < p {
      MulMono(q + 1, p, B);
    }
  }
}

/** 32-bit sequence numbers, section 3.4 of RFC 9293. */
module SequenceNumbers {
  import opened Machine

  const MODULUS := 0x1_0000_0000
  const HALF := 0x8000_0000

  // Conversion of an unbounded value to u32.
  function Wrap(x: int): u32 {
    x % MODULUS
  }

  // static_cast<i32>(a - b) on u32 operands.
  function Signed(a: u32, b: u32): int {
    var d := Wrap(a - b);
    if d < HALF then d else d - MODULUS
  }

  // The signed difference of two wrapped positions is their true distance as
  // long as that distance fits 32 bits: comparisons of nearby positions are
  // never ambiguous, wherever in the sequence space they fall.
  lemma {:induction false} SignedIsDistance(base: int, x: int, y: int)
    requires -HALF <= x - y < HALF
    ensures Signed(Wrap(base + x), Wrap(base + y)) == x - y
    ensures Wrap(Wrap(base + x) - Wrap(base + y)) == Wrap(x - y)
  {
    WrapDifference(base + x, base + y);
    if x >= y {
      WrapSmall(x - y);
    } else {
      WrapShift(x - y);
      WrapSmall(x - y + MODULUS);
    }
  }

  // The unsigned difference is exact when the first position is not behind.
  lemma {:induction false} UnsignedIsDistance(base: int, x: int, y: int)
    requires 0 <= x - y < MODULUS
    ensures Wrap(Wrap(base + x) - Wrap(base + y)) == x - y
  {
    WrapDifference(base + x, base + y);
    WrapSmall(x - y);
  }

  lemma {:induction false} WrapSmall(x: int)
    requires 0 <= x < MODULUS
    ensures Wrap(x) == x
  {
  }

  lemma {:induction false} WrapShift(x: int)
    ensures Wrap(x + MODULUS) == Wrap(x)
  {
  }

  lemma {:induction false} WrapDifference(a: int, b: int)
    ensures Wrap(Wrap(a) - Wrap(b)) == Wrap(a - b)
  {
    var qa, qb := a / MODULUS, b / MODULUS;
    assert Wrap(a) == a - qa * MODULUS && Wrap(b) == b - qb * MODULUS;
    WrapMultiple(a - b, qb - qa);
  }

  lemma {:induction false} WrapMultiple(x: int, k: int)
    ensures Wrap(x + k * MODULUS) == Wrap(x)
  {
    var q := x / MODULUS;
    assert x + k * MODULUS == (q + k) * MODULUS + x % MODULUS;
  }

  // Adding to a wrapped position is the same as wrapping the sum.
  lemma {:induction false} WrapAdd(a: int, b: int)
    ensures Wrap(Wrap(a) + b) == Wrap(a + b)
  {
    var q := a / MODULUS;
    WrapMultiple(a + b, -q);
    assert Wrap(a) + b == a + b + (-q) * MODULUS;
  }

  // Every 32-bit number is the wrapped form of a position at or after y.
  lemma {:induction false} Unwrap(base: int, y: int, w: u32)
    ensures var x := y + Wrap(w - Wrap(base + y)); Wrap(base + x) == w
  {
    var d := w - Wrap(base + y);
    WrapAdd(d, base + y);
    WrapAdd(base + y, d);
    WrapSmall(w);
    assert base + y + Wrap(d) == Wrap(d) + (base + y);
    assert Wrap(base + y) + d == w;
    assert d + (base + y) == base + y + d;
  }
}
