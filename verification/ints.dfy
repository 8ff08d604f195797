/** Fixed-width integers of the ledger and Go's two's-complement wrap-around
    for the atomic adds on them. Every add in the ledger adds two values that
    are already in range, so the wrapped sum is the plain sum, or the plain sum
    moved back into range by one modulus. */
module Ints {

  const TWO_32: int := 0x1_0000_0000
  const TWO_64: int := 0x1_0000_0000_0000_0000

  type int32 = x: int | -0x8000_0000 <= x < 0x8000_0000
  type int64 = x: int | -0x8000_0000_0000_0000 <= x < 0x8000_0000_0000_0000
  type uint16 = x: int | 0 <= x < 0x1_0000
  type uint32 = x: int | 0 <= x < 0x1_0000_0000
  type uint64 = x: int | 0 <= x < 0x1_0000_0000_0000_0000

  /** `x` is representable as an int32. */
  predicate Fits32(x: int) { -0x8000_0000 <= x < 0x8000_0000 }

  /** `x` is representable as an int64. */
  predicate Fits64(x: int) { -0x8000_0000_0000_0000 <= x < 0x8000_0000_0000_0000 }

  /** `atomic.AddInt32`: the two's-complement sum of two int32 values. */
  function Add32(a: int32, b: int32): (r: int32)
    ensures r == a + b || r == a + b - TWO_32 || r == a + b + TWO_32
    ensures Fits32(a + b) ==> r == a + b
  {
    var s := a + b;
    if s >= 0x8000_0000 then s - TWO_32
    else if s < -0x8000_0000 then s + TWO_32
    else s
  }

  /** `atomic.AddInt64`: the two's-complement sum of two int64 values. */
  function Add64(a: int64, b: int64): (r: int64)
    ensures r == a + b || r == a + b - TWO_64 || r == a + b + TWO_64
    ensures Fits64(a + b) ==> r == a + b
  {
    var s := a + b;
    if s >= 0x8000_0000_0000_0000 then s - TWO_64
    else if s < -0x8000_0000_0000_0000 then s + TWO_64
    else s
  }

  /** Go's unary minus on an int32: -MinInt32 is MinInt32 again. */
  function Neg32(a: int32): (r: int32)
    ensures a != -0x8000_0000 ==> r == -a
    ensures a == -0x8000_0000 ==> r == a
  {
    if a == -0x8000_0000 then a else -a
  }

  /** `atomic.AddUint64(&counter, 1)`. */
  function Inc64(c: uint64): (r: uint64)
    ensures c < TWO_64 - 1 ==> r == c + 1
    ensures c == TWO_64 - 1 ==> r == 0
  {
    if c == TWO_64 - 1 then 0 else c + 1
  }

  /** A 32-bit add is undone by adding the negation, overflow or not. */
  lemma Add32Undo(a: int32, b: int32)
    ensures Add32(Add32(a, b), Neg32(b)) == a
    ensures Add32(Add32(a, Neg32(b)), b) == a
  {
  }

  /** A 64-bit add of an int32 amount is undone by adding its (exact)
      negation, overflow or not. */
  lemma Add64Undo(a: int64, b: int32)
    ensures Add64(Add64(a, -(b as int)), b) == a
    ensures Add64(Add64(a, b), -(b as int)) == a
  {
  }

  /** Two 32-bit adds to one counter commute. */
  lemma Add32Commute(x: int32, a: int32, b: int32)
    ensures Add32(Add32(x, a), b) == Add32(Add32(x, b), a)
  {
  }

  /** Two 64-bit adds to one counter commute. */
  lemma Add64Commute(x: int64, a: int64, b: int64)
    ensures Add64(Add64(x, a), b) == Add64(Add64(x, b), a)
  {
  }

  /** Adding the negation of `b` subtracts `b` when the difference fits. */
  lemma Add32Neg(a: int32, b: int32)
    requires Fits32(a - b)
    ensures Add32(a, Neg32(b)) == a - b
  {
  }

  /** Taking `a` from one int64 counter and adding it to another changes
      their sum by 0 or by one modulus either way, and by 0 when neither add
      overflows. */
  lemma DebitCreditDrift(x: int64, y: int64, a: int32)
    ensures var e := (Add64(x, -(a as int)) - x) + (Add64(y, a) - y);
      e == 0 || e == TWO_64 || e == -TWO_64
    ensures Fits64(x - a) && Fits64(y + a) ==> (Add64(x, -(a as int)) - x) + (Add64(y, a) - y) == 0
  {
  }
}
