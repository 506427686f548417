/** Fixed-width arithmetic, written out over unbounded integers.

    Values are naturals; a machine width `w` is given by its modulus (2^8, 2^32, 2^64), so each
    place where the agent wraps, saturates or truncates says so explicitly. */
module Arith {
  const U8: nat := 0x100
  const U32: nat := 0x1_0000_0000
  const U64: nat := 0x1_0000_0000_0000_0000

  datatype Option<+T> = None | Some(value: T)

  ghost predicate NoDup<T>(s: seq<T>) {
    forall i, j :: 0 <= i < j < |s| ==> s[i] != s[j]
  }

  function Min(a: int, b: int): int { if a <= b then a else b }

  function Max(a: int, b: int): int { if a >= b then a else b }

  function WrapAdd(a: nat, b: nat, m: nat): nat
    requires m > 0
  {
    (a + b) % m
  }

  function WrapSub(a: nat, b: nat, m: nat): nat
    requires m > 0
  {
    (a - b) % m
  }

  /** Addition that sticks at the largest value of the width. */
  function SatAdd(a: nat, b: nat, m: nat): nat
    requires m > 0
  {
    if a + b < m then a + b else m - 1
  }

  function SatMul(a: nat, b: nat, m: nat): nat
    requires m > 0
  {
    if a * b < m then a * b else m - 1
  }

  /** Subtraction that sticks at zero. */
  function SatSub(a: nat, b: nat): (r: nat)
    ensures a >= b ==> r + b == a
    ensures a < b ==> r == 0
  {
    if a >= b then a - b else 0
  }

  /** The smaller of two values, where zero stands for "no value". */
  function MinNonZero(a: nat, b: nat): nat {
    if a > 0 && b > 0 then Min(a, b) else Max(a, b)
  }

  /** `a` and `b` differ by a whole number of `m`s. */
  ghost predicate Congruent(a: int, b: int, m: int) {
    exists q: int :: a == b + q * m
  }

  lemma CongruentRefl(a: int, m: int)
    ensures Congruent(a, a, m)
  {
    assert a == a + 0 * m;
  }

  /** The one fact about wrapping differences the pipeline rests on: adding the wrapped difference
      to any running total congruent to the old value gives a total congruent to the new value. */
  lemma WrappedDeltaTelescopes(total: int, old_: nat, new_: nat, m: nat)
    requires m > 0 && Congruent(total, old_, m)
    ensures Congruent(total + WrapSub(new_, old_, m), new_, m)
  {
    var q: int :| total == old_ + q * m;
    var d := (new_ - old_) / m;
    assert new_ - old_ == d * m + WrapSub(new_, old_, m);
    assert q * m - d * m == (q - d) * m;
    assert total + WrapSub(new_, old_, m) == new_ + (q - d) * m;
  }

  lemma WrapAddCongruent(total: int, v: nat, amount: nat, m: nat)
    requires m > 0 && Congruent(total, v, m)
    ensures Congruent(total + amount, WrapAdd(v, amount, m), m)
  {
    var q: int :| total == v + q * m;
    var d := (v + amount) / m;
    assert v + amount == d * m + WrapAdd(v, amount, m);
    assert q * m + d * m == (q + d) * m;
    assert total + amount == WrapAdd(v, amount, m) + (q + d) * m;
  }

  lemma CongruentSum(a: int, b: int, c: int, d: int, m: int)
    requires Congruent(a, b, m) && Congruent(c, d, m)
    ensures Congruent(a + c, b + d, m)
  {
    var q: int :| a == b + q * m;
    var p: int :| c == d + p * m;
    assert q * m + p * m == (q + p) * m;
    assert a + c == b + d + (q + p) * m;
  }

  /** One of several wrapping counters grows: their sum stays congruent to the true total. */
  lemma BumpKeepsCongruent(total: int, sum: int, v: nat, amount: nat, m: nat)
    requires m > 0 && Congruent(total, sum, m)
    ensures Congruent(total + amount, sum - v + WrapAdd(v, amount, m), m)
  {
    var back: int := 0 - v;
    CongruentRefl(v, m);
    WrapAddCongruent(v, v, amount, m);
    CongruentRefl(back, m);
    CongruentSum(v + amount, WrapAdd(v, amount, m), back, back, m);
    CongruentSum(total, sum, amount, WrapAdd(v, amount, m) + back, m);
  }

  lemma CongruentTrans(a: int, b: int, c: int, m: int)
    requires Congruent(a, b, m) && Congruent(b, c, m)
    ensures Congruent(a, c, m)
  {
    var q: int :| a == b + q * m;
    var p: int :| b == c + p * m;
    assert q * m + p * m == (q + p) * m;
    assert a == c + (q + p) * m;
  }

  lemma CongruentSym(a: int, b: int, m: int)
    requires Congruent(a, b, m)
    ensures Congruent(b, a, m)
  {
    var q: int :| a == b + q * m;
    assert b == a + (-q) * m;
  }

  /** Two congruent values inside one width are the same value. */
  lemma CongruentInRange(a: nat, b: nat, m: nat)
    requires a < m && b < m && Congruent(a, b, m)
    ensures a == b
  {
    var q: int :| a == b + q * m;
    assert q >= 1 ==> q * m >= m;
    assert q <= -1 ==> q * m <= -1 * m;
  }
}
