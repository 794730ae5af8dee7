/**
 This module defines the Peano representation of natural numbers and the two
 operations the program resolves over it: addition, which recurses on its left
 operand, and multiplication, which is built on addition.

 The program performs this recursion through trait dispatch on nested types;
 here the same two cases per operation are an ordinary `match` on a
 two-constructor datatype. The meaning of a numeral is its nesting depth,
 given by `Value`, and every operation is specified against integer
 arithmetic on that depth.
 */
module Arith {

  /** `Z` is zero; `S(pred)` is the numeral one greater than `pred`. */
  datatype Peano = Z | S(pred: Peano)

  /** The integer a numeral denotes: the number of `S` layers around `Z`. */
  function Value(p: Peano): nat
  {
    match p
    case Z => 0
    case S(q) => Value(q) + 1
  }

  /** Builds the numeral for `n` by wrapping `Z` in `n` layers of `S`. */
  function FromNat(n: nat): (p: Peano)
    ensures Value(p) == n
  {
    if n == 0 then Z else S(FromNat(n - 1))
  }

  /** Two numerals denote the same integer exactly when they are the same
      structure. */
  lemma {:induction false} ValueInjective(a: Peano, b: Peano)
    ensures Value(a) == Value(b) <==> a == b
  {
    match (a, b)
    case (S(x), S(y)) => ValueInjective(x, y);
    case _ =>
  }

  /** Reading a numeral's value and building the numeral for it gives the
      same structure back: every numeral is the canonical one for its depth. */
  lemma {:induction false} FromNatValue(p: Peano)
    ensures FromNat(Value(p)) == p
  {
    ValueInjective(FromNat(Value(p)), p);
  }

  /** Addition: `Z + m = m` and `S(n) + m = S(n + m)`. Each step removes one
      layer from the left operand, so the recursion ends at `Z`. */
  function Add(a: Peano, b: Peano): (r: Peano)
    ensures Value(r) == Value(a) + Value(b)
    decreases a
  {
    match a
    case Z => b
    case S(n) => S(Add(n, b))
  }

  /** Multiplication: `Z * m = Z` and `S(n) * m = m + (n * m)`; the right
      operand is used twice in the second case. */
  function Mul(a: Peano, b: Peano): (r: Peano)
    ensures Value(r) == Value(a) * Value(b)
    decreases a
  {
    match a
    case Z => Z
    case S(n) =>
      var r := Add(b, Mul(n, b));
      assert Value(r) == Value(b) + Value(n) * Value(b);
      assert (Value(n) + 1) * Value(b) == Value(b) + Value(n) * Value(b);
      r
  }
}
