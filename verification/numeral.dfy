/**
 The public numeral type. `Nat` wraps a bare Peano representation; its
 addition and multiplication unwrap both operands, apply the representation's
 operation and wrap the result again, so the wrapper adds nothing but a
 distinct type.
 */
module Numeral {
  import opened Arith

  datatype Nat = Nat(rep: Peano)
  {
    /** The integer this numeral denotes. */
    function Value(): nat
    {
      Arith.Value(rep)
    }
  }

  /** The numeral zero: the wrapper around `Z`. */
  const Zero: Nat := Nat(Z)

  /** The next numeral: exactly one `S` around the wrapped representation. */
  function Succ(d: Nat): (r: Nat)
    ensures r.Value() == d.Value() + 1
    ensures r.rep.S? && r.rep.pred == d.rep
  {
    Nat(S(d.rep))
  }

  /** Sum of two numerals, computed by `Add` on the representations. */
  function Plus(x: Nat, y: Nat): (r: Nat)
    ensures r.Value() == x.Value() + y.Value()
  {
    Nat(Add(x.rep, y.rep))
  }

  /** Product of two numerals, computed by `Mul` on the representations. */
  function Times(x: Nat, y: Nat): (r: Nat)
    ensures r.Value() == x.Value() * y.Value()
  {
    Nat(Mul(x.rep, y.rep))
  }

  /** `Zero` is the wrapped `Z` and denotes 0. */
  lemma ZeroDenotesZero()
    ensures Zero.rep == Z && Zero.Value() == 0
  {
  }

  /** A numeral is fixed by the integer it denotes. */
  lemma ValueDeterminesNat(x: Nat, y: Nat)
    ensures x.Value() == y.Value() <==> x == y
  {
    ValueInjective(x.rep, y.rep);
  }

  /** Forwarding changes nothing: the wrapped results are exactly the
      representation-level results, wrapped once. */
  lemma Forwarding(m: Peano, n: Peano)
    ensures Plus(Nat(m), Nat(n)) == Nat(Add(m, n))
    ensures Times(Nat(m), Nat(n)) == Nat(Mul(m, n))
  {
  }

  /** The defining equations of both operations carry over to the wrapper
      with `Zero` and `Succ` in place of `Z` and `S`. */
  lemma WrappedEquations(x: Nat, y: Nat)
    ensures Plus(Zero, y) == y
    ensures Plus(Succ(x), y) == Succ(Plus(x, y))
    ensures Times(Zero, y) == Zero
    ensures Times(Succ(x), y) == Plus(y, Times(x, y))
  {
  }
}
