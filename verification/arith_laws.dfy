/**
 Laws of Peano addition and multiplication.

 The first lemmas restate the two defining equations of each operation as
 facts about the model. The others are the algebraic laws that follow from
 them: the equations only recurse on the left operand, so identities and
 commutativity on the right are not given by construction and need proofs.
 Addition laws and associativity of multiplication are proved by structural
 induction; the other multiplication laws go through the correspondence with
 integer arithmetic and the injectivity of `Value`.
 */
module ArithLaws {
  import opened Arith

  /** `Z + m = m` and `S(n) + m = S(n + m)`. */
  lemma AddDefiningEquations(n: Peano, m: Peano)
    ensures Add(Z, m) == m
    ensures Add(S(n), m) == S(Add(n, m))
  {
  }

  /** `Z * m = Z` and `S(n) * m = m + (n * m)`. */
  lemma MulDefiningEquations(n: Peano, m: Peano)
    ensures Mul(Z, m) == Z
    ensures Mul(S(n), m) == Add(m, Mul(n, m))
  {
  }

  /** `Z` is also an identity on the right, where the equations give no
      direct case. */
  lemma {:induction false} AddZeroRight(a: Peano)
    ensures Add(a, Z) == a
  {
    match a
    case Z =>
    case S(n) => AddZeroRight(n);
  }

  /** A successor on the right operand can be moved outside the sum. */
  lemma {:induction false} AddSuccRight(a: Peano, b: Peano)
    ensures Add(a, S(b)) == S(Add(a, b))
  {
    match a
    case Z =>
    case S(n) => AddSuccRight(n, b);
  }

  /** The two operand positions are resolved by different cases, yet the
      sum does not depend on their order. */
  lemma {:induction false} AddCommutative(a: Peano, b: Peano)
    ensures Add(a, b) == Add(b, a)
  {
    match a
    case Z =>
      AddZeroRight(b);
    case S(n) =>
      AddCommutative(n, b);
      AddSuccRight(b, n);
  }

  lemma {:induction false} AddAssociative(a: Peano, b: Peano, c: Peano)
    ensures Add(Add(a, b), c) == Add(a, Add(b, c))
  {
    match a
    case Z =>
    case S(n) => AddAssociative(n, b, c);
  }

  /** `Z` annihilates on the right as well as on the left. This follows
      from the contract of `Mul`, since `Z` is the only numeral of depth 0. */
  lemma MulZeroRight(a: Peano)
    ensures Mul(a, Z) == Z
  {
  }

  /** One, `S(Z)`, is an identity on both sides. */
  lemma MulOne(a: Peano)
    ensures Mul(S(Z), a) == a
    ensures Mul(a, S(Z)) == a
  {
    ValueInjective(Mul(S(Z), a), a);
    ValueInjective(Mul(a, S(Z)), a);
  }

  lemma MulCommutative(a: Peano, b: Peano)
    ensures Mul(a, b) == Mul(b, a)
  {
    ValueInjective(Mul(a, b), Mul(b, a));
  }

  lemma {:induction false} MulAssociative(a: Peano, b: Peano, c: Peano)
    ensures Mul(Mul(a, b), c) == Mul(a, Mul(b, c))
  {
    match a
    case Z =>
    case S(n) =>
      MulDistributesRight(b, Mul(n, b), c);
      MulAssociative(n, b, c);
  }

  /** Multiplication distributes over addition from the right... */
  lemma MulDistributesRight(a: Peano, b: Peano, c: Peano)
    ensures Mul(Add(a, b), c) == Add(Mul(a, c), Mul(b, c))
  {
    var x, y, z := Value(a), Value(b), Value(c);
    calc {
      Value(Mul(Add(a, b), c));
      (x + y) * z;
      x * z + y * z;
      Value(Add(Mul(a, c), Mul(b, c)));
    }
    ValueInjective(Mul(Add(a, b), c), Add(Mul(a, c), Mul(b, c)));
  }

  /** ...and from the left. */
  lemma MulDistributesLeft(a: Peano, b: Peano, c: Peano)
    ensures Mul(c, Add(a, b)) == Add(Mul(c, a), Mul(c, b))
  {
    MulDistributesRight(a, b, c);
    MulCommutative(c, Add(a, b));
    MulCommutative(c, a);
    MulCommutative(c, b);
  }
}
