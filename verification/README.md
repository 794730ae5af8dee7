# Peano numerals and their arithmetic

This project models a small Rust program that represents natural numbers as
Peano numerals: `Z` is zero and `S<T>` is the successor of `T`. A public
wrapper `Nat<A>` carries a representation. `Zero` is the wrapped `Z`, and
`Succ` adds one `S` layer. Addition recurses on its left operand:
`Z + m = m` and `S(n) + m = S(n + m)`. Multiplication is built on addition:
`Z * m = Z` and `S(n) * m = m + (n * m)`. The `Nat` operators unwrap both
operands, apply the representation's operation, and wrap the result. A small
driver prints three products.

The Rust program resolves all of this through trait impls on nested types,
before the program runs. The model writes the same cases as ordinary
recursion over `datatype Peano = Z | S(pred: Peano)`. Every numeral's meaning
is its nesting depth `Arith.Value`, and each operation is specified against
integer arithmetic on that depth.

Files:
- `arith.dfy` (module `Arith`): the representation, `Value`/`FromNat`, `Add` and `Mul`.
- `arith_laws.dfy` (module `ArithLaws`): the defining equations and the algebraic laws that follow from them.
- `numeral.dfy` (module `Numeral`): the `Nat` wrapper, `Zero`, `Succ` and the forwarding `Plus`/`Times`.
- `driver.dfy` (module `Driver`): the three products computed by `main`.

## Model

| member | source | states |
|---|---|---|
| Arith.FromNat | src/main.rs:5-8 | building the numeral for n gives nesting depth exactly n, one `S` per unit |
| Arith.FromNatValue | src/main.rs:5-8 | every representation is the canonical numeral for its depth, so reading its value back and rebuilding gives the same structure |
| Arith.ValueInjective | src/main.rs:5-8 | two representations denote the same integer if and only if they are structurally identical |
| Arith.Add | src/main.rs:38-66 | the sum's depth is the sum of the operands' depths; recursion on the left operand terminates because its depth shrinks each step |
| Arith.Mul | src/main.rs:76-106 | the product's depth is the product of the operands' depths, with the right operand reused in each step |
| ArithLaws.AddDefiningEquations | src/main.rs:38-66 | `Z + m = m` for every m, and `S(n) + m = S(n + m)` |
| ArithLaws.MulDefiningEquations | src/main.rs:76-106 | `Z * m = Z` for every m, and `S(n) * m = m + (n * m)` |
| ArithLaws.AddZeroRight | src/main.rs:38-66 | `Z` is a right identity of addition, although no case of the recursion handles it directly |
| ArithLaws.AddSuccRight | src/main.rs:38-66 | a successor on the right operand moves outside the sum |
| ArithLaws.AddCommutative | src/main.rs:38-66 | the sum does not depend on operand order, although the two positions are handled differently |
| ArithLaws.AddAssociative | src/main.rs:38-66 | addition is associative |
| ArithLaws.MulZeroRight | src/main.rs:76-106 | `Z` annihilates on the right as well as on the left |
| ArithLaws.MulOne | src/main.rs:76-106 | `S(Z)` is an identity of multiplication on both sides |
| ArithLaws.MulCommutative | src/main.rs:76-106 | the product does not depend on operand order |
| ArithLaws.MulAssociative | src/main.rs:76-106 | multiplication is associative |
| ArithLaws.MulDistributesRight | src/main.rs:96-106 | `(a + b) * c = a * c + b * c` |
| ArithLaws.MulDistributesLeft | src/main.rs:96-106 | `c * (a + b) = c * a + c * b` |
| Numeral.ZeroDenotesZero | src/main.rs:12 | `Zero` wraps `Z` and denotes 0 |
| Numeral.Succ | src/main.rs:14-16 | `Succ` denotes one more than its argument, and its representation is exactly one `S` around the argument's |
| Numeral.ValueDeterminesNat | src/main.rs:10 | two `Nat` values are equal if and only if they denote the same integer |
| Numeral.Plus | src/main.rs:110-119 | the wrapped sum denotes the sum of the denoted integers |
| Numeral.Times | src/main.rs:121-130 | the wrapped product denotes the product of the denoted integers |
| Numeral.Forwarding | src/main.rs:110-130 | `Nat(m) + Nat(n)` is `Nat(m + n)` and `Nat(m) * Nat(n)` is `Nat(m * n)`: the wrapper adds nothing to the result |
| Numeral.WrappedEquations | src/main.rs:110-130 | the defining equations of both operations hold on `Nat` with `Zero` and `Succ` in place of `Z` and `S` |
| Driver.Products | src/main.rs:171-175 | the driver's products are `S(Z)` (1 x 1), four `S` around `Z` (2 x 2) and six `S` around `Z` (2 x 3) |

## Left out

- The type-level character of the encoding: traits, associated `Output` types and `where` bounds. The model uses ordinary recursion, which gives the same results.
- Non-numeral right operands. Rust's `Z + M` and `S<N> + M` accept any type `M` (for example `Z + 5u32`), and `Z * M` accepts any `M`. The model takes both operands as Peano numerals, which is what the `Nat` operators and the driver use.
- The `Copy`/`Clone` bound on the multiplier. It exists for Rust ownership; Dafny values are immutable and can be reused freely.
- `Debug` rendering and the `println!` output of the driver. This is I/O; only the printed values are modelled.
- The commented-out `Plus`/`Times` traits and the `curry`/`Equal`/`Refl` scaffolding. This is dead code and has no behaviour.
- The crate attributes at the top of the file. They are compiler configuration only.
