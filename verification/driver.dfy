/**
 The demonstration driver multiplies three pairs of small numerals given
 directly as representations. Only the values it computes are modelled; the
 text it prints for them is not.
 */
module Driver {
  import opened Arith

  /** The three products of the driver, in order: one times one, two times
      two, and two times three. */
  function Products(): (r: seq<Peano>)
    ensures |r| == 3
    ensures r[0] == S(Z)
    ensures r[1] == S(S(S(S(Z))))
    ensures r[2] == S(S(S(S(S(S(Z))))))
    ensures Value(r[0]) == 1 && Value(r[1]) == 4 && Value(r[2]) == 6
  {
    [Mul(S(Z), S(Z)), Mul(S(S(Z)), S(S(Z))), Mul(S(S(Z)), S(S(S(Z))))]
  }
}
