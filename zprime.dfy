/** The Z′ prior: Z′ = 1, the common case, is favoured; more than one molecule per asymmetric
    unit is penalised; a fraction gets a small bonus. */
module ZPrime {
  import opened Wrappers
  import opened Features

  /** `zprimeWeight`: 0 for a falsy Z′; 0.3 for exactly 1; −0.2 above 1; 0.1 below 1; and a last
      `return 0` that a truthy number never reaches. */
  function Weight(zp: Option<JsNumber>): (w: real)
    ensures !TruthyField(zp) ==> w == 0.0
    ensures TruthyField(zp) ==>
              && (w == 0.3 <==> zp.value == Finite(1.0))
              && (w == -0.2 <==> Gt(zp.value, 1.0))
              && (w == 0.1 <==> Lt(zp.value, 1.0))
              && w != 0.0
  {
    if !TruthyField(zp) then 0.0
    else if zp.value == Finite(1.0) then 0.3
    else if Gt(zp.value, 1.0) then -0.2
    else if Lt(zp.value, 1.0) then 0.1
    else 0.0
  }

  /** A non-zero finite Z′ gets 0.3, −0.2 or 0.1 by its comparison with 1. */
  lemma FiniteWeights(z: real)
    requires z != 0.0
    ensures Weight(Some(Finite(z))) == if z == 1.0 then 0.3 else if z > 1.0 then -0.2 else 0.1
  {
  }
}
