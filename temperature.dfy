/** The temperature prior: a small bonus for low-temperature data, a small malus near room
    temperature. */
module Temperature {
  import opened Wrappers
  import opened Features

  /** `temperatureWeight`: 0 for a falsy temperature (missing, 0 or NaN); 0.2 below 150 K; −0.1
      above 250 K; 0 in between. */
  function Weight(t: Option<JsNumber>): (w: real)
    ensures w == 0.2 || w == 0.0 || w == -0.1
    ensures !TruthyField(t) ==> w == 0.0
    ensures TruthyField(t) ==>
              && (w == 0.2 <==> Lt(t.value, 150.0))
              && (w == -0.1 <==> Gt(t.value, 250.0))
  {
    if !TruthyField(t) then 0.0
    else if Lt(t.value, 150.0) then 0.2
    else if Gt(t.value, 250.0) then -0.1
    else 0.0
  }

  /** For positive temperatures the weight never increases with T. */
  lemma WeightNonIncreasing(t1: real, t2: real)
    requires 0.0 < t1 <= t2
    ensures Weight(Some(Finite(t1))) >= Weight(Some(Finite(t2)))
  {
  }

  /** 150 K and 250 K themselves fall in the neutral band; this follows by unfolding `Weight`. */
  lemma NeutralBand(t: real)
    requires 150.0 <= t <= 250.0
    ensures Weight(Some(Finite(t))) == 0.0
  {
  }
}
