/** Sum, minimum and maximum of a sequence of readings. */
module Extremes {

  function SumOf(xs: seq<real>): real {
    if xs == [] then 0.0 else SumOf(xs[..|xs| - 1]) + xs[|xs| - 1]
  }

  function MinOf(xs: seq<real>): (m: real)
    requires xs != []
    ensures m in xs && forall i | 0 <= i < |xs| :: m <= xs[i]
  {
    if |xs| == 1 then xs[0]
    else
      var m := MinOf(xs[..|xs| - 1]);
      if xs[|xs| - 1] < m then xs[|xs| - 1] else m
  }

  function MaxOf(xs: seq<real>): (m: real)
    requires xs != []
    ensures m in xs && forall i | 0 <= i < |xs| :: xs[i] <= m
  {
    if |xs| == 1 then xs[0]
    else
      var m := MaxOf(xs[..|xs| - 1]);
      if xs[|xs| - 1] > m then xs[|xs| - 1] else m
  }

  lemma ExtremesExtend(xs: seq<real>, v: real)
    ensures MinOf(xs + [v]) == if xs != [] && MinOf(xs) < v then MinOf(xs) else v
    ensures MaxOf(xs + [v]) == if xs != [] && MaxOf(xs) > v then MaxOf(xs) else v
  {
    assert (xs + [v])[..|xs|] == xs;
  }
}
