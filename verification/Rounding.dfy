/** Rounding to four decimals (crates/foims-agent-service/src/metrics_aggregator.rs, `round4`). */
module Rounding {

  /** The nearest whole number, halves away from zero. */
  function Round(x: real): int {
    if x >= 0.0 then (x + 0.5).Floor else -(0.5 - x).Floor
  }

  function Round4(v: real): real {
    Round(v * 10000.0) as real / 10000.0
  }

  predicate Within(a: real, b: real, distance: real) {
    -distance <= a - b <= distance
  }

  /** The result is the nearest number of ten-thousandths; of two that are equally near, the one away from zero. */
  lemma Round4IsNearest(v: real) returns (n: int)
    ensures Round4(v) == n as real / 10000.0
    ensures -0.5 <= n as real - v * 10000.0 <= 0.5
    ensures n as real - v * 10000.0 == 0.5 ==> v > 0.0
    ensures n as real - v * 10000.0 == -0.5 ==> v < 0.0
  {
    n := Round(v * 10000.0);
  }

  /** Rounding moves a value by at most half a unit of the fourth decimal. */
  lemma Round4IsClose(v: real)
    ensures Within(Round4(v), v, 0.00005)
  {
    var x := v * 10000.0;
    assert -0.5 <= Round(x) as real - x <= 0.5;
  }

  /** A value with at most four decimals is left alone. */
  lemma Round4IsExact(n: int)
    ensures Round4(n as real / 10000.0) == n as real / 10000.0
  {
    RoundWhole(n);
    assert n as real / 10000.0 * 10000.0 == n as real;
  }

  lemma RoundWhole(n: int)
    ensures Round(n as real) == n
  {
  }
}
