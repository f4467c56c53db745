/**
 * The progressive upload multiplier: a ramp from 1.0 up to the configured maximum
 * over `ramp_up_seconds`, evaluated at `elapsed` seconds after the proxy started.
 * The clock reading (`time.time() - SCRIPT_START_TIME`) is a parameter here.
 */
module Multiplier {
  import opened Outcomes

  /** Defaults used when `config.ini` does not set the keys. */
  const DefaultMaxUploadMultiplier: real := 5.0
  const DefaultRampUpSeconds: int := 3600

  /**
   * get_progressive_multiplier. `rampUp` is an integer (it is read with `int(...)`);
   * when it is 0 and the elapsed time is negative the division raises ZeroDivisionError.
   */
  function ProgressiveMultiplier(maxMultiplier: real, rampUp: int, elapsed: real): (r: Result<real>)
    ensures r.Err? <==> rampUp == 0 && elapsed < 0.0
    ensures elapsed >= rampUp as real ==> r == Ok(maxMultiplier)
    ensures 0 < rampUp ==> r.Ok?
    ensures 0 < rampUp && elapsed == 0.0 ==> r == Ok(1.0)
  {
    if elapsed >= rampUp as real then Ok(maxMultiplier)
    else if rampUp == 0 then Err(ZeroDivisionError)
    else Ok(1.0 + (maxMultiplier - 1.0) * (elapsed / rampUp as real))
  }

  lemma ScaleMonotone(a: real, x: real, y: real)
    requires 0.0 <= a && x <= y
    ensures a * x <= a * y
  {
    assert a * y - a * x == a * (y - x);
  }

  lemma DivMonotone(x: real, y: real, d: real)
    requires 0.0 < d && x <= y
    ensures x / d <= y / d
  {
  }

  lemma CancelFactor(a: real, b: real, d: real)
    requires d != 0.0 && a * d == b * d
    ensures a == b
  {
  }

  /** During the ramp the multiplier stays between 1.0 and the maximum. */
  lemma MultiplierWithinBounds(maxMultiplier: real, rampUp: int, elapsed: real)
    requires 0 < rampUp && 0.0 <= elapsed < rampUp as real && 1.0 <= maxMultiplier
    ensures 1.0 <= ProgressiveMultiplier(maxMultiplier, rampUp, elapsed).value <= maxMultiplier
  {
    var f := elapsed / rampUp as real;
    assert f * rampUp as real == elapsed;
    assert 0.0 <= f < 1.0;
    ScaleMonotone(maxMultiplier - 1.0, 0.0, f);
    ScaleMonotone(maxMultiplier - 1.0, f, 1.0);
  }

  /**
   * Before the end of the ramp the distance to the maximum is proportional to the
   * time still to go, so the ramp reaches the maximum continuously at `rampUp`.
   */
  lemma MultiplierApproachesMax(maxMultiplier: real, rampUp: int, elapsed: real)
    requires 0 < rampUp && elapsed < rampUp as real
    ensures maxMultiplier - ProgressiveMultiplier(maxMultiplier, rampUp, elapsed).value
            == (maxMultiplier - 1.0) * ((rampUp as real - elapsed) / rampUp as real)
  {
    var d := rampUp as real;
    var f := elapsed / d;
    assert f * d == elapsed;
    var g := (d - elapsed) / d;
    assert g * d == d - elapsed;
    assert (1.0 - f) * d == d - elapsed;
    CancelFactor(g, 1.0 - f, d);
    assert (maxMultiplier - 1.0) * g == (maxMultiplier - 1.0) - (maxMultiplier - 1.0) * f;
  }

  /** Before the end of the ramp the multiplier is at most the maximum (for a maximum of at least 1.0). */
  lemma RampBelowMax(maxMultiplier: real, rampUp: int, elapsed: real)
    requires 0 < rampUp && 1.0 <= maxMultiplier && elapsed < rampUp as real
    ensures ProgressiveMultiplier(maxMultiplier, rampUp, elapsed).value <= maxMultiplier
  {
    var a, f := maxMultiplier - 1.0, elapsed / rampUp as real;
    DivMonotone(elapsed, rampUp as real, rampUp as real);
    ScaleMonotone(a, f, 1.0);
    assert a * f <= a;
  }

  /** Inside the ramp the multiplier grows with the elapsed time. */
  lemma RampMonotone(maxMultiplier: real, rampUp: int, earlier: real, later: real)
    requires 0 < rampUp && 1.0 <= maxMultiplier && earlier <= later < rampUp as real
    ensures ProgressiveMultiplier(maxMultiplier, rampUp, earlier).value
            <= ProgressiveMultiplier(maxMultiplier, rampUp, later).value
  {
    var a, f, g := maxMultiplier - 1.0, earlier / rampUp as real, later / rampUp as real;
    DivMonotone(earlier, later, rampUp as real);
    ScaleMonotone(a, f, g);
  }

  /** With a positive ramp and a maximum of at least 1.0, the multiplier never decreases over time. */
  lemma MultiplierMonotone(maxMultiplier: real, rampUp: int, earlier: real, later: real)
    requires 0 < rampUp && 1.0 <= maxMultiplier && earlier <= later
    ensures ProgressiveMultiplier(maxMultiplier, rampUp, earlier).value
            <= ProgressiveMultiplier(maxMultiplier, rampUp, later).value
  {
    if later < rampUp as real {
      RampMonotone(maxMultiplier, rampUp, earlier, later);
    } else if earlier < rampUp as real {
      RampBelowMax(maxMultiplier, rampUp, earlier);
    }
  }

  /** With the default configuration the multiplier is 3.0 half-way through the hour-long ramp. */
  lemma DefaultHalfWay()
    ensures ProgressiveMultiplier(DefaultMaxUploadMultiplier, DefaultRampUpSeconds, 1800.0) == Ok(3.0)
  {
  }
}
