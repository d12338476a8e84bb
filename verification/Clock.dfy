/**
 * Times are seconds since the zero time; a duration saturates where a 64-bit count of nanoseconds does.
 */
module Clock {

  const MAX_DURATION := 9223372036.854775807

  /** As many nanoseconds as a signed 64-bit number holds. */
  lemma {:induction false} LongestDuration()
    ensures MAX_DURATION * 1_000_000_000.0 == 0x7fff_ffff_ffff_ffff as real
  {
  }

  function Elapsed(since: real, now: real): real {
    if now - since > MAX_DURATION then MAX_DURATION else now - since
  }

  lemma {:induction false} MulMonotone(k: real, x: real, y: real)
    requires 0.0 <= k && x <= y
    ensures k * x <= k * y
  {
  }

  lemma {:induction false} Distribute(k: real, x: real, y: real, z: real)
    requires x + y == z
    ensures k * x + k * y == k * z
  {
  }

  lemma {:induction false} ScaleOrder(k: real, x: real, y: real)
    requires k > 0.0
    ensures k * x <= k * y <==> x <= y
  {
    if y < x {
      assert k * (x - y) > 0.0;
    }
  }
}
