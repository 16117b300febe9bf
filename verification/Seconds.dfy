/** Whole seconds. */
module Seconds {
  const SECOND_NS := 1_000_000_000

  /** RFC 3339 without fractions: the store keeps whole seconds of a time in nanoseconds. */
  function ToSecond(t: int): int {
    t / SECOND_NS * SECOND_NS
  }

  /** The whole second that `t` lies in. */
  lemma ToSecondIs(t: int)
    ensures ToSecond(t) % 1_000_000_000 == 0 && ToSecond(t) <= t < ToSecond(t) + 1_000_000_000
  {
    assert t == t / SECOND_NS * SECOND_NS + t % SECOND_NS;
  }
}
