/** The one numeric helper of the scripts: `clamp`, on JavaScript numbers
    (idealised here as reals; NaN and infinities are not modelled). */
module MathUtils {

  /** `Math.max(lo, Math.min(a, hi))`. */
  function Clamp(a: real, lo: real, hi: real): (r: real)
    ensures lo <= hi ==> lo <= r <= hi
    ensures lo <= a <= hi ==> r == a
    ensures lo <= hi && a < lo ==> r == lo
    ensures lo <= hi && hi < a ==> r == hi
    // the outer `max` wins when the bounds are crossed
    ensures hi < lo ==> r == lo
  {
    var inner := if a < hi then a else hi;
    if lo > inner then lo else inner
  }

  /** Clamping an already clamped value changes nothing. */
  lemma ClampIdempotent(a: real, lo: real, hi: real)
    ensures Clamp(Clamp(a, lo, hi), lo, hi) == Clamp(a, lo, hi)
  {
  }

  /** Clamp is monotone in its first argument. */
  lemma ClampMonotone(a: real, b: real, lo: real, hi: real)
    requires a <= b
    ensures Clamp(a, lo, hi) <= Clamp(b, lo, hi)
  {
  }
}
