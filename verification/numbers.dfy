/**
 Shared numeric vocabulary of the weather-insight pipeline: optional values,
 the result of JavaScript's `Number(v)` coercion, the provider-sentinel
 cleaner, `Math.round`, and the sums and means the pages compute.
 */
module Numbers {

  /** A value that may be absent (JavaScript `null`). */
  datatype Option<+T> = None | Some(value: T)

  /** What `Number(v)` yields for a raw provider scalar: a finite number, or
      something that is not finite (NaN, ±Infinity, `undefined`). The
      coercion itself is not modelled; callers supply its outcome. */
  datatype Raw = Num(x: real) | NonFinite

  /** Readings at or below this value are the provider's "missing" marker. */
  const Sentinel: real := -900.0

  /** `clean`: non-finite readings and sentinel readings become absent; any
      other reading passes through unchanged. */
  function Clean(v: Raw): (r: Option<real>)
    ensures r.None? <==> (v.NonFinite? || v.x <= Sentinel)
    ensures r.Some? ==> v == Num(r.value) && r.value > Sentinel
  {
    match v
    case NonFinite => None
    case Num(x) => if x <= Sentinel then None else Some(x)
  }

  /** `Math.round`: halves round towards +infinity. */
  function Round(x: real): (n: int)
    ensures x - 0.5 < n as real <= x + 0.5
  {
    (x + 0.5).Floor
  }

  function Sum(xs: seq<real>): real
  {
    if |xs| == 0 then 0.0 else Sum(xs[..|xs| - 1]) + xs[|xs| - 1]
  }

  function Mean(xs: seq<real>): real
    requires |xs| > 0
  {
    Sum(xs) / |xs| as real
  }

  /** `xs.slice(-k)` for k > 0: the last min(k, |xs|) elements. */
  function Last<T>(xs: seq<T>, k: nat): (r: seq<T>)
    requires k > 0
    ensures |r| == if |xs| < k then |xs| else k
    ensures forall i :: 0 <= i < |r| ==> r[i] == xs[|xs| - |r| + i]
  {
    if |xs| < k then xs else xs[|xs| - k..]
  }

  /** Prepending elements never changes the last k once there are k of them. */
  lemma LastIgnoresPrefix<T>(pre: seq<T>, xs: seq<T>, k: nat)
    requires k > 0 && |xs| >= k
    ensures Last(pre + xs, k) == Last(xs, k)
  {
    assert (pre + xs)[|pre + xs| - k..] == xs[|xs| - k..];
  }

  /** A sum of values that are all below a bound is below that bound times
      the count; the same with at-least. */
  lemma {:induction false} SumBounds(xs: seq<real>, lo: real, hi: real)
    requires forall i :: 0 <= i < |xs| ==> lo <= xs[i] <= hi
    ensures lo * |xs| as real <= Sum(xs) <= hi * |xs| as real
  {
    if |xs| > 0 {
      SumBounds(xs[..|xs| - 1], lo, hi);
    }
  }

  /** The mean lies between the least and the greatest element. */
  lemma MeanBounds(xs: seq<real>, lo: real, hi: real)
    requires |xs| > 0
    requires forall i :: 0 <= i < |xs| ==> lo <= xs[i] <= hi
    ensures lo <= Mean(xs) <= hi
  {
    SumBounds(xs, lo, hi);
    var n := |xs| as real;
    assert lo * n <= Sum(xs) <= hi * n;
    assert Mean(xs) * n == Sum(xs);
  }
}
