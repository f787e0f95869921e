/**
 * Shared vocabulary of the sampler model: the outcome of an operation that can
 * hit a fatal check, sums of probability sequences, the IEEE reading of the
 * comparison `u < x / y`, and the constants of the CPU sampler.
 */
module Common {

  /** Result of an operation whose failure aborts the process (an ICHECK/CHECK). */
  datatype Outcome<+T> = Ok(value: T) | Fatal(reason: string)

  datatype Option<+T> = None | Some(value: T)

  /** `eps_` of the CPU sampler (1e-5). */
  const Eps: real := 0.00001

  /** The threshold `one` (1 - 1e-5) above which top-p means the full distribution. */
  const One: real := 1.0 - 0.00001

  /** Initial row capacity of the host buffer. */
  const InitialRows: nat := 32

  function Max(a: real, b: real): (r: real)
    ensures r >= a && r >= b && (r == a || r == b)
  {
    if a >= b then a else b
  }

  /** Sum of the first `k` entries of `s`. */
  function SumTo(s: seq<real>, k: nat): real
    requires k <= |s|
  {
    if k == 0 then 0.0 else SumTo(s, k - 1) + s[k - 1]
  }

  /** Sum of the entries up to and including index `j`. */
  function SumThrough(s: seq<real>, j: nat): real
    requires j < |s|
  {
    SumTo(s, j + 1)
  }

  function Sum(s: seq<real>): real
  {
    SumTo(s, |s|)
  }

  ghost predicate NonNegative(s: seq<real>)
  {
    forall i :: 0 <= i < |s| ==> s[i] >= 0.0
  }

  /** A probability row: non-negative entries summing to one. */
  ghost predicate IsDistribution(s: seq<real>)
  {
    NonNegative(s) && Sum(s) == 1.0
  }

  /**
   * The value of the float comparison `u < x / y`. When `y` is zero the
   * quotient is +inf for positive `x` (so the comparison holds), -inf for
   * negative `x` and NaN for zero `x` (so it fails).
   */
  function LessThanRatio(u: real, x: real, y: real): (b: bool)
    ensures y > 0.0 ==> (b <==> u * y < x)
    ensures y == 0.0 ==> (b <==> x > 0.0)
  {
    if y != 0.0 then u < x / y else x > 0.0
  }

  function Pow2(k: nat): (r: nat)
    ensures r >= 1
  {
    if k == 0 then 1 else 2 * Pow2(k - 1)
  }

  lemma {:induction false} SumToMonotone(s: seq<real>, j: nat, k: nat)
    requires j <= k <= |s| && NonNegative(s)
    ensures SumTo(s, j) <= SumTo(s, k)
  {
    if j < k {
      SumToMonotone(s, j, k - 1);
    }
  }

  lemma {:induction false} SumToPrefix(s: seq<real>, t: seq<real>, k: nat)
    requires k <= |s| && k <= |t| && s[..k] == t[..k]
    ensures SumTo(s, k) == SumTo(t, k)
  {
    if k > 0 {
      assert s[k - 1] == s[..k][k - 1] == t[..k][k - 1] == t[k - 1];
      SumToPrefix(s, t, k - 1);
    }
  }

  /** A sum of non-negative entries is positive exactly when some entry is. */
  lemma {:induction false} SumPositive(s: seq<real>, k: nat)
    requires k <= |s| && NonNegative(s)
    ensures SumTo(s, k) >= 0.0
    ensures SumTo(s, k) > 0.0 <==> exists j :: 0 <= j < k && s[j] > 0.0
  {
    if k > 0 {
      SumPositive(s, k - 1);
    }
  }

  lemma {:induction false} SumToCons(a: real, s: seq<real>, k: nat)
    requires k <= |s|
    ensures SumTo([a] + s, k + 1) == a + SumTo(s, k)
  {
    if k > 0 {
      SumToCons(a, s, k - 1);
      assert ([a] + s)[k] == s[k - 1];
    }
  }
}
