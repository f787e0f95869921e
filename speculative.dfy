/**
 * Speculative-decoding verification of one sequence, as done per sequence by
 * `CPUSampler::BatchVerifyDraftTokens` in cpp/serve/sampler.cc.
 *
 * A sequence owns a range of rows of the probability batch, one per draft
 * position. Position `k` holds draft token `toks[k]`, its draft probability
 * `qs[k]` and the draft model's full distribution `qds[k]`. The random
 * generator of the sequence is the stream `draws`.
 */
module Speculative {
  import opened Common
  import opened TopP

  /**
   * What verifying one sequence produces: the returned token list, the tokens
   * committed to the request state, and the sequence's rows afterwards.
   */
  datatype Verdict = Verdict(accepted: seq<int>, commits: seq<int>, rows: seq<seq<real>>)

  /** `max(p[j] - q[j], 0)` elementwise. */
  function Clamp(p: seq<real>, q: seq<real>): (r: seq<real>)
    requires |q| == |p|
    ensures |r| == |p|
  {
    seq(|p|, j requires 0 <= j < |p| => Max(p[j] - q[j], 0.0))
  }

  /** The residual distribution: the clamped difference divided by its sum. */
  function Residual(p: seq<real>, q: seq<real>): (r: seq<real>)
    requires |q| == |p| && Sum(Clamp(p, q)) != 0.0
    ensures |r| == |p|
  {
    var c := Clamp(p, q);
    seq(|p|, j requires 0 <= j < |p| => c[j] / Sum(c))
  }

  /** The draft inputs cover every row, and every draft token indexes its row. */
  ghost predicate WellFormedDraft(rows: seq<seq<real>>, toks: seq<int>, qs: seq<real>, qds: seq<seq<real>>)
  {
    && |toks| >= |rows| && |qs| >= |rows| && |qds| >= |rows|
    && forall k :: 0 <= k < |rows| ==> 0 <= toks[k] < |rows[k]|
  }

  /**
   * The position that is rejected, if any, has a residual with positive
   * mass, so the normalisation divides by a nonzero sum. Positions that are
   * accepted, and positions after the rejection, are never normalised.
   */
  ghost predicate ResidualsDefined(rows: seq<seq<real>>, toks: seq<int>, qs: seq<real>, qds: seq<seq<real>>,
                                   draws: seq<real>)
    requires WellFormedDraft(rows, toks, qs, qds) && |draws| > |rows|
  {
    var j := FirstReject(rows, toks, qs, draws, 0);
    j < |rows| && |qds[j]| == |rows[j]| ==> Sum(Clamp(rows[j], qds[j])) > 0.0
  }

  ghost predicate VerifyInputs(rows: seq<seq<real>>, toks: seq<int>, qs: seq<real>, qds: seq<seq<real>>, draws: seq<real>)
  {
    && WellFormedDraft(rows, toks, qs, qds)
    && |draws| > |rows|
    && ResidualsDefined(rows, toks, qs, qds, draws)
  }

  /**
   * Verification from position `k`, every earlier position having accepted
   * and `d` draws having been used by them.
   */
  function VerifyFrom(rows: seq<seq<real>>, toks: seq<int>, qs: seq<real>, qds: seq<seq<real>>,
                      topP: real, draws: seq<real>, k: nat, d: nat): Outcome<Verdict>
    requires VerifyInputs(rows, toks, qs, qds, draws)
    requires k <= FirstReject(rows, toks, qs, draws, 0) && d == DrawsBefore(rows, toks, qs, k)
    decreases |rows| - k
  {
    if k == |rows| then Ok(Verdict(toks[..k], toks[..k], rows))
    else
      FirstRejectStep(rows, toks, qs, draws, k);
      var tok := toks[k];
      var p := rows[k][tok];
      if p >= qs[k] then VerifyFrom(rows, toks, qs, qds, topP, draws, k + 1, d)
      else if LessThanRatio(draws[d], p, qs[k] + Eps) then
        VerifyFrom(rows, toks, qs, qds, topP, draws, k + 1, d + 1)
      else if |qds[k]| != |rows[k]| then Fatal("vocab_size does not match the draft distribution")
      else
        var res := Residual(rows[k], qds[k]);
        match SampleTopP(res, topP, draws[d + 1])
        case Fatal(e) => Fatal(e)
        case Ok(s) => Ok(Verdict(toks[..k + 1], toks[..k] + [s.token], rows[k := res]))
  }

  /** Verification of a whole sequence. */
  function VerifySequence(rows: seq<seq<real>>, toks: seq<int>, qs: seq<real>, qds: seq<seq<real>>,
                          topP: real, draws: seq<real>): Outcome<Verdict>
    requires VerifyInputs(rows, toks, qs, qds, draws)
  {
    VerifyFrom(rows, toks, qs, qds, topP, draws, 0, 0)
  }

  // ---------------------------------------------------------------------------
  // A position-wise reading of the protocol.

  /** Number of draws taken by positions before `k`: one per position with p < q. */
  function DrawsBefore(rows: seq<seq<real>>, toks: seq<int>, qs: seq<real>, k: nat): (n: nat)
    requires k <= |rows| && |toks| >= |rows| && |qs| >= |rows|
    requires forall i :: 0 <= i < |rows| ==> 0 <= toks[i] < |rows[i]|
    ensures n <= k
  {
    if k == 0 then 0
    else DrawsBefore(rows, toks, qs, k - 1) + (if rows[k - 1][toks[k - 1]] < qs[k - 1] then 1 else 0)
  }

  /**
   * Position `i` accepts its draft token: the target probability is at least
   * the draft probability, or the draw it takes is below p / (q + eps).
   */
  predicate Accepts(rows: seq<seq<real>>, toks: seq<int>, qs: seq<real>, draws: seq<real>, i: nat)
    requires i < |rows| && |toks| >= |rows| && |qs| >= |rows| && |draws| > |rows|
    requires forall k :: 0 <= k < |rows| ==> 0 <= toks[k] < |rows[k]|
  {
    var p := rows[i][toks[i]];
    p >= qs[i] || LessThanRatio(draws[DrawsBefore(rows, toks, qs, i)], p, qs[i] + Eps)
  }

  /** The first position that does not accept, or |rows| when all accept. */
  function FirstReject(rows: seq<seq<real>>, toks: seq<int>, qs: seq<real>, draws: seq<real>, k: nat): (j: nat)
    requires k <= |rows| && |toks| >= |rows| && |qs| >= |rows| && |draws| > |rows|
    requires forall i :: 0 <= i < |rows| ==> 0 <= toks[i] < |rows[i]|
    ensures k <= j <= |rows|
    decreases |rows| - k
  {
    if k == |rows| then k
    else if !Accepts(rows, toks, qs, draws, k) then k
    else FirstReject(rows, toks, qs, draws, k + 1)
  }

  lemma {:induction false} FirstRejectIsFirst(rows: seq<seq<real>>, toks: seq<int>, qs: seq<real>, draws: seq<real>, k: nat)
    requires k <= |rows| && |toks| >= |rows| && |qs| >= |rows| && |draws| > |rows|
    requires forall i :: 0 <= i < |rows| ==> 0 <= toks[i] < |rows[i]|
    ensures var j := FirstReject(rows, toks, qs, draws, k);
      && (forall i :: k <= i < j ==> Accepts(rows, toks, qs, draws, i))
      && (j < |rows| ==> !Accepts(rows, toks, qs, draws, j))
    decreases |rows| - k
  {
    if k < |rows| && Accepts(rows, toks, qs, draws, k) {
      FirstRejectIsFirst(rows, toks, qs, draws, k + 1);
    }
  }

  /**
   * Walking from the start: a position not past the first rejection either
   * accepts, and the next one is not past it either, or is the first rejection.
   */
  lemma FirstRejectStep(rows: seq<seq<real>>, toks: seq<int>, qs: seq<real>, draws: seq<real>, k: nat)
    requires k < |rows| && |toks| >= |rows| && |qs| >= |rows| && |draws| > |rows|
    requires forall i :: 0 <= i < |rows| ==> 0 <= toks[i] < |rows[i]|
    requires k <= FirstReject(rows, toks, qs, draws, 0)
    ensures Accepts(rows, toks, qs, draws, k) ==> k + 1 <= FirstReject(rows, toks, qs, draws, 0)
    ensures !Accepts(rows, toks, qs, draws, k) ==> k == FirstReject(rows, toks, qs, draws, 0)
  {
    FirstRejectIsFirst(rows, toks, qs, draws, 0);
  }
}
