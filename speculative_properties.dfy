/**
 * What the speculative verification of module Speculative guarantees: the
 * residual is a distribution without mass where the draft dominates, the
 * outcome is decided by the first position that does not accept, the
 * returned list is a prefix of the draft, and a target that dominates the
 * draft everywhere accepts every draft token.
 */
module SpeculativeProperties {
  import opened Common
  import opened TopP
  import opened Speculative

  // ---------------------------------------------------------------------------
  // The residual distribution.

  lemma {:induction false} SumToScaled(c: seq<real>, r: seq<real>, total: real, k: nat)
    requires |r| == |c| && k <= |c| && total != 0.0
    requires forall j :: 0 <= j < |c| ==> r[j] == c[j] / total
    ensures SumTo(r, k) == SumTo(c, k) / total
  {
    if k > 0 {
      SumToScaled(c, r, total, k - 1);
    }
  }

  /**
   * The residual is non-negative, sums to one, and has no mass at a token
   * whose draft probability is at least its target probability.
   */
  lemma ResidualIsDistribution(p: seq<real>, q: seq<real>)
    requires |q| == |p| && Sum(Clamp(p, q)) > 0.0
    ensures IsDistribution(Residual(p, q))
    ensures forall j :: 0 <= j < |p| && q[j] >= p[j] ==> Residual(p, q)[j] == 0.0
  {
    var c := Clamp(p, q);
    SumToScaled(c, Residual(p, q), Sum(c), |c|);
    assert Sum(c) / Sum(c) == 1.0;
  }

  // ---------------------------------------------------------------------------
  // The protocol, position by position.

  /**
   * Positions before the first rejection only accept: verification from any
   * of them, with the draws its predecessors used, is verification from the
   * first rejection (or the end).
   */
  lemma {:induction false} VerifyFromSkipsAccepted(rows: seq<seq<real>>, toks: seq<int>, qs: seq<real>,
                                                   qds: seq<seq<real>>, topP: real, draws: seq<real>, k: nat)
    requires VerifyInputs(rows, toks, qs, qds, draws) && k <= FirstReject(rows, toks, qs, draws, 0)
    ensures var j := FirstReject(rows, toks, qs, draws, 0);
      VerifyFrom(rows, toks, qs, qds, topP, draws, k, DrawsBefore(rows, toks, qs, k))
      == VerifyFrom(rows, toks, qs, qds, topP, draws, j, DrawsBefore(rows, toks, qs, j))
    decreases |rows| - k
  {
    if k < FirstReject(rows, toks, qs, draws, 0) {
      FirstRejectStep(rows, toks, qs, draws, k);
      VerifyFromSkipsAccepted(rows, toks, qs, qds, topP, draws, k + 1);
    }
  }

  /**
   * At the first rejection: a draft distribution whose width differs from
   * the row's is fatal; otherwise the row becomes the residual, the
   * replacement is sampled with the draw after the rejecting one, the draft
   * token ends the list and the replacement is committed.
   */
  lemma VerifyAtFirstReject(rows: seq<seq<real>>, toks: seq<int>, qs: seq<real>,
                            qds: seq<seq<real>>, topP: real, draws: seq<real>)
    requires VerifyInputs(rows, toks, qs, qds, draws)
    ensures var j := FirstReject(rows, toks, qs, draws, 0);
      var r := VerifyFrom(rows, toks, qs, qds, topP, draws, j, DrawsBefore(rows, toks, qs, j));
      && (j == |rows| ==> r == Ok(Verdict(toks[..j], toks[..j], rows)))
      && (j < |rows| ==> !Accepts(rows, toks, qs, draws, j) && rows[j][toks[j]] < qs[j])
      && (j < |rows| && |qds[j]| != |rows[j]| ==> r.Fatal?)
      && (j < |rows| && |qds[j]| == |rows[j]| ==>
            var res := Residual(rows[j], qds[j]);
            var s := SampleTopP(res, topP, draws[DrawsBefore(rows, toks, qs, j) + 1]);
            && (s.Fatal? ==> r.Fatal?)
            && (s.Ok? ==> r == Ok(Verdict(toks[..j + 1], toks[..j] + [s.value.token], rows[j := res]))))
  {
    var j := FirstReject(rows, toks, qs, draws, 0);
    if j < |rows| {
      FirstRejectStep(rows, toks, qs, draws, j);
    }
  }

  /**
   * Verifying a sequence: every position before the first non-accepting one
   * commits its draft token; if all positions accept, the draft is returned
   * and committed whole and the rows are unchanged; otherwise, at the first
   * rejected position `j` (where p < q), the row is replaced by the residual,
   * a replacement token sampled from it with the draw after the one that
   * rejected is committed, the draft token `toks[j]` ends the returned list,
   * and verification stops.
   */
  lemma VerifySequenceByFirstReject(rows: seq<seq<real>>, toks: seq<int>, qs: seq<real>,
                                    qds: seq<seq<real>>, topP: real, draws: seq<real>)
    requires VerifyInputs(rows, toks, qs, qds, draws)
    ensures var j := FirstReject(rows, toks, qs, draws, 0);
      var r := VerifySequence(rows, toks, qs, qds, topP, draws);
      && (forall i :: 0 <= i < j ==> Accepts(rows, toks, qs, draws, i))
      && (j == |rows| ==> r == Ok(Verdict(toks[..j], toks[..j], rows)))
      && (j < |rows| ==> !Accepts(rows, toks, qs, draws, j) && rows[j][toks[j]] < qs[j])
      && (j < |rows| && |qds[j]| != |rows[j]| ==> r.Fatal?)
      && (j < |rows| && |qds[j]| == |rows[j]| ==>
            var res := Residual(rows[j], qds[j]);
            var s := SampleTopP(res, topP, draws[DrawsBefore(rows, toks, qs, j) + 1]);
            && (s.Fatal? ==> r.Fatal?)
            && (s.Ok? ==> r == Ok(Verdict(toks[..j + 1], toks[..j] + [s.value.token], rows[j := res]))))
  {
    FirstRejectIsFirst(rows, toks, qs, draws, 0);
    VerifyFromSkipsAccepted(rows, toks, qs, qds, topP, draws, 0);
    VerifyAtFirstReject(rows, toks, qs, qds, topP, draws);
  }

  /**
   * The returned list is a prefix of the draft no longer than the row range;
   * exactly as many tokens are committed, agreeing with the returned list
   * except possibly the last; at most that last position's row changes.
   */
  lemma VerifyResultShape(rows: seq<seq<real>>, toks: seq<int>, qs: seq<real>,
                          qds: seq<seq<real>>, topP: real, draws: seq<real>)
    requires VerifyInputs(rows, toks, qs, qds, draws)
    ensures var r := VerifySequence(rows, toks, qs, qds, topP, draws);
      r.Ok? ==>
        var n := |r.value.accepted|;
        && n <= |rows|
        && r.value.accepted == toks[..n]
        && |r.value.commits| == n
        && (n > 0 ==> r.value.commits[..n - 1] == toks[..n - 1])
        && |r.value.rows| == |rows|
        && forall i :: 0 <= i < |rows| && i != n - 1 ==> r.value.rows[i] == rows[i]
  {
    VerifySequenceByFirstReject(rows, toks, qs, qds, topP, draws);
    var j := FirstReject(rows, toks, qs, draws, 0);
    var r := VerifySequence(rows, toks, qs, qds, topP, draws);
    if r.Ok? && j < |rows| {
      assert (toks[..j] + [r.value.commits[j]])[..j] == toks[..j];
    }
  }

  /** When the target probability of every draft token is at least its draft probability, the whole draft is accepted and committed and no row changes. */
  lemma VerifyAllDominating(rows: seq<seq<real>>, toks: seq<int>, qs: seq<real>,
                            qds: seq<seq<real>>, topP: real, draws: seq<real>)
    requires VerifyInputs(rows, toks, qs, qds, draws)
    requires forall k :: 0 <= k < |rows| ==> rows[k][toks[k]] >= qs[k]
    ensures VerifySequence(rows, toks, qs, qds, topP, draws)
         == Ok(Verdict(toks[..|rows|], toks[..|rows|], rows))
  {
    VerifySequenceByFirstReject(rows, toks, qs, qds, topP, draws);
  }

  /**
   * A draft token to which the target gives probability 0 while the draft
   * gives it positive probability is rejected whatever the (non-negative)
   * draw: verification stops at or before it. If it is the rejected one, its
   * row becomes the residual, which has no mass at that token.
   */
  lemma VerifyRejectsZeroTarget(rows: seq<seq<real>>, toks: seq<int>, qs: seq<real>,
                                qds: seq<seq<real>>, topP: real, draws: seq<real>, j: nat)
    requires VerifyInputs(rows, toks, qs, qds, draws)
    requires j < |rows| && rows[j][toks[j]] == 0.0 && qs[j] > 0.0
    requires forall e :: 0 <= e < |draws| ==> draws[e] >= 0.0
    ensures var r := VerifySequence(rows, toks, qs, qds, topP, draws);
      r.Ok? ==>
        && |r.value.accepted| <= j + 1
        && |r.value.rows| == |rows|
        && (|r.value.accepted| == j + 1 ==> FirstReject(rows, toks, qs, draws, 0) == j)
        && (|r.value.accepted| == j + 1 && |qds[j]| == |rows[j]| && qds[j][toks[j]] >= 0.0 ==>
              r.value.rows[j] == Residual(rows[j], qds[j]) && r.value.rows[j][toks[j]] == 0.0)
  {
    VerifySequenceByFirstReject(rows, toks, qs, qds, topP, draws);
    var f := FirstReject(rows, toks, qs, draws, 0);
    assert !Accepts(rows, toks, qs, draws, j);
    assert f <= j;
    if f < |rows| && |qds[f]| == |rows[f]| {
      ResidualIsDistribution(rows[f], qds[f]);
    }
  }

  /**
   * Only the rejected position needs a residual with mass: here position 0
   * is rejected (0.99 is not below 0.2 / 0.9), its residual is [0, 1], and
   * the second position, whose residual would be all zero, is never reached.
   */
  lemma RejectionStopsBeforeZeroResidual()
    ensures var rows := [[0.2, 0.8], [0.5, 0.5]];
      var toks := [0, 0];
      var qs := [0.9, 0.6];
      var qds := [[0.9, 0.1], [0.5, 0.5]];
      var draws := [0.99, 0.5, 0.5];
      && Sum(Clamp(rows[1], qds[1])) == 0.0
      && VerifyInputs(rows, toks, qs, qds, draws)
      && FirstReject(rows, toks, qs, draws, 0) == 0
      && VerifySequence(rows, toks, qs, qds, 0.0, draws).Ok?
      && VerifySequence(rows, toks, qs, qds, 0.0, draws).value.accepted == [0]
      && VerifySequence(rows, toks, qs, qds, 0.0, draws).value.rows[0] == [0.0, 1.0]
  {
    var rows := [[0.2, 0.8], [0.5, 0.5]];
    var toks := [0, 0];
    var qs := [0.9, 0.6];
    var qds := [[0.9, 0.1], [0.5, 0.5]];
    var draws := [0.99, 0.5, 0.5];
    var c0, c1 := Clamp(rows[0], qds[0]), Clamp(rows[1], qds[1]);
    assert c0[0] == 0.0 && c0[1] == 0.8 - 0.1;
    assert c1[0] == Max(0.5 - 0.5, 0.0) == 0.0 && c1[1] == Max(0.5 - 0.5, 0.0);
    assert c0 == [0.0, 0.7] && c1 == [0.0, 0.0];
    assert SumTo(c0, 0) == 0.0 && SumTo(c1, 0) == 0.0;
    assert SumTo(c0, 1) == SumTo(c0, 0) + c0[0] == 0.0;
    assert SumTo(c1, 1) == SumTo(c1, 0) + c1[0] == 0.0;
    assert Sum(c0) == SumTo(c0, 1) + c0[1] == 0.7;
    assert Sum(c1) == SumTo(c1, 1) + c1[1] == 0.0;
    assert !Accepts(rows, toks, qs, draws, 0);
    var res := Residual(rows[0], qds[0]);
    assert res[0] == 0.0 && res[1] == 1.0;
    assert res == [0.0, 1.0];
    VerifySequenceByFirstReject(rows, toks, qs, qds, 0.0, draws);
  }
}
