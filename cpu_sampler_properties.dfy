/**
 * What batch sampling of module CpuSampler guarantees: a batch succeeds
 * exactly when every row does, its outputs are the per-row samples in row
 * order, a request below the temperature threshold gets the arg-max with
 * probability 1, and rows that are distributions sampled with a draw in
 * [0, 1) always yield a token of the vocabulary.
 */
module CpuSamplerProperties {
  import opened Common
  import opened TopP
  import opened TopPProperties
  import opened CpuSampler

  lemma {:induction false} SamplesUpToRows(rows: seq<seq<real>>, cfgs: seq<GenerationConfig>, draws: seq<real>, i: nat)
    requires i <= |rows| && |cfgs| == |rows| && |draws| == |rows|
    ensures SamplesUpTo(rows, cfgs, draws, i).Ok? <==> forall j :: 0 <= j < i ==> RowSample(rows, cfgs, draws, j).Ok?
    ensures SamplesUpTo(rows, cfgs, draws, i).Ok? ==>
      var ss := SamplesUpTo(rows, cfgs, draws, i).value;
      |ss| == i && forall j :: 0 <= j < i ==> ss[j] == RowSample(rows, cfgs, draws, j).value
  {
    if i > 0 {
      SamplesUpToRows(rows, cfgs, draws, i - 1);
    }
  }

  /**
   * A batch is sampled row by row: it succeeds exactly when every row's
   * sample does, and then the tokens, the token probabilities (when asked
   * for) and the output distributions (when asked for) are those of the rows,
   * in row order.
   */
  lemma SampleBatchByRow(rows: seq<seq<real>>, cfgs: seq<GenerationConfig>, draws: seq<real>,
                         wantDists: bool, wantProbs: bool)
    requires |cfgs| == |rows| && |draws| == |rows|
    ensures var b := SampleBatch(rows, cfgs, draws, wantDists, wantProbs);
      && (b.Ok? <==> forall i :: 0 <= i < |rows| ==> RowSample(rows, cfgs, draws, i).Ok?)
      && (b.Ok? ==>
            && |b.value.tokens| == |rows|
            && (forall i :: 0 <= i < |rows| ==> b.value.tokens[i] == RowSample(rows, cfgs, draws, i).value.token)
            && (b.value.tokenProbs.Some? <==> wantProbs)
            && (wantProbs ==>
                  && |b.value.tokenProbs.value| == |rows|
                  && forall i :: 0 <= i < |rows| ==>
                       b.value.tokenProbs.value[i] == RowSample(rows, cfgs, draws, i).value.prob)
            && (b.value.dists.Some? <==> wantDists)
            && (wantDists ==>
                  && |b.value.dists.value| == |rows|
                  && forall i :: 0 <= i < |rows| ==>
                       b.value.dists.value[i] == OutputDist(rows[i], EffectiveTopP(cfgs[i]))))
  {
    SamplesUpToRows(rows, cfgs, draws, |rows|);
  }

  /**
   * A request whose temperature is below the threshold is sampled greedily:
   * the first largest positive entry (or -1 when there is none), with
   * probability 1, and its output distribution is one-hot at that token.
   */
  lemma GreedyRow(rows: seq<seq<real>>, cfgs: seq<GenerationConfig>, draws: seq<real>, i: nat)
    requires i < |rows| && i < |cfgs| && i < |draws|
    requires cfgs[i].temperature < Eps
    ensures var r := RowSample(rows, cfgs, draws, i);
      && r.Ok? && r.value.prob == 1.0
      && FirstMaxUpTo(rows[i], |rows[i]|, r.value.token)
      && OutputDist(rows[i], EffectiveTopP(cfgs[i])) == OneHot(|rows[i]|, r.value.token)
  {
    SampleTopPArgMax(rows[i], draws[i]);
  }

  /**
   * When every row is a probability distribution, every draw lies in
   * [0, 1) and every request either is greedy or has a positive top_p, the
   * batch succeeds and every token indexes its row; a non-greedy request's
   * token probability is the row's entry at that token.
   */
  lemma SampleBatchOnDistributions(rows: seq<seq<real>>, cfgs: seq<GenerationConfig>, draws: seq<real>,
                                   wantDists: bool, wantProbs: bool)
    requires |cfgs| == |rows| && |draws| == |rows|
    requires forall i :: 0 <= i < |rows| ==> IsDistribution(rows[i]) && 0.0 <= draws[i] < 1.0
    requires forall i :: 0 <= i < |rows| ==> cfgs[i].temperature < Eps || cfgs[i].topP > 0.0
    ensures var b := SampleBatch(rows, cfgs, draws, wantDists, wantProbs);
      && b.Ok?
      && |b.value.tokens| == |rows|
      && (forall i :: 0 <= i < |rows| ==> 0 <= b.value.tokens[i] < |rows[i]|)
      && (wantProbs ==>
            forall i :: 0 <= i < |rows| && cfgs[i].temperature >= Eps ==>
              b.value.tokenProbs.value[i] == rows[i][b.value.tokens[i]])
  {
    forall i | 0 <= i < |rows|
      ensures RowSample(rows, cfgs, draws, i).Ok?
      ensures 0 <= RowSample(rows, cfgs, draws, i).value.token < |rows[i]|
      ensures cfgs[i].temperature >= Eps ==>
                RowSample(rows, cfgs, draws, i).value.prob == rows[i][RowSample(rows, cfgs, draws, i).value.token]
    {
      if cfgs[i].temperature < Eps {
        GreedyRow(rows, cfgs, draws, i);
        SumPositive(rows[i], |rows[i]|);
        ArgMaxIsFirstMax(rows[i]);
      } else {
        SampleTopPReturnsRawProbability(rows[i], cfgs[i].topP, draws[i]);
      }
    }
    SampleBatchByRow(rows, cfgs, draws, wantDists, wantProbs);
  }

  /** `n` rows of four equally likely tokens, with their requests, configs and draws. */
  function UniformBatch(n: nat, vocab: nat): (b: (DeviceProbs, seq<string>, seq<GenerationConfig>, seq<real>))
    ensures Shaped(b.0) && |b.0.rows| == |b.1| == |b.2| == |b.3| == n && b.0.vocab == vocab
  {
    (DeviceProbs(vocab, seq(n, _ => seq(vocab, _ => 0.25))),
     seq(n, _ => "r"), seq(n, _ => GenerationConfig(1.0, 0.9)), seq(n, _ => 0.5))
  }

  /**
   * The host buffer across calls of one sampler: batches of 10, 40 and 20
   * rows of width 4 leave capacities 32, 64 and 64 (allocated once, doubled
   * once, then reused), and a following batch of width 5 is fatal.
   */
  method CacheAcrossBatches() returns (capacities: seq<int>, widthChangeFatal: bool)
    ensures capacities == [32, 64, 64] && widthChangeFatal
  {
    var sampler := new CPUSampler();
    var b := UniformBatch(10, 4);
    var r := sampler.BatchSampleTokens(b.0, b.1, b.2, b.3, false, false);
    var c0 := sampler.probsHost.Length;
    b := UniformBatch(40, 4);
    r := sampler.BatchSampleTokens(b.0, b.1, b.2, b.3, false, false);
    var c1 := sampler.probsHost.Length;
    b := UniformBatch(20, 4);
    r := sampler.BatchSampleTokens(b.0, b.1, b.2, b.3, false, false);
    var c2 := sampler.probsHost.Length;
    b := UniformBatch(3, 5);
    r := sampler.BatchSampleTokens(b.0, b.1, b.2, b.3, false, false);
    capacities := [c0, c1, c2];
    widthChangeFatal := r.Fatal?;
  }
}
