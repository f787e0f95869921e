/**
 * The CPU sampler of cpp/serve/sampler.cc: a host buffer that caches the
 * probabilities copied from the device, batch sampling (one token per row)
 * and batch verification of draft tokens (one row range per sequence), and
 * the factory that selects the sampler by name.
 *
 * The parallel-for over rows or sequences is modelled as a sequential loop:
 * every task reads and writes only its own row or row range.
 */
module CpuSampler {
  import opened Common
  import opened TopP
  import opened Speculative
  import opened SpeculativeProperties

  /** The resolved sampling parameters of one request. */
  datatype GenerationConfig = GenerationConfig(temperature: real, topP: real)

  /** A (rows x vocab) probability tensor resident on the device. */
  datatype DeviceProbs = DeviceProbs(vocab: nat, rows: seq<seq<real>>)

  ghost predicate Shaped(t: DeviceProbs)
  {
    forall i :: 0 <= i < |t.rows| ==> |t.rows[i]| == t.vocab
  }

  /** top_p actually used for a request: 0 (arg-max) below the temperature threshold. */
  function EffectiveTopP(cfg: GenerationConfig): real
  {
    if cfg.temperature < Eps then 0.0 else cfg.topP
  }

  // ---------------------------------------------------------------------------
  // Host buffer capacity.

  lemma {:induction false} Pow2Add(a: nat, b: nat)
    ensures Pow2(a + b) == Pow2(a) * Pow2(b)
  {
    if b > 0 {
      Pow2Add(a, b - 1);
    }
  }

  /**
   * The doubling loop of the host buffer: the smallest `initSize * 2^k` that
   * holds `numTokens` rows.
   */
  method GrowCapacity(initSize: nat, numTokens: nat) returns (size: nat, ghost k: nat)
    requires initSize >= 1
    ensures size >= numTokens && size >= initSize
    ensures size == initSize * Pow2(k)
    ensures size == initSize || size < 2 * numTokens
  {
    size := initSize;
    k := 0;
    while size < numTokens
      invariant size == initSize * Pow2(k) && size >= initSize
      invariant size == initSize || size < 2 * numTokens
      decreases numTokens - size
    {
      size := size * 2;
      k := k + 1;
    }
  }

  // ---------------------------------------------------------------------------
  // Batch sampling: what it computes.

  /** The sample of row `i` with that request's effective top_p and draw. */
  function RowSample(rows: seq<seq<real>>, cfgs: seq<GenerationConfig>, draws: seq<real>, i: nat): Outcome<Sample>
    requires i < |rows| && i < |cfgs| && i < |draws|
  {
    SampleTopP(rows[i], EffectiveTopP(cfgs[i]), draws[i])
  }

  /** Samples of rows `0..i`, or the first fatal check among them. */
  function SamplesUpTo(rows: seq<seq<real>>, cfgs: seq<GenerationConfig>, draws: seq<real>, i: nat): Outcome<seq<Sample>>
    requires i <= |rows| && |cfgs| == |rows| && |draws| == |rows|
  {
    if i == 0 then Ok([])
    else
      match SamplesUpTo(rows, cfgs, draws, i - 1)
      case Fatal(e) => Fatal(e)
      case Ok(ss) =>
        match RowSample(rows, cfgs, draws, i - 1)
        case Fatal(e) => Fatal(e)
        case Ok(s) => Ok(ss + [s])
  }

  /** The outputs of a batch: tokens, and on request their probabilities and output distributions. */
  datatype Batch = Batch(tokens: seq<int>, tokenProbs: Option<seq<real>>, dists: Option<seq<seq<real>>>)

  function BatchOf(rows: seq<seq<real>>, cfgs: seq<GenerationConfig>, ss: seq<Sample>,
                   wantDists: bool, wantProbs: bool): Batch
    requires |ss| == |rows| && |cfgs| == |rows|
  {
    Batch(seq(|ss|, i requires 0 <= i < |ss| => ss[i].token),
          if wantProbs then Some(seq(|ss|, i requires 0 <= i < |ss| => ss[i].prob)) else None,
          if wantDists then Some(seq(|rows|, i requires 0 <= i < |rows| => OutputDist(rows[i], EffectiveTopP(cfgs[i])))) else None)
  }

  /** Sampling every row of a batch whose sizes already agree. */
  function SampleBatch(rows: seq<seq<real>>, cfgs: seq<GenerationConfig>, draws: seq<real>,
                       wantDists: bool, wantProbs: bool): Outcome<Batch>
    requires |cfgs| == |rows| && |draws| == |rows|
  {
    match SamplesUpTo(rows, cfgs, draws, |rows|)
    case Fatal(e) => Fatal(e)
    case Ok(ss) =>
      assert |ss| == |rows| by { SamplesUpToLength(rows, cfgs, draws, |rows|); }
      Ok(BatchOf(rows, cfgs, ss, wantDists, wantProbs))
  }

  lemma {:induction false} SamplesUpToLength(rows: seq<seq<real>>, cfgs: seq<GenerationConfig>, draws: seq<real>, i: nat)
    requires i <= |rows| && |cfgs| == |rows| && |draws| == |rows|
    ensures SamplesUpTo(rows, cfgs, draws, i).Ok? ==> |SamplesUpTo(rows, cfgs, draws, i).value| == i
  {
    if i > 0 {
      SamplesUpToLength(rows, cfgs, draws, i - 1);
    }
  }

  /** The first fatal row decides the outcome of the whole batch. */
  lemma {:induction false} SamplesFatalPersists(rows: seq<seq<real>>, cfgs: seq<GenerationConfig>, draws: seq<real>,
                                                i: nat, n: nat)
    requires i < n <= |rows| && |cfgs| == |rows| && |draws| == |rows|
    requires SamplesUpTo(rows, cfgs, draws, i).Ok? && RowSample(rows, cfgs, draws, i).Fatal?
    ensures SamplesUpTo(rows, cfgs, draws, n) == Fatal(RowSample(rows, cfgs, draws, i).reason)
  {
    if n > i + 1 {
      SamplesFatalPersists(rows, cfgs, draws, i, n - 1);
    }
  }

  // ---------------------------------------------------------------------------
  // Batch verification: what the caller provides.

  /** The row range of sequence `i`. */
  function SeqRows(rows: seq<seq<real>>, cum: seq<int>, i: nat): seq<seq<real>>
    requires i + 1 < |cum| && 0 <= cum[i] <= cum[i + 1] <= |rows|
  {
    rows[cum[i]..cum[i + 1]]
  }

  /**
   * The cumulative lengths `cum` are ordered and cut `n` rows into
   * consecutive, disjoint ranges: the caller's side of the parallel loop,
   * whose tasks then never write the same row.
   */
  ghost predicate RangesValid(cum: seq<int>, n: nat)
  {
    forall i, j :: 0 <= i <= j < |cum| ==> 0 <= cum[i] <= cum[j] <= n
  }

  /** The size checks of the verification call all pass. */
  predicate CountsMatch(cum: seq<int>, draws: seq<seq<real>>, toks: seq<seq<int>>,
                        qs: seq<seq<real>>, qds: seq<seq<seq<real>>>)
  {
    && |cum| >= 1
    && |draws| == |cum| - 1 && |toks| == |cum| - 1
    && |qs| == |cum| - 1 && |qds| == |cum| - 1
  }

  /**
   * The caller's part of the verification contract: the ranges are valid
   * and each sequence's draft inputs cover its range.
   */
  ghost predicate VerifyBatchInputs(rows: seq<seq<real>>, cum: seq<int>, cfgs: seq<GenerationConfig>,
                                    draws: seq<seq<real>>, toks: seq<seq<int>>,
                                    qs: seq<seq<real>>, qds: seq<seq<seq<real>>>)
  {
    CountsMatch(cum, draws, toks, qs, qds) ==>
      && RangesValid(cum, |rows|)
      && |cfgs| >= |cum| - 1
      && forall i :: 0 <= i < |cum| - 1 ==>
           VerifyInputs(rows[cum[i]..cum[i + 1]], toks[i], qs[i], qds[i], draws[i])
  }

  /** The verification of sequence `i` on its own row range. */
  function SeqVerdict(rows: seq<seq<real>>, cum: seq<int>, cfgs: seq<GenerationConfig>,
                      draws: seq<seq<real>>, toks: seq<seq<int>>,
                      qs: seq<seq<real>>, qds: seq<seq<seq<real>>>, i: nat): Outcome<Verdict>
    requires VerifyBatchInputs(rows, cum, cfgs, draws, toks, qs, qds) && CountsMatch(cum, draws, toks, qs, qds)
    requires i < |cum| - 1
  {
    VerifySequence(SeqRows(rows, cum, i), toks[i], qs[i], qds[i], EffectiveTopP(cfgs[i]), draws[i])
  }

  // ---------------------------------------------------------------------------
  // The sampler object.

  class CPUSampler {
    /** The host buffer `probs_host_`: one entry per allocated row. */
    var probsHost: array<seq<real>>
    /** Whether the host buffer has been allocated. */
    var hostDefined: bool
    /** The vocabulary width of the host buffer. */
    var hostVocab: nat
    /** The number of doublings of the initial 32 rows. */
    ghost var doublings: nat

    ghost predicate Valid()
      reads this
    {
      hostDefined ==> probsHost.Length == InitialRows * Pow2(doublings)
    }

    /** An allocated host buffer has a width other than `vocab`: a copy of such rows is fatal. */
    ghost predicate WidthClash(vocab: nat)
      reads this
    {
      hostDefined && hostVocab != vocab
    }

    /**
     * The host buffer after a successful copy of `numTokens` rows of width
     * `vocab`: allocated with that width and holding every row; never smaller
     * than before; the old capacity (32 when none) doubled until the rows fit,
     * so below twice the row count unless no doubling was needed; and the
     * same buffer unless its size changed, a new one otherwise.
     */
    twostate predicate CacheUpdated(vocab: nat, numTokens: nat)
      reads this
    {
      && hostDefined && hostVocab == vocab
      && probsHost.Length >= numTokens
      && (old(hostDefined) ==> probsHost.Length >= old(probsHost.Length))
      && (probsHost.Length == (if old(hostDefined) then old(probsHost.Length) else InitialRows)
          || probsHost.Length < 2 * numTokens)
      && (old(hostDefined) && probsHost.Length == old(probsHost.Length) ==> probsHost == old(probsHost))
      && (probsHost == old(probsHost) || fresh(probsHost))
    }

    /** Nothing observable about the host buffer changed. */
    twostate predicate CacheUnchanged()
      reads this, probsHost
    {
      && probsHost == old(probsHost) && hostDefined == old(hostDefined) && hostVocab == old(hostVocab)
      && unchanged(probsHost)
    }

    constructor ()
      ensures Valid() && !hostDefined && fresh(probsHost)
    {
      probsHost := new seq<real>[0];
      hostDefined := false;
      hostVocab := 0;
      doublings := 0;
    }

    /**
     * The sizing half of `CopyProbsToCPU`: starting from the current row
     * capacity (32 when nothing is allocated), double until `numTokens` rows
     * fit, and allocate a new buffer of `vocab` columns unless the current one
     * already has exactly that many rows.
     */
    method Reserve(numTokens: nat, vocab: nat)
      requires Valid() && !WidthClash(vocab)
      modifies this
      ensures Valid() && CacheUpdated(vocab, numTokens)
    {
      var initSize := if hostDefined then probsHost.Length else InitialRows;
      ghost var k: nat;
      var size;
      size, k := GrowCapacity(initSize, numTokens);
      if !hostDefined || size != probsHost.Length {
        ghost var base := if hostDefined then doublings else 0;
        assert initSize == InitialRows * Pow2(base);
        Pow2Add(base, k);
        calc {
          size;
          initSize * Pow2(k);
          InitialRows * Pow2(base) * Pow2(k);
          InitialRows * (Pow2(base) * Pow2(k));
          InitialRows * Pow2(base + k);
        }
        probsHost := new seq<real>[size];
        doublings := base + k;
      }
      hostDefined := true;
      hostVocab := vocab;
    }

    /**
     * `CopyProbsToCPU`: make the host buffer hold at least the device's rows
     * and copy them in. The result is the row count of the returned view
     * `probsHost[..n]`; a width differing from the allocated one is fatal.
     */
    method CopyProbsToCPU(device: DeviceProbs) returns (r: Outcome<nat>)
      requires Valid() && Shaped(device)
      modifies this, probsHost
      ensures Valid()
      ensures r.Fatal? <==> old(WidthClash(device.vocab))
      ensures r.Fatal? ==> CacheUnchanged()
      ensures r.Ok? ==>
        && r.value == |device.rows|
        && CacheUpdated(device.vocab, |device.rows|)
        && probsHost[..|device.rows|] == device.rows
    {
      if hostDefined && hostVocab != device.vocab {
        return Fatal("host buffer width differs from the vocabulary size");
      }
      var numTokens := |device.rows|;
      Reserve(numTokens, device.vocab);
      var i := 0;
      while i < numTokens
        invariant 0 <= i <= numTokens <= probsHost.Length
        invariant probsHost[..i] == device.rows[..i]
        modifies probsHost
      {
        probsHost[i] := device.rows[i];
        i := i + 1;
      }
      return Ok(numTokens);
    }

    /**
     * The sampling loop of `BatchSampleTokens` over the first `n` host rows:
     * one token per row with the request's effective top_p and one draw from
     * its generator; the first fatal row ends the batch.
     */
    method SampleHostRows(n: nat, cfgs: seq<GenerationConfig>, draws: seq<real>, wantDists: bool, wantProbs: bool)
      returns (r: Outcome<Batch>)
      requires n <= probsHost.Length && |cfgs| == n && |draws| == n
      ensures r == SampleBatch(probsHost[..n], cfgs, draws, wantDists, wantProbs)
    {
      ghost var rows := probsHost[..n];
      var samples: seq<Sample> := [];
      var dists: seq<seq<real>> := [];
      var i := 0;
      while i < n
        invariant 0 <= i <= n
        invariant SamplesUpTo(rows, cfgs, draws, i) == Ok(samples) && |samples| == i
        invariant wantDists ==> |dists| == i
        invariant wantDists ==> forall j :: 0 <= j < i ==> dists[j] == OutputDist(rows[j], EffectiveTopP(cfgs[j]))
      {
        assert probsHost[i] == rows[i];
        var s, dist := SampleTopPFromProb(probsHost[i], EffectiveTopP(cfgs[i]), draws[i], wantDists);
        if s.Fatal? {
          SamplesFatalPersists(rows, cfgs, draws, i, n);
          return Fatal(s.reason);
        }
        samples := samples + [s.value];
        if wantDists {
          dists := dists + [dist];
        }
        i := i + 1;
      }
      var tokens := seq(n, j requires 0 <= j < n => samples[j].token);
      var probs := seq(n, j requires 0 <= j < n => samples[j].prob);
      assert wantDists ==> dists == seq(n, j requires 0 <= j < n => OutputDist(rows[j], EffectiveTopP(cfgs[j])));
      return Ok(Batch(tokens, if wantProbs then Some(probs) else None, if wantDists then Some(dists) else None));
    }

    /**
     * `BatchSampleTokens`: copy the batch to the host and sample one token per
     * row with the request's effective top_p and one draw from its generator.
     */
    method BatchSampleTokens(device: DeviceProbs, requestIds: seq<string>, cfgs: seq<GenerationConfig>,
                             draws: seq<real>, wantDists: bool, wantProbs: bool)
      returns (r: Outcome<Batch>)
      requires Valid() && Shaped(device)
      modifies this, probsHost
      ensures Valid()
      ensures old(WidthClash(device.vocab)) ==> r.Fatal? && CacheUnchanged()
      ensures !old(WidthClash(device.vocab)) ==>
        && CacheUpdated(device.vocab, |device.rows|)
        && probsHost[..|device.rows|] == device.rows
        && (|requestIds| != |device.rows| || |cfgs| != |device.rows| || |draws| != |device.rows| ==> r.Fatal?)
        && (|requestIds| == |device.rows| && |cfgs| == |device.rows| && |draws| == |device.rows| ==>
              r == SampleBatch(device.rows, cfgs, draws, wantDists, wantProbs))
    {
      var copied := CopyProbsToCPU(device);
      if copied.Fatal? {
        return Fatal(copied.reason);
      }
      var n := copied.value;
      if n != |requestIds| || n != |cfgs| || n != |draws| {
        return Fatal("batch sizes differ");
      }
      r := SampleHostRows(n, cfgs, draws, wantDists, wantProbs);
    }

    /**
     * The residual step of draft verification on host row `row`: replace each
     * entry by `max(p - q, 0)` while summing them, then divide every entry by
     * the sum. No other row changes.
     */
    method NormalizeResidual(row: nat, qd: seq<real>)
      requires row < probsHost.Length && |qd| == |probsHost[row]|
      requires Sum(Clamp(probsHost[row], qd)) != 0.0
      modifies probsHost
      ensures probsHost[row] == Residual(old(probsHost[row]), qd)
      ensures forall x :: 0 <= x < probsHost.Length && x != row ==> probsHost[x] == old(probsHost[x])
    {
      ghost var p0 := probsHost[row];
      ghost var c := Clamp(p0, qd);
      var n := |qd|;
      var sumV := 0.0;
      var j := 0;
      while j < n
        invariant 0 <= j <= n
        invariant |probsHost[row]| == n
        invariant forall x :: 0 <= x < j ==> probsHost[row][x] == c[x]
        invariant forall x :: j <= x < n ==> probsHost[row][x] == p0[x]
        invariant sumV == SumTo(c, j)
        invariant forall x :: 0 <= x < probsHost.Length && x != row ==> probsHost[x] == old(probsHost[x])
      {
        var v := Max(probsHost[row][j] - qd[j], 0.0);
        probsHost[row] := probsHost[row][j := v];
        sumV := sumV + v;
        j := j + 1;
      }
      assert probsHost[row] == c;
      ghost var res := Residual(p0, qd);
      j := 0;
      while j < n
        invariant 0 <= j <= n
        invariant |probsHost[row]| == n
        invariant forall x :: 0 <= x < j ==> probsHost[row][x] == res[x]
        invariant forall x :: j <= x < n ==> probsHost[row][x] == c[x]
        invariant forall x :: 0 <= x < probsHost.Length && x != row ==> probsHost[x] == old(probsHost[x])
      {
        var v := probsHost[row][j] / sumV;
        probsHost[row] := probsHost[row][j := v];
        j := j + 1;
      }
      assert probsHost[row] == res;
    }

    /**
     * The rejection step of draft verification: host row `row` becomes the
     * residual and a replacement token is sampled from it with draw `u`.
     */
    method ResampleRejected(row: nat, qd: seq<real>, topP: real, u: real) returns (s: Outcome<Sample>)
      requires row < probsHost.Length && |qd| == |probsHost[row]|
      requires Sum(Clamp(probsHost[row], qd)) != 0.0
      modifies probsHost
      ensures probsHost[row] == Residual(old(probsHost[row]), qd)
      ensures s == SampleTopP(probsHost[row], topP, u)
      ensures forall x :: 0 <= x < probsHost.Length && x != row ==> probsHost[x] == old(probsHost[x])
    {
      NormalizeResidual(row, qd);
      var dist;
      s, dist := SampleTopPFromProb(probsHost[row], topP, u, false);
    }

    /**
     * The accepting part of one verification task: walk the draft positions
     * of host rows `start..end` while they accept (`p >= q`, or the next
     * draw is below `p / (q + eps)`). The walk stops at the first position
     * that does not accept, or at the end, having used `d` draws.
     */
    method AcceptPrefix(start: nat, end: nat, toks: seq<int>, qs: seq<real>, draws: seq<real>)
      returns (k: nat, d: nat)
      requires start <= end <= probsHost.Length
      requires |toks| >= end - start && |qs| >= end - start && |draws| > end - start
      requires forall i :: 0 <= i < end - start ==> 0 <= toks[i] < |probsHost[start + i]|
      ensures var rows := probsHost[start..end];
        && k == FirstReject(rows, toks, qs, draws, 0)
        && d == DrawsBefore(rows, toks, qs, k)
    {
      ghost var rows := probsHost[start..end];
      assert forall i :: 0 <= i < |rows| ==> rows[i] == probsHost[start + i];
      k := 0;
      d := 0;
      var rejected := false;
      while k < end - start && !rejected
        invariant k <= end - start
        invariant d == DrawsBefore(rows, toks, qs, k)
        invariant k <= FirstReject(rows, toks, qs, draws, 0)
        invariant rejected ==> k == FirstReject(rows, toks, qs, draws, 0)
        decreases end - start - k, !rejected
      {
        FirstRejectStep(rows, toks, qs, draws, k);
        var p := probsHost[start + k][toks[k]];
        var accept := p >= qs[k];
        if !accept {
          accept := LessThanRatio(draws[d], p, qs[k] + Eps);
        }
        if accept {
          if p < qs[k] {
            d := d + 1;
          }
          k := k + 1;
        } else {
          rejected := true;
        }
      }
    }

    /**
     * The rejected position `k` of one verification task (host rows
     * `start..end`, each `vocab` wide): a draft distribution of another width
     * is fatal; otherwise the row becomes the residual, a replacement token is
     * sampled from it with the draw after the rejecting one and committed, and
     * the draft token ends the returned list. Rows outside the range do not
     * change.
     */
    method RejectAt(start: nat, end: nat, vocab: nat, toks: seq<int>, qs: seq<real>, qds: seq<seq<real>>,
                    topP: real, draws: seq<real>, k: nat, d: nat)
      returns (r: Outcome<seq<int>>, ghost commits: seq<int>)
      requires start <= end <= probsHost.Length
      requires forall x :: start <= x < end ==> |probsHost[x]| == vocab
      requires VerifyInputs(probsHost[start..end], toks, qs, qds, draws)
      requires k == FirstReject(probsHost[start..end], toks, qs, draws, 0) < end - start
      requires d == DrawsBefore(probsHost[start..end], toks, qs, k)
      modifies probsHost
      ensures var v := VerifySequence(old(probsHost[start..end]), toks, qs, qds, topP, draws);
        && (r.Fatal? <==> v.Fatal?)
        && (r.Ok? ==> v == Ok(Verdict(r.value, commits, probsHost[start..end])))
      ensures forall x :: 0 <= x < probsHost.Length && !(start <= x < end) ==> probsHost[x] == old(probsHost[x])
    {
      ghost var rows := probsHost[start..end];
      assert rows[k] == probsHost[start + k];
      VerifySequenceByFirstReject(rows, toks, qs, qds, topP, draws);
      if vocab != |qds[k]| {
        return Fatal("vocab_size does not match the draft distribution"), [];
      }
      var s := ResampleRejected(start + k, qds[k], topP, draws[d + 1]);
      ghost var res := Residual(rows[k], qds[k]);
      forall x | start <= x < end
        ensures probsHost[x] == rows[k := res][x - start]
      {
        if x != start + k {
          assert probsHost[x] == old(probsHost[x]);
        }
      }
      assert probsHost[start..end] == rows[k := res];
      if s.Fatal? {
        return Fatal(s.reason), [];
      }
      return Ok(toks[..k + 1]), toks[..k] + [s.value.token];
    }

    /**
     * One task of the verification loop: the draft tokens of host rows
     * `start..end` (each `vocab` wide) before the first rejection are
     * committed and returned; a rejection is handled by `RejectAt`. The
     * committed tokens are the ghost `commits`. Rows outside the range do
     * not change.
     */
    method VerifyRange(start: nat, end: nat, vocab: nat, toks: seq<int>, qs: seq<real>, qds: seq<seq<real>>,
                       topP: real, draws: seq<real>)
      returns (r: Outcome<seq<int>>, ghost commits: seq<int>)
      requires start <= end <= probsHost.Length
      requires forall x :: start <= x < end ==> |probsHost[x]| == vocab
      requires VerifyInputs(probsHost[start..end], toks, qs, qds, draws)
      modifies probsHost
      ensures var v := VerifySequence(old(probsHost[start..end]), toks, qs, qds, topP, draws);
        && (r.Fatal? <==> v.Fatal?)
        && (r.Ok? ==> v == Ok(Verdict(r.value, commits, probsHost[start..end])))
      ensures forall x :: 0 <= x < probsHost.Length && !(start <= x < end) ==> probsHost[x] == old(probsHost[x])
    {
      var k, d := AcceptPrefix(start, end, toks, qs, draws);
      if k == end - start {
        VerifySequenceByFirstReject(probsHost[start..end], toks, qs, qds, topP, draws);
        return Ok(toks[..k]), toks[..k];
      }
      r, commits := RejectAt(start, end, vocab, toks, qs, qds, topP, draws, k, d);
    }

    /**
     * `BatchVerifyDraftTokens`: copy the batch to the host, check the sizes of
     * the per-sequence inputs, and verify every sequence on its own row range
     * (`cum[i]..cum[i + 1]`). The result holds the returned token list of
     * every sequence; the ghost `commits` holds the tokens committed to each
     * request's state.
     */
    method BatchVerifyDraftTokens(device: DeviceProbs, requestIds: seq<string>, cum: seq<int>,
                                  cfgs: seq<GenerationConfig>, draws: seq<seq<real>>,
                                  toks: seq<seq<int>>, qs: seq<seq<real>>, qds: seq<seq<seq<real>>>)
      returns (r: Outcome<seq<seq<int>>>, ghost commits: seq<seq<int>>)
      requires Valid() && Shaped(device)
      requires VerifyBatchInputs(device.rows, cum, cfgs, draws, toks, qs, qds)
      modifies this, probsHost
      ensures Valid()
      ensures old(WidthClash(device.vocab)) ==> r.Fatal? && CacheUnchanged()
      ensures !old(WidthClash(device.vocab)) ==> CacheUpdated(device.vocab, |device.rows|)
      ensures !old(WidthClash(device.vocab)) && !CountsMatch(cum, draws, toks, qs, qds) ==>
        && r.Fatal?
        && probsHost[..|device.rows|] == device.rows
      ensures !old(WidthClash(device.vocab)) && CountsMatch(cum, draws, toks, qs, qds) ==>
        && (r.Fatal? <==> exists i :: 0 <= i < |cum| - 1 && SeqVerdict(device.rows, cum, cfgs, draws, toks, qs, qds, i).Fatal?)
        && (r.Ok? ==>
              && |r.value| == |commits| == |cum| - 1
              && (forall i :: 0 <= i < |cum| - 1 ==>
                    SeqVerdict(device.rows, cum, cfgs, draws, toks, qs, qds, i)
                    == Ok(Verdict(r.value[i], commits[i], probsHost[cum[i]..cum[i + 1]])))
              && (forall x :: 0 <= x < |device.rows| && (x < cum[0] || cum[|cum| - 1] <= x) ==>
                    probsHost[x] == device.rows[x]))
    {
      commits := [];
      var copied := CopyProbsToCPU(device);
      if copied.Fatal? {
        return Fatal(copied.reason), commits;
      }
      if !CountsMatch(cum, draws, toks, qs, qds) {
        return Fatal("the per-sequence inputs do not match the number of sequences"), commits;
      }
      ghost var n := |device.rows|;
      forall x | 0 <= x < n ensures probsHost[x] == device.rows[x] {
        assert probsHost[..n][x] == probsHost[x];
      }
      r, commits := VerifySequences(device.rows, hostVocab, cum, cfgs, draws, toks, qs, qds);
    }

    /** The parallel loop of `BatchVerifyDraftTokens`, one sequence after another. */
    method VerifySequences(ghost rows: seq<seq<real>>, vocab: nat, cum: seq<int>, cfgs: seq<GenerationConfig>,
                           draws: seq<seq<real>>, toks: seq<seq<int>>, qs: seq<seq<real>>,
                           qds: seq<seq<seq<real>>>)
      returns (r: Outcome<seq<seq<int>>>, ghost commits: seq<seq<int>>)
      requires VerifyBatchInputs(rows, cum, cfgs, draws, toks, qs, qds) && CountsMatch(cum, draws, toks, qs, qds)
      requires probsHost.Length >= |rows|
      requires forall x :: 0 <= x < |rows| ==> probsHost[x] == rows[x] && |rows[x]| == vocab
      modifies probsHost
      ensures r.Fatal? <==> exists i :: 0 <= i < |cum| - 1 && SeqVerdict(rows, cum, cfgs, draws, toks, qs, qds, i).Fatal?
      ensures r.Ok? ==>
        && |r.value| == |commits| == |cum| - 1
        && (forall i :: 0 <= i < |cum| - 1 ==>
              SeqVerdict(rows, cum, cfgs, draws, toks, qs, qds, i)
              == Ok(Verdict(r.value[i], commits[i], probsHost[cum[i]..cum[i + 1]])))
        && (forall x :: 0 <= x < |rows| && (x < cum[0] || cum[|cum| - 1] <= x) ==> probsHost[x] == rows[x])
    {
      commits := [];
      var numSequence := |cum| - 1;
      var accepted: seq<seq<int>> := [];
      var i := 0;
      while i < numSequence
        invariant 0 <= i <= numSequence
        invariant |accepted| == |commits| == i
        invariant forall x :: 0 <= x < |rows| && (x < cum[0] || cum[i] <= x) ==> probsHost[x] == rows[x]
        invariant forall j :: 0 <= j < i ==>
                    SeqVerdict(rows, cum, cfgs, draws, toks, qs, qds, j)
                    == Ok(Verdict(accepted[j], commits[j], probsHost[cum[j]..cum[j + 1]]))
      {
        var start := cum[i];
        var end := cum[i + 1];
        assert 0 <= cum[0] <= start <= end <= |rows|;
        assert probsHost[start..end] == SeqRows(rows, cum, i);
        ghost var before := probsHost[..];
        var v, c := VerifyRange(start, end, vocab, toks[i], qs[i], qds[i], EffectiveTopP(cfgs[i]), draws[i]);
        if v.Fatal? {
          assert SeqVerdict(rows, cum, cfgs, draws, toks, qs, qds, i).Fatal?;
          return Fatal(v.reason), commits;
        }
        forall j | 0 <= j < i
          ensures probsHost[cum[j]..cum[j + 1]] == before[cum[j]..cum[j + 1]]
        {
          assert 0 <= cum[j] <= cum[j + 1] <= start;
        }
        accepted := accepted + [v.value];
        commits := commits + [c];
        i := i + 1;
      }
      return Ok(accepted), commits;
    }
  }

  /**
   * `Sampler::Create`: the only sampler kind is "cpu"; any other name is
   * fatal. A new sampler has no host buffer yet.
   */
  method Create(samplerKind: string) returns (r: Outcome<CPUSampler>)
    ensures r.Ok? <==> samplerKind == "cpu"
    ensures r.Ok? ==> fresh(r.value) && r.value.Valid() && !r.value.hostDefined
  {
    if samplerKind == "cpu" {
      var s := new CPUSampler();
      return Ok(s);
    }
    return Fatal("unsupported sampler kind");
  }
}
