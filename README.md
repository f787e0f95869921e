# CPU token sampler of the serving engine, modelled in Dafny

This project models `cpp/serve/sampler.cc`. That file is the CPU sampler of the
serving engine. It provides:

- top-p (nucleus) sampling of one token from one probability row
  (`SampleTopPFromProb`);
- the `CPUSampler` object. The object caches device probabilities in a host
  buffer that grows by doubling (`CopyProbsToCPU`). It samples one token per
  row of a batch (`BatchSampleTokens`). It verifies the draft tokens of
  speculative decoding (`BatchVerifyDraftTokens`). Per position it accepts or
  rejects the draft token. At the first rejected position it rebuilds the row
  as the normalised residual `max(p - q, 0)` and samples a replacement token
  from it.
- the factory `Sampler::Create`.

## How the model is organised

- `common.dfy` (module `Common`) holds the shared pieces:
  - the `Outcome` type, where a failed `ICHECK`/`CHECK` is a `Fatal` result;
  - prefix sums of probability rows;
  - the IEEE reading of the comparison `u < x / y`;
  - the constants: `eps_` = 1e-5, the top-p threshold `one` = 1 - 1e-5, and
    the initial host capacity of 32 rows.
- `topp.dfy` (module `TopP`) models `SampleTopPFromProb`. There is one
  specification function per stage: arg-max, inverse CDF, cutoff filter, sort,
  nucleus and cumulative rewrite, selection walk, and the two passes. The
  methods `ArgMaxScan`, `OneHotFill`, `InverseCdfScan`, `FilterScan`,
  `SampleTopPWithFilter` (the sort, the in-place cumulative loop and the
  walk) and `SampleTopPFromProb` carry out the source's loops, each proved
  equal to its specification function. The sort is the function `SortDesc`.
- `topp_properties.dfy` states what the sampling promises, as lemmas.
- `speculative.dfy` and `speculative_properties.dfy` model the verification of
  one sequence as a function, and prove the protocol position by position.
- `cpu_sampler.dfy` (module `CpuSampler`) models the sampler object as a class:
  - the host buffer is an `array` of rows;
  - `CopyProbsToCPU`, `BatchSampleTokens` and `BatchVerifyDraftTokens` are
    methods that update the buffer in place;
  - each method is proved against the functions above.
- `cpu_sampler_properties.dfy` states what batch sampling guarantees.

Probabilities are `real`s. The value of a random generator is an explicit
input, a "draw":

- batch sampling takes one draw per row;
- verification takes one draw stream per sequence. Each position with
  `p < q` takes one draw. A rejection takes one more draw to sample the
  replacement.

The parallel-for over rows or sequences is modelled as a sequential loop. Each
task touches only its own row or row range, so the order does not matter.

Where the code and its documentation disagree, the model follows the code:

- The host buffer's vocabulary width can only be set once. A later batch with
  a different width fails the `ICHECK` at `cpp/serve/sampler.cc:333-335`; the
  buffer is not reallocated.
- With `top_p >= one` and a draw of 0, the inverse CDF returns index 0 even
  when `p[0]` is 0 (`TopPProperties.InverseCdfZeroDraw`). It does not return
  the first nonzero entry.
- For `top_p != 0` the output distribution is a copy of the raw row. It is
  not renormalised over the nucleus (`cpp/serve/sampler.cc:85-87`).
- The fast exit on the top candidate (`cpp/serve/sampler.cc:127-135`) is
  documented as a shortcut of the selection walk, on the grounds that the
  nucleus mass is below top_p. That holds only in one case: the cutoff-0
  pass on a row whose whole mass is below top_p. Every other pass that
  reaches the walk has a nucleus mass of at least top_p. This covers every
  nonzero-cutoff pass that gets there, and the cutoff-0 pass on any
  non-negative row whose mass reaches top_p, every probability distribution included. The
  nucleus is cut only once its mass reaches top_p, and a nonzero-cutoff pass
  whose kept mass stays below top_p returns the sentinel. In those passes
  every non-negative draw for which the walk takes the top candidate also
  takes the fast exit (`TopPProperties.FastExitCoversWalk`), but not
  conversely: `[0.5, 0.3, 0.2]` with top_p 0.7 and draw 0.65 returns token
  0, where the walk would return token 1
  (`TopPProperties.FastExitNotTheWalk`). In the exceptional case the
  documentation is right and the implication fails: `[0.2, 0.1]` with top_p
  0.5 and draw 0.5 misses the fast exit in both passes, yet the cutoff-0 walk
  (mass 0.3) takes token 0 (`TopPProperties.FastExitMissesShortRowWalk`).
  The model keeps the fast exit as written.
- On a rejection the returned list ends with the rejected draft token. The
  token committed to the request is the sampled replacement
  (`cpp/serve/sampler.cc:318-319`). The model therefore returns both the list
  and the committed tokens (`Verdict.accepted`, `Verdict.commits`).
- The selection walk of the nucleus pass falls through to its final `return`
  only when no candidate passes the comparison
  (`cpp/serve/sampler.cc:163-164`). It then returns the last sorted candidate
  with probability `data[last].first - last_cum_sum_prob`. That value is
  always 0, and the candidate can lie outside the nucleus
  (`TopPProperties.SelectNoneQualifies`). A draw below 1 on a row whose
  nucleus has positive mass never gets there (`TopPProperties.SelectInNucleus`);
  on an all-zero row it does: `[0, 0]` with top_p 0.5 and draw 0.5 returns
  token 1 with probability 0 (`TopPProperties.ZeroRowFallsThrough`). The documented draw range `[0, 1]` does
  include 1; for example, `[0.5, 0.3, 0.2]` with top_p 0.7 and draw 1
  returns token 2 with probability 0.

## Model

| member | source | states |
|---|---|---|
| `TopP.ArgMaxScan` | cpp/serve/sampler.cc:64-74 | the scan's position is the arg-max specification, and is -1 or an index holding a positive probability |
| `TopPProperties.ArgMaxIsFirstMax` | cpp/serve/sampler.cc:64-74 | the arg-max is the first index of the largest positive entry (strict `>` keeps the first of equal maxima), and is -1 exactly when no entry is positive |
| `TopP.OneHotFill` | cpp/serve/sampler.cc:75-81 | the output distribution of the arg-max case is 1 at the chosen index and 0 everywhere else (all zeros for -1) |
| `TopP.InverseCdfScan` | cpp/serve/sampler.cc:89-99 | the running-sum scan of the `top_p >= one` case computes the inverse-CDF specification, with no result when the loop runs out (the `ICHECK(false)`) |
| `TopPProperties.InverseCdfIsFirstReaching` | cpp/serve/sampler.cc:91-97 | the inverse CDF returns the first index whose prefix sum reaches the draw, with its raw probability; it returns nothing exactly when no prefix sum reaches the draw |
| `TopPProperties.InverseCdfTotalOnDistribution` | cpp/serve/sampler.cc:89-98 | on a row summing to 1 and a draw of at most 1, the `ICHECK(false)` is never reached |
| `TopPProperties.InverseCdfZeroDraw` | cpp/serve/sampler.cc:91-96 | a draw of 0 returns index 0 with `p[0]` on every non-empty, non-negative row, even when `p[0]` is 0 |
| `TopP.FilterScan` | cpp/serve/sampler.cc:107-120 | the cutoff scan, including its early `break`, computes the filter specification |
| `TopPProperties.FilterKeepsAboveCutoff` | cpp/serve/sampler.cc:107-120 | the filter keeps only entries `>= cutoff`, with their raw probabilities, in index order; a qualifying entry is dropped only after the kept sum exceeded `1 - cutoff` |
| `TopPProperties.FilterKeepsAllOnDistribution` | cpp/serve/sampler.cc:110-120 | on a probability row the early stop never drops an entry at or above the cutoff: every such entry is kept |
| `TopPProperties.SortDescSortsAndPermutes` | cpp/serve/sampler.cc:122-125 | the sort orders candidates by probability, descending, and is a permutation (same multiset, same length, same sum) |
| `TopPProperties.SortedCandidates` | cpp/serve/sampler.cc:107-125 | every sorted candidate was kept by the filter, indexes the row, carries that entry's probability and is at least the cutoff |
| `TopPProperties.NucleusCountBounds` | cpp/serve/sampler.cc:137-150 | the cumulative loop stops at the first candidate whose prefix sum reaches top_p; no earlier prefix sum reaches it |
| `TopPProperties.SelectNoneQualifies` | cpp/serve/sampler.cc:156-164 | when no candidate passes `u < cum / top_p_sum`, the walk returns the last sorted candidate with probability 0 |
| `TopPProperties.ZeroRowFallsThrough` | cpp/serve/sampler.cc:156-164 | on `[0, 0]` with top_p 0.5 and draw 0.5 the walk finds no candidate and returns token 1 with probability 0 |
| `TopPProperties.SelectInNucleus` | cpp/serve/sampler.cc:156-162 | with a positive nucleus mass and a draw in [0, 1), the walk stops on a nucleus candidate and returns that candidate's raw probability (cumulative value minus the previous one) |
| `TopPProperties.FastExitCoversWalk` | cpp/serve/sampler.cc:127-162 | the nucleus holds at least the top candidate; when it is cut, its mass is at least top_p; a walk that takes the top candidate returns it with its raw probability; only when the nucleus mass is at least top_p (every nonzero-cutoff pass that reaches the walk, and the cutoff-0 pass on a non-negative row whose mass reaches top_p) does the fast exit then fire too, for a draw of at least 0 |
| `TopPProperties.FastExitMissesShortRowWalk` | cpp/serve/sampler.cc:127-179 | `[0.2, 0.1]`, top_p 0.5, draw 0.5: the first pass returns the sentinel; in the cutoff-0 pass the nucleus mass is 0.3, below top_p, the fast exit does not fire, and the walk still takes token 0, which the routine returns |
| `TopPProperties.FastExitNotTheWalk` | cpp/serve/sampler.cc:127-162 | `[0.5, 0.3, 0.2]`, top_p 0.7, draw 0.65: the routine returns token 0 through the fast exit, while the walk over the same two-candidate nucleus of mass 0.8 returns token 1 |
| `TopPProperties.NucleusSelection` | cpp/serve/sampler.cc:121-164 | a filtered pass that selects, including the fast exit on the top candidate, returns a candidate of the nucleus with its raw probability |
| `TopPProperties.NucleusReturnsKeptToken` | cpp/serve/sampler.cc:106-165 | a filtered pass that selects returns a token kept by the filter, inside the row, with its raw probability |
| `TopPProperties.FilterPassShortfall` | cpp/serve/sampler.cc:137-154 | past the fast exit, a pass with a nonzero cutoff returns the `(-1, -1)` sentinel exactly when the kept candidates sum to less than top_p |
| `TopPProperties.FullPassSucceeds` | cpp/serve/sampler.cc:175-178 | the cutoff-0 fallback pass always selects on a non-empty, non-negative row, so its `ICHECK_GE` holds |
| `TopP.SampleTopPWithFilter` | cpp/serve/sampler.cc:106-165 | the imperative pass (filter, sort, fast exit, in-place cumulative rewrite with `break`, shortfall sentinel, selection walk) computes the pass specification |
| `TopP.SampleTopPFromProb` | cpp/serve/sampler.cc:35-180 | the whole sampling routine computes the top-p specification; on request its output distribution is the one-hot arg-max row for top_p 0 and a copy of the row otherwise |
| `TopPProperties.SampleTopPArgMax` | cpp/serve/sampler.cc:64-83 | top_p 0 never fails and returns probability 1.0 with the first strict maximum (or -1), and its output distribution is one-hot there |
| `TopPProperties.SampleTopPFullCdf` | cpp/serve/sampler.cc:89-99 | for top_p `>= one` the result is the inverse CDF; it is fatal exactly when no prefix sum reaches the draw |
| `TopPProperties.SampleTopPNucleusFallback` | cpp/serve/sampler.cc:167-179 | for 0 < top_p < one, the first pass uses cutoff top_p/1024, the cutoff-0 pass runs when that pass returns the sentinel, and the routine is fatal exactly on an empty row |
| `TopPProperties.SampleTopPReturnsRawProbability` | cpp/serve/sampler.cc:35-180 | on a probability row with top_p > 0 and a draw in [0, 1), sampling succeeds and returns an index of the row with that entry's probability |
| `TopPProperties.SampleTopPWorkedCase` | cpp/serve/sampler.cc:167-174 | `[0.5, 0.3, 0.2]` with top_p 0.7 and draw 0.1 returns token 0 with probability 0.5 |
| `SpeculativeProperties.ResidualIsDistribution` | cpp/serve/sampler.cc:294-309 | the normalised residual `max(p - q, 0) / sum` is non-negative, sums to 1, and has no mass where the draft probability is at least the target's |
| `Speculative.FirstRejectIsFirst` | cpp/serve/sampler.cc:276-292 | every position before the first non-accepting one accepts (`p >= q`, or the draw it takes is below `p / (q + eps)`) |
| `Speculative.FirstRejectStep` | cpp/serve/sampler.cc:282-292 | at a position not past the first rejection, accepting moves on without passing it, and not accepting means it is the first rejection |
| `SpeculativeProperties.VerifyFromSkipsAccepted` | cpp/serve/sampler.cc:276-292 | verification from any accepted prefix, with the draws taken so far, equals verification from the first non-accepting position |
| `SpeculativeProperties.VerifyAtFirstReject` | cpp/serve/sampler.cc:276-321 | at the first non-accepting position (or the end), the outcome is the whole draft when all accept; otherwise fatal on a draft width unequal to the row, else the residual row, the replacement sampled with the next draw, and the draft token ending the list |
| `SpeculativeProperties.VerifySequenceByFirstReject` | cpp/serve/sampler.cc:276-321 | if every position accepts, the whole draft is returned and committed and no row changes; otherwise, at the first rejection, a draft width unequal to the vocabulary is fatal, the row becomes the residual, the replacement is sampled with the next draw and committed, the draft token ends the list, and the loop stops |
| `SpeculativeProperties.VerifyResultShape` | cpp/serve/sampler.cc:276-321 | the returned list is a prefix of the draft; exactly as many tokens are committed, agreeing with it except possibly the last; only the last position's row may change |
| `SpeculativeProperties.VerifyAllDominating` | cpp/serve/sampler.cc:282-286 | when the target probability of every draft token is at least its draft probability, the whole draft is accepted and committed and no row changes |
| `SpeculativeProperties.RejectionStopsBeforeZeroResidual` | cpp/serve/sampler.cc:282-309 | the inputs are admitted when only a position after the rejection has an all-zero residual: `[[0.2, 0.8], [0.5, 0.5]]` with draft tokens `[0, 0]`, draft probabilities `[0.9, 0.6]` and draw 0.99 rejects position 0, whose residual is `[0, 1]` |
| `SpeculativeProperties.VerifyRejectsZeroTarget` | cpp/serve/sampler.cc:282-309 | a draft token with target probability 0 and positive draft probability is never accepted; if it is the rejected one, its residual row has no mass at that token |
| `CpuSampler.GrowCapacity` | cpp/serve/sampler.cc:337-342 | the doubling loop ends at `initSize * 2^k` holding every token, and at less than twice the token count unless no doubling was needed |
| `CpuSampler.CPUSampler.constructor` | cpp/serve/sampler.cc:184-194 | a new sampler has no host buffer (and owns its placeholder array) |
| `CpuSampler.CPUSampler.Reserve` | cpp/serve/sampler.cc:337-346 | afterwards the buffer is allocated with the new width and holds every token; its capacity never shrinks, stays 32 times a power of two, and is the old one (32 when none) or below twice the token count; the same buffer is kept when the capacity is unchanged, and otherwise it is a newly allocated one |
| `CpuSampler.CPUSampler.CopyProbsToCPU` | cpp/serve/sampler.cc:330-351 | fatal, with the buffer untouched, exactly when an allocated buffer's width differs from the vocabulary; otherwise the buffer is left as `Reserve` states, its first rows are the device rows, and the view has one row per token |
| `CpuSampler.CPUSampler.SampleHostRows` | cpp/serve/sampler.cc:216-239 | the sampling loop over the first `n` host rows returns the batch specification of those rows, changing nothing |
| `CpuSampler.CPUSampler.BatchSampleTokens` | cpp/serve/sampler.cc:196-242 | fatal, with the buffer untouched, on a width change; otherwise the buffer is left as `Reserve` states and holds the device rows, unequal batch sizes are fatal, and the outputs equal the batch specification, in which each row is sampled with top_p 0 below the temperature threshold and its own top_p otherwise |
| `CpuSamplerProperties.CacheAcrossBatches` | cpp/serve/sampler.cc:330-346 | one sampler given batches of 10, 40 and 20 rows of width 4 has host capacities 32, 64 and 64, and a following batch of width 5 is fatal |
| `CpuSampler.SamplesFatalPersists` | cpp/serve/sampler.cc:225-239 | the first failing row makes the whole batch fail with that row's error |
| `CpuSamplerProperties.SampleBatchByRow` | cpp/serve/sampler.cc:216-239 | a batch succeeds exactly when every row does; then the tokens, the token probabilities (only when asked for) and the output distributions (only when asked for) are the rows' samples, in row order |
| `CpuSamplerProperties.GreedyRow` | cpp/serve/sampler.cc:231 | a request below the temperature threshold gets the first maximum with probability 1 and a one-hot output distribution |
| `CpuSamplerProperties.SampleBatchOnDistributions` | cpp/serve/sampler.cc:225-239 | on probability rows with draws in [0, 1), a batch of greedy or positive-top_p requests succeeds, every token indexes its row, and a non-greedy token's probability is the row's entry |
| `CpuSampler.CPUSampler.NormalizeResidual` | cpp/serve/sampler.cc:303-309 | the two in-place loops leave the row equal to the normalised residual and no other row changed |
| `CpuSampler.CPUSampler.ResampleRejected` | cpp/serve/sampler.cc:294-317 | the rejected row becomes the normalised residual and the replacement is the top-p sample of that row with the given draw; no other row changes |
| `CpuSampler.CPUSampler.AcceptPrefix` | cpp/serve/sampler.cc:276-292 | the accepting walk over a row range stops at the first non-accepting position (or the end), having taken one draw per accepted position with `p < q` |
| `CpuSampler.CPUSampler.RejectAt` | cpp/serve/sampler.cc:294-320 | at the first rejection of a range, the outcome in place is the sequence specification's: fatal exactly when it is, otherwise the same returned list, committed tokens and rows; rows outside the range do not change |
| `CpuSampler.CPUSampler.VerifyRange` | cpp/serve/sampler.cc:274-321 | verifying one sequence's row range in place is fatal exactly when the sequence specification is; otherwise the returned list, the committed tokens and the rows afterwards are the specification's; rows outside the range do not change |
| `CpuSampler.CPUSampler.VerifySequences` | cpp/serve/sampler.cc:272-323 | the loop over sequences fails exactly when some sequence's verification fails; otherwise sequence `i` gets its own verdict on its range `cum[i]..cum[i+1]`; rows outside all ranges do not change |
| `CpuSampler.CPUSampler.BatchVerifyDraftTokens` | cpp/serve/sampler.cc:244-326 | fatal, with the buffer untouched, on a width change; otherwise the buffer is left as `Reserve` states, a per-sequence input without one entry per sequence is fatal, and the result is that of the loop over sequences on the copied rows |
| `CpuSampler.Create` | cpp/serve/sampler.cc:366-373 | creation succeeds exactly for the kind "cpu" and yields a fresh sampler without a host buffer |

## Left out

- Tensors: the `NDArray` type, device residency, contiguity, dtype and the
  `ndim == 2` checks are not modelled. A tensor is a sequence of rows.
- Floating point: rounding, NaN and infinities are not modelled.
  Probabilities and sums are exact reals. The one exception is the IEEE
  outcome of `u < x / 0`. Consequences:
  - the constants `1.0f - 1e-5f` and `1e-5` are exact decimals;
  - the float cutoff sum and the double residual sum are exact.
- A residual sum of 0 at the rejected position (a NaN row in the source) is
  excluded by a precondition (`Speculative.ResidualsDefined`). Positions that
  accept, or come after the rejection, are never normalised and are not
  constrained.
- Integer widths: the `int64`-to-`int` casts of indices and sizes are not
  modelled.
- Distribution preservation: speculative sampling is meant to yield tokens
  distributed as the target. The model takes draws as inputs, so it states
  what each draw sequence produces, never a probability over draws. The
  code would not keep it exactly anyway: the replacement is sampled with the
  request's top_p (0, that is arg-max, for greedy requests,
  `cpp/serve/sampler.cc:315`) rather than from the full residual, and `eps_`
  shifts the acceptance ratio to `p / (q + eps_)`.
- Randomness: `RandomGenerator` is not part of this model. Draws are inputs,
  and each sequence's draw stream is assumed long enough.
- Concurrency: the parallel-for runs sequentially. `thread_local` storage of
  the candidate vector is a local sequence.
- `std::sort`: the standard leaves the order of equal probabilities
  unspecified. The model uses one particular stable order, so its choice
  among equal-probability candidates is one of the orders the source allows.
- Tracing (`RECORD_EVENT`), the request ids used only for tracing, the
  function registry looked up in the constructor, and `flogits_to_probs_inplace_`
  are not modelled.
- `RequestModelState::CommitToken`: the committed tokens are a ghost output
  and are not applied to a request state.
- Out-of-range indexing is undefined behaviour in the source, so it becomes a
  precondition (`CpuSampler.VerifyBatchInputs`, `Speculative.VerifyInputs`). It
  covers draft tokens outside their row, ranges `cum` outside the batch, and
  draft inputs shorter than their range.
- `CpuSampler.RangesValid` also asks for `cum` to be non-decreasing. That is
  not an indexing matter (a range with `cum[i + 1] < cum[i]` simply runs no
  position in the source); it is the caller's contract that the ranges are
  ordered and disjoint, which the parallel loop needs so that no two tasks
  write the same row.
- `CpuSampler.VerifyBatchInputs` also asks for a generation config per
  sequence. The source never checks the size of `generation_cfg` and reads
  `generation_cfg[i]` for every sequence, so a shorter array is undefined
  behaviour there.
- A tensor has a single width: every device row has the tensor's vocabulary
  size (`CpuSampler.Shaped`), a shape the model cannot express otherwise.
- The test scripts of the repository are not part of this model.
