/**
 * Top-p (nucleus) sampling from one probability row, as done by
 * `SampleTopPFromProb` in cpp/serve/sampler.cc.
 *
 * The functions give the meaning of each step of the algorithm; the methods
 * are the step-by-step procedure (running sums, a candidate vector that is
 * filled, sorted and rewritten in place) proved equal to those functions.
 * Properties of the functions are in module TopPProperties.
 */
module TopP {
  import opened Common

  /** A (probability, token index) pair of the candidate vector. */
  datatype Cand = Cand(prob: real, index: int)

  /** A sampled token and the probability reported with it. */
  datatype Sample = Sample(prob: real, token: int)

  // ---------------------------------------------------------------------------
  // Case top_p == 0: arg-max scan with a strict comparison against 0.0.

  function ArgMaxFrom(p: seq<real>, i: nat, best: real, pos: int): int
    requires i <= |p|
    decreases |p| - i
  {
    if i == |p| then pos
    else if p[i] > best then ArgMaxFrom(p, i + 1, p[i], i)
    else ArgMaxFrom(p, i + 1, best, pos)
  }

  /** Index of the first strict maximum among positive entries, -1 if none. */
  function ArgMax(p: seq<real>): int
  {
    ArgMaxFrom(p, 0, 0.0, -1)
  }

  /** The one-hot distribution written out for the arg-max case. */
  function OneHot(n: nat, k: int): (r: seq<real>)
    ensures |r| == n
    ensures forall i :: 0 <= i < n ==> r[i] == (if i == k then 1.0 else 0.0)
  {
    seq(n, i => if i == k then 1.0 else 0.0)
  }

  // ---------------------------------------------------------------------------
  // Case top_p >= One: inverse-CDF sampling over the whole row.

  function InverseCdfFrom(p: seq<real>, u: real, i: nat, sum: real): Option<Sample>
    requires i <= |p|
    decreases |p| - i
  {
    if i == |p| then None
    else if sum + p[i] >= u then Some(Sample(p[i], i))
    else InverseCdfFrom(p, u, i + 1, sum + p[i])
  }

  /** First index whose prefix sum reaches `u`, with its raw probability. */
  function InverseCdf(p: seq<real>, u: real): Option<Sample>
  {
    InverseCdfFrom(p, u, 0, 0.0)
  }

  // ---------------------------------------------------------------------------
  // Nucleus case, step 1: the cutoff filter.

  function FilterFrom(p: seq<real>, c: real, i: nat, sum: real): seq<Cand>
    requires i <= |p|
    decreases |p| - i
  {
    if i == |p| then []
    else if p[i] >= c then
      if sum + p[i] > 1.0 - c then [Cand(p[i], i)]
      else [Cand(p[i], i)] + FilterFrom(p, c, i + 1, sum + p[i])
    else FilterFrom(p, c, i + 1, sum)
  }

  /**
   * The entries `p[i] >= c` in index order, the scan stopping right after the
   * kept sum exceeds `1 - c`.
   */
  function Filter(p: seq<real>, c: real): seq<Cand>
  {
    FilterFrom(p, c, 0, 0.0)
  }

  // ---------------------------------------------------------------------------
  // Nucleus case, step 2: sort by probability, descending.

  /** Inserts `x` before the first element whose probability is not larger. */
  function Insert(x: Cand, s: seq<Cand>): seq<Cand>
  {
    if s == [] || x.prob >= s[0].prob then [x] + s
    else [s[0]] + Insert(x, s[1..])
  }

  /** Descending sort; equal probabilities keep their input order. */
  function SortDesc(s: seq<Cand>): seq<Cand>
  {
    if s == [] then [] else Insert(s[0], SortDesc(s[1..]))
  }

  ghost predicate SortedDesc(s: seq<Cand>)
  {
    forall i, j :: 0 <= i < j < |s| ==> s[i].prob >= s[j].prob
  }

  // ---------------------------------------------------------------------------
  // Nucleus case, step 3: cumulative sums and selection.

  function Probs(s: seq<Cand>): (r: seq<real>)
    ensures |r| == |s|
    ensures forall i :: 0 <= i < |s| ==> r[i] == s[i].prob
  {
    seq(|s|, i requires 0 <= i < |s| => s[i].prob)
  }

  /** Sum of the first `k` candidate probabilities. */
  function PrefixSum(s: seq<Cand>, k: nat): real
    requires k <= |s|
  {
    SumTo(Probs(s), k)
  }

  /**
   * Number of candidates taken into the nucleus: the scan adds a candidate
   * while the sum before it is below `topP`.
   */
  function NucleusCount(s: seq<Cand>, topP: real, j: nat): (m: nat)
    requires j <= |s|
    ensures j <= m <= |s|
    decreases |s| - j
  {
    if j == |s| || PrefixSum(s, j) >= topP then j else NucleusCount(s, topP, j + 1)
  }

  /** The candidate vector after the first `m` probabilities became cumulative. */
  function Accumulated(s: seq<Cand>, m: nat): (d: seq<Cand>)
    requires m <= |s|
    ensures |d| == |s|
  {
    seq(|s|, j requires 0 <= j < |s| =>
      if j < m then Cand(PrefixSum(s, j + 1), s[j].index) else s[j])
  }

  /**
   * Selection walk over the rewritten vector: the first entry whose value over
   * `total` exceeds `u`, reported with its value minus the previous value;
   * when there is none, the last entry with its value minus `last`.
   */
  function SelectFrom(d: seq<Cand>, total: real, u: real, k: nat, last: real): Sample
    requires 0 < |d| && k <= |d|
    decreases |d| - k
  {
    if k == |d| then Sample(d[|d| - 1].prob - last, d[|d| - 1].index)
    else if LessThanRatio(u, d[k].prob, total) then Sample(d[k].prob - last, d[k].index)
    else SelectFrom(d, total, u, k + 1, d[k].prob)
  }

  /** The filtered sampling pass with cutoff `c`; None stands for the (-1, -1) sentinel. */
  function SampleWithFilter(p: seq<real>, topP: real, u: real, c: real): Option<Sample>
  {
    var s := SortDesc(Filter(p, c));
    if |s| == 0 then None
    else if LessThanRatio(u, s[0].prob, topP) then Some(Sample(s[0].prob, s[0].index))
    else
      var m := NucleusCount(s, topP, 0);
      var total := PrefixSum(s, m);
      if total < topP && c != 0.0 then None
      else Some(SelectFrom(Accumulated(s, m), total, u, 0, 0.0))
  }

  /** The cutoff of the first nucleus pass. */
  function FirstCutoff(topP: real): real
  {
    topP / 1024.0
  }

  /** `SampleTopPFromProb` on one row: the three cases and the cutoff-0 retry. */
  function SampleTopP(p: seq<real>, topP: real, u: real): Outcome<Sample>
  {
    if topP == 0.0 then Ok(Sample(1.0, ArgMax(p)))
    else if topP >= One then
      match InverseCdf(p, u)
      case Some(r) => Ok(r)
      case None => Fatal("Possibly prob distribution contains NAN.")
    else
      var first := if topP < 1.0 then SampleWithFilter(p, topP, u, FirstCutoff(topP)) else None;
      if first.Some? then Ok(first.value)
      else
        match SampleWithFilter(p, topP, u, 0.0)
        case Some(r) => Ok(r)
        case None => Fatal("sampled index is negative")
  }

  /** The distribution stored into the optional output slot. */
  function OutputDist(p: seq<real>, topP: real): seq<real>
  {
    if topP == 0.0 then OneHot(|p|, ArgMax(p)) else p
  }

  // ---------------------------------------------------------------------------
  // The procedure.

  method ArgMaxScan(p: seq<real>) returns (argmaxPos: int)
    ensures argmaxPos == ArgMax(p)
    ensures argmaxPos == -1 || (0 <= argmaxPos < |p| && p[argmaxPos] > 0.0)
  {
    argmaxPos := -1;
    var maxProb := 0.0;
    var i := 0;
    while i < |p|
      invariant 0 <= i <= |p|
      invariant argmaxPos == -1 ==> maxProb == 0.0
      invariant argmaxPos != -1 ==> 0 <= argmaxPos < i && maxProb == p[argmaxPos] > 0.0
      invariant ArgMaxFrom(p, i, maxProb, argmaxPos) == ArgMax(p)
    {
      if p[i] > maxProb {
        maxProb := p[i];
        argmaxPos := i;
      }
      i := i + 1;
    }
  }

  method OneHotFill(n: nat, k: int) returns (out: seq<real>)
    ensures out == OneHot(n, k)
  {
    out := [];
    var i := 0;
    while i < n
      invariant 0 <= i <= n
      invariant out == OneHot(n, k)[..i]
    {
      out := out + [if i == k then 1.0 else 0.0];
      i := i + 1;
    }
  }

  method InverseCdfScan(p: seq<real>, u: real) returns (r: Option<Sample>)
    ensures r == InverseCdf(p, u)
  {
    var probSum := 0.0;
    var i := 0;
    while i < |p|
      invariant 0 <= i <= |p|
      invariant probSum == SumTo(p, i)
      invariant InverseCdfFrom(p, u, i, probSum) == InverseCdf(p, u)
    {
      probSum := probSum + p[i];
      if probSum >= u {
        return Some(Sample(p[i], i));
      }
      i := i + 1;
    }
    return None;
  }

  method FilterScan(p: seq<real>, cutoff: real) returns (data: seq<Cand>)
    ensures data == Filter(p, cutoff)
  {
    data := [];
    var cutoffSum := 0.0;
    var i := 0;
    while i < |p|
      invariant 0 <= i <= |p|
      invariant data + FilterFrom(p, cutoff, i, cutoffSum) == Filter(p, cutoff)
    {
      if p[i] >= cutoff {
        cutoffSum := cutoffSum + p[i];
        data := data + [Cand(p[i], i)];
        if cutoffSum > 1.0 - cutoff {
          break;
        }
      }
      i := i + 1;
    }
  }

  /** One filtered pass; `cutoff` is the probability threshold. */
  method SampleTopPWithFilter(p: seq<real>, topP: real, u: real, cutoff: real)
    returns (r: Option<Sample>)
    ensures r == SampleWithFilter(p, topP, u, cutoff)
  {
    var data := FilterScan(p, cutoff);
    if |data| == 0 {
      return None;
    }
    data := SortDesc(data);
    ghost var s := data;
    if LessThanRatio(u, data[0].prob, topP) {
      return Some(Sample(data[0].prob, data[0].index));
    }

    // Cumulative sums over the nucleus, rewriting the vector in place.
    var cumSumProb := 0.0;
    var topPSum := 0.0;
    var j := 0;
    while j < |data|
      invariant 0 <= j <= |data| == |s|
      invariant cumSumProb == topPSum == PrefixSum(s, j)
      invariant data == Accumulated(s, j)
      invariant NucleusCount(s, topP, j) == NucleusCount(s, topP, 0)
      invariant j < |s| ==> data[j] == s[j]
    {
      var prob := data[j].prob;
      if cumSumProb < topP {
        topPSum := topPSum + prob;
      } else {
        break;
      }
      cumSumProb := cumSumProb + prob;
      data := data[j := Cand(cumSumProb, data[j].index)];
      assert data == Accumulated(s, j + 1);
      j := j + 1;
    }
    assert j == NucleusCount(s, topP, 0);
    if cumSumProb < topP && cutoff != 0.0 {
      return None;
    }

    // Selection walk.
    var lastCumSumProb := 0.0;
    var k := 0;
    while k < |data|
      invariant 0 <= k <= |data|
      invariant SelectFrom(data, topPSum, u, k, lastCumSumProb)
             == SelectFrom(data, topPSum, u, 0, 0.0)
    {
      if LessThanRatio(u, data[k].prob, topPSum) {
        return Some(Sample(data[k].prob - lastCumSumProb, data[k].index));
      }
      lastCumSumProb := data[k].prob;
      k := k + 1;
    }
    return Some(Sample(data[|data| - 1].prob - lastCumSumProb, data[|data| - 1].index));
  }

  /**
   * `SampleTopPFromProb`: sample one token from row `p`. When `wantDist` holds,
   * `dist` is what is written to the optional output slot, otherwise it is empty.
   */
  method SampleTopPFromProb(p: seq<real>, topP: real, u: real, wantDist: bool)
    returns (r: Outcome<Sample>, dist: seq<real>)
    ensures r == SampleTopP(p, topP, u)
    ensures dist == (if wantDist then OutputDist(p, topP) else [])
  {
    dist := [];
    if topP == 0.0 {
      var argmaxPos := ArgMaxScan(p);
      if wantDist {
        dist := OneHotFill(|p|, argmaxPos);
      }
      return Ok(Sample(1.0, argmaxPos)), dist;
    }
    if wantDist {
      dist := p;
    }
    if topP >= One {
      var found := InverseCdfScan(p, u);
      if found.Some? {
        return Ok(found.value), dist;
      }
      return Fatal("Possibly prob distribution contains NAN."), dist;
    }
    if topP < 1.0 {
      var sampled := SampleTopPWithFilter(p, topP, u, FirstCutoff(topP));
      if sampled.Some? {
        return Ok(sampled.value), dist;
      }
    }
    // Fallback over the full row.
    var sampled := SampleTopPWithFilter(p, topP, u, 0.0);
    if sampled.None? {
      return Fatal("sampled index is negative"), dist;
    }
    return Ok(sampled.value), dist;
  }
}
