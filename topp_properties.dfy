/**
 * What the top-p sampling functions of module TopP guarantee: the arg-max
 * case, inverse-CDF sampling, the cutoff filter, the sort, nucleus selection
 * and the cutoff-0 fallback.
 */
module TopPProperties {
  import opened Common
  import opened TopP

  // ---------------------------------------------------------------------------
  // Arg-max.

  /** `k` is the first index of the strict maximum of the positive entries of `p[..n]`. */
  ghost predicate FirstMaxUpTo(p: seq<real>, n: nat, k: int)
    requires n <= |p|
  {
    if k == -1 then forall i :: 0 <= i < n ==> p[i] <= 0.0
    else
      && 0 <= k < n
      && p[k] > 0.0
      && (forall i :: 0 <= i < n ==> p[i] <= p[k])
      && (forall i :: 0 <= i < k ==> p[i] < p[k])
  }

  lemma {:induction false} ArgMaxFromFirstMax(p: seq<real>, i: nat, best: real, pos: int)
    requires i <= |p| && FirstMaxUpTo(p, i, pos)
    requires best == (if pos == -1 then 0.0 else p[pos])
    ensures FirstMaxUpTo(p, |p|, ArgMaxFrom(p, i, best, pos))
    decreases |p| - i
  {
    if i < |p| {
      if p[i] > best {
        ArgMaxFromFirstMax(p, i + 1, p[i], i);
      } else {
        ArgMaxFromFirstMax(p, i + 1, best, pos);
      }
    }
  }

  /**
   * The arg-max scan returns the first index of the maximum, and -1 exactly
   * when no entry is positive (the comparison is strict, against 0.0).
   */
  lemma ArgMaxIsFirstMax(p: seq<real>)
    ensures FirstMaxUpTo(p, |p|, ArgMax(p))
    ensures ArgMax(p) == -1 <==> forall i :: 0 <= i < |p| ==> p[i] <= 0.0
  {
    ArgMaxFromFirstMax(p, 0, 0.0, -1);
  }

  // ---------------------------------------------------------------------------
  // Inverse CDF.

  lemma {:induction false} InverseCdfFromFirst(p: seq<real>, u: real, i: nat, sum: real)
    requires i <= |p| && sum == SumTo(p, i)
    ensures var r := InverseCdfFrom(p, u, i, sum);
      && (r.None? <==> forall j :: i <= j < |p| ==> SumThrough(p, j) < u)
      && (r.Some? ==>
            && i <= r.value.token < |p|
            && r.value.prob == p[r.value.token]
            && SumThrough(p, r.value.token) >= u
            && forall j :: i <= j < r.value.token ==> SumThrough(p, j) < u)
    decreases |p| - i
  {
    if i < |p| && sum + p[i] < u {
      InverseCdfFromFirst(p, u, i + 1, sum + p[i]);
    }
  }

  /**
   * Inverse-CDF sampling returns the first index whose prefix sum reaches the
   * draw, with its raw probability; it finds none exactly when no prefix sum
   * reaches the draw.
   */
  lemma InverseCdfIsFirstReaching(p: seq<real>, u: real)
    ensures var r := InverseCdf(p, u);
      && (r.None? <==> forall j :: 0 <= j < |p| ==> SumThrough(p, j) < u)
      && (r.Some? ==>
            && 0 <= r.value.token < |p|
            && r.value.prob == p[r.value.token]
            && SumThrough(p, r.value.token) >= u
            && forall j :: 0 <= j < r.value.token ==> SumThrough(p, j) < u)
  {
    InverseCdfFromFirst(p, u, 0, 0.0);
  }

  /** On a probability row a draw of at most 1 is always reached. */
  lemma InverseCdfTotalOnDistribution(p: seq<real>, u: real)
    requires IsDistribution(p) && u <= 1.0
    ensures InverseCdf(p, u).Some?
  {
    InverseCdfIsFirstReaching(p, u);
    assert |p| > 0;
    assert SumThrough(p, |p| - 1) >= u;
  }

  /**
   * A draw of 0 selects index 0 whatever its probability: every prefix sum of
   * a non-negative row reaches 0.
   */
  lemma InverseCdfZeroDraw(p: seq<real>, u: real)
    requires NonNegative(p) && |p| > 0 && u <= 0.0
    ensures InverseCdf(p, u) == Some(Sample(p[0], 0))
  {
    assert SumTo(p, 1) == p[0];
  }

  // ---------------------------------------------------------------------------
  // Cutoff filter.

  lemma {:induction false} ProbsCons(x: Cand, s: seq<Cand>)
    ensures Probs([x] + s) == [x.prob] + Probs(s)
    ensures Sum(Probs([x] + s)) == x.prob + Sum(Probs(s))
  {
    assert Probs([x] + s) == [x.prob] + Probs(s);
    SumToCons(x.prob, Probs(s), |s|);
  }

  /**
   * Every candidate of `r` is an entry `p[idx] >= c` with `idx >= lo`, carrying
   * its raw probability, and the indices increase strictly.
   */
  ghost predicate KeptInOrder(p: seq<real>, c: real, lo: nat, r: seq<Cand>)
  {
    && (forall k :: 0 <= k < |r| ==>
          lo <= r[k].index < |p| && r[k].prob == p[r[k].index] && r[k].prob >= c)
    && (forall a, b :: 0 <= a < b < |r| ==> r[a].index < r[b].index)
  }

  lemma {:induction false} FilterFromSound(p: seq<real>, c: real, i: nat, sum: real)
    requires i <= |p|
    ensures KeptInOrder(p, c, i, FilterFrom(p, c, i, sum))
    decreases |p| - i
  {
    var r := FilterFrom(p, c, i, sum);
    if i < |p| {
      if p[i] >= c {
        if sum + p[i] <= 1.0 - c {
          var rest := FilterFrom(p, c, i + 1, sum + p[i]);
          FilterFromSound(p, c, i + 1, sum + p[i]);
          assert r == [Cand(p[i], i)] + rest;
          forall k | 0 < k < |r|
            ensures r[k] == rest[k - 1] && i + 1 <= r[k].index < |p|
          {
          }
          forall a, b | 0 <= a < b < |r| ensures r[a].index < r[b].index {
            assert r[b] == rest[b - 1];
            if a > 0 {
              assert r[a] == rest[a - 1];
            }
          }
        }
      } else {
        assert r == FilterFrom(p, c, i + 1, sum);
        FilterFromSound(p, c, i + 1, sum);
      }
    }
  }

  /** Index `j` is not among the kept candidates `r`. */
  ghost predicate NotKept(r: seq<Cand>, j: int)
  {
    forall k :: 0 <= k < |r| ==> r[k].index != j
  }

  lemma {:induction false} FilterFromComplete(p: seq<real>, c: real, i: nat, sum: real, j: nat)
    requires i <= j < |p| && p[j] >= c
    requires NotKept(FilterFrom(p, c, i, sum), j)
    ensures var r := FilterFrom(p, c, i, sum);
      |r| > 0 && sum + Sum(Probs(r)) > 1.0 - c && r[|r| - 1].index < j
    decreases |p| - i
  {
    var r := FilterFrom(p, c, i, sum);
    if p[i] < c {
      assert r == FilterFrom(p, c, i + 1, sum);
      FilterFromComplete(p, c, i + 1, sum, j);
    } else if sum + p[i] > 1.0 - c {
      assert r == [Cand(p[i], i)] + [];
      ProbsCons(Cand(p[i], i), []);
      assert r[0].index == i != j;
    } else {
      var rest := FilterFrom(p, c, i + 1, sum + p[i]);
      assert r == [Cand(p[i], i)] + rest;
      assert r[0].index == i != j;
      assert NotKept(rest, j) by {
        forall k | 0 <= k < |rest| ensures rest[k].index != j {
          assert rest[k] == r[k + 1];
        }
      }
      FilterFromComplete(p, c, i + 1, sum + p[i], j);
      ProbsCons(Cand(p[i], i), rest);
      assert r[|r| - 1] == rest[|rest| - 1];
    }
  }

  /**
   * The filter keeps entries `p[i] >= c` only, with their raw probabilities,
   * in index order; an entry `p[i] >= c` is left out only when the scan had
   * already stopped before it, the kept sum having exceeded `1 - c`.
   */
  lemma FilterKeepsAboveCutoff(p: seq<real>, c: real)
    ensures var r := Filter(p, c);
      && KeptInOrder(p, c, 0, r)
      && (forall j :: 0 <= j < |p| && p[j] >= c && NotKept(r, j) ==>
            |r| > 0 && Sum(Probs(r)) > 1.0 - c && r[|r| - 1].index < j)
  {
    FilterFromSound(p, c, 0, 0.0);
    forall j | 0 <= j < |p| && p[j] >= c && NotKept(Filter(p, c), j)
      ensures var r := Filter(p, c);
        |r| > 0 && Sum(Probs(r)) > 1.0 - c && r[|r| - 1].index < j
    {
      FilterFromComplete(p, c, 0, 0.0, j);
    }
  }

  lemma {:induction false} FilterFromKeepsAll(p: seq<real>, c: real, i: nat, sum: real, j: nat)
    requires NonNegative(p) && i <= j < |p| && p[j] >= c
    requires sum + (Sum(p) - SumTo(p, i)) <= 1.0
    ensures !NotKept(FilterFrom(p, c, i, sum), j)
    decreases |p| - i
  {
    var r := FilterFrom(p, c, i, sum);
    if i < j {
      SumToMonotone(p, i + 1, j);
      SumToMonotone(p, j + 1, |p|);
    }
    if p[i] >= c {
      assert r[0] == Cand(p[i], i);
      if i < j && sum + p[i] <= 1.0 - c {
        var rest := FilterFrom(p, c, i + 1, sum + p[i]);
        assert r == [Cand(p[i], i)] + rest;
        FilterFromKeepsAll(p, c, i + 1, sum + p[i], j);
        var k :| 0 <= k < |rest| && rest[k].index == j;
        assert r[k + 1] == rest[k];
      }
    } else {
      FilterFromKeepsAll(p, c, i + 1, sum, j);
    }
  }

  /**
   * On a probability row the early stop of the filter never drops an entry
   * `>= c`: once the kept sum exceeds `1 - c`, what is left sums to less
   * than `c`, so no remaining entry reaches the cutoff.
   */
  lemma FilterKeepsAllOnDistribution(p: seq<real>, c: real)
    requires IsDistribution(p)
    ensures forall j :: 0 <= j < |p| && p[j] >= c ==> !NotKept(Filter(p, c), j)
  {
    forall j | 0 <= j < |p| && p[j] >= c
      ensures !NotKept(Filter(p, c), j)
    {
      FilterFromKeepsAll(p, c, 0, 0.0, j);
    }
  }

  /** With cutoff 0 the filter keeps at least the first entry of a non-empty, non-negative row. */
  lemma FilterZeroNonEmpty(p: seq<real>)
    requires NonNegative(p) && |p| > 0
    ensures |Filter(p, 0.0)| > 0
  {
  }

  // ---------------------------------------------------------------------------
  // Sort.

  lemma {:induction false} InsertPermutes(x: Cand, s: seq<Cand>)
    ensures multiset(Insert(x, s)) == multiset(s) + multiset{x}
    ensures Sum(Probs(Insert(x, s))) == x.prob + Sum(Probs(s))
  {
    if s == [] || x.prob >= s[0].prob {
      ProbsCons(x, s);
    } else {
      var t := Insert(x, s[1..]);
      InsertPermutes(x, s[1..]);
      assert s == [s[0]] + s[1..];
      ProbsCons(s[0], t);
      ProbsCons(s[0], s[1..]);
    }
  }

  lemma {:induction false} InsertBounded(x: Cand, s: seq<Cand>, bound: real)
    requires x.prob <= bound && forall k :: 0 <= k < |s| ==> s[k].prob <= bound
    ensures forall k :: 0 <= k < |Insert(x, s)| ==> Insert(x, s)[k].prob <= bound
  {
    if s != [] && x.prob < s[0].prob {
      InsertBounded(x, s[1..], bound);
    }
  }

  lemma {:induction false} InsertSorted(x: Cand, s: seq<Cand>)
    requires SortedDesc(s)
    ensures SortedDesc(Insert(x, s))
  {
    if s != [] && x.prob < s[0].prob {
      var t := Insert(x, s[1..]);
      InsertSorted(x, s[1..]);
      InsertBounded(x, s[1..], s[0].prob);
      var r := [s[0]] + t;
      assert Insert(x, s) == r;
      forall a, b | 0 <= a < b < |r| ensures r[a].prob >= r[b].prob {
        assert r[b] == t[b - 1];
        if a > 0 {
          assert r[a] == t[a - 1];
        }
      }
    }
  }

  /** The sort orders by probability, descending, and permutes its input, keeping its sum. */
  lemma {:induction false} SortDescSortsAndPermutes(s: seq<Cand>)
    ensures SortedDesc(SortDesc(s))
    ensures multiset(SortDesc(s)) == multiset(s)
    ensures |SortDesc(s)| == |s|
    ensures Sum(Probs(SortDesc(s))) == Sum(Probs(s))
  {
    if s != [] {
      SortDescSortsAndPermutes(s[1..]);
      InsertSorted(s[0], SortDesc(s[1..]));
      InsertPermutes(s[0], SortDesc(s[1..]));
      assert s == [s[0]] + s[1..];
      ProbsCons(s[0], s[1..]);
      assert |multiset(SortDesc(s))| == |multiset(s)|;
    }
  }

  /**
   * The sorted candidate vector: kept entries of `p` (each with its raw
   * probability, at least `c`), ordered by probability, descending.
   */
  lemma SortedCandidates(p: seq<real>, c: real)
    ensures var s := SortDesc(Filter(p, c));
      && |s| == |Filter(p, c)|
      && SortedDesc(s)
      && Sum(Probs(s)) == Sum(Probs(Filter(p, c)))
      && forall k :: 0 <= k < |s| ==>
           && s[k] in Filter(p, c)
           && 0 <= s[k].index < |p| && s[k].prob == p[s[k].index] && s[k].prob >= c
  {
    var r := Filter(p, c);
    var s := SortDesc(r);
    SortDescSortsAndPermutes(r);
    FilterKeepsAboveCutoff(p, c);
    forall k | 0 <= k < |s| ensures s[k] in r {
      assert s[k] in multiset(s);
    }
  }

  // ---------------------------------------------------------------------------
  // Nucleus selection.

  lemma {:induction false} NucleusCountBounds(s: seq<Cand>, topP: real, j: nat)
    requires j <= |s|
    ensures var m := NucleusCount(s, topP, j);
      && (m < |s| ==> PrefixSum(s, m) >= topP)
      && (forall k :: j <= k < m ==> PrefixSum(s, k) < topP)
    decreases |s| - j
  {
    if j < |s| && PrefixSum(s, j) < topP {
      NucleusCountBounds(s, topP, j + 1);
    }
  }

  /**
   * When no entry passes the comparison, the selection walk ends on the last
   * entry and reports probability 0: `last` has become that entry's own value.
   */
  lemma {:induction false} SelectNoneQualifies(d: seq<Cand>, total: real, u: real, k: nat, last: real)
    requires k < |d|
    requires forall j :: k <= j < |d| ==> !LessThanRatio(u, d[j].prob, total)
    ensures SelectFrom(d, total, u, k, last) == Sample(0.0, d[|d| - 1].index)
    decreases |d| - k
  {
    if k + 1 < |d| {
      SelectNoneQualifies(d, total, u, k + 1, d[k].prob);
    }
  }

  /**
   * With a positive nucleus mass and a draw below 1, the walk stops inside the
   * nucleus and reports the raw probability of the candidate it stops on.
   */
  lemma {:induction false} SelectInNucleus(s: seq<Cand>, m: nat, u: real, k: nat)
    requires 1 <= m <= |s| && k < m
    requires PrefixSum(s, m) > 0.0 && 0.0 <= u < 1.0
    ensures exists j ::
              && k <= j < m
              && SelectFrom(Accumulated(s, m), PrefixSum(s, m), u, k, PrefixSum(s, k))
                   == Sample(s[j].prob, s[j].index)
    decreases m - k
  {
    var d := Accumulated(s, m);
    var total := PrefixSum(s, m);
    assert d[k] == Cand(PrefixSum(s, k + 1), s[k].index);
    assert PrefixSum(s, k + 1) == PrefixSum(s, k) + s[k].prob;
    if !LessThanRatio(u, d[k].prob, total) {
      if k + 1 == m {
        assert false;
      }
      SelectInNucleus(s, m, u, k + 1);
    }
  }

  lemma NonNegativeCandidates(s: seq<Cand>)
    requires forall k :: 0 <= k < |s| ==> s[k].prob >= 0.0
    ensures NonNegative(Probs(s))
  {
  }

  /**
   * A filtered pass that selects something returns a candidate of the
   * nucleus (the first NucleusCount sorted candidates) with its raw
   * probability; this covers the fast exit, which takes the top candidate.
   */
  lemma NucleusSelection(p: seq<real>, topP: real, u: real, c: real)
    requires NonNegative(p) && 0.0 < topP && 0.0 <= u < 1.0
    ensures var s := SortDesc(Filter(p, c));
      var r := SampleWithFilter(p, topP, u, c);
      r.Some? ==> exists j :: 0 <= j < NucleusCount(s, topP, 0) && r.value == Sample(s[j].prob, s[j].index)
  {
    var s := SortDesc(Filter(p, c));
    var r := SampleWithFilter(p, topP, u, c);
    SortedCandidates(p, c);
    if |s| > 0 {
      var m := NucleusCount(s, topP, 0);
      NucleusCountBounds(s, topP, 0);
      assert PrefixSum(s, 0) == 0.0;
      assert m >= 1;
      if LessThanRatio(u, s[0].prob, topP) {
        assert r.value == Sample(s[0].prob, s[0].index);
      } else if r.Some? {
        var total := PrefixSum(s, m);
        NonNegativeCandidates(s);
        SumPositive(Probs(s), m);
        if total > 0.0 {
          SelectInNucleus(s, m, u, 0);
        } else {
          assert m == |s|;
          var d := Accumulated(s, m);
          forall j | 0 <= j < |d| ensures !LessThanRatio(u, d[j].prob, total) {
            SumToMonotone(Probs(s), j + 1, m);
            SumPositive(Probs(s), j + 1);
          }
          SelectNoneQualifies(d, total, u, 0, 0.0);
          assert s[m - 1].prob == 0.0;
        }
      }
    }
  }

  /**
   * The fast exit tests the draw against `s[0] / top_p`, the walk against
   * `s[0] / total` with `total` the nucleus mass. The nucleus is cut only
   * once its mass reaches top_p, so then `total >= top_p`, not below it.
   * When `total >= top_p`, every non-negative draw for which the walk takes
   * the top candidate takes the fast exit too, with the same result. A pass
   * reaching the walk with `total < top_p` is the cutoff-0 pass on a row of
   * small mass (`FastExitMissesShortRowWalk`).
   */
  lemma FastExitCoversWalk(s: seq<Cand>, topP: real, u: real)
    requires |s| > 0 && 0.0 < topP && 0.0 <= u
    ensures var m := NucleusCount(s, topP, 0);
      var total := PrefixSum(s, m);
      && m >= 1
      && (m < |s| ==> total >= topP)
      && (LessThanRatio(u, s[0].prob, total) ==>
            SelectFrom(Accumulated(s, m), total, u, 0, 0.0) == Sample(s[0].prob, s[0].index))
      && (total >= topP && LessThanRatio(u, s[0].prob, total) ==> LessThanRatio(u, s[0].prob, topP))
  {
    var m := NucleusCount(s, topP, 0);
    var total := PrefixSum(s, m);
    NucleusCountBounds(s, topP, 0);
    assert PrefixSum(s, 0) == 0.0;
    assert PrefixSum(s, 1) == s[0].prob;
    assert Accumulated(s, m)[0] == Cand(s[0].prob, s[0].index);
    if total >= topP && LessThanRatio(u, s[0].prob, total) {
      assert u * topP <= u * total;
    }
  }

  /**
   * The converse fails: with `[0.5, 0.3, 0.2]`, top_p 0.7 and draw 0.65 the
   * fast exit returns token 0, while the walk over the same candidates (a
   * nucleus of two, mass 0.8) would return token 1. The top token is taken
   * for every draw below 0.5 / 0.7 instead of 0.5 / 0.8.
   */
  lemma FastExitNotTheWalk()
    ensures SampleTopP([0.5, 0.3, 0.2], 0.7, 0.65) == Ok(Sample(0.5, 0))
    ensures var s := [Cand(0.5, 0), Cand(0.3, 1), Cand(0.2, 2)];
      && SortDesc(Filter([0.5, 0.3, 0.2], FirstCutoff(0.7))) == s
      && NucleusCount(s, 0.7, 0) == 2
      && PrefixSum(s, 2) == 0.8
      && SelectFrom(Accumulated(s, 2), 0.8, 0.65, 0, 0.0) == Sample(0.3, 1)
  {
    var p := [0.5, 0.3, 0.2];
    var c := FirstCutoff(0.7);
    assert FilterFrom(p, c, 2, 0.8) == [Cand(0.2, 2)];
    assert FilterFrom(p, c, 1, 0.5) == [Cand(0.3, 1), Cand(0.2, 2)];
    assert Filter(p, c) == [Cand(0.5, 0), Cand(0.3, 1), Cand(0.2, 2)];
    assert Insert(Cand(0.3, 1), [Cand(0.2, 2)]) == [Cand(0.3, 1), Cand(0.2, 2)];
    assert SortDesc([Cand(0.2, 2)]) == [Cand(0.2, 2)];
    var s := [Cand(0.5, 0), Cand(0.3, 1), Cand(0.2, 2)];
    assert SortDesc(Filter(p, c)) == s;
    var pr := Probs(s);
    assert SumTo(pr, 0) == 0.0;
    assert SumTo(pr, 1) == 0.5;
    assert SumTo(pr, 2) == 0.8;
    assert PrefixSum(s, 1) == 0.5 && PrefixSum(s, 2) == 0.8;
    assert NucleusCount(s, 0.7, 2) == 2;
    assert NucleusCount(s, 0.7, 0) == 2;
    var d := Accumulated(s, 2);
    assert d[0] == Cand(0.5, 0) && d[1] == Cand(0.8, 1);
    assert !LessThanRatio(0.65, 0.5, 0.8);
    assert LessThanRatio(0.65, 0.8, 0.8);
  }

  /**
   * The exception to `FastExitCoversWalk`: in the cutoff-0 pass on a row
   * whose mass stays below top_p, the nucleus is the whole row and its mass
   * is below top_p. With `[0.2, 0.1]`, top_p 0.5 and draw 0.5 the first pass
   * keeps both entries, misses the fast exit and returns the sentinel; the
   * retry misses the fast exit again (0.5 >= 0.2 / 0.5), yet its walk takes
   * the top candidate (0.5 < 0.2 / 0.3).
   */
  lemma FastExitMissesShortRowWalk()
    ensures SampleWithFilter([0.2, 0.1], 0.5, 0.5, FirstCutoff(0.5)) == None
    ensures var s := [Cand(0.2, 0), Cand(0.1, 1)];
      && SortDesc(Filter([0.2, 0.1], 0.0)) == s
      && NucleusCount(s, 0.5, 0) == 2
      && PrefixSum(s, 2) == 0.3
      && !LessThanRatio(0.5, s[0].prob, 0.5)
      && SelectFrom(Accumulated(s, 2), 0.3, 0.5, 0, 0.0) == Sample(0.2, 0)
    ensures SampleTopP([0.2, 0.1], 0.5, 0.5) == Ok(Sample(0.2, 0))
  {
    var p := [0.2, 0.1];
    var s := [Cand(0.2, 0), Cand(0.1, 1)];
    assert FilterFrom(p, FirstCutoff(0.5), 1, 0.2) == [Cand(0.1, 1)];
    assert Filter(p, FirstCutoff(0.5)) == s;
    assert FilterFrom(p, 0.0, 1, 0.2) == [Cand(0.1, 1)];
    assert Filter(p, 0.0) == s;
    assert SortDesc([Cand(0.1, 1)]) == [Cand(0.1, 1)];
    assert Insert(Cand(0.2, 0), [Cand(0.1, 1)]) == s;
    assert SortDesc(Filter(p, 0.0)) == s;
    var pr := Probs(s);
    assert SumTo(pr, 0) == 0.0 && SumTo(pr, 1) == 0.2 && SumTo(pr, 2) == 0.3;
    assert PrefixSum(s, 1) == 0.2 && PrefixSum(s, 2) == 0.3;
    assert NucleusCount(s, 0.5, 2) == 2;
    assert NucleusCount(s, 0.5, 0) == 2;
    var d := Accumulated(s, 2);
    assert d[0] == Cand(0.2, 0);
    assert LessThanRatio(0.5, 0.2, 0.3);
  }

  /**
   * A filtered pass returns an entry kept by the filter, with the raw
   * probability of that token.
   */
  lemma NucleusReturnsKeptToken(p: seq<real>, topP: real, u: real, c: real)
    requires NonNegative(p) && 0.0 < topP && 0.0 <= u < 1.0
    ensures var r := SampleWithFilter(p, topP, u, c);
      r.Some? ==>
        && Cand(r.value.prob, r.value.token) in Filter(p, c)
        && 0 <= r.value.token < |p|
        && r.value.prob == p[r.value.token]
  {
    NucleusSelection(p, topP, u, c);
    SortedCandidates(p, c);
  }

  /**
   * Past the fast exit, a pass with a nonzero cutoff yields the (-1, -1)
   * sentinel exactly when the kept candidates sum to less than `topP`.
   */
  lemma FilterPassShortfall(p: seq<real>, topP: real, u: real, c: real)
    requires NonNegative(p) && c != 0.0
    requires var s := SortDesc(Filter(p, c)); |s| > 0 && !LessThanRatio(u, s[0].prob, topP)
    ensures SampleWithFilter(p, topP, u, c).None? <==> Sum(Probs(Filter(p, c))) < topP
  {
    var s := SortDesc(Filter(p, c));
    SortedCandidates(p, c);
    var m := NucleusCount(s, topP, 0);
    NucleusCountBounds(s, topP, 0);
    NonNegativeCandidates(s);
    SumToMonotone(Probs(s), m, |s|);
  }

  /** The cutoff-0 pass always selects on a non-empty, non-negative row. */
  lemma FullPassSucceeds(p: seq<real>, topP: real, u: real)
    requires NonNegative(p) && |p| > 0
    ensures SampleWithFilter(p, topP, u, 0.0).Some?
  {
    FilterZeroNonEmpty(p);
    SortedCandidates(p, 0.0);
  }

  // ---------------------------------------------------------------------------
  // The whole sampler.

  /**
   * With top_p == 0 the result is (1.0, k) for the first strict maximum `k`
   * (-1 when no entry is positive), and the output distribution is one-hot at `k`.
   */
  lemma SampleTopPArgMax(p: seq<real>, u: real)
    ensures var r := SampleTopP(p, 0.0, u);
      && r.Ok? && r.value.prob == 1.0
      && FirstMaxUpTo(p, |p|, r.value.token)
      && (r.value.token == -1 <==> forall i :: 0 <= i < |p| ==> p[i] <= 0.0)
      && OutputDist(p, 0.0) == OneHot(|p|, r.value.token)
  {
    ArgMaxIsFirstMax(p);
  }

  /**
   * With top_p >= One the result is the first index whose prefix sum reaches
   * the draw, with its raw probability; the call is fatal exactly when no
   * prefix sum reaches the draw.
   */
  lemma SampleTopPFullCdf(p: seq<real>, topP: real, u: real)
    requires topP >= One
    ensures var r := SampleTopP(p, topP, u);
      && (r.Fatal? <==> forall j :: 0 <= j < |p| ==> SumThrough(p, j) < u)
      && (r.Ok? ==>
            && 0 <= r.value.token < |p|
            && r.value.prob == p[r.value.token]
            && SumThrough(p, r.value.token) >= u
            && forall j :: 0 <= j < r.value.token ==> SumThrough(p, j) < u)
  {
    InverseCdfIsFirstReaching(p, u);
  }

  /**
   * Nucleus case: the first pass uses cutoff top_p/1024; when it yields the
   * sentinel the pass is rerun with cutoff 0, and the call is fatal exactly
   * when the row is empty.
   */
  lemma SampleTopPNucleusFallback(p: seq<real>, topP: real, u: real)
    requires NonNegative(p) && 0.0 < topP < One
    ensures var r := SampleTopP(p, topP, u);
      var first := SampleWithFilter(p, topP, u, FirstCutoff(topP));
      && (first.Some? ==> r == Ok(first.value))
      && (first.None? && |p| > 0 ==> r == Ok(SampleWithFilter(p, topP, u, 0.0).value))
      && (r.Fatal? <==> |p| == 0)
  {
    if |p| > 0 {
      FullPassSucceeds(p, topP, u);
    } else {
      assert Filter(p, FirstCutoff(topP)) == [] && Filter(p, 0.0) == [];
    }
  }

  /**
   * On a probability row with a draw in [0, 1) and a positive top_p the
   * sampler never hits a fatal check and returns a token of the row with that
   * token's raw probability.
   */
  lemma SampleTopPReturnsRawProbability(p: seq<real>, topP: real, u: real)
    requires IsDistribution(p) && 0.0 < topP && 0.0 <= u < 1.0
    ensures var r := SampleTopP(p, topP, u);
      r.Ok? && 0 <= r.value.token < |p| && r.value.prob == p[r.value.token]
  {
    if topP >= One {
      InverseCdfTotalOnDistribution(p, u);
      InverseCdfIsFirstReaching(p, u);
    } else {
      assert |p| > 0;
      FullPassSucceeds(p, topP, u);
      NucleusReturnsKeptToken(p, topP, u, FirstCutoff(topP));
      NucleusReturnsKeptToken(p, topP, u, 0.0);
    }
  }

  /**
   * Worked case: row [0.5, 0.3, 0.2], top_p 0.7, draw 0.1. The first pass
   * keeps all three entries and the fast exit (0.1 < 0.5 / 0.7) returns
   * token 0 with probability 0.5.
   */
  lemma SampleTopPWorkedCase()
    ensures SampleTopP([0.5, 0.3, 0.2], 0.7, 0.1) == Ok(Sample(0.5, 0))
  {
    var p := [0.5, 0.3, 0.2];
    var c := FirstCutoff(0.7);
    assert FilterFrom(p, c, 2, 0.8) == [Cand(0.2, 2)];
    assert FilterFrom(p, c, 1, 0.5) == [Cand(0.3, 1), Cand(0.2, 2)];
    assert Filter(p, c) == [Cand(0.5, 0), Cand(0.3, 1), Cand(0.2, 2)];
    assert Insert(Cand(0.3, 1), [Cand(0.2, 2)]) == [Cand(0.3, 1), Cand(0.2, 2)];
    assert SortDesc([Cand(0.2, 2)]) == [Cand(0.2, 2)];
    assert SortDesc(Filter(p, c)) == [Cand(0.5, 0), Cand(0.3, 1), Cand(0.2, 2)];
  }

  /**
   * A draw below 1 still reaches the walk's final return when the nucleus
   * has no mass: on `[0, 0]` with top_p 0.5 and draw 0.5 the routine returns
   * the last candidate, token 1, with probability 0.
   */
  lemma ZeroRowFallsThrough()
    ensures SampleTopP([0.0, 0.0], 0.5, 0.5) == Ok(Sample(0.0, 1))
  {
    var p := [0.0, 0.0];
    assert Filter(p, FirstCutoff(0.5)) == [];
    assert FilterFrom(p, 0.0, 1, 0.0) == [Cand(0.0, 1)];
    assert Filter(p, 0.0) == [Cand(0.0, 0), Cand(0.0, 1)];
    assert SortDesc([Cand(0.0, 1)]) == [Cand(0.0, 1)];
    var s := [Cand(0.0, 0), Cand(0.0, 1)];
    assert SortDesc(Filter(p, 0.0)) == s;
    var pr := Probs(s);
    assert SumTo(pr, 0) == 0.0 && SumTo(pr, 1) == 0.0 && SumTo(pr, 2) == 0.0;
    assert NucleusCount(s, 0.5, 0) == 2;
    var d := Accumulated(s, 2);
    assert d[0] == Cand(0.0, 0) && d[1] == Cand(0.0, 1);
    SelectNoneQualifies(d, 0.0, 0.5, 0, 0.0);
  }
}
