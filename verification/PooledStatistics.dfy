/** Pooling of group statistics in Etc/scripts/ConfTest.rb: the standard error of all the
    samples from the size, mean and sample deviation of each group.

    Reals stand for floats and `BigDecimal`s. Square roots are avoided by stating results
    for squares; the one conversion between two standard errors takes its roots as given. */
module PooledStatistics {

  /** Size, mean and sample standard deviation of one group. */
  datatype Group = Group(n: nat, mean: real, sd: real)

  function Times(a: real, b: real): real {
    a * b
  }

  function Sum(s: seq<real>): real {
    if s == [] then 0.0 else s[0] + Sum(s[1..])
  }

  function SumSquares(s: seq<real>): real {
    if s == [] then 0.0 else Times(s[0], s[0]) + SumSquares(s[1..])
  }

  /** The sum of squared deviations from `m`. */
  function Deviations(s: seq<real>, m: real): real {
    if s == [] then 0.0 else Times(s[0] - m, s[0] - m) + Deviations(s[1..], m)
  }

  function Per(total: real, n: real): real
    requires n != 0.0
  {
    total / n
  }

  function Mean(s: seq<real>): real
    requires s != []
  {
    Per(Sum(s), |s| as real)
  }

  function PopulationVariance(s: seq<real>): real
    requires s != []
  {
    Per(Deviations(s, Mean(s)), |s| as real)
  }

  function SampleVariance(s: seq<real>): real
    requires 2 <= |s|
  {
    Per(Deviations(s, Mean(s)), |s| as real - 1.0)
  }

  /** `g` describes the samples `s`. For a single sample any deviation will do, because it
      is multiplied by n - 1. */
  ghost predicate Describes(g: Group, s: seq<real>) {
    && s != [] && g.n == |s|
    && g.mean == Mean(s)
    && Times(Times(g.sd, g.sd), g.n as real - 1.0) == Deviations(s, g.mean)
  }

  // ----- What the script computes -----

  /** The variance with the size as denominator. */
  function Biased(n: real, sd: real): real
    requires n != 0.0
  {
    Times(Per(n - 1.0, n), Times(sd, sd))
  }

  /** What a group adds to the weighted second moments. */
  function Moment(n: real, variance: real, mean: real): real {
    n * (variance + mean * mean)
  }

  function VarianceOf(squares: real, n: real, mean: real): real
    requires n != 0.0
  {
    squares / n - mean * mean
  }

  predicate NonEmpty(gs: seq<Group>) {
    forall i :: 0 <= i < |gs| ==> 0 < gs[i].n
  }

  function TotalSize(gs: seq<Group>): nat {
    if gs == [] then 0 else TotalSize(gs[..|gs| - 1]) + gs[|gs| - 1].n
  }

  function WeightedMeans(gs: seq<Group>): real {
    if gs == [] then 0.0
    else WeightedMeans(gs[..|gs| - 1]) + Times(gs[|gs| - 1].n as real, gs[|gs| - 1].mean)
  }

  function Moments(gs: seq<Group>): real
    requires NonEmpty(gs)
  {
    if gs == [] then 0.0
    else
      var g := gs[|gs| - 1];
      Moments(gs[..|gs| - 1]) + Moment(g.n as real, Biased(g.n as real, g.sd), g.mean)
  }

  function TotalVariance(gs: seq<Group>): real
    requires NonEmpty(gs) && 0 < TotalSize(gs)
  {
    var n := TotalSize(gs) as real;
    VarianceOf(Moments(gs), n, Per(WeightedMeans(gs), n))
  }

  function Groups(n: seq<nat>, u: seq<real>, s: seq<real>): (gs: seq<Group>)
    requires |n| == |u| == |s|
    ensures |gs| == |n| && forall i :: 0 <= i < |n| ==> gs[i] == Group(n[i], u[i], s[i])
  {
    seq(|n|, i requires 0 <= i < |n| => Group(n[i], u[i], s[i]))
  }

  /** Each deviation is rewritten to use the size as denominator. */
  method RewriteDeviations(n: seq<nat>, s: seq<real>) returns (v: seq<real>)
    requires |n| == |s| && forall i :: 0 <= i < |n| ==> 0 < n[i]
    ensures |v| == |n| && forall i :: 0 <= i < |n| ==> v[i] == Biased(n[i] as real, s[i])
  {
    v := [];
    for i := 0 to |n|
      invariant |v| == i && forall j :: 0 <= j < i ==> v[j] == Biased(n[j] as real, s[j])
    {
      var nfactor := Per(n[i] as real - 1.0, n[i] as real);
      v := v + [Times(nfactor, Times(s[i], s[i]))];
    }
  }

  /** `calculateSem` in the script's steps: rewrite the deviations, total the sizes, combine
      the groups by two row-by-column products. The result is the square of the standard
      error. */
  method CalculateSemSquared(n: seq<nat>, u: seq<real>, s: seq<real>) returns (vtot: real, semSquared: real)
    requires |n| == |u| == |s| && |n| > 0
    requires forall i :: 0 <= i < |n| ==> 0 < n[i]
    ensures var gs := Groups(n, u, s);
            && NonEmpty(gs) && 0 < TotalSize(gs)
            && vtot == TotalVariance(gs)
            && semSquared == Per(vtot, TotalSize(gs) as real)
  {
    ghost var gs := Groups(n, u, s);
    var v := RewriteDeviations(n, s);
    var ntot, weighted, moments := 0, 0.0, 0.0;
    for i := 0 to |n|
      invariant ntot == TotalSize(gs[..i]) && (i > 0 ==> ntot > 0)
      invariant weighted == WeightedMeans(gs[..i])
      invariant moments == Moments(gs[..i])
    {
      assert gs[..i + 1][..i] == gs[..i];
      ntot := ntot + n[i];
      weighted := weighted + Times(n[i] as real, u[i]);
      moments := moments + Moment(n[i] as real, v[i], u[i]);
    }
    assert gs[..|n|] == gs;
    var utot := Per(weighted, ntot as real);
    vtot := VarianceOf(moments, ntot as real, utot);
    semSquared := Per(vtot, ntot as real);
  }

  /** `semnToSem`, with the square roots of the size and of the size less one. */
  function SemnToSem(semn: real, rootN: real, rootLess: real): real
    requires rootLess != 0.0
  {
    rootN * semn / rootLess
  }

  // ----- Algebra of plain numbers -----

  /** One more sample `x` added to totals that satisfy the expansion of the squares. */
  lemma ExpandStep(x: real, m: real, n0: real, sum0: real, squares0: real, dev0: real,
                   n: real, sum: real, squares: real, dev: real)
    requires dev0 == squares0 - 2.0 * Times(m, sum0) + Times(n0, Times(m, m))
    requires n == n0 + 1.0 && sum == x + sum0 && squares == Times(x, x) + squares0 && dev == Times(x - m, x - m) + dev0
    ensures dev == squares - 2.0 * Times(m, sum) + Times(n, Times(m, m))
  {
  }

  lemma FoldMixedTerm(m: real, n: real, sum: real, squares: real)
    requires n != 0.0 && m == Per(sum, n)
    ensures squares - 2.0 * Times(m, sum) + Times(n, Times(m, m)) == squares - Times(n, Times(m, m))
  {
  }

  /** Undoing the change of denominator: n times the biased variance plus the squared mean. */
  lemma UnscaleGroup(n: real, sd: real, m: real, dev: real, squares: real)
    requires n != 0.0 && Times(Times(sd, sd), n - 1.0) == dev && dev == squares - Times(n, Times(m, m))
    ensures Moment(n, Biased(n, sd), m) == squares
  {
  }

  lemma VarianceFromSums(squares: real, n: real, m: real, dev: real)
    requires n != 0.0 && dev == squares - Times(n, Times(m, m))
    ensures Per(dev, n) == VarianceOf(squares, n, m)
  {
  }

  lemma TimesMean(n: real, sum: real)
    requires n != 0.0
    ensures Times(n, Per(sum, n)) == sum
  {
  }

  lemma SemSquared(semn: real, rootN: real, rootLess: real, n: real, d: real)
    requires 1.0 < n && rootLess != 0.0
    requires rootN * rootN == n && rootLess * rootLess == n - 1.0 && semn * semn == Per(Per(d, n), n)
    ensures var sem := SemnToSem(semn, rootN, rootLess); sem * sem == Per(Per(d, n - 1.0), n)
  {
    var a := rootN * semn;
    var sem := a / rootLess;
    assert sem * rootLess == a;
    Regroup(sem, rootLess);
    Regroup(rootN, semn);
    assert (sem * sem) * (rootLess * rootLess) == (rootN * rootN) * (semn * semn);
    FromProduct(sem * sem, n, d);
  }

  lemma Regroup(a: real, b: real)
    ensures (a * b) * (a * b) == (a * a) * (b * b)
  {
  }

  lemma FromProduct(y: real, n: real, d: real)
    requires 1.0 < n && y * (n - 1.0) == n * Per(Per(d, n), n)
    ensures y == Per(Per(d, n - 1.0), n)
  {
    var z := d / (n - 1.0) / n;
    assert n * (d / n / n) == d / n;
    assert z * n == d / (n - 1.0);
    assert z * n * (n - 1.0) == d;
    assert y * (n - 1.0) * n == d;
    var k := (n - 1.0) * n;
    assert 0.0 < k;
    assert y * k == d && z * k == d;
    assert y == d / k && z == d / k;
  }

  // ----- Sums over all samples -----

  function All(groups: seq<seq<real>>): seq<real> {
    if groups == [] then [] else All(groups[..|groups| - 1]) + groups[|groups| - 1]
  }

  lemma {:induction false} SumsConcat(a: seq<real>, b: seq<real>)
    ensures Sum(a + b) == Sum(a) + Sum(b)
    ensures SumSquares(a + b) == SumSquares(a) + SumSquares(b)
  {
    if a == [] {
      assert a + b == b;
    } else {
      assert (a + b)[1..] == a[1..] + b;
      SumsConcat(a[1..], b);
    }
  }

  function Without(a: seq<real>, i: nat): seq<real>
    requires i < |a|
  {
    a[..i] + a[i + 1..]
  }

  lemma {:induction false} SumsWithout(a: seq<real>, i: nat)
    requires i < |a|
    ensures Sum(a) == a[i] + Sum(Without(a, i)) && SumSquares(a) == Times(a[i], a[i]) + SumSquares(Without(a, i))
  {
    if i == 0 {
      assert Without(a, 0) == a[1..];
    } else {
      SumsWithout(a[1..], i - 1);
      assert Without(a, i)[1..] == Without(a[1..], i - 1);
    }
  }

  lemma SameWithout(a: seq<real>, b: seq<real>) returns (i: nat)
    requires a != [] && multiset(a) == multiset(b)
    ensures i < |b| && b[i] == a[0] && multiset(Without(a, 0)) == multiset(Without(b, i))
  {
    assert a[0] in multiset(b);
    i :| 0 <= i < |b| && b[i] == a[0];
    WithoutContents(a, 0);
    WithoutContents(b, i);
  }

  lemma WithoutContents(a: seq<real>, i: nat)
    requires i < |a|
    ensures multiset(Without(a, i)) == multiset(a) - multiset{a[i]}
  {
    assert a == a[..i] + [a[i]] + a[i + 1..];
  }

  lemma {:induction false} SumsPermute(a: seq<real>, b: seq<real>)
    requires multiset(a) == multiset(b)
    ensures |a| == |b| && Sum(a) == Sum(b) && SumSquares(a) == SumSquares(b)
    decreases |a|
  {
    assert |multiset(a)| == |a| && |multiset(b)| == |b|;
    if a != [] {
      var i := SameWithout(a, b);
      SumsPermute(Without(a, 0), Without(b, i));
      SumsWithout(a, 0);
      SumsWithout(b, i);
    }
  }

  /** The totals are parameters so that the algebra stays apart from the recursion. */
  lemma {:induction false} DeviationsExpand(s: seq<real>, m: real, n: real, sum: real, squares: real, dev: real)
    requires n == |s| as real && sum == Sum(s) && squares == SumSquares(s) && dev == Deviations(s, m)
    ensures dev == squares - 2.0 * Times(m, sum) + Times(n, Times(m, m))
  {
    if s == [] {
      assert Times(m, 0.0) == 0.0 && Times(0.0, Times(m, m)) == 0.0;
    } else {
      var sum0, squares0, dev0 := Sum(s[1..]), SumSquares(s[1..]), Deviations(s[1..], m);
      DeviationsExpand(s[1..], m, n - 1.0, sum0, squares0, dev0);
      ExpandStep(s[0], m, n - 1.0, sum0, squares0, dev0, n, sum, squares, dev);
    }
  }

  /** Around the mean the mixed term folds into the square of the mean. */
  lemma DeviationsAroundMean(s: seq<real>, n: real, m: real, squares: real, dev: real)
    requires s != [] && n == |s| as real && m == Mean(s) && squares == SumSquares(s) && dev == Deviations(s, m)
    ensures dev == squares - Times(n, Times(m, m))
  {
    DeviationsExpand(s, m, n, Sum(s), squares, dev);
    FoldMixedTerm(m, n, Sum(s), squares);
  }

  /** A group contributes its sum and its sum of squares. */
  lemma GroupSums(g: Group, s: seq<real>, n: real, squares: real)
    requires Describes(g, s) && n == g.n as real && squares == SumSquares(s)
    ensures Times(n, g.mean) == Sum(s)
    ensures Moment(n, Biased(n, g.sd), g.mean) == squares
  {
    TimesMean(n, Sum(s));
    DeviationsAroundMean(s, n, g.mean, squares, Deviations(s, g.mean));
    UnscaleGroup(n, g.sd, g.mean, Deviations(s, g.mean), squares);
  }

  ghost predicate AllDescribed(gs: seq<Group>, groups: seq<seq<real>>) {
    |gs| == |groups| && forall i :: 0 <= i < |gs| ==> Describes(gs[i], groups[i])
  }

  lemma {:induction false} SizesAreLengths(gs: seq<Group>, groups: seq<seq<real>>)
    requires AllDescribed(gs, groups)
    ensures NonEmpty(gs) && TotalSize(gs) == |All(groups)|
    ensures gs != [] ==> 0 < TotalSize(gs)
  {
    forall i | 0 <= i < |gs| ensures 0 < gs[i].n {
      assert Describes(gs[i], groups[i]);
    }
    if gs != [] {
      var k := |gs| - 1;
      SizesAreLengths(gs[..k], groups[..k]);
      assert Describes(gs[k], groups[k]);
    }
  }

  lemma {:induction false} TotalsAreSums(gs: seq<Group>, groups: seq<seq<real>>)
    requires AllDescribed(gs, groups) && NonEmpty(gs)
    ensures WeightedMeans(gs) == Sum(All(groups))
    ensures Moments(gs) == SumSquares(All(groups))
  {
    if gs != [] {
      var k := |gs| - 1;
      TotalsAreSums(gs[..k], groups[..k]);
      assert Describes(gs[k], groups[k]);
      GroupSums(gs[k], groups[k], gs[k].n as real, SumSquares(groups[k]));
      SumsConcat(All(groups[..k]), groups[k]);
    }
  }

  // ----- The theorems -----

  /** The combined variance is the population variance of all the samples together. */
  lemma CombinedVarianceIsPopulationVariance(gs: seq<Group>, groups: seq<seq<real>>)
    requires gs != [] && AllDescribed(gs, groups)
    ensures NonEmpty(gs) && 0 < TotalSize(gs) && All(groups) != []
    ensures TotalVariance(gs) == PopulationVariance(All(groups))
  {
    SizesAreLengths(gs, groups);
    TotalsAreSums(gs, groups);
    var all := All(groups);
    var n, m, squares := |all| as real, Mean(all), SumSquares(all);
    DeviationsAroundMean(all, n, m, squares, Deviations(all, m));
    VarianceFromSums(squares, n, m, Deviations(all, m));
  }

  /** Converting a standard error that uses n as denominator gives the usual one: its square
      is the sample variance of all the samples divided by their number. */
  lemma ConvertedSemIsSampleSem(gs: seq<Group>, groups: seq<seq<real>>, semn: real, rootN: real, rootLess: real)
    requires gs != [] && AllDescribed(gs, groups) && 2 <= |All(groups)|
    requires NonEmpty(gs) && 0 < TotalSize(gs)
    requires semn * semn == Per(TotalVariance(gs), TotalSize(gs) as real)
    requires rootN * rootN == |All(groups)| as real && rootLess * rootLess == |All(groups)| as real - 1.0
    ensures rootLess != 0.0
    ensures var sem := SemnToSem(semn, rootN, rootLess);
            sem * sem == Per(SampleVariance(All(groups)), |All(groups)| as real)
  {
    CombinedVarianceIsPopulationVariance(gs, groups);
    SizesAreLengths(gs, groups);
    var n, d := |All(groups)| as real, Deviations(All(groups), Mean(All(groups)));
    assert rootLess != 0.0;
    SemSquared(semn, rootN, rootLess, n, d);
  }

  /** Two ways to divide the same samples into groups, in whatever order, give the same result. */
  lemma PartitionDoesNotMatter(gs: seq<Group>, groups: seq<seq<real>>, hs: seq<Group>, others: seq<seq<real>>)
    requires gs != [] && AllDescribed(gs, groups) && hs != [] && AllDescribed(hs, others)
    requires multiset(All(groups)) == multiset(All(others))
    requires NonEmpty(gs) && NonEmpty(hs) && 0 < TotalSize(gs) && 0 < TotalSize(hs)
    ensures TotalVariance(gs) == TotalVariance(hs) && TotalSize(gs) == TotalSize(hs)
  {
    SizesAreLengths(gs, groups);
    SizesAreLengths(hs, others);
    TotalsAreSums(gs, groups);
    TotalsAreSums(hs, others);
    SumsPermute(All(groups), All(others));
  }
}
