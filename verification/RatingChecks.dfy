/** The two cross-checks that `ecalculateRFactor` makes on the counts it rates, in
    Applications/RTPApp/RTPVoip.cc. */
module RatingChecks {
  import opened EModel
  import opened Reals

  /** The loss rate agrees with 1 - received / expected exactly when the counts add up. */
  lemma LossRateCheck(received: nat, lost: nat, expected: int)
    requires 0 < expected
    ensures LossRate(lost, expected) == 1.0 - received as real / expected as real <==> received + lost == expected
  {
    var r, l, x := received as real, lost as real, expected as real;
    assert 1.0 == x / x;
    assert x / x - r / x == (x - r) / x;
  }

  /** The two forms of BurstR agree exactly when the counts add up. */
  lemma BurstRCheck(received: nat, lost: nat, events: nat, expected: int)
    requires 0 < expected && 0 < lost && 0 < events
    ensures BurstR(lost, events, expected) == BurstRFromTransitions(received, lost, events)
            <==> received + lost == expected
  {
  }

  /** The first cross-check finds no mismatch. With nothing expected one of its operands is a
      NaN, or they are infinities of opposite sign; their relative difference is a NaN, which
      is not greater than the tolerance. */
  predicate LossRatesMatch(received: nat, lost: nat, expected: nat) {
    expected == 0 ||
    RelativeDiff(LossRate(lost, expected), 1.0 - received as real / expected as real) <= EPSILON
  }

  /** The second one, which needs a loss event. With nothing expected BurstR is infinite, and the
      relative difference a NaN again. */
  predicate BurstRsMatch(received: nat, lost: nat, events: nat, expected: nat) {
    expected == 0 || lost == 0 || events == 0 ||
    RelativeDiff(BurstR(lost, events, expected), BurstRFromTransitions(received, lost, events)) <= EPSILON
  }

  lemma QuotientWithin(n: real, d: real)
    requires 0.0 < d
    ensures n / d <= EPSILON <==> n <= EPSILON * d
  {
    assert n / d * d == n;
  }

  predicate Close(a: real, b: real) {
    Abs(a - b) <= EPSILON * Larger(a, b)
  }

  lemma CloseMeans(a: real, b: real)
    ensures Close(a, b) <==> Abs(a - b) <= 0.000001 * Abs(a) || Abs(a - b) <= 0.000001 * Abs(b)
  {
  }

  lemma WithinTolerance(a: real, b: real)
    ensures RelativeDiff(a, b) <= EPSILON <==> Close(a, b)
  {
    if Larger(a, b) != 0.0 {
      QuotientWithin(Abs(a - b), Larger(a, b));
    }
  }

  lemma TimesPositive(k: real, a: real, b: real)
    requires 0.0 < k
    ensures k * a <= k * b <==> a <= b
    ensures k * a < k * b <==> a < b
  {
  }

  lemma AbsTimes(k: real, a: real)
    requires 0.0 < k
    ensures Abs(k * a) == k * Abs(a)
  {
  }

  lemma AbsDifferenceTimes(k: real, a: real, b: real, c: real, d: real)
    requires 0.0 < k && c == k * a && d == k * b
    ensures Abs(c - d) == k * Abs(a - b)
  {
    assert c - d == k * (a - b);
    AbsTimes(k, a - b);
  }

  lemma LargerTimes(k: real, a: real, b: real, c: real, d: real)
    requires 0.0 < k && c == k * a && d == k * b
    ensures Larger(c, d) == k * Larger(a, b)
  {
    AbsTimes(k, a);
    AbsTimes(k, b);
    MaxTimes(k, Abs(a), Abs(b), Abs(c), Abs(d));
  }

  lemma MaxTimes(k: real, a: real, b: real, c: real, d: real)
    requires 0.0 < k && c == k * a && d == k * b
    ensures Max(c, d) == k * Max(a, b)
  {
    TimesPositive(k, a, b);
  }

  lemma ToleranceTimes(k: real, n: real, m: real, n1: real, m1: real)
    requires 0.0 < k && n1 == k * n && m1 == k * m
    ensures n1 <= EPSILON * m1 <==> n <= EPSILON * m
  {
    assert EPSILON * m1 == k * (EPSILON * m);
    TimesPositive(k, n, EPSILON * m);
  }

  /** The tolerance is relative: a common factor does not matter. */
  lemma ScaledTolerance(k: real, a: real, b: real, c: real, d: real)
    requires 0.0 < k && c == k * a && d == k * b
    ensures Close(c, d) <==> Close(a, b)
  {
    AbsDifferenceTimes(k, a, b, c, d);
    LargerTimes(k, a, b, c, d);
    ToleranceTimes(k, Abs(a - b), Larger(a, b), Abs(c - d), Larger(c, d));
  }

  /** The counts add up to within the tolerance, relative to the losses that are counted or the
      packets that are not received, whichever are more. */
  predicate SlightByRates(received: nat, lost: nat, expected: nat) {
    var gap := Abs((received + lost - expected) as real);
    gap <= 0.000001 * lost as real || gap <= 0.000001 * Abs((expected - received) as real)
  }

  lemma RatesWithin(r: real, l: real, x: real)
    requires 0.0 < x
    ensures RelativeDiff(l / x, 1.0 - r / x) <= EPSILON <==> Close(l, x - r)
  {
    var p, q := l / x, 1.0 - r / x;
    assert x * p == l && x * q == x - r;
    WithinTolerance(p, q);
    ScaledTolerance(x, p, q, l, x - r);
  }

  lemma LossRatesMatchIff(received: nat, lost: nat, expected: nat)
    requires 0 < expected
    ensures LossRatesMatch(received, lost, expected) <==> SlightByRates(received, lost, expected)
  {
    var r, l, x := received as real, lost as real, expected as real;
    RatesWithin(r, l, x);
    CloseMeans(l, x - r);
    assert l - (x - r) == (received + lost - expected) as real && x - r == (expected - received) as real;
  }

  /** `u` and `v` are the factors of BurstR, `p` and `q` the transition probabilities. */
  lemma BurstRTimes(r: real, l: real, e: real, x: real, u: real, v: real)
    requires x * u == x - l && e * v == l
    ensures e * x * (r + l) * (u * v) == l * ((x - l) * (r + l))
  {
    assert e * x * (r + l) * (u * v) == (x * u) * (e * v) * (r + l);
  }

  lemma TransitionsTimes(r: real, l: real, e: real, x: real, p: real, q: real, w: real)
    requires p * r == e && q * l == e && w * (p + q) == 1.0
    ensures e * x * (r + l) * w == l * (r * x)
  {
    assert (p + q) * (r * l) == p * r * l + q * l * r;
    assert (p + q) * (r * l) == e * (r + l);
    assert e * (r + l) * w == w * (p + q) * (r * l);
    assert e * (r + l) * w == r * l;
    assert e * x * (r + l) * w == (e * (r + l) * w) * x;
  }

  lemma FormsOfBurstR(r: real, l: real, e: real, x: real)
    requires 0.0 <= r && 0.0 < l && 0.0 < e && 0.0 < x
    ensures var k := e * x * (r + l);
            && 0.0 < k
            && k * ((1.0 - l / x) * (l / e)) == l * ((x - l) * (r + l))
            && k * (if r == 0.0 then 0.0 else 1.0 / (e / r + e / l)) == l * (r * x)
  {
    PositiveProduct(e, x);
    PositiveProduct(e * x, r + l);
    BurstRTimes(r, l, e, x, 1.0 - l / x, l / e);
    if r != 0.0 {
      var p, q := e / r, e / l;
      assert 0.0 < p && 0.0 < q;
      TransitionsTimes(r, l, e, x, p, q, 1.0 / (p + q));
    }
  }

  /** The cross products of the two forms of BurstR. */
  function CrossForward(received: nat, lost: nat, expected: nat): real {
    (expected - lost) as real * (received + lost) as real
  }

  function CrossBack(received: nat, expected: nat): real {
    received as real * expected as real
  }

  lemma CrossDifference(received: nat, lost: nat, expected: nat)
    requires 0 < lost
    ensures Abs(CrossForward(received, lost, expected) - CrossBack(received, expected))
            == lost as real * Abs((received + lost - expected) as real)
  {
    var r, l, x := received as real, lost as real, expected as real;
    AbsDifferenceTimes(l, x - l, r, l * (x - l), l * r);
    assert Abs((received + lost - expected) as real) == Abs(x - l - r);
  }

  /** The discrepancy, times the losses, is within the tolerance relative to the cross products. */
  predicate SlightByBursts(received: nat, lost: nat, expected: nat) {
    var gap := lost as real * Abs((received + lost - expected) as real);
    || gap <= 0.000001 * Abs(CrossForward(received, lost, expected))
    || gap <= 0.000001 * CrossBack(received, expected)
  }

  lemma BurstRsMatchIff(received: nat, lost: nat, events: nat, expected: nat)
    requires 0 < expected && 0 < lost && 0 < events
    ensures BurstRsMatch(received, lost, events, expected) <==> SlightByBursts(received, lost, expected)
  {
    FormsClose(received, lost, events, expected);
    CloseMeans(CrossForward(received, lost, expected), CrossBack(received, expected));
    CrossDifference(received, lost, expected);
  }

  lemma FormsClose(received: nat, lost: nat, events: nat, expected: nat)
    requires 0 < expected && 0 < lost && 0 < events
    ensures BurstRsMatch(received, lost, events, expected) <==>
            Close(CrossForward(received, lost, expected), CrossBack(received, expected))
  {
    var r, l, e, x := received as real, lost as real, events as real, expected as real;
    FormsOfBurstR(r, l, e, x);
    FormsWithin(e * x * (r + l), l, BurstR(lost, events, expected), BurstRFromTransitions(received, lost, events),
                CrossForward(received, lost, expected), CrossBack(received, expected));
  }

  lemma FormsWithin(k: real, l: real, forward: real, back: real, a: real, b: real)
    requires 0.0 < k && 0.0 < l && k * forward == l * a && k * back == l * b
    ensures RelativeDiff(forward, back) <= EPSILON <==> Close(a, b)
  {
    WithinTolerance(forward, back);
    ScaledTolerance(k, forward, back, l * a, l * b);
    ScaledTolerance(l, a, b, l * a, l * b);
  }

  lemma WholeDiscrepancy(received: nat, lost: nat, expected: nat)
    ensures var d := Abs((received + lost - expected) as real);
            if received + lost == expected then d == 0.0 else 1.0 <= d
  {
  }

  /** No discrepancy is slight by either measure; and none but that one by the first if no count
      reaches a million. */
  lemma SlightByRatesSmall(received: nat, lost: nat, expected: nat)
    ensures received + lost == expected ==> SlightByRates(received, lost, expected)
    ensures expected < 1000000 && received < 1000000 && lost < 1000000 && SlightByRates(received, lost, expected) ==>
              received + lost == expected
  {
    WholeDiscrepancy(received, lost, expected);
  }

  /** By the second measure if the cross products do not reach it. */
  lemma SlightByBurstsSmall(received: nat, lost: nat, expected: nat)
    requires 0 < lost
    ensures received + lost == expected ==> SlightByBursts(received, lost, expected)
    ensures Abs(CrossForward(received, lost, expected)) < 1000000.0 && CrossBack(received, expected) < 1000000.0
            && SlightByBursts(received, lost, expected) ==>
              received + lost == expected
  {
    WholeDiscrepancy(received, lost, expected);
    BelowTolerance(lost as real, Abs((received + lost - expected) as real),
                   Larger(CrossForward(received, lost, expected), CrossBack(received, expected)));
  }

  lemma BelowTolerance(l: real, d: real, m: real)
    requires 1.0 <= l && (d == 0.0 || 1.0 <= d) && 0.0 <= m
    ensures d == 0.0 ==> l * d <= EPSILON * m
    ensures m < 1000000.0 && l * d <= EPSILON * m ==> d == 0.0
  {
    if 1.0 <= d {
      TimesPositive(l, 1.0, d);
    }
  }

  /** In an interval of 30 seconds at 20 milliseconds one packet more or less can pass the second
      check: 1500 expected, 1498 received, 1 known to be lost. */
  lemma ToleranceHides()
    ensures BurstRsMatch(1498, 1, 1, 1500) && !LossRatesMatch(1498, 1, 1500)
    ensures BurstRsMatch(1500, 1, 1, 1500) && !LossRatesMatch(1500, 1, 1500)
  {
    BurstRsMatchIff(1498, 1, 1, 1500);
    BurstRsMatchIff(1500, 1, 1, 1500);
    LossRatesMatchIff(1498, 1, 1500);
    LossRatesMatchIff(1500, 1, 1500);
  }
}
