/** The rating in closed form, when losses do not show in it, and when the two copies of the formula
    differ. */
module LossRating {
  import opened EModel
  import opened Options
  import opened Reals

  /** Losses with a BurstR other than zero show in the impairment, or leave none at all. */
  lemma LossShows(ie: real, bpl: real, ppl: real, burst: real)
    requires 0.0 < ppl && burst != 0.0 && ie < 95.0
    ensures EquipmentImpairment(ie, bpl, ppl, burst) != Some(ie)
  {
    var d := 100.0 * ppl / burst + bpl;
    if d != 0.0 {
      ImpairmentValue(ie, bpl, ppl, burst, d);
    }
  }

  /** Losses leave a rating as it is without them exactly if they are as many as the packets that
      were expected, whatever was received. */
  lemma RatedAsNoLossIff(meanDelay: real, bpl: real, ie: real, expected: nat, lost: nat, events: nat)
    requires 0 < expected && 0 < lost && 0 < events && ie < 95.0
    ensures lost == expected <==>
              Rfactor(meanDelay, bpl, ie, expected, lost, events) == Rfactor(meanDelay, bpl, ie, expected, 0, 0)
    ensures lost == expected <==>
              IntervalRating(meanDelay, bpl, ie, expected, lost, events)
              == IntervalRating(meanDelay, bpl, ie, expected, 0, 0)
  {
    var b := BurstR(lost, events, expected);
    if lost != expected {
      LossShows(ie, bpl, LossRate(lost, expected), b);
      LossShows(ie, bpl, LossRate(lost, expected), Snap(b));
    }
  }

  /** BurstR is within the rounding distance of one without being one. */
  predicate Rounded(burstR: real) {
    burstR != 1.0 && RelativeDiff(burstR, 1.0) < EPSILON
  }

  lemma RoundedIsPositive(b: real)
    requires Rounded(b)
    ensures 0.0 < b
  {
  }

  /** The two copies of the formula differ exactly for an interval with losses whose BurstR
      is rounded. */
  lemma CopiesAgreeIff(meanDelay: real, bpl: real, ie: real, expected: int, lost: nat, events: nat)
    requires 0 < expected && 0 < events && 0.0 < bpl && ie < 95.0
    ensures 0 < lost && Rounded(BurstR(lost, events, expected)) <==>
              IntervalRating(meanDelay, bpl, ie, expected, lost, events)
              != Rfactor(meanDelay, bpl, ie, expected, lost, events)
  {
    var b := BurstR(lost, events, expected);
    if 0 < lost && Rounded(b) {
      var ppl := LossRate(lost, expected);
      RoundedIsPositive(b);
      RoundingShows(ie, bpl, ppl, b);
    }
  }

  lemma RoundingShows(ie: real, bpl: real, ppl: real, b: real)
    requires 0.0 < ppl && 0.0 < b && b != 1.0 && 0.0 < bpl && ie < 95.0
    ensures EquipmentImpairment(ie, bpl, ppl, b) != EquipmentImpairment(ie, bpl, ppl, 1.0)
  {
    var c, d := 100.0 * ppl / b + bpl, 100.0 * ppl / 1.0 + bpl;
    ImpairmentValue(ie, bpl, ppl, b, c);
    ImpairmentValue(ie, bpl, ppl, 1.0, d);
    if b < 1.0 {
      SmallerQuotient(100.0 * ppl, b, 1.0);
    } else {
      SmallerQuotient(100.0 * ppl, 1.0, b);
    }
  }

  // ----- The rating in closed form -----

  /** A rating without losses is 93.2 less the equipment's own impairment, at no delay. Per second of
      delay it falls by 24, and beyond 177.3 milliseconds, where it does not jump, by 134.
      Losses without an event, or with nothing expected, have no finite rating. */
  lemma RatingWithoutLoss(meanDelay: real, bpl: real, ie: real, expected: int, events: nat, lost: nat)
    ensures meanDelay <= 0.1773 ==>
              Rfactor(meanDelay, bpl, ie, expected, 0, events) == Some(93.2 - ie - 24.0 * meanDelay)
    ensures 0.1773 <= meanDelay ==>
              Rfactor(meanDelay, bpl, ie, expected, 0, events)
              == Some(93.2 - ie - 24.0 * 0.1773 - 134.0 * (meanDelay - 0.1773))
    ensures IntervalRating(meanDelay, bpl, ie, expected, 0, events) == Rfactor(meanDelay, bpl, ie, expected, 0, events)
    ensures 0 < lost ==> Rfactor(meanDelay, bpl, ie, 0, lost, events) == Rfactor(meanDelay, bpl, ie, expected, lost, 0)
                         == IntervalRating(meanDelay, bpl, ie, 0, lost, events)
                         == IntervalRating(meanDelay, bpl, ie, expected, lost, 0) == None
  {
  }

  /** The divisor in the impairment, with l lost packets in e events out of x expected and u = x - l. */
  lemma DivisorTimes(bpl: real, x: real, l: real, e: real, u: real, ppl: real, burst: real)
    requires 0.0 < x && 0.0 < l && 0.0 < e && u != 0.0 && ppl * x == l && burst * (x * e) == u * l
    ensures burst != 0.0 && (100.0 * ppl / burst + bpl) * u == 100.0 * e + bpl * u
  {
  }

  lemma Shares(ppl: real, x: real, l: real, u: real, d: real, q: real, share: real)
    requires x != 0.0 && d != 0.0 && ppl * x == l && q * u == d && share * (x * d) == 100.0 * l * u
    ensures q != 0.0 && 100.0 * ppl / q == share
  {
  }

  lemma BurstRTimes(lost: nat, events: nat, expected: nat)
    requires 0 < expected && 0 < events
    ensures var x, l, e := expected as real, lost as real, events as real;
            LossRate(lost, expected) * x == l && BurstR(lost, events, expected) * (x * e) == (x - l) * l
  {
  }

  /** `share` is the share of 95 - Ie that the losses take, `q` divides it. */
  lemma ImpairmentBy(ie: real, bpl: real, ppl: real, burst: real, q: real, d: real, share: real, cost: real)
    requires 0.0 < ppl && burst != 0.0 && q == 100.0 * ppl / burst + bpl && (q == 0.0 <==> d == 0.0)
    requires d != 0.0 ==> 100.0 * ppl / q == share
    requires cost == (95.0 - ie) * share
    ensures EquipmentImpairment(ie, bpl, ppl, burst) == if d == 0.0 then None else Some(ie + cost)
  {
    if d != 0.0 {
      assert LossTerm(ie, ppl, q) == (95.0 - ie) * share;
    }
  }

  lemma ImpairmentInNumbers(bpl: real, ie: real, expected: nat, lost: nat, events: nat,
                            d: real, share: real, cost: real)
    requires 0 < expected && 0 < lost && 0 < events && lost != expected
    requires d == 100.0 * events as real + bpl * (expected - lost) as real
    requires d != 0.0 ==> share * (expected as real * d) == 100.0 * lost as real * (expected - lost) as real
    requires cost == (95.0 - ie) * share
    ensures EquipmentImpairment(ie, bpl, LossRate(lost, expected), BurstR(lost, events, expected))
            == if d == 0.0 then None else Some(ie + cost)
  {
    var x, l, e, u := expected as real, lost as real, events as real, (expected - lost) as real;
    var ppl, burst := LossRate(lost, expected), BurstR(lost, events, expected);
    var q := 100.0 * ppl / burst + bpl;
    BurstRTimes(lost, events, expected);
    DivisorTimes(bpl, x, l, e, u, ppl, burst);
    if d != 0.0 {
      Shares(ppl, x, l, u, d, q, share);
    }
    assert 0.0 < ppl;
    ImpairmentBy(ie, bpl, ppl, burst, q, d, share, cost);
  }

  /** The rating of l lost packets in e events out of x expected, received or not: the losses cost
      95 - Ie times 100 l (x - l) / (x (100 e + Bpl (x - l))), and there is no finite rating
      where this divides by zero. */
  lemma RfactorInClosedForm(meanDelay: real, bpl: real, ie: real, expected: nat, lost: nat, events: nat,
                            d: real, share: real, cost: real)
    requires 0 < expected && 0 < lost && 0 < events && lost != expected
    requires d == 100.0 * events as real + bpl * (expected - lost) as real
    requires d != 0.0 ==> share * (expected as real * d) == 100.0 * lost as real * (expected - lost) as real
    requires cost == (95.0 - ie) * share
    ensures Rfactor(meanDelay, bpl, ie, expected, lost, events)
            == if d == 0.0 then None else Some(Rfactor(meanDelay, bpl, ie, expected, 0, 0).value - cost)
  {
    ImpairmentInNumbers(bpl, ie, expected, lost, events, d, share, cost);
  }

  /** The rating of an interval is the same, unless its BurstR is taken for one; then the losses
      cost 95 - Ie times 100 l / (100 l + Bpl x). */
  lemma IntervalRatingInClosedForm(meanDelay: real, bpl: real, ie: real, expected: nat, lost: nat, events: nat,
                                   d: real, share: real, cost: real)
    requires 0 < expected && 0 < lost && 0 < events
    requires d == 100.0 * lost as real + bpl * expected as real
    requires d != 0.0 ==> share * d == 100.0 * lost as real
    requires cost == (95.0 - ie) * share
    ensures IntervalRating(meanDelay, bpl, ie, expected, lost, events) ==
            var b := BurstR(lost, events, expected);
            if b <= 1.0 - 0.000001 || 0.000001 * b <= b - 1.0 then
              Rfactor(meanDelay, bpl, ie, expected, lost, events)
            else if d == 0.0 then None
            else Some(Rfactor(meanDelay, bpl, ie, expected, 0, 0).value - cost)
  {
    ImpairmentOfOne(bpl, ie, expected, lost, d, share, cost);
    SnapMeans(BurstR(lost, events, expected));
  }

  lemma SnapMeans(b: real)
    ensures Snap(b) == if b <= 1.0 - 0.000001 || 0.000001 * b <= b - 1.0 then b else 1.0
  {
  }

  lemma ImpairmentOfOne(bpl: real, ie: real, expected: nat, lost: nat, d: real, share: real, cost: real)
    requires 0 < expected && 0 < lost && d == 100.0 * lost as real + bpl * expected as real
    requires d != 0.0 ==> share * d == 100.0 * lost as real
    requires cost == (95.0 - ie) * share
    ensures EquipmentImpairment(ie, bpl, LossRate(lost, expected), 1.0) == if d == 0.0 then None else Some(ie + cost)
  {
    var x, l, ppl := expected as real, lost as real, LossRate(lost, expected);
    var q := 100.0 * ppl / 1.0 + bpl;
    ImpairmentBy(ie, bpl, ppl, 1.0, q, d, share, cost);
  }
}
