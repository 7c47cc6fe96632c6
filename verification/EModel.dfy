/** The transmission rating of Applications/RTPApp/RTPVoip.cc: the simplified E-model of
    ITU-T G.107 with the packet-loss impairment of clause 3.5 (2005 edition).

    Reals stand for doubles. Where the source divides by zero and goes on with an
    infinity, the definitions spell out the limit it computes; where the rating itself
    would be infinite (Ppl / BurstR + Bpl = 0) or a NaN (losses, but nothing expected) there
    is none. */
module EModel {
  import opened Options
  import opened Reals

  const EPSILON := 0.000001

  function Larger(a: real, b: real): real {
    Max(Abs(a), Abs(b))
  }

  /** The relative difference of Util/opp_utils.cc. */
  function RelativeDiff(a: real, b: real): real {
    var d := Larger(a, b);
    if d == 0.0 then 0.0 else Abs(a - b) / d
  }

  /** `delay` is in milliseconds. */
  function DelayImpairment(delay: real): real {
    if delay < 177.3 then 0.024 * delay else 0.024 * delay + 0.11 * (delay - 177.3)
  }

  function LossRate(lost: nat, expected: int): real
    requires expected != 0
  {
    lost as real / expected as real
  }

  /** BurstR by the share of losses, (1 - Ppl) times the mean length of a loss event. */
  function BurstR(lost: nat, events: nat, expected: int): real
    requires expected != 0 && events != 0
  {
    (1.0 - LossRate(lost, expected)) * (lost as real / events as real)
  }

  /** BurstR by the transition probabilities, 1 / (p + q). With nothing received p is
      infinite and the quotient is zero. */
  function BurstRFromTransitions(received: nat, lost: nat, events: nat): real
    requires 0 < events && 0 < lost
  {
    if received == 0 then 0.0
    else 1.0 / (events as real / received as real + events as real / lost as real)
  }

  /** How much of the remaining impairment the losses account for; `d` is Ppl / BurstR + Bpl. */
  function LossTerm(ie: real, ppl: real, d: real): real
    requires d != 0.0
  {
    (95.0 - ie) * (100.0 * ppl / d)
  }

  /** Ie-eff. BurstR is zero when every expected packet is lost; Ppl / BurstR is then
      infinite and the impairment by loss vanishes. */
  function EquipmentImpairment(ie: real, bpl: real, ppl: real, burstR: real): Option<real> {
    if ppl <= 0.0 || burstR == 0.0 then Some(ie)
    else if 100.0 * ppl / burstR + bpl == 0.0 then None
    else Some(ie + LossTerm(ie, ppl, 100.0 * ppl / burstR + bpl))
  }

  /** The function `Rfactor`; `meanDelay` is in seconds. */
  function Rfactor(meanDelay: real, bpl: real, ie: real, expected: int, lost: nat, events: nat): Option<real> {
    if lost == 0 then
      Some(93.2 - DelayImpairment(1000.0 * meanDelay) - ie)
    else if expected == 0 || events == 0 then
      None
    else
      match EquipmentImpairment(ie, bpl, LossRate(lost, expected), BurstR(lost, events, expected))
      case None => None
      case Some(i) => Some(93.2 - DelayImpairment(1000.0 * meanDelay) - i)
  }

  function Snap(burstR: real): real {
    if RelativeDiff(burstR, 1.0) < EPSILON then 1.0 else burstR
  }

  /** The rating of one interval in `ecalculateRFactor`, which repeats the formula and
      rounds a BurstR close to one. */
  function IntervalRating(meanDelay: real, bpl: real, ie: real, expected: int, lost: nat, events: nat): Option<real> {
    if lost == 0 then
      Some(93.2 - DelayImpairment(1000.0 * meanDelay) - ie)
    else if expected == 0 || events == 0 then
      None
    else
      match EquipmentImpairment(ie, bpl, LossRate(lost, expected), Snap(BurstR(lost, events, expected)))
      case None => None
      case Some(i) => Some(93.2 - DelayImpairment(1000.0 * meanDelay) - i)
  }

  lemma Complement(a: real, x: real)
    requires x != 0.0
    ensures 1.0 - a / x == (x - a) / x
  {
    assert x / x == 1.0;
    assert (x - a) / x == x / x - a / x;
  }

  // ----- What the rating says about losses -----

  /** With counts that add up, the loss term depends on the loss rate and on the rate of
      loss events per received packet, and on nothing else. */
  lemma ImpairmentInClosedForm(ie: real, bpl: real, received: nat, lost: nat, events: nat)
    requires 0 < received && 0 < lost && 0 < events && 0.0 < bpl
    ensures var expected := received + lost;
            EquipmentImpairment(ie, bpl, LossRate(lost, expected), BurstR(lost, events, expected)) ==
            Some(ie + LossTerm(ie, LossRate(lost, expected), 100.0 * (events as real / received as real) + bpl))
  {
    var expected := received + lost;
    var r, l, e, x := received as real, lost as real, events as real, expected as real;
    assert x == r + l;
    var ppl, burst := l / x, (1.0 - l / x) * (l / e);
    Complement(l, x);
    assert burst == (r * l) / (x * e);
    assert 0.0 < burst;
    assert 100.0 * ppl / burst == 100.0 * (e / r) by {
      assert burst * (e / r) == l / x;
      assert 100.0 * ppl == (100.0 * (e / r)) * burst;
    }
    assert 0.0 < e / r && 0.0 < ppl;
    assert ppl == LossRate(lost, expected) && burst == BurstR(lost, events, expected);
    ImpairmentValue(ie, bpl, ppl, burst, 100.0 * (e / r) + bpl);
  }

  lemma ImpairmentValue(ie: real, bpl: real, ppl: real, burst: real, d: real)
    requires 0.0 < ppl && burst != 0.0 && d != 0.0 && 100.0 * ppl / burst + bpl == d
    ensures EquipmentImpairment(ie, bpl, ppl, burst) == Some(ie + LossTerm(ie, ppl, d))
  {
  }

  /** Of two intervals with the same received and lost packets, the one whose losses come
      in fewer, longer events is rated lower, and a longer delay never rates higher. */
  lemma BurstierIsWorse(ie: real, bpl: real, received: nat, lost: nat, few: nat, many: nat, d0: real, d1: real)
    requires 0 < received && 0 < lost && 0 < few < many && 0.0 < bpl && ie < 95.0
    requires d1 <= d0
    ensures var expected := received + lost;
            var worse, better := Rfactor(d0, bpl, ie, expected, lost, few), Rfactor(d1, bpl, ie, expected, lost, many);
            worse.Some? && better.Some? && worse.value < better.value
  {
    ImpairmentInClosedForm(ie, bpl, received, lost, few);
    ImpairmentInClosedForm(ie, bpl, received, lost, many);
    var r, ppl := received as real, LossRate(lost, received + lost);
    assert 0.0 < ppl;
    LossTermShrinks(ie, ppl, 100.0 * (few as real / r) + bpl, 100.0 * (many as real / r) + bpl);
  }

  lemma LossTermShrinks(ie: real, ppl: real, c: real, d: real)
    requires ie < 95.0 && 0.0 < ppl && 0.0 < c < d
    ensures LossTerm(ie, ppl, d) < LossTerm(ie, ppl, c)
  {
    SmallerQuotient(100.0 * ppl, c, d);
    var x, y := 100.0 * ppl / d, 100.0 * ppl / c;
    PositiveProduct(95.0 - ie, y - x);
    assert (95.0 - ie) * (y - x) == (95.0 - ie) * y - (95.0 - ie) * x;
  }

  lemma PositiveProduct(a: real, b: real)
    requires 0.0 < a && 0.0 < b
    ensures 0.0 < a * b
  {
  }

  lemma SmallerQuotient(n: real, a: real, b: real)
    requires 0.0 < n && 0.0 < a < b
    ensures n / b < n / a
  {
  }

  /** An interval in which every expected packet was lost is rated as if none had been. */
  lemma TotalLossRatedAsNoLoss(meanDelay: real, bpl: real, ie: real, lost: nat, events: nat)
    requires 0 < lost && 0 < events
    ensures Rfactor(meanDelay, bpl, ie, lost, lost, events) == Rfactor(meanDelay, bpl, ie, lost, 0, 0)
    ensures IntervalRating(meanDelay, bpl, ie, lost, lost, events) == IntervalRating(meanDelay, bpl, ie, lost, 0, 0)
  {
    assert LossRate(lost, lost) == 1.0;
    assert BurstR(lost, events, lost) == 0.0;
  }
}
