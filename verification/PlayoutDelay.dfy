/** The running mean of the total delay in Applications/RTPApp/RTPVoip.cc, which halves the
    weight of the past with every frame played. */
module PlayoutDelay {
  import opened JitterBuffer
  import opened VoipBalance
  import opened VoipRun

  function Halved(n: nat): real {
    if n == 0 then 1.0 else Halved(n - 1) / 2.0
  }

  /** The sum of delays in which the last counts one half, the one before a quarter, and so on. */
  function Weighted(delays: seq<real>): real {
    if delays == [] then 0.0 else Halved(|delays|) * delays[0] + Weighted(delays[1..])
  }

  /** What the mean becomes as the delays come in. */
  function Blend(mean: real, delays: seq<real>): real
    decreases |delays|
  {
    if delays == [] then mean else Blend((mean + delays[0]) / 2.0, delays[1..])
  }

  lemma {:induction false} BlendIsWeighted(mean: real, delays: seq<real>)
    ensures Blend(mean, delays) == Halved(|delays|) * mean + Weighted(delays)
    decreases |delays|
  {
    if delays != [] {
      BlendIsWeighted((mean + delays[0]) / 2.0, delays[1..]);
    }
  }

  // ----- The delays of a run -----

  /** The frames a run plays. */
  function Playouts(p: Settings, w: World, events: seq<Event>): seq<Playout>
    requires p.Usable()
    decreases |events|
  {
    if events == [] || !Step(p, w, events[0]).Next? then []
    else
      var v := Step(p, w, events[0]).world;
      (if |w.log.played| <= |v.log.played| then v.log.played[|w.log.played|..] else []) + Playouts(p, v, events[1..])
  }

  /** From the sender's stamp to the playout, with the delay of the codec. */
  function TotalDelays(p: Settings, played: seq<Playout>): (delays: seq<real>)
    ensures |delays| == |played|
    ensures forall i :: 0 <= i < |played| ==>
              delays[i] == played[i].time - played[i].frame.timestamp + p.codecDelay
  {
    seq(|played|, i requires 0 <= i < |played| => played[i].time - played[i].frame.timestamp + p.codecDelay)
  }

  lemma StepPlays(p: Settings, w: World, e: Event)
    requires p.Usable() && Step(p, w, e).Next? && !e.RatingDue?
    ensures var v, n := Step(p, w, e).world, |w.log.played|;
            && n <= |v.log.played| && v.log.played == w.log.played + v.log.played[n..]
            && v.rx.tally.meanDelay == Blend(w.rx.tally.meanDelay, TotalDelays(p, v.log.played[n..]))
  {
    var v, n := Step(p, w, e).world, |w.log.played|;
    var added := v.log.played[n..];
    if e.PlayoutDue? {
      assert |added| == 1 && TotalDelays(p, added)[1..] == [];
    } else {
      assert added == [];
    }
  }

  lemma {:induction false} BlendTwice(mean: real, a: seq<real>, b: seq<real>)
    ensures Blend(Blend(mean, a), b) == Blend(mean, a + b)
    decreases |a|
  {
    if a == [] {
      assert a + b == b;
    } else {
      BlendTwice((mean + a[0]) / 2.0, a[1..], b);
      assert (a + b)[1..] == a[1..] + b;
    }
  }

  lemma {:induction false} RunPlays(p: Settings, w: World, events: seq<Event>)
    requires p.Usable() && RunFrom(p, w, events).Next? && NoRating(events)
    ensures var v, added := RunFrom(p, w, events).world, Playouts(p, w, events);
            && v.log.played == w.log.played + added
            && v.rx.tally.meanDelay == Blend(w.rx.tally.meanDelay, TotalDelays(p, added))
    decreases |events|
  {
    if events != [] {
      var u := Step(p, w, events[0]).world;
      var first, rest := u.log.played[|w.log.played|..], Playouts(p, u, events[1..]);
      StepPlays(p, w, events[0]);
      RunPlays(p, u, events[1..]);
      PlaysMore(p, w, u, RunFrom(p, u, events[1..]).world, first, rest);
    }
  }

  lemma PlaysMore(p: Settings, w: World, u: World, v: World, first: seq<Playout>, rest: seq<Playout>)
    requires u.log.played == w.log.played + first && v.log.played == u.log.played + rest
    requires u.rx.tally.meanDelay == Blend(w.rx.tally.meanDelay, TotalDelays(p, first))
    requires v.rx.tally.meanDelay == Blend(u.rx.tally.meanDelay, TotalDelays(p, rest))
    ensures v.log.played == w.log.played + (first + rest)
    ensures v.rx.tally.meanDelay == Blend(w.rx.tally.meanDelay, TotalDelays(p, first + rest))
  {
    BlendTwice(w.rx.tally.meanDelay, TotalDelays(p, first), TotalDelays(p, rest));
    assert TotalDelays(p, first + rest) == TotalDelays(p, first) + TotalDelays(p, rest);
  }

  // ----- How far it is from the delays -----

  lemma Bounded(h: real, least: real, first: real, most: real, rest: real)
    requires 0.0 < h && least <= first <= most
    requires (1.0 - 2.0 * h) * least <= rest <= (1.0 - 2.0 * h) * most
    ensures (1.0 - h) * least <= h * first + rest <= (1.0 - h) * most
  {
    assert h * least <= h * first <= h * most;
  }

  lemma {:induction false} WeightsFallShort(delays: seq<real>, least: real, most: real)
    requires forall i :: 0 <= i < |delays| ==> least <= delays[i] <= most
    ensures (1.0 - Halved(|delays|)) * least <= Weighted(delays) <= (1.0 - Halved(|delays|)) * most
    ensures 0.0 < Halved(|delays|)
  {
    if delays != [] {
      WeightsFallShort(delays[1..], least, most);
      Bounded(Halved(|delays|), least, delays[0], most, Weighted(delays[1..]));
    }
  }

  /** The mean after a rating, which sets it to zero, falls short of the delays: the weights of n
      playouts add up to 1 - 1/2^n only. */
  ghost predicate FallsShort(mean: real, delays: seq<real>, least: real, most: real) {
    && mean == Weighted(delays)
    && (1.0 - Halved(|delays|)) * least <= mean <= (1.0 - Halved(|delays|)) * most
    && (0.0 < most ==> mean < most)
  }

  lemma BlendFallsShort(delays: seq<real>, least: real, most: real)
    requires forall i :: 0 <= i < |delays| ==> least <= delays[i] <= most
    ensures FallsShort(Blend(0.0, delays), delays, least, most)
  {
    BlendIsWeighted(0.0, delays);
    WeightsFallShort(delays, least, most);
  }

  /** In any run without a rating that starts from a mean of zero, the mean is the weighted sum of the
      total delays of the frames played, and below the greatest of them; if all of them lie
      between two bounds, it lies between these bounds times 1 - 1/2^n. */
  lemma MeanUnderstatesDelay(p: Settings, w: World, events: seq<Event>, least: real, most: real)
    requires p.Usable() && RunFrom(p, w, events).Next? && NoRating(events) && w.rx.tally.meanDelay == 0.0
    requires var delays := TotalDelays(p, Playouts(p, w, events));
             forall i :: 0 <= i < |delays| ==> least <= delays[i] <= most
    ensures var v, played := RunFrom(p, w, events).world, Playouts(p, w, events);
            && v.log.played == w.log.played + played
            && FallsShort(v.rx.tally.meanDelay, TotalDelays(p, played), least, most)
  {
    RunPlays(p, w, events);
    BlendFallsShort(TotalDelays(p, Playouts(p, w, events)), least, most);
  }
}
