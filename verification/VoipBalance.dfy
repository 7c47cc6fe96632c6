/** Whether the counts behind a rating add up: received + lost against the extended
    sequence number, over every run of the receiver, and the totals that `finish` rates
    (Applications/RTPApp/RTPVoip.cc, Transport/RTP/RTP.cc). */
module VoipBalance {
  import opened Counting
  import opened EModel
  import opened Frames
  import opened JitterBuffer
  import opened LossRuns
  import opened RatingChecks
  import opened SequenceTracking
  import opened VoipRun
  import VoipSafety

  /** Received plus lost packets of the current interval, beyond what is expected. */
  function Surplus(rx: Receiver): int {
    rx.tally.received + Sum(rx.tally.events) + rx.member.DroppedCount() - Expected(rx)
  }

  ghost predicate Balanced(w: World) {
    w.rx.started ==> Surplus(w.rx) == 0
  }

  ghost predicate WellFormed(w: World) {
    w.rx.member.Valid() && (w.rx.started ==> w.rx.tally.lastExpected <= w.rx.member.Extended())
  }

  /** What can be checked about an event before it is handled: the first packet has
      sequence number 0; a later one is in order, where a wrap does not hide a gap, or it is
      reordered and still listed as missing, or it is ignored; and an interval is not
      closed before a sequence number above 0 was received. */
  predicate KeepsBalance(w: World, e: Event) {
    match e
    case Packet(_, f) =>
      if !w.rx.started then f.seqNo == 0
      else Track(w.rx.member, f).Delivered? ==> Drift(w.rx.member, f.seqNo) == 0
    case PlayoutDue => true
    case RatingDue(_) => w.rx.started ==> 0 < w.rx.member.Extended()
  }

  lemma BumpSum(events: seq<nat>)
    requires events != []
    ensures Sum(Bump(events)) == Sum(events) + 1
  {
    var n := |events| - 1;
    assert events == events[..n] + [events[n]];
    SumSnoc(events[..n], events[n]);
    SumSnoc(events[..n], events[n] + 1);
  }

  /** Admitted, late or overwriting: every delivered frame adds one to the counts. */
  lemma DeliverAddsOne(p: Settings, w: World, now: real, f: Frame, m: Member)
    requires p.Usable() && Deliver(p, w, now, f, m).Next?
    ensures var v := Deliver(p, w, now, f, m).world;
            && v.rx.started && v.rx.member == m
            && v.rx.tally.lastExpected == w.rx.tally.lastExpected
            && v.rx.tally.received + Sum(v.rx.tally.events) == w.rx.tally.received + Sum(w.rx.tally.events) + 1
            && v.log.intervals == w.log.intervals
            && v.rx.tally.eventCount == w.rx.tally.eventCount && v.rx.tally.lostPackets == w.rx.tally.lostPackets
  {
    var t := w.rx.tally;
    SumSnoc(t.events, 1);
    if t.events != [] {
      BumpSum(t.events);
    }
  }

  /** How far every event moves the balance, whatever it was before. */
  lemma SurplusMoves(p: Settings, w: World, e: Event)
    requires p.Usable() && WellFormed(w) && Step(p, w, e).Next?
    requires !w.rx.started ==> w.rx == FRESH_RECEIVER
    ensures var v := Step(p, w, e).world;
            && WellFormed(v)
            && match e
               case Packet(_, f) =>
                 v.rx.started && Surplus(v.rx) ==
                   if !w.rx.started then 0 - f.seqNo
                   else Surplus(w.rx) + if Track(w.rx.member, f).Delivered? then Drift(w.rx.member, f.seqNo) else 0
               case PlayoutDue => v.rx.started == w.rx.started && Surplus(v.rx) == Surplus(w.rx)
               case RatingDue(_) =>
                 v.rx.started == w.rx.started
                 && (w.rx.started ==> Surplus(v.rx) == if w.rx.member.Extended() == 0 then -1 else 0)
  {
    match e
    case Packet(now, f) =>
      if !w.rx.started {
        DeliverAddsOne(p, w, now, f, InitSeq(f.seqNo));
      } else if Track(w.rx.member, f).Delivered? {
        DeliverAddsOne(p, w, now, f, Track(w.rx.member, f).member);
        TrackShifts(w.rx.member, f);
      }
    case PlayoutDue =>
    case RatingDue(_) =>
  }

  /** From balanced counts, an event leads to balanced counts exactly if it is of the
      kind described by `KeepsBalance`. */
  lemma BalanceKeptIff(p: Settings, w: World, e: Event)
    requires p.Usable() && WellFormed(w) && Step(p, w, e).Next?
    requires !w.rx.started ==> w.rx == FRESH_RECEIVER
    requires Balanced(w)
    ensures Balanced(Step(p, w, e).world) <==> KeepsBalance(w, e)
  {
    SurplusMoves(p, w, e);
  }

  // ----- Whole runs -----

  /** How far an event moves the balance within an interval. */
  function EventDrift(w: World, e: Event): int {
    match e
    case Packet(_, f) =>
      if !w.rx.started then 0 - f.seqNo
      else if Track(w.rx.member, f).Delivered? then Drift(w.rx.member, f.seqNo) else 0
    case _ => 0
  }

  function TotalDrift(p: Settings, w: World, events: seq<Event>): int
    requires p.Usable()
    decreases |events|
  {
    if events == [] then 0
    else EventDrift(w, events[0]) + match Step(p, w, events[0])
                                    case Next(v) => TotalDrift(p, v, events[1..])
                                    case _ => 0
  }

  predicate NoRating(events: seq<Event>) {
    forall k :: 0 <= k < |events| ==> !events[k].RatingDue?
  }

  /** What an interval that begins in `w` starts with. */
  function Offset(w: World): int {
    if w.rx.started && w.rx.member.Extended() == 0 then -1 else 0
  }

  lemma {:induction false} DriftsAddUp(p: Settings, w: World, events: seq<Event>)
    requires p.Usable() && Sound(w) && RunFrom(p, w, events).Next? && NoRating(events)
    ensures var v := RunFrom(p, w, events).world;
            v.rx.started ==>
              Surplus(v.rx) == (if w.rx.started then Surplus(w.rx) else 0) + TotalDrift(p, w, events)
    decreases |events|
  {
    if events != [] {
      StepSound(p, w, events[0]);
      SurplusMoves(p, w, events[0]);
      DriftsAddUp(p, Step(p, w, events[0]).world, events[1..]);
    }
  }

  lemma RunSplits(p: Settings, w: World, events: seq<Event>, j: nat)
    requires p.Usable() && j <= |events| && RunFrom(p, w, events).Next?
    ensures var first := RunFrom(p, w, events[..j]);
            first.Next? && RunFrom(p, first.world, events[j..]) == RunFrom(p, w, events)
  {
    assert events == events[..j] + events[j..];
    RunJoins(p, w, events[..j], events[j..]);
  }

  lemma {:induction false} BeginsAtOffset(p: Settings, w: World, events: seq<Event>)
    requires p.Usable() && Sound(w) && RunFrom(p, w, events).Next?
    requires events != [] && events[|events| - 1].RatingDue?
    ensures var v := RunFrom(p, w, events).world; v.rx.started ==> Surplus(v.rx) == Offset(v)
    decreases |events|
  {
    SurplusMoves(p, w, events[0]);
    StepSound(p, w, events[0]);
    if |events| > 1 {
      BeginsAtOffset(p, Step(p, w, events[0]).world, events[1..]);
    }
  }

  /** Either cross-check passes exactly if the discrepancy is slight by its own measure. No
      discrepancy always passes, and so does an interval in which nothing was expected. */
  predicate PassBy(r: nat, l: nat, e: nat, x: int, sum: int) {
    && 0 <= x && r + l - x == sum
    && (LossRatesMatch(r, l, x) <==> x == 0 || SlightByRates(r, l, x))
    && (BurstRsMatch(r, l, e, x) <==> x == 0 || l == 0 || SlightByBursts(r, l, x))
    && (sum == 0 ==> LossRatesMatch(r, l, x) && BurstRsMatch(r, l, e, x))
  }

  lemma ChecksBySum(r: nat, l: nat, e: nat, x: nat, sum: int)
    requires r + l - x == sum && (0 < l ==> 0 < e)
    ensures PassBy(r, l, e, x, sum)
  {
    if 0 < x {
      LossRatesMatchIff(r, l, x);
      SlightByRatesSmall(r, l, x);
      if 0 < l {
        BurstRsMatchIff(r, l, e, x);
        SlightByBurstsSmall(r, l, x);
      }
    }
  }

  /** For every run and every interval of it, beginning with event `j`: received + lost -
      expected is the offset the interval started with plus the drifts of its events, and
      that sum decides about both cross-checks of its rating. */
  lemma ChecksSucceedIff(p: Settings, events: seq<Event>, j: nat)
    requires p.Usable() && RunFrom(p, Start(), events).Next? && RunFrom(p, Start(), events).world.rx.started
    requires j <= |events| && (j == 0 || events[j - 1].RatingDue?) && NoRating(events[j..])
    ensures RunFrom(p, Start(), events[..j]).Next?
    ensures var begin := RunFrom(p, Start(), events[..j]).world;
            var i := TakeInterval(RunFrom(p, Start(), events).world.rx);
            PassBy(i.received, Sum(i.events), |i.events|, i.expected, Offset(begin) + TotalDrift(p, begin, events[j..]))
  {
    IntervalSurplus(p, events, j);
    var begin := RunFrom(p, Start(), events[..j]).world;
    var i := TakeInterval(RunFrom(p, Start(), events).world.rx);
    ChecksBySum(i.received, Sum(i.events), |i.events|, i.expected, Offset(begin) + TotalDrift(p, begin, events[j..]));
  }

  lemma IntervalSurplus(p: Settings, events: seq<Event>, j: nat)
    requires p.Usable() && RunFrom(p, Start(), events).Next? && RunFrom(p, Start(), events).world.rx.started
    requires j <= |events| && (j == 0 || events[j - 1].RatingDue?) && NoRating(events[j..])
    ensures RunFrom(p, Start(), events[..j]).Next?
    ensures var i := TakeInterval(RunFrom(p, Start(), events).world.rx);
            var begin := RunFrom(p, Start(), events[..j]).world;
            && 0 <= i.expected
            && i.received + Sum(i.events) - i.expected == Offset(begin) + TotalDrift(p, begin, events[j..])
  {
    RunSound(p, Start(), events);
    RunSplits(p, Start(), events, j);
    RunSound(p, Start(), events[..j]);
    var begin := RunFrom(p, Start(), events[..j]).world;
    if j > 0 {
      BeginsAtOffset(p, Start(), events[..j]);
    }
    DriftsAddUp(p, begin, events[j..]);
    IntervalCounts(RunFrom(p, Start(), events).world.rx);
  }

  lemma IntervalCounts(rx: Receiver)
    ensures var i := TakeInterval(rx); i.received + Sum(i.events) - i.expected == Surplus(rx)
  {
    SumConcat(rx.tally.events, Sizes(rx.member.dropped));
  }

  /** Every event of the run is of that kind when its turn comes. */
  predicate AllKeepBalance(p: Settings, w: World, events: seq<Event>)
    requires p.Usable()
    decreases |events|
  {
    events == [] ||
    (KeepsBalance(w, events[0]) &&
     (Step(p, w, events[0]).Next? ==> AllKeepBalance(p, Step(p, w, events[0]).world, events[1..])))
  }

  predicate AddsUp(i: Interval) {
    i.received + Sum(i.events) == i.expected && RatedAt(i) != 0
  }

  function Losses(intervals: seq<Interval>): nat {
    if intervals == [] then 0 else Losses(intervals[..|intervals| - 1]) + Sum(intervals[|intervals| - 1].events)
  }

  function LossEvents(intervals: seq<Interval>): nat {
    if intervals == [] then 0 else LossEvents(intervals[..|intervals| - 1]) + |intervals[|intervals| - 1].events|
  }

  function ExpectedTotal(intervals: seq<Interval>): int {
    if intervals == [] then 0 else ExpectedTotal(intervals[..|intervals| - 1]) + intervals[|intervals| - 1].expected
  }

  /** How many intervals began at extended sequence number 0. */
  function FromZero(intervals: seq<Interval>): nat {
    if intervals == [] then 0
    else FromZero(intervals[..|intervals| - 1]) + if intervals[|intervals| - 1].lastExpected == 0 then 1 else 0
  }

  /** The extended sequence number at which an interval was rated. */
  function RatedAt(i: Interval): int {
    i.lastExpected + i.expected - if i.lastExpected == 0 then 1 else 0
  }

  /** Each interval begins where the one before it was rated, the first at 0. */
  predicate Chained(last: nat, rated: seq<Interval>)
    decreases |rated|
  {
    if rated == [] then last == 0
    else
      var n := |rated| - 1;
      last == RatedAt(rated[n]) && Chained(rated[n].lastExpected, rated[..n])
  }

  /** No interval but the last was rated at extended sequence number 0. */
  predicate NoneRatedAtZero(rated: seq<Interval>) {
    forall k :: 0 <= k < |rated| - 1 ==> RatedAt(rated[k]) != 0
  }

  lemma {:induction false} ChainedTotals(last: nat, rated: seq<Interval>)
    requires Chained(last, rated)
    ensures ExpectedTotal(rated) == last + FromZero(rated)
    ensures FromZero(rated) == 1 <==> rated != [] && NoneRatedAtZero(rated)
    ensures rated != [] ==> 1 <= FromZero(rated)
    decreases |rated|
  {
    if rated != [] {
      var n := |rated| - 1;
      ChainedTotals(rated[n].lastExpected, rated[..n]);
      if n > 0 {
        assert rated[n].lastExpected == RatedAt(rated[..n][n - 1]);
        assert NoneRatedAtZero(rated) <==> NoneRatedAtZero(rated[..n]) && RatedAt(rated[n - 1]) != 0;
      }
    }
  }

  /** The running totals are the sums over the intervals rated so far. */
  ghost predicate Totalled(w: World) {
    var t, rated := w.rx.tally, w.log.intervals;
    && t.lostPackets == Losses(rated)
    && t.eventCount == LossEvents(rated)
    && Chained(t.lastExpected, rated)
  }

  ghost predicate Sound(w: World) {
    WellFormed(w) && Totalled(w) && (!w.rx.started ==> w.rx == FRESH_RECEIVER)
  }

  lemma RateTotals(w: World, now: real)
    requires Totalled(w)
    ensures Totalled(Rate(w, now))
    ensures w.rx.started && Surplus(w.rx) == 0 && 0 < w.rx.member.Extended() ==> AddsUp(TakeInterval(w.rx))
  {
    if w.rx.started {
      var i := TakeInterval(w.rx);
      var rated := w.log.intervals + [i];
      assert rated[..|rated| - 1] == w.log.intervals;
      SumConcat(w.rx.tally.events, Sizes(w.rx.member.dropped));
    }
  }

  lemma StepSound(p: Settings, w: World, e: Event)
    requires p.Usable() && Sound(w) && Step(p, w, e).Next?
    ensures Sound(Step(p, w, e).world)
  {
    SurplusMoves(p, w, e);
    match e
    case Packet(now, f) =>
      if !w.rx.started {
        DeliverAddsOne(p, w, now, f, InitSeq(f.seqNo));
      } else if Track(w.rx.member, f).Delivered? {
        DeliverAddsOne(p, w, now, f, Track(w.rx.member, f).member);
      }
    case PlayoutDue =>
    case RatingDue(now) => RateTotals(w, now);
  }

  lemma {:induction false} RunSound(p: Settings, w: World, events: seq<Event>)
    requires p.Usable() && Sound(w) && RunFrom(p, w, events).Next?
    ensures Sound(RunFrom(p, w, events).world)
    decreases |events|
  {
    if events != [] {
      StepSound(p, w, events[0]);
      RunSound(p, Step(p, w, events[0]).world, events[1..]);
    }
  }

  predicate AllAddUp(intervals: seq<Interval>) {
    forall k :: 0 <= k < |intervals| ==> AddsUp(intervals[k])
  }

  lemma StepAddsUp(p: Settings, w: World, e: Event)
    requires p.Usable() && Sound(w) && Balanced(w) && AllAddUp(w.log.intervals)
    requires Step(p, w, e).Next? && KeepsBalance(w, e)
    ensures var v := Step(p, w, e).world; Sound(v) && Balanced(v) && AllAddUp(v.log.intervals)
  {
    StepSound(p, w, e);
    BalanceKeptIff(p, w, e);
    match e
    case Packet(now, f) =>
      if !w.rx.started {
        DeliverAddsOne(p, w, now, f, InitSeq(f.seqNo));
      } else if Track(w.rx.member, f).Delivered? {
        DeliverAddsOne(p, w, now, f, Track(w.rx.member, f).member);
      }
    case PlayoutDue =>
    case RatingDue(now) => RateTotals(w, now);
  }

  lemma {:induction false} RunAddsUp(p: Settings, w: World, events: seq<Event>)
    requires p.Usable() && Sound(w) && Balanced(w) && AllAddUp(w.log.intervals)
    requires RunFrom(p, w, events).Next? && AllKeepBalance(p, w, events)
    ensures var v := RunFrom(p, w, events).world; Balanced(v) && AllAddUp(v.log.intervals)
    decreases |events|
  {
    if events != [] {
      StepAddsUp(p, w, events[0]);
      RunAddsUp(p, Step(p, w, events[0]).world, events[1..]);
    }
  }

  /** Over every run that starts with sequence number 0, closes no interval at 0 and has
      neither duplicates, hidden gaps nor stragglers from an earlier interval, both
      cross-checks of every rating pass, and compare equal quantities. */
  lemma CrossChecksSucceed(p: Settings, events: seq<Event>, k: nat)
    requires p.Usable() && RunFrom(p, Start(), events).Next? && AllKeepBalance(p, Start(), events)
    requires k < |RunFrom(p, Start(), events).world.log.intervals|
    ensures var i := RunFrom(p, Start(), events).world.log.intervals[k];
            var lost := Sum(i.events);
            && 0 <= i.expected
            && LossRatesMatch(i.received, lost, i.expected)
            && BurstRsMatch(i.received, lost, |i.events|, i.expected)
            && (0 < lost && 0 < |i.events| ==>
                  && 0 < i.expected
                  && LossRate(lost, i.expected) == 1.0 - i.received as real / i.expected as real
                  && BurstR(lost, |i.events|, i.expected) == BurstRFromTransitions(i.received, lost, |i.events|))
  {
    RunAddsUp(p, Start(), events);
    var i := RunFrom(p, Start(), events).world.log.intervals[k];
    assert AddsUp(i);
    ChecksBySum(i.received, Sum(i.events), |i.events|, i.expected, 0);
    if 0 < Sum(i.events) && 0 < |i.events| {
      LossRateCheck(i.received, Sum(i.events), i.expected);
      BurstRCheck(i.received, Sum(i.events), |i.events|, i.expected);
    }
  }

  /** What `finish` rates after one last calculation: totals over all intervals, with the
      expected count raised by one because sequence numbers start at 0. The raised count is
      the sum of the intervals' own exactly if no earlier interval was rated at 0. */
  lemma FinishRatesTheTotals(p: Settings, events: seq<Event>)
    requires p.Usable() && RunFrom(p, Start(), events).Next?
    ensures var w := RunFrom(p, Start(), events).world;
            var rated := w.log.intervals;
            && w.rx.tally.lostPackets == Losses(rated)
            && w.rx.tally.eventCount == LossEvents(rated)
            && (w.rx.tally.lastExpected + 1 == ExpectedTotal(rated) <==> rated != [] && NoneRatedAtZero(rated))
  {
    RunSound(p, Start(), events);
    var w := RunFrom(p, Start(), events).world;
    ChainedTotals(w.rx.tally.lastExpected, w.log.intervals);
  }

  lemma {:induction false} TotalsOfBalanced(rated: seq<Interval>)
    requires AllAddUp(rated)
    ensures VoipSafety.Received(rated) + Losses(rated) == ExpectedTotal(rated)
  {
    if rated != [] {
      TotalsOfBalanced(rated[..|rated| - 1]);
    }
  }

  /** In a run whose events all keep the balance, the packets of all rated intervals add up
      to the count that `finish` divides by. */
  lemma FinalTotalsAddUp(p: Settings, events: seq<Event>)
    requires p.Usable() && RunFrom(p, Start(), events).Next? && AllKeepBalance(p, Start(), events)
    ensures var w := RunFrom(p, Start(), events).world;
            w.log.intervals != [] ==>
              VoipSafety.Received(w.log.intervals) + w.rx.tally.lostPackets == w.rx.tally.lastExpected + 1
  {
    RunAddsUp(p, Start(), events);
    FinishRatesTheTotals(p, events);
    TotalsOfBalanced(RunFrom(p, Start(), events).world.log.intervals);
  }
}
