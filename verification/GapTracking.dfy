/** Which sequence numbers a receiver takes for missing, and which reordered frames it
    remembers, told from the packets of a run. */
module GapTracking {
  import opened Counting
  import opened Frames
  import opened JitterBuffer
  import opened SequenceTracking
  import opened VoipBalance
  import opened VoipHistory
  import opened VoipRun

  // ----- Missing numbers -----

  /** A packet in the same cycle of numbers leaves a gap that contains `x`. */
  predicate PassesOver(w: World, e: Event, x: nat) {
    e.Packet? && w.rx.started && w.rx.member.maxSeq < x < e.frame.seqNo
    && e.frame.seqNo - w.rx.member.maxSeq < 3000
  }

  lemma NotDelivered(m: Member, f: Frame, x: nat)
    requires m.Valid() && f.seqNo < SEQ_MOD && Track(m, f).Ignored?
    ensures Track(m, f).member.dropped == m.dropped && Track(m, f).member.maxSeq == m.maxSeq
    ensures !(m.maxSeq < x < f.seqNo && f.seqNo - m.maxSeq < 3000)
    ensures !Reordered(m, f.seqNo)
  {
  }

  lemma {:induction false} ListedTimes(ranges: seq<seq<nat>>, x: nat)
    ensures Listed(ranges, x) <==> 0 < Times(ranges, x)
  {
    if ranges != [] {
      ListedTimes(ranges[1..], x);
      OccursIff(ranges[0], x);
      if x !in ranges[0] && Listed(ranges[1..], x) {
        var i :| 0 <= i < |ranges[1..]| && x in ranges[1..][i];
        assert x in ranges[i + 1];
      }
      if x !in ranges[0] && Listed(ranges, x) {
        var i :| 0 <= i < |ranges| && x in ranges[i];
        assert x in ranges[1..][i - 1];
      }
    }
  }

  /** How often `x` is still missing after one more event: another gap may contain it, a straggler
      takes it once, and a rating forgets it. */
  function MissingAfter(w: World, e: Event, x: nat, n: nat): nat {
    if e.RatingDue? then 0
    else if PassesOver(w, e, x) then n + 1
    else if e.Packet? && w.rx.started && Reordered(w.rx.member, e.frame.seqNo) && e.frame.seqNo == x && 0 < n then n - 1
    else n
  }

  function StillMissing(p: Settings, w: World, events: seq<Event>, x: nat, n: nat): nat
    requires p.Usable()
    decreases |events|
  {
    if events == [] || !Step(p, w, events[0]).Next? then n
    else StillMissing(p, Step(p, w, events[0]).world, events[1..], x, MissingAfter(w, events[0], x, n))
  }

  lemma TrackCounts(m: Member, f: Frame, x: nat)
    requires m.Valid() && f.seqNo < SEQ_MOD && Track(m, f).Delivered?
    ensures Times(Track(m, f).member.dropped, x) ==
            Times(m.dropped, x) + (if m.maxSeq < x < f.seqNo && f.seqNo - m.maxSeq < 3000 then 1 else 0)
            - (if Reordered(m, f.seqNo) && x == f.seqNo && 0 < Times(m.dropped, x) then 1 else 0)
  {
    var udelta := Delta(m, f.seqNo);
    if m.maxSeq < f.seqNo && 1 < udelta < MAX_DROPOUT {
      BetweenNumbers(m.maxSeq, f.seqNo);
      OccursOnce(Between(m.maxSeq, f.seqNo), x);
      TimesSnoc(m.dropped, Between(m.maxSeq, f.seqNo), x);
    } else if udelta > SEQ_MOD - MAX_MISORDER {
      UnlistTimes(m.dropped, f.seqNo, x);
    }
  }

  lemma StepCounts(p: Settings, w: World, e: Event, x: nat)
    requires p.Usable() && Sound(w) && Step(p, w, e).Next?
    ensures Times(Step(p, w, e).world.rx.member.dropped, x) == MissingAfter(w, e, x, Times(w.rx.member.dropped, x))
  {
    match e
    case Packet(now, f) =>
      if w.rx.started {
        TrackByGuards(w.rx.member, f);
        if Track(w.rx.member, f).Delivered? {
          TrackCounts(w.rx.member, f, x);
        } else {
          NotDelivered(w.rx.member, f, x);
        }
      }
    case PlayoutDue =>
    case RatingDue(_) =>
  }

  lemma {:induction false} RunCounts(p: Settings, w: World, events: seq<Event>, x: nat)
    requires p.Usable() && Sound(w) && RunFrom(p, w, events).Next?
    ensures Times(RunFrom(p, w, events).world.rx.member.dropped, x)
            == StillMissing(p, w, events, x, Times(w.rx.member.dropped, x))
    decreases |events|
  {
    if events != [] {
      StepCounts(p, w, events[0], x);
      StepSound(p, w, events[0]);
      RunCounts(p, Step(p, w, events[0]).world, events[1..], x);
    }
  }

  /** Over every run, also when the numbers wrap around: a number is listed once for every gap since the
      last rating that contains it, less the stragglers that took it off again. */
  lemma ListedForEveryGap(p: Settings, events: seq<Event>, x: nat)
    requires p.Usable() && RunFrom(p, Start(), events).Next?
    ensures Times(RunFrom(p, Start(), events).world.rx.member.dropped, x) == StillMissing(p, Start(), events, x, 0)
  {
    RunSound(p, Start(), []);
    RunCounts(p, Start(), events, x);
  }

  /** A reordered packet keeps received + lost - expected as it is exactly if its number is still missing
      since the last rating. */
  lemma StragglerKeepsBalanceIff(p: Settings, events: seq<Event>, now: real, f: Frame)
    requires p.Usable() && RunFrom(p, Start(), events).Next?
    requires var rx := RunFrom(p, Start(), events).world.rx;
             rx.started && Reordered(rx.member, f.seqNo) && f !in rx.member.misordered
    ensures KeepsBalance(RunFrom(p, Start(), events).world, Packet(now, f))
            <==> 0 < StillMissing(p, Start(), events, f.seqNo, 0)
  {
    ListedForEveryGap(p, events, f.seqNo);
    var m := RunFrom(p, Start(), events).world.rx.member;
    ListedTimes(m.dropped, f.seqNo);
    TrackByGuards(m, f);
  }

  // ----- Reordered frames -----

  function LastOf(s: seq<Frame>, n: nat): seq<Frame> {
    if |s| <= n then s else s[|s| - n..]
  }

  lemma PushKeepsLast(past: seq<Frame>, f: Frame)
    ensures PushBack(50, LastOf(past, 50), f) == LastOf(past + [f], 50)
  {
  }

  /** The reordered frames of a run that were not known already. */
  function ReorderedIn(p: Settings, w: World, events: seq<Event>): seq<Frame>
    requires p.Usable()
    decreases |events|
  {
    if events == [] || !Step(p, w, events[0]).Next? then []
    else
      (match events[0]
       case Packet(_, f) => if w.rx.started && Reordered(w.rx.member, f.seqNo) then [f] else []
       case _ => [])
      + ReorderedIn(p, Step(p, w, events[0]).world, events[1..])
  }

  lemma StepRemembers(p: Settings, w: World, e: Event, past: seq<Frame>)
    requires p.Usable() && Sound(w) && Step(p, w, e).Next? && w.rx.member.misordered == LastOf(past, 50)
    requires !w.rx.started ==> past == []
    ensures var added := if e.Packet? && w.rx.started && Reordered(w.rx.member, e.frame.seqNo) then [e.frame] else [];
            Step(p, w, e).world.rx.member.misordered == LastOf(past + added, 50)
    ensures !Step(p, w, e).world.rx.started ==> past == [] && !w.rx.started
  {
    assert past + [] == past;
    match e
    case Packet(now, f) =>
      TrackByGuards(w.rx.member, f);
      PushKeepsLast(past, f);
    case _ =>
  }

  /** The ring holds the last 50 reordered frames of the run. */
  lemma {:induction false} RingHoldsLast(p: Settings, w: World, events: seq<Event>, past: seq<Frame>)
    requires p.Usable() && Sound(w) && RunFrom(p, w, events).Next? && w.rx.member.misordered == LastOf(past, 50)
    requires !w.rx.started ==> past == []
    ensures RunFrom(p, w, events).world.rx.member.misordered == LastOf(past + ReorderedIn(p, w, events), 50)
    decreases |events|
  {
    if events == [] {
      assert past + [] == past;
    } else {
      var e, v := events[0], Step(p, w, events[0]).world;
      var added := if e.Packet? && w.rx.started && Reordered(w.rx.member, e.frame.seqNo) then [e.frame] else [];
      StepRemembers(p, w, e, past);
      StepSound(p, w, e);
      RingHoldsLast(p, v, events[1..], past + added);
      Joined(past, added, ReorderedIn(p, v, events[1..]), ReorderedIn(p, w, events));
    }
  }

  lemma LastReorderedRemembered(p: Settings, events: seq<Event>)
    requires p.Usable() && RunFrom(p, Start(), events).Next?
    ensures RunFrom(p, Start(), events).world.rx.member.misordered == LastOf(ReorderedIn(p, Start(), events), 50)
  {
    RunSound(p, Start(), []);
    RingHoldsLast(p, Start(), events, []);
    assert [] + ReorderedIn(p, Start(), events) == ReorderedIn(p, Start(), events);
  }

  // ----- Packets far ahead -----

  /** The numbers of the packets of a run that are too far ahead to be processed. */
  function Jumped(p: Settings, w: World, events: seq<Event>): seq<nat>
    requires p.Usable()
    decreases |events|
  {
    if events == [] || !Step(p, w, events[0]).Next? then []
    else
      (match events[0]
       case Packet(_, f) => if w.rx.started && FarAhead(w.rx.member, f.seqNo) then [f.seqNo] else []
       case _ => [])
      + Jumped(p, Step(p, w, events[0]).world, events[1..])
  }

  /** The number that `badSeq` should be after the numbers `past`: none of 16 bits at first. */
  function Awaited(past: seq<nat>): nat {
    if past == [] then 65537 else (past[|past| - 1] + 1) % 65536
  }

  lemma StepAwaits(p: Settings, w: World, e: Event, past: seq<nat>)
    requires p.Usable() && Step(p, w, e).Next? && w.rx.member.badSeq == Awaited(past)
    requires !w.rx.started ==> past == []
    ensures var jumped := e.Packet? && w.rx.started && FarAhead(w.rx.member, e.frame.seqNo);
            Step(p, w, e).world.rx.member.badSeq == Awaited(past + if jumped then [e.frame.seqNo] else [])
    ensures !Step(p, w, e).world.rx.started ==> past == [] && !w.rx.started
  {
    assert past + [] == past;
    match e
    case Packet(now, f) => TrackByGuards(w.rx.member, f);
    case _ =>
  }

  lemma {:induction false} RunAwaits(p: Settings, w: World, events: seq<Event>, past: seq<nat>)
    requires p.Usable() && RunFrom(p, w, events).Next? && w.rx.member.badSeq == Awaited(past)
    requires !w.rx.started ==> past == []
    ensures RunFrom(p, w, events).world.rx.member.badSeq == Awaited(past + Jumped(p, w, events))
    decreases |events|
  {
    if events == [] {
      assert past + [] == past;
    } else {
      var e, v := events[0], Step(p, w, events[0]).world;
      var jumped := e.Packet? && w.rx.started && FarAhead(w.rx.member, e.frame.seqNo);
      var added := if jumped then [e.frame.seqNo] else [];
      StepAwaits(p, w, e, past);
      RunAwaits(p, v, events[1..], past + added);
      Joined(past, added, Jumped(p, v, events[1..]), Jumped(p, w, events));
    }
  }

  /** A packet makes the sender look restarted exactly if it is far ahead and its number follows that
      of the last packet before it that was. */
  lemma RestartSeenIff(p: Settings, events: seq<Event>, now: real, f: Frame)
    requires p.Usable() && RunFrom(p, Start(), events).Next?
    requires Legal(RunFrom(p, Start(), events).world, Packet(now, f))
    ensures var rx, past := RunFrom(p, Start(), events).world.rx, Jumped(p, Start(), events);
            Step(p, RunFrom(p, Start(), events).world, Packet(now, f)) == Faulted(SenderRestarted) <==>
              rx.started && FarAhead(rx.member, f.seqNo) && past != [] && f.seqNo == (past[|past| - 1] + 1) % 65536
  {
    RunAwaits(p, Start(), events, []);
    assert [] + Jumped(p, Start(), events) == Jumped(p, Start(), events);
    TrackByGuards(RunFrom(p, Start(), events).world.rx.member, f);
  }
}
