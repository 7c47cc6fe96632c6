/** The invariants of VoipSafety read off at the end of an arbitrary run. */
module VoipTheorems {
  import opened Counting
  import opened Frames
  import opened JitterBuffer
  import opened LossRuns
  import opened SequenceTracking
  import opened Timers
  import opened VoipHistory
  import opened VoipRun
  import opened VoipSafety

  ghost predicate Reachable(p: Settings, events: seq<Event>) {
    p.Usable() && RunFrom(p, Start(), events).Next?
  }

  function End(p: Settings, events: seq<Event>): World
    requires p.Usable() && RunFrom(p, Start(), events).Next?
  {
    RunFrom(p, Start(), events).world
  }

  lemma ReachableInvariant(p: Settings, events: seq<Event>)
    requires Reachable(p, events)
    ensures Invariant(p, End(p, events))
  {
    StartInvariant(p);
    RunInvariant(p, Start(), events);
  }

  /** A frame plays no later than the buffer delay after the opener of its talkspurt arrived, plus
      what it was sent after the opener; and exactly then in a run in which no packet finds the
      buffer full. Within a talkspurt the played timestamps never decrease. */
  lemma PlayoutIsPunctualAndOrdered(p: Settings, events: seq<Event>)
    requires Reachable(p, events)
    ensures var w := End(p, events); var played, openers := w.log.played, w.log.openers;
            && (forall i :: 0 <= i < |played| ==> 1 <= played[i].spurt <= |openers|)
            && (forall i :: 0 <= i < |played| ==>
                  var o := openers[played[i].spurt - 1];
                  var due := o.time + p.jitterDelay + (played[i].frame.timestamp - o.frame.timestamp);
                  played[i].time <= due && (NeverFull(p, Start(), events) ==> played[i].time == due))
            && (forall i, j :: 0 <= i < j < |played| && played[i].spurt == played[j].spurt
                               ==> played[i].frame.timestamp <= played[j].frame.timestamp)
  {
    ReachableInvariant(p, events);
    StartInvariant(p);
    RunLogs(p, Start(), events);
  }

  /** The timer is pending exactly when there is something to play, it never lies in the
      past, and it is not later than the playout time of any buffered frame. The buffered frames
      are in the order of their stamps, and of their numbers where these are equal. */
  lemma TimerGuardsBuffer(p: Settings, events: seq<Event>)
    requires Reachable(p, events)
    ensures var w := End(p, events); var b := w.rx.buffer;
            && (b.timer.scheduled <==> b.cb != [])
            && (b.timer.scheduled ==>
                  w.now <= b.timer.arrivalTime <= b.timer.sendingTime + b.networkDelay + p.jitterDelay)
            && (b.timer.scheduled ==>
                  forall f :: f in b.cb ==> b.timer.arrivalTime <= f.timestamp + b.networkDelay + p.jitterDelay)
            && |b.cb| <= p.capacity
            && (forall i, j :: 0 <= i < j < |b.cb| ==>
                  b.cb[i].timestamp < b.cb[j].timestamp
                  || (b.cb[i].timestamp == b.cb[j].timestamp && b.cb[i].seqNo <= b.cb[j].seqNo))
  {
    ReachableInvariant(p, events);
  }

  /** One more event changes the network delay, and begins a talkspurt, only if it is a packet that
      reaches an empty buffer: its delay becomes the network delay, and the timer is set to
      the buffer delay from now. */
  lemma NetworkDelayFixedInTalkspurt(p: Settings, events: seq<Event>, e: Event)
    requires Reachable(p, events) && Step(p, End(p, events), e).Next?
    ensures var w := End(p, events); var v := Step(p, w, e).world;
            if e.Packet? && Reaches(w.rx, e.frame) && w.rx.buffer.cb == [] then
              && v.log.openers == w.log.openers + [Opener(e.time, e.frame)]
              && v.rx.buffer.networkDelay == e.time - e.frame.timestamp
              && v.rx.buffer.timer == Armed(e.time, e.time + p.jitterDelay)
              && v.rx.buffer.cb == [e.frame]
            else
              v.rx.buffer.networkDelay == w.rx.buffer.networkDelay && v.log.openers == w.log.openers
  {
    ReachableInvariant(p, events);
    var w := End(p, events);
    match e
    case Packet(now, f) =>
      TrackByGuards(w.rx.member, f);
      if Reaches(w.rx, f) {
        DeliverOpens(p, w, now, f, if w.rx.started then Track(w.rx.member, f).member else InitSeq(f.seqNo));
      }
    case PlayoutDue =>
    case RatingDue(_) =>
  }

  lemma DeliverOpens(p: Settings, w: World, now: real, f: Frame, m: Member)
    requires JitterBuffer.Valid(p, w.rx.buffer, w.now) && CanArrive(w.rx.buffer, w.now, now, f)
    requires Deliver(p, w, now, f, m).Next?
    ensures var v := Deliver(p, w, now, f, m).world;
            if w.rx.buffer.cb == [] then
              && v.log.openers == w.log.openers + [Opener(now, f)]
              && v.rx.buffer.networkDelay == now - f.timestamp
              && v.rx.buffer.timer == Armed(now, now + p.jitterDelay)
              && v.rx.buffer.cb == [f]
            else
              v.rx.buffer.networkDelay == w.rx.buffer.networkDelay && v.log.openers == w.log.openers
  {
    ReceiveOpens(p, w.rx.buffer, w.now, now, f);
    assert w.log.openers + [] == w.log.openers;
  }

  lemma ReceiveOpens(p: Settings, b: Buffer, last: real, now: real, f: Frame)
    requires JitterBuffer.Valid(p, b, last) && CanArrive(b, last, now, f)
    ensures var a := Receive(p, b, now, f).0;
            && (TalkspurtBegins(p, b, now) <==> b.cb == [])
            && if b.cb == [] then a == Buffer(Armed(now, now + p.jitterDelay), now - f.timestamp, [f], b.db)
               else a.networkDelay == b.networkDelay
  {
    RebaseOnlyWhenIdle(p, b, last, now, f);
    SortedStays([f]);
    assert [] + [f] == [f];
  }

  /** What becomes of a packet that reaches the buffer, and of the frames there. */
  lemma ArrivalDecides(p: Settings, events: seq<Event>, now: real, f: Frame)
    requires Reachable(p, events) && Step(p, End(p, events), Packet(now, f)).Next? && Reaches(End(p, events).rx, f)
    ensures var w := End(p, events); var v := Step(p, w, Packet(now, f)).world;
            var before, after := w.rx.buffer.cb, v.rx.buffer.cb;
            if TooLate(p, w.rx.buffer, f) then
              v.log.discarded == w.log.discarded + [f] && after == before
            else if FindsFull(p, w.rx.buffer, f) then
              v.log.discarded == w.log.discarded + [before[0]] && multiset(after) == multiset(before[1..]) + multiset{f}
            else
              v.log.discarded == w.log.discarded && multiset(after) == multiset(before) + multiset{f}
  {
    ReachableInvariant(p, events);
    var w := End(p, events);
    TrackByGuards(w.rx.member, f);
    DeliverDecides(p, w, now, f, if w.rx.started then Track(w.rx.member, f).member else InitSeq(f.seqNo));
  }

  lemma DeliverDecides(p: Settings, w: World, now: real, f: Frame, m: Member)
    requires JitterBuffer.Valid(p, w.rx.buffer, w.now) && CanArrive(w.rx.buffer, w.now, now, f)
    requires Deliver(p, w, now, f, m).Next?
    ensures var v := Deliver(p, w, now, f, m).world;
            var before, after := w.rx.buffer.cb, v.rx.buffer.cb;
            if TooLate(p, w.rx.buffer, f) then
              v.log.discarded == w.log.discarded + [f] && after == before
            else if FindsFull(p, w.rx.buffer, f) then
              && before != [] && v.log.discarded == w.log.discarded + [before[0]]
              && multiset(after) == multiset(before[1..]) + multiset{f}
            else
              v.log.discarded == w.log.discarded && multiset(after) == multiset(before) + multiset{f}
  {
    VerdictByGuards(p, w.rx.buffer, w.now, now, f);
    ReceiveDecides(p, w.rx.buffer, w.now, now, f);
  }

  lemma ReceiveDecides(p: Settings, b: Buffer, last: real, now: real, f: Frame)
    requires JitterBuffer.Valid(p, b, last) && CanArrive(b, last, now, f)
    ensures var (a, v) := Receive(p, b, now, f);
            match v
            case Late => a.cb == b.cb
            case Overflow(evicted) => b.cb != [] && multiset(a.cb) == multiset(b.cb[1..]) + multiset{f}
            case Admitted => multiset(a.cb) == multiset(b.cb) + multiset{f}
  {
    SortedStays(b.cb);
    SortPermutes(b.cb + [f]);
    if b.cb != [] {
      SortPermutes(b.cb[1..] + [f]);
    }
  }

  /** A playout takes the first frame, at the time of the timer, and arms the timer for the next. */
  lemma PlayoutTakesFirst(p: Settings, events: seq<Event>)
    requires Reachable(p, events) && Step(p, End(p, events), PlayoutDue).Next?
    ensures var w := End(p, events); var v := Step(p, w, PlayoutDue).world;
            var b, now := w.rx.buffer, w.rx.buffer.timer.arrivalTime;
            && b.cb != [] && v.rx.buffer.cb == b.cb[1..]
            && v.log.played == w.log.played + [Playout(now, b.cb[0], |w.log.openers|)]
            && (|b.cb| > 1 ==>
                  v.rx.buffer.timer == Armed(now, b.cb[1].timestamp + b.networkDelay + p.jitterDelay))
  {
    ReachableInvariant(p, events);
    SortedStays(End(p, events).rx.buffer.cb);
  }

  /** The frames delivered are those of the packets that get by the sequence numbers. Whatever is
      counted about frames, deliveries = playouts + frames in the buffer + discards; the
      list of discards has the numbers of the discarded frames; and the frames counted as
      received are those played or still buffered. */
  lemma EveryFrameAccountedFor(p: Settings, events: seq<Event>)
    requires Reachable(p, events)
    ensures var w := End(p, events);
            && w.log.delivered == Arrived(p, Start(), events)
            && (forall test: Frame -> bool :: Copies(w.log.delivered, test) ==
                  Copies(Played(w.log), test) + Copies(w.rx.buffer.cb, test) + Copies(w.log.discarded, test))
            && w.rx.buffer.db == Numbers(w.log.discarded)
            && Received(w.log.intervals) + w.rx.tally.received + |w.rx.buffer.db| == |w.log.delivered|
            && Received(w.log.intervals) + w.rx.tally.received == |w.log.played| + |w.rx.buffer.cb|
  {
    ReachableInvariant(p, events);
    StartInvariant(p);
    RunLogs(p, Start(), events);
    assert [] + Arrived(p, Start(), events) == Arrived(p, Start(), events);
  }

  lemma LossesAgree(p: Settings, events: seq<Event>)
    requires Reachable(p, events)
    ensures var t := End(p, events).rx.tally; Agrees(Marks(p, Start(), events), t.discarded, t.events)
  {
    StartInvariant(p);
    MarksAgree(p, Start(), events, []);
    assert [] + Marks(p, Start(), events) == Marks(p, Start(), events);
  }

  /** The list of events holds the lengths of the maximal runs of lost frames since the last rating,
      which admitted frames and playouts break. */
  lemma LossEventsAreRuns(p: Settings, events: seq<Event>)
    requires Reachable(p, events)
    ensures End(p, events).rx.tally.events == Runs(SinceCalculation(Marks(p, Start(), events)))
  {
    LossesAgree(p, events);
  }

  /** What a rating is computed from: the counts since the last one, each run of lost frames and each gap
      that is not filled as one event. All of it starts anew, except that a loss stays noted. */
  lemma RatingTakesTheCounts(p: Settings, events: seq<Event>, now: real)
    requires Reachable(p, events) && End(p, events).rx.started && Step(p, End(p, events), RatingDue(now)).Next?
    ensures var w := End(p, events); var v := Step(p, w, RatingDue(now)).world;
            var t, m, n := w.rx.tally, w.rx.member, |w.log.intervals|;
            && |v.log.intervals| == n + 1 && v.log.intervals[..n] == w.log.intervals
            && v.rx.member.dropped == [] && v.rx.member.Extended() == m.Extended()
            && v.rx.tally.events == [] && v.rx.tally.received == 0 && v.rx.tally.meanDelay == 0.0
            && v.rx.tally.lastExpected == m.Extended() && v.rx.tally.discarded == t.discarded
            && v.rx.buffer == w.rx.buffer
    ensures var w := End(p, events);
            var i := Step(p, w, RatingDue(now)).world.log.intervals[|w.log.intervals|];
            var t, m, runs := w.rx.tally, w.rx.member, Runs(SinceCalculation(Marks(p, Start(), events)));
            && i.received == t.received && i.meanDelay == t.meanDelay && i.lastExpected == t.lastExpected
            && i.expected == m.Extended() - t.lastExpected + (if t.lastExpected == 0 then 1 else 0)
            && |i.events| == |runs| + |m.dropped| && i.events[..|runs|] == runs
            && (forall k :: 0 <= k < |m.dropped| ==> i.events[|runs| + k] == |m.dropped[k]| > 0)
  {
    ReachableInvariant(p, events);
    LossEventsAreRuns(p, events);
    MemberStaysValid(p, Start(), events);
  }

  lemma {:induction false} MemberStaysValid(p: Settings, w: World, events: seq<Event>)
    requires p.Usable() && RunFrom(p, w, events).Next? && w.rx.member.Valid()
    ensures RunFrom(p, w, events).world.rx.member.Valid()
    decreases |events|
  {
    if events != [] {
      match events[0] {
        case Packet(_, f) =>
          if w.rx.started && Track(w.rx.member, f).Delivered? { TrackShifts(w.rx.member, f); }
        case _ =>
      }
      MemberStaysValid(p, Step(p, w, events[0]).world, events[1..]);
    }
  }

  // ----- Where the source is undefined -----

  /** Exactly when the next event leaves the defined behaviour of the source, by its own
      guards. Two packets in sequence after a jump fail the assertion against a restarted
      sender; a remembered frame that is reordered once more is processed through a null
      pointer; a frame is due when it is to be overwritten; or the list of events is read
      while it is empty, after a lost frame and then a rating. Playouts and ratings are
      always defined. */
  lemma FaultsExactly(p: Settings, events: seq<Event>, e: Event)
    requires Reachable(p, events) && Legal(End(p, events), e)
    ensures var w := End(p, events); var rx, b, m := w.rx, w.rx.buffer, w.rx.member;
            match e
            case PlayoutDue => Step(p, w, e).Next?
            case RatingDue(_) => Step(p, w, e).Next?
            case Packet(now, f) =>
              && Step(p, w, e) != Illegal
              && (Step(p, w, e) == Faulted(SenderRestarted) <==>
                    rx.started && FarAhead(m, f.seqNo) && f.seqNo == m.badSeq)
              && (Step(p, w, e) == Faulted(DuplicateFrame) <==>
                    rx.started && Reordered(m, f.seqNo) && f in m.misordered)
              && (Step(p, w, e) == Faulted(OverflowAtDeadline) <==>
                    Reaches(rx, f) && FindsFull(p, b, f) && FirstIsDue(p, b, now))
              && (Step(p, w, e) == Faulted(EmptyEvents) <==>
                    Reaches(rx, f) && (TooLate(p, b, f) || (FindsFull(p, b, f) && !FirstIsDue(p, b, now)))
                    && LossThenCalculated(Marks(p, Start(), events)))
              && Step(p, w, e) != Faulted(NothingToPlay)
  {
    ReachableInvariant(p, events);
    LossesAgree(p, events);
    var w := End(p, events);
    match e
    case Packet(now, f) =>
      DeliveryByGuards(p, w, now, f, Marks(p, Start(), events));
      TrackByGuards(w.rx.member, f);
    case _ =>
  }

  /** How the buffer takes a frame does not depend on the sequence numbers. */
  lemma DeliveryByGuards(p: Settings, w: World, now: real, f: Frame, h: seq<Mark>)
    requires Invariant(p, w) && Legal(w, Packet(now, f)) && Agrees(h, w.rx.tally.discarded, w.rx.tally.events)
    ensures var b := w.rx.buffer;
            forall any: Member :: var d := Deliver(p, w, now, f, any);
              && (d == Faulted(OverflowAtDeadline) <==> FindsFull(p, b, f) && FirstIsDue(p, b, now))
              && (d == Faulted(EmptyEvents) <==>
                    (TooLate(p, b, f) || (FindsFull(p, b, f) && !FirstIsDue(p, b, now))) && LossThenCalculated(h))
              && (d.Next? || d == Faulted(OverflowAtDeadline) || d == Faulted(EmptyEvents))
  {
    UndefinedIff(h, w.rx.tally.discarded, w.rx.tally.events);
    VerdictByGuards(p, w.rx.buffer, w.now, now, f);
  }

  /** A frame that is due when it is to be overwritten has just been let wait for a frame
      with the same stamp, played at this instant. */
  lemma DueMeansTwin(p: Settings, events: seq<Event>, now: real, f: Frame)
    requires Reachable(p, events) && Legal(End(p, events), Packet(now, f))
    requires Step(p, End(p, events), Packet(now, f)) == Faulted(OverflowAtDeadline)
    ensures var w := End(p, events); var played := w.log.played;
            && w.rx.buffer.cb != []
            && w.rx.buffer.timer == Armed(now, now)
            && played != []
            && played[|played| - 1].frame.timestamp == w.rx.buffer.cb[0].timestamp
  {
    ReachableInvariant(p, events);
    FaultsExactly(p, events, Packet(now, f));
    assert End(p, events).rx.buffer.cb[0] in End(p, events).rx.buffer.cb;
  }

  function Stamped(timestamp: real): Frame -> bool {
    (f: Frame) => f.timestamp == timestamp
  }

  predicate DistinctStamps(s: seq<Frame>) {
    forall i, j :: 0 <= i < j < |s| ==> s[i].timestamp != s[j].timestamp
  }

  lemma {:induction false} StampOnce(s: seq<Frame>, timestamp: real)
    requires DistinctStamps(s)
    ensures Copies(s, Stamped(timestamp)) <= 1
    ensures Copies(s, Stamped(timestamp)) == 0 <==> forall f :: f in s ==> f.timestamp != timestamp
  {
    if s != [] {
      StampOnce(s[1..], timestamp);
      assert forall f :: f in s <==> f == s[0] || f in s[1..];
      forall f | f in s[1..] ensures f.timestamp != s[0].timestamp {
        var j :| 0 <= j < |s| - 1 && s[1..][j] == f;
        assert s[j + 1] == f;
      }
    }
  }

  lemma {:induction false} StampedSome(s: seq<Frame>, f: Frame)
    requires f in s
    ensures 1 <= Copies(s, Stamped(f.timestamp))
  {
    if f != s[0] {
      StampedSome(s[1..], f);
    }
  }

  /** The assertion at line 570 holds in every run in which no two delivered frames carry the
      same stamp. */
  lemma OverwrittenHasTimeLeft(p: Settings, events: seq<Event>, e: Event)
    requires Reachable(p, events) && DistinctStamps(End(p, events).log.delivered)
    ensures Step(p, End(p, events), e) != Faulted(OverflowAtDeadline)
  {
    var w := End(p, events);
    if Step(p, w, e) == Faulted(OverflowAtDeadline) {
      DueMeansTwin(p, events, e.time, e.frame);
      ReachableInvariant(p, events);
      var twin, waiting := w.log.played[|w.log.played| - 1].frame, w.rx.buffer.cb[0];
      var played := Played(w.log);
      assert played[|played| - 1] == twin;
      StampedSome(played, twin);
      StampedSome(w.rx.buffer.cb, waiting);
      var test := Stamped(twin.timestamp);
      assert Copies(w.log.delivered, test)
             == Copies(played, test) + Copies(w.rx.buffer.cb, test) + Copies(w.log.discarded, test);
      StampOnce(w.log.delivered, twin.timestamp);
    }
  }
}
