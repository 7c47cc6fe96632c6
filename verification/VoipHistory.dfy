/** What a run should have done, told from its events and the guards of the source: which packets
    reach the buffer, what becomes of them, and the history of losses. */
module VoipHistory {
  import opened Counting
  import opened Frames
  import opened JitterBuffer
  import opened LossRuns
  import opened SequenceTracking
  import opened Timers
  import opened VoipRun
  import opened VoipSafety

  // ----- The guards on an arrival, in the state before it -----

  /** How far a sequence number is ahead of the highest one, in 16 bits. */
  function Ahead(m: Member, seqNo: nat): nat {
    (seqNo - m.maxSeq) % 65536
  }

  predicate FarAhead(m: Member, seqNo: nat) {
    3000 <= Ahead(m, seqNo) <= 65436
  }

  predicate Reordered(m: Member, seqNo: nat) {
    65436 < Ahead(m, seqNo)
  }

  predicate Reaches(rx: Receiver, f: Frame) {
    rx.started ==> !FarAhead(rx.member, f.seqNo) && !(Reordered(rx.member, f.seqNo) && f in rx.member.misordered)
  }

  predicate TooLate(p: Settings, b: Buffer, f: Frame) {
    b.cb != [] && f.timestamp + b.networkDelay + p.jitterDelay < b.timer.arrivalTime
  }

  predicate FindsFull(p: Settings, b: Buffer, f: Frame) {
    !TooLate(p, b, f) && |b.cb| == p.capacity
  }

  predicate FirstIsDue(p: Settings, b: Buffer, now: real) {
    b.cb != [] && b.cb[0].timestamp + b.networkDelay + p.jitterDelay <= now
  }

  predicate IsLost(p: Settings, b: Buffer, f: Frame) {
    TooLate(p, b, f) || FindsFull(p, b, f)
  }

  lemma TrackByGuards(m: Member, f: Frame)
    ensures Track(m, f) == Resynced <==> FarAhead(m, f.seqNo) && f.seqNo == m.badSeq
    ensures Track(m, f) == NullFrame <==> Reordered(m, f.seqNo) && f in m.misordered
    ensures Track(m, f).Ignored? <==> FarAhead(m, f.seqNo) && f.seqNo != m.badSeq
  {
  }

  lemma SortedStays(cb: seq<Frame>)
    requires IsSorted(cb)
    ensures Sort(cb) == cb
  {
    SortIsUnique(cb, cb);
  }

  lemma VerdictByGuards(p: Settings, b: Buffer, last: real, now: real, f: Frame)
    requires Valid(p, b, last) && CanArrive(b, last, now, f)
    ensures var (a, v) := Receive(p, b, now, f);
            && (v == Late <==> TooLate(p, b, f))
            && (v.Overflow? <==> FindsFull(p, b, f))
            && (v.Overflow? ==> v.evicted == b.cb[0])
            && (OverwritesDue(p, a, v, now) <==> FindsFull(p, b, f) && FirstIsDue(p, b, now))
  {
    RebaseOnlyWhenIdle(p, b, last, now, f);
    SortedStays(b.cb);
  }

  // ----- Histories of events -----

  /** The packets of a run that reach the buffer. */
  function Arrived(p: Settings, w: World, events: seq<Event>): seq<Frame>
    requires p.Usable()
    decreases |events|
  {
    if events == [] || !Step(p, w, events[0]).Next? then []
    else
      (if events[0].Packet? && Reaches(w.rx, events[0].frame) then [events[0].frame] else [])
      + Arrived(p, Step(p, w, events[0]).world, events[1..])
  }

  /** A loss for every frame that is late or overwrites another, a break for every one that is
      admitted and for every playout. */
  function MarkOf(p: Settings, w: World, e: Event): seq<Mark> {
    match e
    case Packet(now, f) =>
      if !Reaches(w.rx, f) then [] else if IsLost(p, w.rx.buffer, f) then [Loss] else [Clean]
    case PlayoutDue => [Clean]
    case RatingDue(_) => if w.rx.started then [Calculated] else []
  }

  function Marks(p: Settings, w: World, events: seq<Event>): seq<Mark>
    requires p.Usable()
    decreases |events|
  {
    if events == [] || !Step(p, w, events[0]).Next? then []
    else MarkOf(p, w, events[0]) + Marks(p, Step(p, w, events[0]).world, events[1..])
  }

  /** No packet of the run finds the buffer full. */
  predicate NeverFull(p: Settings, w: World, events: seq<Event>)
    requires p.Usable()
    decreases |events|
  {
    events == [] ||
    ((events[0].Packet? && Reaches(w.rx, events[0].frame) ==> !FindsFull(p, w.rx.buffer, events[0].frame))
     && (Step(p, w, events[0]).Next? ==> NeverFull(p, Step(p, w, events[0]).world, events[1..])))
  }

  // ----- The receiver keeps to them -----

  lemma DeliveryMarks(p: Settings, w: World, now: real, f: Frame, m: Member, h: seq<Mark>)
    requires Invariant(p, w) && CanArrive(w.rx.buffer, w.now, now, f)
    requires Agrees(h, w.rx.tally.discarded, w.rx.tally.events) && Deliver(p, w, now, f, m).Next?
    ensures var t := Deliver(p, w, now, f, m).world.rx.tally;
            Agrees(h + [if IsLost(p, w.rx.buffer, f) then Loss else Clean], t.discarded, t.events)
  {
    VerdictByGuards(p, w.rx.buffer, w.now, now, f);
    var t := w.rx.tally;
    CleanAgrees(h, t.discarded, t.events);
    LossAgrees(h, t.discarded, t.events);
  }

  lemma StepMarks(p: Settings, w: World, e: Event, h: seq<Mark>)
    requires Invariant(p, w) && Step(p, w, e).Next? && Agrees(h, w.rx.tally.discarded, w.rx.tally.events)
    ensures var t := Step(p, w, e).world.rx.tally; Agrees(h + MarkOf(p, w, e), t.discarded, t.events)
  {
    match e
    case Packet(now, f) =>
      TrackByGuards(w.rx.member, f);
      if Reaches(w.rx, f) {
        DeliveryMarks(p, w, now, f, if w.rx.started then Track(w.rx.member, f).member else InitSeq(f.seqNo), h);
      } else {
        assert h + [] == h;
      }
    case PlayoutDue => CleanAgrees(h, w.rx.tally.discarded, w.rx.tally.events);
    case RatingDue(_) =>
      CalculatedAgrees(h, w.rx.tally.discarded, w.rx.tally.events);
      assert h + [] == h;
  }

  lemma {:induction false} MarksAgree(p: Settings, w: World, events: seq<Event>, h: seq<Mark>)
    requires Invariant(p, w) && RunFrom(p, w, events).Next? && Agrees(h, w.rx.tally.discarded, w.rx.tally.events)
    ensures var t := RunFrom(p, w, events).world.rx.tally;
            Agrees(h + Marks(p, w, events), t.discarded, t.events)
    decreases |events|
  {
    if events == [] {
      assert h + [] == h;
    } else {
      var v := Step(p, w, events[0]).world;
      StepInvariant(p, w, events[0]);
      StepMarks(p, w, events[0], h);
      MarksAgree(p, v, events[1..], h + MarkOf(p, w, events[0]));
      Joined(h, MarkOf(p, w, events[0]), Marks(p, v, events[1..]), Marks(p, w, events));
    }
  }

  lemma StepLogs(p: Settings, w: World, e: Event)
    requires Invariant(p, w) && Step(p, w, e).Next?
    ensures var v := Step(p, w, e).world;
            && v.log.delivered == w.log.delivered + (if e.Packet? && Reaches(w.rx, e.frame) then [e.frame] else [])
            && (v.log.overflowed <==> w.log.overflowed
                                      || (e.Packet? && Reaches(w.rx, e.frame) && FindsFull(p, w.rx.buffer, e.frame)))
  {
    match e
    case Packet(now, f) =>
      TrackByGuards(w.rx.member, f);
      VerdictByGuards(p, w.rx.buffer, w.now, now, f);
    case PlayoutDue =>
    case RatingDue(_) =>
  }

  lemma {:induction false} RunLogs(p: Settings, w: World, events: seq<Event>)
    requires Invariant(p, w) && RunFrom(p, w, events).Next?
    ensures var v := RunFrom(p, w, events).world;
            && v.log.delivered == w.log.delivered + Arrived(p, w, events)
            && (!w.log.overflowed && NeverFull(p, w, events) ==> !v.log.overflowed)
    decreases |events|
  {
    if events != [] {
      var v := Step(p, w, events[0]).world;
      StepLogs(p, w, events[0]);
      StepInvariant(p, w, events[0]);
      RunLogs(p, v, events[1..]);
      var first := if events[0].Packet? && Reaches(w.rx, events[0].frame) then [events[0].frame] else [];
      Joined(w.log.delivered, first, Arrived(p, v, events[1..]), Arrived(p, w, events));
    }
  }
}
