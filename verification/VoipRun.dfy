/** A whole VoIP receiver: the RTP bookkeeping of one sender, the jitter buffer and the
    counters of the E-model, as a state machine over arrivals, playouts and ratings
    (Applications/RTPApp/RTPVoip.cc, Transport/RTP/RTP.cc). */
module VoipRun {
  import opened Counting
  import opened Frames
  import opened JitterBuffer
  import opened LossRuns
  import opened Options
  import opened SequenceTracking
  import opened Timers

  /** The counters of the current rating interval, and the totals over earlier ones. */
  datatype Tally = Tally(
    received: nat,
    events: seq<nat>,
    discarded: bool,
    lastExpected: nat,
    eventCount: nat,
    lostPackets: nat,
    meanDelay: real)

  /** `started` once the first packet has created the playout timer. */
  datatype Receiver = Receiver(started: bool, buffer: Buffer, member: Member, tally: Tally)

  /** The counts one rating is computed from. */
  datatype Interval = Interval(received: nat, expected: int, events: seq<nat>, lastExpected: nat, meanDelay: real)

  /** A packet that opened a talkspurt; `spurt` counts them. */
  datatype Opener = Opener(time: real, frame: Frame)

  datatype Playout = Playout(time: real, frame: Frame, spurt: nat)

  /** What a run has done so far; nothing in the receiver depends on it. */
  datatype Log = Log(
    delivered: seq<Frame>,
    discarded: seq<Frame>,
    played: seq<Playout>,
    openers: seq<Opener>,
    intervals: seq<Interval>,
    overflowed: bool)

  datatype World = World(rx: Receiver, now: real, log: Log)

  datatype Event = Packet(time: real, frame: Frame) | PlayoutDue | RatingDue(time: real)

  /** Where the source stops being defined: the last event of an empty list, the
      assertions that a playout finds a frame and an overwritten frame has time left, the
      one against a restarted sender, and the null frame of a duplicate. */
  datatype Fault = EmptyEvents | NothingToPlay | OverflowAtDeadline | SenderRestarted | DuplicateFrame

  datatype Outcome = Next(world: World) | Faulted(fault: Fault) | Illegal

  const FRESH_TALLY := Tally(0, [], false, 0, 0, 0, 0.0)
  const FRESH_RECEIVER := Receiver(false, EMPTY, InitSeq(0), FRESH_TALLY)
  const FRESH_LOG := Log([], [], [], [], [], false)

  function Start(): World {
    World(FRESH_RECEIVER, 0.0, FRESH_LOG)
  }

  // ----- One event -----

  datatype CountResult = CountedAs(tally: Tally) | EventsEmpty

  /** The counters after a frame was admitted or lost. */
  function Count(t: Tally, v: Verdict): CountResult {
    if v == Admitted then CountedAs(t.(received := t.received + 1, discarded := false))
    else match NoteLoss(t.discarded, t.events)
      case NoLastEvent => EventsEmpty
      case Counted(events) => CountedAs(t.(events := events, discarded := true))
  }

  /** The overwritten frame is already due: the assertion at line 570 fails. */
  predicate OverwritesDue(p: Settings, b: Buffer, v: Verdict, now: real) {
    v.Overflow? && PlayoutTime(p, b, v.evicted.timestamp) <= now
  }

  function Discarded(f: Frame, v: Verdict): seq<Frame> {
    match v
    case Admitted => []
    case Late => [f]
    case Overflow(evicted) => [evicted]
  }

  function Logged(log: Log, now: real, f: Frame, v: Verdict, begins: bool): Log {
    log.(delivered := log.delivered + [f],
         discarded := log.discarded + Discarded(f, v),
         openers := log.openers + (if begins then [Opener(now, f)] else []),
         overflowed := log.overflowed || v.Overflow?)
  }

  /** How handling a delivered frame can fail. */
  function Failure(p: Settings, b: Buffer, t: Tally, v: Verdict, now: real): Option<Fault> {
    if OverwritesDue(p, b, v, now) then Some(OverflowAtDeadline)
    else if Count(t, v) == EventsEmpty then Some(EmptyEvents)
    else None
  }

  function Deliver(p: Settings, w: World, now: real, f: Frame, m: Member): Outcome
    requires p.Usable()
  {
    var (buffer, verdict) := Receive(p, w.rx.buffer, now, f);
    match Failure(p, buffer, w.rx.tally, verdict, now)
    case Some(fault) => Faulted(fault)
    case None =>
      Next(World(Receiver(true, buffer, m, Count(w.rx.tally, verdict).tally), now,
                 Logged(w.log, now, f, verdict, TalkspurtBegins(p, w.rx.buffer, now))))
  }

  function Arrive(p: Settings, w: World, now: real, f: Frame): Outcome
    requires p.Usable()
  {
    if !w.rx.started then
      Deliver(p, w, now, f, InitSeq(f.seqNo))
    else
      match Track(w.rx.member, f)
      case Delivered(m) => Deliver(p, w, now, f, m)
      case Ignored(m) => Next(w.(rx := w.rx.(member := m), now := now))
      case Resynced => Faulted(SenderRestarted)
      case NullFrame => Faulted(DuplicateFrame)
  }

  /** The total delay of a played frame enters a mean that halves the weight of the past. */
  function BlendDelay(mean: real, playoutDelay: real, codecDelay: real): real {
    (mean + playoutDelay + codecDelay) / 2.0
  }

  function Play(p: Settings, w: World): World
    requires w.rx.buffer.cb != []
  {
    var now := w.rx.buffer.timer.arrivalTime;
    var (buffer, frame) := PlayOut(p, w.rx.buffer, now);
    var t := w.rx.tally;
    World(w.rx.(buffer := buffer,
                tally := t.(discarded := false,
                            meanDelay := BlendDelay(t.meanDelay, now - frame.timestamp, p.codecDelay))),
          now,
          w.log.(played := w.log.played + [Playout(now, frame, |w.log.openers|)]))
  }

  function Expected(rx: Receiver): int {
    rx.member.Extended() - rx.tally.lastExpected + if rx.tally.lastExpected == 0 then 1 else 0
  }

  function TakeInterval(rx: Receiver): Interval {
    Interval(rx.tally.received, Expected(rx), rx.tally.events + Sizes(rx.member.dropped),
             rx.tally.lastExpected, rx.tally.meanDelay)
  }

  /** What remains of the counters when an interval has been rated: the flag
      `discarded` is not among the things that are cleared. */
  function CloseInterval(rx: Receiver): Receiver {
    var i := TakeInterval(rx);
    rx.(member := rx.member.(dropped := []),
        tally := Tally(0, [], rx.tally.discarded, rx.member.Extended(),
                       rx.tally.eventCount + |i.events|, rx.tally.lostPackets + Sum(i.events), 0.0))
  }

  /** Before the first packet there is nothing to rate. */
  function Rate(w: World, now: real): World {
    if w.rx.started then
      World(CloseInterval(w.rx), now,
            w.log.(intervals := w.log.intervals + [TakeInterval(w.rx)]))
    else
      w.(now := now)
  }

  /** The kernel delivers events in time order, and those of one time in the order in which
      they were inserted. A packet is handed over by a `send` without delay
      (Transport/UDP/UDPProcessing.cc:166), so it is inserted at its own time, behind a timer
      that was set earlier for that time. */
  predicate BeforeTimer(timer: TimerState, time: real) {
    timer.scheduled ==> time < timer.arrivalTime || time == timer.sendingTime == timer.arrivalTime
  }

  predicate Legal(w: World, e: Event) {
    var timer := w.rx.buffer.timer;
    match e
    case Packet(time, f) =>
      w.now <= time && f.timestamp <= time && BeforeTimer(timer, time) && f.seqNo < SEQ_MOD
    case PlayoutDue => timer.scheduled
    case RatingDue(time) => w.now <= time && (timer.scheduled ==> time <= timer.arrivalTime)
  }

  function Step(p: Settings, w: World, e: Event): Outcome
    requires p.Usable()
  {
    if !Legal(w, e) then Illegal
    else match e
      case Packet(time, f) => Arrive(p, w, time, f)
      case PlayoutDue => if w.rx.buffer.cb == [] then Faulted(NothingToPlay) else Next(Play(p, w))
      case RatingDue(time) => Next(Rate(w, time))
  }

  function RunFrom(p: Settings, w: World, events: seq<Event>): Outcome
    requires p.Usable()
    decreases |events|
  {
    if events == [] then Next(w)
    else match Step(p, w, events[0])
      case Next(v) => RunFrom(p, v, events[1..])
      case other => other
  }

  /** A run of two parts. */
  lemma {:induction false} RunJoins(p: Settings, w: World, a: seq<Event>, b: seq<Event>)
    requires p.Usable()
    ensures RunFrom(p, w, a + b) ==
            if RunFrom(p, w, a).Next? then RunFrom(p, RunFrom(p, w, a).world, b) else RunFrom(p, w, a)
    decreases |a|
  {
    if a == [] {
      assert a + b == b;
    } else {
      assert (a + b)[1..] == a[1..] + b;
      if Step(p, w, a[0]).Next? {
        RunJoins(p, Step(p, w, a[0]).world, a[1..], b);
      }
    }
  }
}
