/** Short runs that reach what VoipTheorems and VoipBalance describe. In each of them the packets
    are those of one sender, possibly lost, duplicated or reordered on the way; the first
    rating comes 30 seconds after the first packet, the last one when the simulation ends. */
module VoipWitnesses {
  import opened Counting
  import opened EModel
  import opened Frames
  import opened JitterBuffer
  import opened LossRuns
  import opened RatingChecks
  import opened SequenceTracking
  import opened Timers
  import opened VoipBalance
  import opened VoipRun

  predicate IsSent(interval: real, f: Frame, g: Frame) {
    && (f.seqNo == g.seqNo ==> f.timestamp == g.timestamp)
    && (f.seqNo < g.seqNo ==> f.timestamp + interval * (g.seqNo - f.seqNo) as real <= g.timestamp)
  }

  /** One sender stamps its packets with the time of sending while it counts them, at least one
      interval apart (Transport/RTP/RTP.cc:652-655). */
  predicate FromOneSender(interval: real, frames: seq<Frame>) {
    forall i, j :: 0 <= i < |frames| && 0 <= j < |frames| ==> IsSent(interval, frames[i], frames[j])
  }

  lemma FirstFour(interval: real, f0: Frame, f1: Frame, f2: Frame, f3: Frame)
    requires 0.0 <= interval && f0.seqNo == 0 && f1.seqNo == 1 && f2.seqNo == 2 && f3.seqNo == 3
    requires f0.timestamp + interval <= f1.timestamp && f1.timestamp + interval <= f2.timestamp
             && f2.timestamp + interval <= f3.timestamp
    ensures FromOneSender(interval, [f0, f1, f2, f3])
  {
    assert interval * 2.0 == interval + interval && interval * 3.0 == interval + interval + interval;
  }

  // ----- Single events -----

  predicate Tracks(rx: Receiver, f: Frame, m: Member) {
    if rx.started then Track(rx.member, f) == Delivered(m) else m == InitSeq(f.seqNo)
  }

  function Admits(t: Tally): Tally {
    t.(received := t.received + 1, discarded := false)
  }

  function Loses(t: Tally): Tally {
    t.(events := t.events + [1], discarded := true)
  }

  /** The state after an event, apart from the log of frames. */
  predicate Becomes(s: Outcome, rx: Receiver, now: real, intervals: seq<Interval>) {
    s.Next? && s.world.rx == rx && s.world.now == now && s.world.log.intervals == intervals
  }

  /** A frame that opens a talkspurt. */
  lemma Opens(p: Settings, w: World, now: real, f: Frame, m: Member)
    requires p.Usable() && Legal(w, Packet(now, f)) && Tracks(w.rx, f, m)
    requires w.rx.buffer.cb == [] && !w.rx.buffer.timer.scheduled
    ensures var b := Buffer(Armed(now, now + p.jitterDelay), now - f.timestamp, [f], w.rx.buffer.db);
            Becomes(Step(p, w, Packet(now, f)), Receiver(true, b, m, Admits(w.rx.tally)), now, w.log.intervals)
  {
    SortIsUnique([f], [f]);
    assert [] + [f] == [f];
  }

  /** The timer is pending, set no longer ago than a packet of its talkspurt waits. */
  predicate InTalkspurt(p: Settings, b: Buffer, now: real) {
    b.timer.scheduled && now <= b.timer.sendingTime + b.networkDelay + p.jitterDelay
  }

  predicate InTime(p: Settings, b: Buffer, f: Frame) {
    b.timer.arrivalTime <= PlayoutTime(p, b, f.timestamp)
  }

  /** A frame that joins others before it. */
  lemma Joins(p: Settings, w: World, now: real, f: Frame, m: Member, frames: seq<Frame>)
    requires p.Usable() && Legal(w, Packet(now, f)) && Tracks(w.rx, f, m)
    requires InTalkspurt(p, w.rx.buffer, now) && InTime(p, w.rx.buffer, f)
    requires |w.rx.buffer.cb| < p.capacity && frames == w.rx.buffer.cb + [f] && IsSorted(frames)
    ensures Becomes(Step(p, w, Packet(now, f)),
                    Receiver(true, w.rx.buffer.(cb := frames), m, Admits(w.rx.tally)), now, w.log.intervals)
  {
    SortIsUnique(frames, frames);
  }

  /** A frame that comes too late, after a frame that did not, or else after a rating. */
  lemma Misses(p: Settings, w: World, now: real, f: Frame, m: Member)
    requires p.Usable() && Legal(w, Packet(now, f)) && Tracks(w.rx, f, m)
    requires InTalkspurt(p, w.rx.buffer, now) && !InTime(p, w.rx.buffer, f) && IsSorted(w.rx.buffer.cb)
    ensures var s, b := Step(p, w, Packet(now, f)), w.rx.buffer.(db := w.rx.buffer.db + [f.seqNo]);
            if w.rx.tally.discarded then w.rx.tally.events == [] ==> s == Faulted(EmptyEvents)
            else Becomes(s, Receiver(true, b, m, Loses(w.rx.tally)), now, w.log.intervals)
  {
    SortIsUnique(w.rx.buffer.cb, w.rx.buffer.cb);
  }

  /** A frame that finds the buffer full and overwrites the first. */
  lemma Overwrites(p: Settings, w: World, now: real, f: Frame, m: Member, rest: seq<Frame>)
    requires p.Usable() && Legal(w, Packet(now, f)) && Tracks(w.rx, f, m)
    requires InTalkspurt(p, w.rx.buffer, now) && InTime(p, w.rx.buffer, f)
    requires |w.rx.buffer.cb| == p.capacity && IsSorted(w.rx.buffer.cb)
    requires rest == w.rx.buffer.cb[1..] + [f] && IsSorted(rest) && !w.rx.tally.discarded
    ensures var s, first := Step(p, w, Packet(now, f)), w.rx.buffer.cb[0];
            var b := w.rx.buffer.(cb := rest, db := w.rx.buffer.db + [first.seqNo]);
            if PlayoutTime(p, w.rx.buffer, first.timestamp) <= now then s == Faulted(OverflowAtDeadline)
            else Becomes(s, Receiver(true, b, m, Loses(w.rx.tally)), now, w.log.intervals)
  {
    SortIsUnique(w.rx.buffer.cb, w.rx.buffer.cb);
    SortIsUnique(rest, rest);
  }

  function Heard(p: Settings, t: Tally, delay: real): Tally {
    t.(discarded := false, meanDelay := BlendDelay(t.meanDelay, delay, p.codecDelay))
  }

  function Rearmed(p: Settings, b: Buffer, rest: seq<Frame>): Buffer {
    var now := b.timer.arrivalTime;
    b.(cb := rest,
       timer := if rest == [] then b.timer.Delivered() else Armed(now, PlayoutTime(p, b, rest[0].timestamp)))
  }

  /** The first frame is played. */
  lemma Plays(p: Settings, w: World, f: Frame, rest: seq<Frame>)
    requires p.Usable() && w.rx.buffer.timer.scheduled && w.rx.buffer.cb == [f] + rest && IsSorted([f] + rest)
    ensures var b, now := w.rx.buffer, w.rx.buffer.timer.arrivalTime;
            Becomes(Step(p, w, PlayoutDue),
                    w.rx.(buffer := Rearmed(p, b, rest), tally := Heard(p, w.rx.tally, now - f.timestamp)),
                    now, w.log.intervals)
  {
    TakesFirst(p, w.rx.buffer, f, rest);
  }

  lemma TakesFirst(p: Settings, b: Buffer, f: Frame, rest: seq<Frame>)
    requires b.cb == [f] + rest && IsSorted(b.cb)
    ensures PlayOut(p, b, b.timer.arrivalTime) == (Rearmed(p, b, rest), f)
  {
    SortIsUnique(b.cb, b.cb);
    assert b.cb[1..] == rest && b.cb[0] == f;
  }

  lemma RunOne(p: Settings, w: World, e: Event)
    requires p.Usable()
    ensures RunFrom(p, w, [e]) == Step(p, w, e)
  {
    assert [e][1..] == [];
  }

  lemma RunTwo(p: Settings, w: World, e: Event, f: Event)
    requires p.Usable() && Step(p, w, e).Next?
    ensures RunFrom(p, w, [e, f]) == Step(p, Step(p, w, e).world, f)
  {
    assert [e, f][1..] == [f];
    RunOne(p, Step(p, w, e).world, f);
  }

  // ----- The runs -----

  /** The receiver after the first packet, numbered 0, was played and nothing else happened. */
  predicate PlayedFirst(p: Settings, w: World, sent: real) {
    Becomes(Next(w), Receiver(true, Buffer(TimerState(false, sent, sent + p.jitterDelay), 0.0, [], []), InitSeq(0),
                              Heard(p, Admits(FRESH_TALLY), p.jitterDelay)), sent + p.jitterDelay, [])
  }

  lemma FirstPlays(p: Settings, f: Frame) returns (w: World)
    requires p.Usable() && 0.0 <= f.timestamp && f.seqNo == 0
    ensures RunFrom(p, Start(), [Packet(f.timestamp, f), PlayoutDue]) == Next(w)
    ensures PlayedFirst(p, w, f.timestamp)
  {
    Opens(p, Start(), f.timestamp, f, InitSeq(0));
    var w1 := Step(p, Start(), Packet(f.timestamp, f)).world;
    assert [f] == [f] + [];
    Plays(p, w1, f, []);
    RunTwo(p, Start(), Packet(f.timestamp, f), PlayoutDue);
    w := Step(p, w1, PlayoutDue).world;
  }

  // ----- A frame that is due when it is overwritten -----

  /** A buffer for four frames, after a network delay of one second. */
  predicate Holds(p: Settings, w: World, frames: seq<Frame>, m: Member, timer: TimerState, now: real) {
    && p == Configure(1.0, 2.0, 0.0) && w.rx.started && w.rx.member == m && w.now == now
    && w.rx.buffer == Buffer(timer, 1.0, frames, []) && !w.rx.tally.discarded
  }

  lemma TwoArrive(p: Settings, f: Frame) returns (w: World)
    requires p == Configure(1.0, 2.0, 0.0) && f == Frame(1.0, 0)
    ensures RunFrom(p, Start(), [Packet(2.0, f), Packet(2.5, f)]) == Next(w)
    ensures Holds(p, w, [f, f], InitSeq(0), Armed(2.0, 4.0), 2.5)
  {
    Opens(p, Start(), 2.0, f, InitSeq(0));
    var w1 := Step(p, Start(), Packet(2.0, f)).world;
    assert [f] + [f] == [f, f];
    Joins(p, w1, 2.5, f, InitSeq(0), [f, f]);
    RunTwo(p, Start(), Packet(2.0, f), Packet(2.5, f));
    w := Step(p, w1, Packet(2.5, f)).world;
  }

  lemma FourWait(p: Settings, w: World, f: Frame) returns (v: World)
    requires f == Frame(1.0, 0) && Holds(p, w, [f, f], InitSeq(0), Armed(2.0, 4.0), 2.5)
    ensures RunFrom(p, w, [Packet(3.0, f), Packet(3.5, f)]) == Next(v)
    ensures Holds(p, v, [f, f, f, f], InitSeq(0), Armed(2.0, 4.0), 3.5)
  {
    assert [f, f] + [f] == [f, f, f] && [f, f, f] + [f] == [f, f, f, f];
    Joins(p, w, 3.0, f, InitSeq(0), [f, f, f]);
    var w1 := Step(p, w, Packet(3.0, f)).world;
    Joins(p, w1, 3.5, f, InitSeq(0), [f, f, f, f]);
    RunTwo(p, w, Packet(3.0, f), Packet(3.5, f));
    v := Step(p, w1, Packet(3.5, f)).world;
  }

  lemma TwoPlay(p: Settings, w: World, f: Frame) returns (v: World)
    requires f == Frame(1.0, 0) && Holds(p, w, [f, f, f, f], InitSeq(0), Armed(2.0, 4.0), 3.5)
    ensures RunFrom(p, w, [PlayoutDue, PlayoutDue]) == Next(v)
    ensures Holds(p, v, [f, f], InitSeq(0), Armed(4.0, 4.0), 4.0)
  {
    assert [f, f, f, f] == [f] + [f, f, f] && [f, f, f] == [f] + [f, f];
    Plays(p, w, f, [f, f, f]);
    var w1 := Step(p, w, PlayoutDue).world;
    Plays(p, w1, f, [f, f]);
    RunTwo(p, w, PlayoutDue, PlayoutDue);
    v := Step(p, w1, PlayoutDue).world;
  }

  lemma ThirdPlays(p: Settings, w: World, f: Frame, g: Frame) returns (v: World)
    requires f == Frame(1.0, 0) && g == Frame(3.0, 1) && Holds(p, w, [f, f], InitSeq(0), Armed(4.0, 4.0), 4.0)
    ensures RunFrom(p, w, [PlayoutDue, Packet(4.0, g)]) == Next(v)
    ensures Holds(p, v, [f, g], InitSeq(0).(maxSeq := 1), Armed(4.0, 4.0), 4.0)
  {
    assert [f, f] == [f] + [f] && [f] + [g] == [f, g];
    Plays(p, w, f, [f]);
    var w1 := Step(p, w, PlayoutDue).world;
    Joins(p, w1, 4.0, g, InitSeq(0).(maxSeq := 1), [f, g]);
    RunTwo(p, w, PlayoutDue, Packet(4.0, g));
    v := Step(p, w1, Packet(4.0, g)).world;
  }

  lemma FillsUp(p: Settings, w: World, f: Frame, g: Frame) returns (v: World)
    requires f == Frame(1.0, 0) && g == Frame(3.0, 1)
    requires Holds(p, w, [f, g], InitSeq(0).(maxSeq := 1), Armed(4.0, 4.0), 4.0)
    ensures RunFrom(p, w, [Packet(4.0, g), Packet(4.0, g)]) == Next(v)
    ensures Holds(p, v, [f, g, g, g], InitSeq(0).(maxSeq := 1), Armed(4.0, 4.0), 4.0)
  {
    assert [f, g] + [g] == [f, g, g] && [f, g, g] + [g] == [f, g, g, g];
    var m := InitSeq(0).(maxSeq := 1);
    Joins(p, w, 4.0, g, m, [f, g, g]);
    var w1 := Step(p, w, Packet(4.0, g)).world;
    Joins(p, w1, 4.0, g, m, [f, g, g, g]);
    RunTwo(p, w, Packet(4.0, g), Packet(4.0, g));
    v := Step(p, w1, Packet(4.0, g)).world;
  }

  lemma FirstIsOverwritten(p: Settings, w: World, f: Frame, g: Frame)
    requires f == Frame(1.0, 0) && g == Frame(3.0, 1)
    requires Holds(p, w, [f, g, g, g], InitSeq(0).(maxSeq := 1), Armed(4.0, 4.0), 4.0)
    ensures RunFrom(p, w, [Packet(4.0, g)]) == Faulted(OverflowAtDeadline)
  {
    assert [f, g, g, g][1..] + [g] == [g, g, g, g];
    Overwrites(p, w, 4.0, g, InitSeq(0).(maxSeq := 1), [g, g, g, g]);
    RunOne(p, w, Packet(4.0, g));
  }

  /** The assertion at line 570 can fail if the latest packet is duplicated often enough: three of
      four copies of a frame are played at one instant, and at that instant four copies of the next
      frame come in. Each playout re-arms the timer behind what was inserted before it, so
      three playouts leave room for the packets to pass two modules without delay on their way to the
      application; they were sent a second before. */
  lemma OverflowAtDeadlineHappens(p: Settings, f: Frame, g: Frame)
    requires p == Configure(1.0, 2.0, 0.0) && f == Frame(1.0, 0) && g == Frame(3.0, 1)
    ensures FromOneSender(1.0, [f, g])
    ensures RunFrom(p, Start(), [Packet(2.0, f), Packet(2.5, f)] + ([Packet(3.0, f), Packet(3.5, f)]
                                + ([PlayoutDue, PlayoutDue] + ([PlayoutDue, Packet(4.0, g)]
                                + ([Packet(4.0, g), Packet(4.0, g)] + [Packet(4.0, g)])))))
            == Faulted(OverflowAtDeadline)
  {
    var w1 := TwoArrive(p, f);
    var w2 := FourWait(p, w1, f);
    var w3 := TwoPlay(p, w2, f);
    var w4 := ThirdPlays(p, w3, f, g);
    var w5 := FillsUp(p, w4, f, g);
    FirstIsOverwritten(p, w5, f, g);
    var e5 := [Packet(4.0, g), Packet(4.0, g)] + [Packet(4.0, g)];
    var e4 := [PlayoutDue, Packet(4.0, g)] + e5;
    var e3 := [PlayoutDue, PlayoutDue] + e4;
    RunJoins(p, w4, [Packet(4.0, g), Packet(4.0, g)], [Packet(4.0, g)]);
    RunJoins(p, w3, [PlayoutDue, Packet(4.0, g)], e5);
    RunJoins(p, w2, [PlayoutDue, PlayoutDue], e4);
    RunJoins(p, w1, [Packet(3.0, f), Packet(3.5, f)], e3);
    RunJoins(p, Start(), [Packet(2.0, f), Packet(2.5, f)], [Packet(3.0, f), Packet(3.5, f)] + e3);
  }

  // ----- A loss, a rating, a loss -----

  lemma LossThenRating(p: Settings, w: World, f2: Frame, f3: Frame) returns (v: World)
    requires p.Usable() && p.jitterDelay == 2.5 && PlayedFirst(p, w, 1.0)
    requires f2 == Frame(28.5, 2) && f3 == Frame(29.75, 3)
    ensures RunFrom(p, w, [Packet(29.75, f3), Packet(30.5, f2)] + [RatingDue(31.0)]) == Next(v)
    ensures v.rx.started && v.rx.buffer == Buffer(Armed(29.75, 32.25), 0.0, [f3], [2]) && v.now == 31.0
    ensures v.rx.member == InitSeq(0).(maxSeq := 3, misordered := [f2])
    ensures v.rx.tally.discarded && v.rx.tally.events == []
  {
    assert Between(0, 3) == [1, 2];
    var m3 := InitSeq(0).(maxSeq := 3, dropped := [[1, 2]]);
    Opens(p, w, 29.75, f3, m3);
    var w3 := Step(p, w, Packet(29.75, f3)).world;
    Misses(p, w3, 30.5, f2, m3.(dropped := Unlist(m3.dropped, 2), misordered := [f2]));
    var w4 := Step(p, w3, Packet(30.5, f2)).world;
    RunTwo(p, w, Packet(29.75, f3), Packet(30.5, f2));
    RunJoins(p, w, [Packet(29.75, f3), Packet(30.5, f2)], [RatingDue(31.0)]);
    RunOne(p, w4, RatingDue(31.0));
    v := Step(p, w4, RatingDue(31.0)).world;
  }

  lemma LossAfterRating(p: Settings, v: World, f1: Frame, f2: Frame, f3: Frame)
    requires p.Usable() && p.jitterDelay == 2.5
    requires f1 == Frame(27.25, 1) && f2 == Frame(28.5, 2) && f3 == Frame(29.75, 3)
    requires v.rx.started && v.rx.buffer == Buffer(Armed(29.75, 32.25), 0.0, [f3], [2]) && v.now == 31.0
    requires v.rx.member == InitSeq(0).(maxSeq := 3, misordered := [f2])
    requires v.rx.tally.discarded && v.rx.tally.events == []
    ensures RunFrom(p, v, [Packet(31.5, f1)]) == Faulted(EmptyEvents)
  {
    Misses(p, v, 31.5, f1, v.rx.member.(misordered := [f2, f1]));
    RunOne(p, v, Packet(31.5, f1));
  }

  /** A frame is lost, the interval is rated, which clears the list but not the flag, and the
      next frame is lost too. */
  lemma EmptyEventsHappens(p: Settings, f0: Frame, f1: Frame, f2: Frame, f3: Frame)
    requires p == Configure(1.25, 2.5, 0.0)
    requires f0 == Frame(1.0, 0) && f1 == Frame(27.25, 1) && f2 == Frame(28.5, 2) && f3 == Frame(29.75, 3)
    ensures FromOneSender(1.25, [f0, f1, f2, f3])
    ensures RunFrom(p, Start(), [Packet(1.0, f0), PlayoutDue]
                                + ([Packet(29.75, f3), Packet(30.5, f2)] + [RatingDue(31.0)] + [Packet(31.5, f1)]))
            == Faulted(EmptyEvents)
  {
    var w := FirstPlays(p, f0);
    var v := LossThenRating(p, w, f2, f3);
    LossAfterRating(p, v, f1, f2, f3);
    FirstFour(1.25, f0, f1, f2, f3);
    var loss := [Packet(29.75, f3), Packet(30.5, f2)] + [RatingDue(31.0)];
    RunJoins(p, w, loss, [Packet(31.5, f1)]);
    RunJoins(p, Start(), [Packet(1.0, f0), PlayoutDue], loss + [Packet(31.5, f1)]);
  }

  // ----- A duplicate, a restart -----

  lemma Overtaken(p: Settings, f0: Frame, f2: Frame) returns (w: World)
    requires p == Configure(1.0, 2.0, 0.0) && f0 == Frame(1.0, 0) && f2 == Frame(3.0, 2)
    ensures RunFrom(p, Start(), [Packet(2.0, f0), Packet(3.0, f2)]) == Next(w)
    ensures Holds(p, w, [f0, f2], InitSeq(0).(maxSeq := 2, dropped := [[1]]), Armed(2.0, 4.0), 3.0)
  {
    Opens(p, Start(), 2.0, f0, InitSeq(0));
    var w1 := Step(p, Start(), Packet(2.0, f0)).world;
    assert Between(0, 2) == [1] && [f0] + [f2] == [f0, f2];
    Joins(p, w1, 3.0, f2, InitSeq(0).(maxSeq := 2, dropped := [[1]]), [f0, f2]);
    RunTwo(p, Start(), Packet(2.0, f0), Packet(3.0, f2));
    w := Step(p, w1, Packet(3.0, f2)).world;
  }

  /** A reordered frame is remembered, whatever becomes of it in the buffer. */
  lemma RememberedOnce(p: Settings, w: World, now: real, f: Frame)
    requires p.Usable() && Legal(w, Packet(now, f)) && w.rx.started && w.rx.member.misordered == []
    requires SEQ_MOD - MAX_MISORDER < Delta(w.rx.member, f.seqNo)
    requires |w.rx.buffer.cb| < p.capacity && !w.rx.tally.discarded && InTalkspurt(p, w.rx.buffer, now)
    ensures var s := Step(p, w, Packet(now, f));
            s.Next? && s.world.rx.started && s.world.now == now && s.world.rx.buffer.timer == w.rx.buffer.timer
            && s.world.rx.member == w.rx.member.(dropped := Unlist(w.rx.member.dropped, f.seqNo), misordered := [f])
  {
    assert [] + [f] == [f];
  }

  /** A frame that was overtaken arrives twice. */
  lemma DuplicateFrameHappens(p: Settings, f0: Frame, f1: Frame, f2: Frame)
    requires p == Configure(1.0, 2.0, 0.0)
    requires f0 == Frame(1.0, 0) && f1 == Frame(2.0, 1) && f2 == Frame(3.0, 2)
    ensures FromOneSender(1.0, [f0, f1, f2])
    ensures RunFrom(p, Start(), [Packet(2.0, f0), Packet(3.0, f2)] + [Packet(3.5, f1), Packet(3.5, f1)])
            == Faulted(DuplicateFrame)
  {
    var w := Overtaken(p, f0, f2);
    RememberedOnce(p, w, 3.5, f1);
    RunTwo(p, w, Packet(3.5, f1), Packet(3.5, f1));
    RunJoins(p, Start(), [Packet(2.0, f0), Packet(3.0, f2)], [Packet(3.5, f1), Packet(3.5, f1)]);
  }

  /** After a long loss the next two packets in sequence look like a restarted sender: 25 seconds
      at 5 milliseconds. */
  lemma SenderRestartedHappens(p: Settings, f0: Frame, f1: Frame, f2: Frame)
    requires p == Configure(0.005, 0.01, 0.0)
    requires f0 == Frame(1.0, 0) && f1 == Frame(26.0, 5000) && f2 == Frame(26.005, 5001)
    ensures FromOneSender(0.005, [f0, f1, f2])
    ensures RunFrom(p, Start(), [Packet(1.0, f0), PlayoutDue] + [Packet(26.0, f1), Packet(26.005, f2)])
            == Faulted(SenderRestarted)
  {
    var w := FirstPlays(p, f0);
    RunTwo(p, w, Packet(26.0, f1), Packet(26.005, f2));
    RunJoins(p, Start(), [Packet(1.0, f0), PlayoutDue], [Packet(26.0, f1), Packet(26.005, f2)]);
  }

  // ----- Losses that do not count -----

  /** Rated while two frames, all there is room for, are waiting. */
  predicate FullAtRating(w: World, f1: Frame, f2: Frame) {
    && f1 == Frame(30.5, 1) && f2 == Frame(31.5, 2)
    && w.rx.started && w.rx.buffer == Buffer(Armed(33.5, 34.5), 3.0, [f1, f2], []) && w.now == 34.0
    && w.rx.member == InitSeq(0).(maxSeq := 2) && |w.log.intervals| == 1
    && var t := w.rx.tally;
       !t.discarded && t.received == 0 && t.events == [] && t.lastExpected == 2 && t.meanDelay == 0.0
  }

  lemma RatedWhenFull(p: Settings, w: World, f1: Frame, f2: Frame) returns (v: World)
    requires p.Usable() && p.capacity == 2 && p.jitterDelay == 1.0 && PlayedFirst(p, w, 4.0)
    requires f1 == Frame(30.5, 1) && f2 == Frame(31.5, 2)
    ensures RunFrom(p, w, [Packet(33.5, f1), Packet(33.625, f2)] + [RatingDue(34.0)]) == Next(v)
    ensures FullAtRating(v, f1, f2)
  {
    Opens(p, w, 33.5, f1, InitSeq(0).(maxSeq := 1));
    var w3 := Step(p, w, Packet(33.5, f1)).world;
    assert [f1] + [f2] == [f1, f2];
    Joins(p, w3, 33.625, f2, InitSeq(0).(maxSeq := 2), [f1, f2]);
    var w4 := Step(p, w3, Packet(33.625, f2)).world;
    RunTwo(p, w, Packet(33.5, f1), Packet(33.625, f2));
    RunJoins(p, w, [Packet(33.5, f1), Packet(33.625, f2)], [RatingDue(34.0)]);
    RunOne(p, w4, RatingDue(34.0));
    v := Step(p, w4, RatingDue(34.0)).world;
  }

  lemma OnlyLoss(p: Settings, v: World, f1: Frame, f2: Frame, f3: Frame) returns (end: World)
    requires p.Usable() && p.capacity == 2 && p.jitterDelay == 1.0
    requires FullAtRating(v, f1, f2) && f3 == Frame(32.5, 3)
    ensures RunFrom(p, v, [Packet(34.25, f3), RatingDue(34.375)]) == Next(end)
    ensures |end.log.intervals| == 2 && end.log.intervals[1] == Interval(0, 1, [1], 2, 0.0)
  {
    assert [f1, f2][1..] + [f3] == [f2, f3];
    Overwrites(p, v, 34.25, f3, v.rx.member.(maxSeq := 3), [f2, f3]);
    RunTwo(p, v, Packet(34.25, f3), RatingDue(34.375));
    end := Step(p, Step(p, v, Packet(34.25, f3)).world, RatingDue(34.375)).world;
  }

  /** An interval in which the one expected packet overwrote a frame: nothing was received,
      and the interval is rated as if nothing had been lost. */
  lemma TotalLossHappens(p: Settings, f0: Frame, f1: Frame, f2: Frame, f3: Frame, bpl: real, ie: real)
    requires p == Configure(1.0, 1.0, 0.0)
    requires f0 == Frame(4.0, 0) && f1 == Frame(30.5, 1) && f2 == Frame(31.5, 2) && f3 == Frame(32.5, 3)
    ensures FromOneSender(1.0, [f0, f1, f2, f3])
    ensures var end := RunFrom(p, Start(), [Packet(4.0, f0), PlayoutDue]
                                           + ([Packet(33.5, f1), Packet(33.625, f2)] + [RatingDue(34.0)]
                                              + [Packet(34.25, f3), RatingDue(34.375)]));
            && end.Next? && |end.world.log.intervals| == 2
            && end.world.log.intervals[1] == Interval(0, 1, [1], 2, 0.0)
    ensures IntervalRating(0.0, bpl, ie, 1, 1, 1) == IntervalRating(0.0, bpl, ie, 1, 0, 0)
  {
    TotalLossRatedAsNoLoss(0.0, bpl, ie, 1, 1);
    var w := FirstPlays(p, f0);
    var v := RatedWhenFull(p, w, f1, f2);
    var end := OnlyLoss(p, v, f1, f2, f3);
    FirstFour(1.0, f0, f1, f2, f3);
    var full := [Packet(33.5, f1), Packet(33.625, f2)] + [RatingDue(34.0)];
    RunJoins(p, w, full, [Packet(34.25, f3), RatingDue(34.375)]);
    RunJoins(p, Start(), [Packet(4.0, f0), PlayoutDue], full + [Packet(34.25, f3), RatingDue(34.375)]);
  }

  lemma LossThenPlay(p: Settings, v: World, f1: Frame, f2: Frame, f3: Frame) returns (u: World)
    requires p.Usable() && p.capacity == 2 && p.jitterDelay == 1.0
    requires FullAtRating(v, f1, f2) && f3 == Frame(32.5, 3)
    ensures RunFrom(p, v, [Packet(34.25, f3), PlayoutDue]) == Next(u)
    ensures u.rx.started && u.rx.buffer == Buffer(Armed(34.5, 36.5), 3.0, [f3], [1]) && u.now == 34.5
    ensures u.rx.member == InitSeq(0).(maxSeq := 3) && |u.log.intervals| == 1
    ensures u.rx.tally == v.rx.tally.(events := [1], meanDelay := 1.5 + p.codecDelay / 2.0)
  {
    assert [f1, f2][1..] + [f3] == [f2, f3] && [f2, f3] == [f2] + [f3];
    Overwrites(p, v, 34.25, f3, v.rx.member.(maxSeq := 3), [f2, f3]);
    var w1 := Step(p, v, Packet(34.25, f3)).world;
    Plays(p, w1, f2, [f3]);
    RunTwo(p, v, Packet(34.25, f3), PlayoutDue);
    u := Step(p, w1, PlayoutDue).world;
  }

  lemma CopyThenRating(p: Settings, u: World, f3: Frame) returns (end: World)
    requires p.Usable() && p.capacity == 2 && p.jitterDelay == 1.0 && f3 == Frame(32.5, 3)
    requires u.rx.started && u.rx.buffer == Buffer(Armed(34.5, 36.5), 3.0, [f3], [1]) && u.now == 34.5
    requires u.rx.member == InitSeq(0).(maxSeq := 3) && |u.log.intervals| == 1
    requires u.rx.tally.received == 0 && u.rx.tally.events == [1] && u.rx.tally.lastExpected == 2
    ensures RunFrom(p, u, [Packet(34.75, f3), RatingDue(35.0)]) == Next(end)
    ensures |end.log.intervals| == 2 && end.log.intervals[1] == Interval(1, 1, [1], 2, u.rx.tally.meanDelay)
  {
    assert [f3] + [f3] == [f3, f3];
    Joins(p, u, 34.75, f3, u.rx.member, [f3, f3]);
    RunTwo(p, u, Packet(34.75, f3), RatingDue(35.0));
    end := Step(p, Step(p, u, Packet(34.75, f3)).world, RatingDue(35.0)).world;
  }

  /** With a copy of the packet that overwrote a frame, one frame is received in such an
      interval, and the loss is ignored all the same. */
  lemma LossIgnoredThoughReceived(p: Settings, f0: Frame, f1: Frame, f2: Frame, f3: Frame, bpl: real, ie: real)
    requires p == Configure(1.0, 1.0, 0.0)
    requires f0 == Frame(4.0, 0) && f1 == Frame(30.5, 1) && f2 == Frame(31.5, 2) && f3 == Frame(32.5, 3)
    ensures FromOneSender(1.0, [f0, f1, f2, f3])
    ensures var full := [Packet(33.5, f1), Packet(33.625, f2)] + [RatingDue(34.0)];
            var last := [Packet(34.25, f3), PlayoutDue] + [Packet(34.75, f3), RatingDue(35.0)];
            var end := RunFrom(p, Start(), [Packet(4.0, f0), PlayoutDue] + (full + last));
            && end.Next? && |end.world.log.intervals| == 2
            && end.world.log.intervals[1] == Interval(1, 1, [1], 2, 1.5)
    ensures IntervalRating(1.5, bpl, ie, 1, 1, 1) == IntervalRating(1.5, bpl, ie, 1, 0, 0)
  {
    TotalLossRatedAsNoLoss(1.5, bpl, ie, 1, 1);
    var w := FirstPlays(p, f0);
    var v := RatedWhenFull(p, w, f1, f2);
    var u := LossThenPlay(p, v, f1, f2, f3);
    var end := CopyThenRating(p, u, f3);
    FirstFour(1.0, f0, f1, f2, f3);
    var full := [Packet(33.5, f1), Packet(33.625, f2)] + [RatingDue(34.0)];
    var last := [Packet(34.25, f3), PlayoutDue] + [Packet(34.75, f3), RatingDue(35.0)];
    RunJoins(p, v, [Packet(34.25, f3), PlayoutDue], [Packet(34.75, f3), RatingDue(35.0)]);
    RunJoins(p, w, full, last);
    RunJoins(p, Start(), [Packet(4.0, f0), PlayoutDue], full + last);
  }

  // ----- Cross-checks -----

  lemma HearsOneAndThree(p: Settings, f1: Frame, f3: Frame) returns (w: World)
    requires p == Configure(1.0, 2.0, 0.0) && f1 == Frame(2.0, 1) && f3 == Frame(4.0, 3)
    ensures RunFrom(p, Start(), [Packet(4.0, f1), Packet(4.5, f3)]) == Next(w)
    ensures w.rx.member == InitSeq(1).(maxSeq := 3, dropped := [[2]])
    ensures w.rx.tally == Admits(Admits(FRESH_TALLY))
  {
    Opens(p, Start(), 4.0, f1, InitSeq(1));
    var w1 := Step(p, Start(), Packet(4.0, f1)).world;
    assert Between(1, 3) == [2] && [f1] + [f3] == [f1, f3];
    Joins(p, w1, 4.5, f3, InitSeq(1).(maxSeq := 3, dropped := [[2]]), [f1, f3]);
    RunTwo(p, Start(), Packet(4.0, f1), Packet(4.5, f3));
    w := Step(p, w1, Packet(4.5, f3)).world;
  }

  /** The first packet was lost, the receiver hears of numbers 1 and 3: both cross-checks of a
      rating find a mismatch. */
  lemma ChecksFail(p: Settings, f1: Frame, f3: Frame)
    requires p == Configure(1.0, 2.0, 0.0) && f1 == Frame(2.0, 1) && f3 == Frame(4.0, 3)
    ensures FromOneSender(1.0, [f1, f3])
    ensures var end := RunFrom(p, Start(), [Packet(4.0, f1), Packet(4.5, f3)]);
            && end.Next?
            && var i := TakeInterval(end.world.rx); i.received == 2 && i.events == [1] && i.expected == 4
    ensures !LossRatesMatch(2, 1, 4) && !BurstRsMatch(2, 1, 1, 4)
  {
    var w := HearsOneAndThree(p, f1, f3);
    assert Sizes(w.rx.member.dropped) == [1];
    OneOfFourMissing();
  }

  lemma OneOfFourMissing()
    ensures !LossRatesMatch(2, 1, 4) && !BurstRsMatch(2, 1, 1, 4)
  {
    LossRatesMatchIff(2, 1, 4);
    SlightByRatesSmall(2, 1, 4);
    BurstRsMatchIff(2, 1, 1, 4);
    SlightByBurstsSmall(2, 1, 4);
  }

  /** The first packet was lost and the second duplicated: neither keeps the balance, but
      together they do. */
  lemma DriftsCancel(p: Settings, f: Frame)
    requires p == Configure(1.0, 1.0, 0.0) && f == Frame(2.0, 1)
    ensures var end := RunFrom(p, Start(), [Packet(2.0, f), Packet(2.5, f)]);
            end.Next? && Surplus(end.world.rx) == 0
    ensures !AllKeepBalance(p, Start(), [Packet(2.0, f), Packet(2.5, f)])
  {
    Opens(p, Start(), 2.0, f, InitSeq(1));
    var w1 := Step(p, Start(), Packet(2.0, f)).world;
    assert [f] + [f] == [f, f];
    Joins(p, w1, 2.5, f, InitSeq(1), [f, f]);
    RunTwo(p, Start(), Packet(2.0, f), Packet(2.5, f));
  }
}
