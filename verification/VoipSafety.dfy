/** What every run of the receiver keeps: playout deadlines and order, every frame
    accounted for once, and the loss events equal to the runs of losses. */
module VoipSafety {
  import opened Counting
  import opened Frames
  import opened JitterBuffer
  import opened LossRuns
  import opened SequenceTracking
  import opened Timers
  import opened VoipRun

  ghost predicate Consistent(p: Settings, w: World) {
    && JitterBuffer.Valid(p, w.rx.buffer, w.now)
    && w.rx.member.Valid()
    && (!w.rx.started ==> w.rx == FRESH_RECEIVER && w.log == FRESH_LOG)
  }

  lemma StepConsistent(p: Settings, w: World, e: Event)
    requires Consistent(p, w) && Step(p, w, e).Next?
    ensures Consistent(p, Step(p, w, e).world)
    ensures w.now <= Step(p, w, e).world.now
  {
    match e
    case Packet(now, f) =>
      if !w.rx.started || Track(w.rx.member, f).Delivered? {
        ReceiveKeepsValid(p, w.rx.buffer, w.now, now, f);
      }
      if w.rx.started && Track(w.rx.member, f).Delivered? {
        TrackShifts(w.rx.member, f);
      }
    case PlayoutDue =>
      PlayOutKeepsValid(p, w.rx.buffer, w.now);
    case RatingDue(now) =>
  }

  // ----- Deadlines and order of playout -----

  /** When a frame is due that is played in the talkspurt opened by `o`: the buffer delay after the
      opener arrived, and as much later as it was sent later. */
  function Due(p: Settings, o: Opener, f: Frame): real {
    o.time + p.jitterDelay + (f.timestamp - o.frame.timestamp)
  }

  predicate IsOpened(log: Log, q: Playout) {
    1 <= q.spurt <= |log.openers|
  }

  function Deadline(p: Settings, log: Log, q: Playout): real
    requires IsOpened(log, q)
  {
    Due(p, log.openers[q.spurt - 1], q.frame)
  }

  /** The network delay is the one the opener of the talkspurt had. */
  ghost predicate Anchored(p: Settings, w: World) {
    var n := |w.log.openers|;
    w.rx.buffer.cb != [] ==>
      0 < n && w.rx.buffer.networkDelay == w.log.openers[n - 1].time - w.log.openers[n - 1].frame.timestamp
  }

  /** Some buffered frame is due exactly when the timer is. */
  ghost predicate OnTime(p: Settings, b: Buffer) {
    exists f :: f in b.cb && PlayoutTime(p, b, f.timestamp) == b.timer.arrivalTime
  }

  ghost predicate Punctual(p: Settings, w: World) {
    var played := w.log.played;
    && Anchored(p, w)
    && (forall i :: 0 <= i < |played| ==>
          IsOpened(w.log, played[i]) && played[i].time <= Deadline(p, w.log, played[i]))
    && (!w.log.overflowed ==>
          && (forall i :: 0 <= i < |played| ==> played[i].time == Deadline(p, w.log, played[i]))
          && (w.rx.buffer.timer.scheduled ==> OnTime(p, w.rx.buffer)))
  }

  ghost predicate InOrder(p: Settings, w: World) {
    var played, b := w.log.played, w.rx.buffer;
    && (forall i :: 0 <= i < |played| ==> played[i].spurt <= |w.log.openers|)
    && (forall i, j :: 0 <= i < j < |played| && played[i].spurt == played[j].spurt
                       ==> played[i].frame.timestamp <= played[j].frame.timestamp)
    && (b.timer.scheduled ==>
          forall i :: 0 <= i < |played| && played[i].spurt == |w.log.openers|
                      ==> PlayoutTime(p, b, played[i].frame.timestamp) <= b.timer.arrivalTime)
  }

  lemma ReceiveMembers(p: Settings, b: Buffer, now: real, f: Frame)
    requires p.Usable() && |b.cb| <= p.capacity
    ensures var (a, v) := Receive(p, b, now, f);
            && a.timer == Rebase(p, b, now, f).timer
            && a.networkDelay == Rebase(p, b, now, f).networkDelay
            && (v == Late ==> forall g :: g in a.cb <==> g in b.cb)
            && (v == Admitted ==> forall g :: g in a.cb <==> g in b.cb || g == f)
  {
    SortKeepsMembers(b.cb);
    SortKeepsMembers(PushBack(p.capacity, b.cb, f));
    assert forall g :: g in b.cb + [f] <==> g in b.cb || g == f;
  }

  lemma DeliverPunctual(p: Settings, w: World, now: real, f: Frame, m: Member)
    requires Consistent(p, w) && Punctual(p, w) && CanArrive(w.rx.buffer, w.now, now, f)
    requires Deliver(p, w, now, f, m).Next?
    ensures Punctual(p, Deliver(p, w, now, f, m).world)
  {
    var v := Deliver(p, w, now, f, m).world;
    var b, a := w.rx.buffer, v.rx.buffer;
    ReceiveMembers(p, b, now, f);
    RebaseIsValid(p, b, w.now, now, f);
    if !v.log.overflowed {
      if b.cb == [] {
        assert PlayoutTime(p, a, f.timestamp) == a.timer.arrivalTime;
      } else {
        RebaseOnlyWhenIdle(p, b, w.now, now, f);
        var g :| g in b.cb && PlayoutTime(p, b, g.timestamp) == b.timer.arrivalTime;
        assert g in a.cb;
      }
    }
  }

  lemma DeliverInOrder(p: Settings, w: World, now: real, f: Frame, m: Member)
    requires Consistent(p, w) && InOrder(p, w) && CanArrive(w.rx.buffer, w.now, now, f)
    requires Deliver(p, w, now, f, m).Next?
    ensures InOrder(p, Deliver(p, w, now, f, m).world)
  {
  }

  /** The frame taken out is the earliest, and the timer now stands for the next one. */
  lemma PlayOutTakesEarliest(p: Settings, b: Buffer, last: real)
    requires Valid(p, b, last) && b.timer.scheduled
    ensures var (a, f) := PlayOut(p, b, b.timer.arrivalTime);
            && f in b.cb
            && (forall g :: g in b.cb ==> f.timestamp <= g.timestamp)
            && a.networkDelay == b.networkDelay
            && (a.timer.scheduled ==> a.cb != [] && a.cb[0] in b.cb
                                      && a.timer.arrivalTime == PlayoutTime(p, a, a.cb[0].timestamp))
  {
    SortSorts(b.cb);
    SortKeepsLength(b.cb);
    SortKeepsMembers(b.cb);
    var sorted := Sort(b.cb);
    assert sorted[0] in sorted;
    assert |sorted| > 1 ==> sorted[1] in sorted;
    forall g | g in b.cb ensures sorted[0].timestamp <= g.timestamp {
      assert g in sorted;
    }
  }

  lemma PlayPunctual(p: Settings, w: World)
    requires Consistent(p, w) && Punctual(p, w) && w.rx.buffer.timer.scheduled
    ensures Punctual(p, Play(p, w))
  {
    PlayOutTakesEarliest(p, w.rx.buffer, w.now);
  }

  lemma PlayInOrder(p: Settings, w: World)
    requires Consistent(p, w) && InOrder(p, w) && w.rx.buffer.timer.scheduled
    ensures InOrder(p, Play(p, w))
  {
    PlayOutTakesEarliest(p, w.rx.buffer, w.now);
  }

  /** A timer set for the very moment of setting it was set by the playout of a frame with
      the same playout time as the next one. */
  ghost predicate InstantTimerHasTwin(p: Settings, w: World) {
    var b, played := w.rx.buffer, w.log.played;
    b.timer.scheduled && b.timer.sendingTime == b.timer.arrivalTime ==>
      played != [] && PlayoutTime(p, b, played[|played| - 1].frame.timestamp) == b.timer.arrivalTime
  }

  lemma DeliverKeepsTwin(p: Settings, w: World, now: real, f: Frame, m: Member)
    requires Consistent(p, w) && InstantTimerHasTwin(p, w) && CanArrive(w.rx.buffer, w.now, now, f)
    requires Deliver(p, w, now, f, m).Next?
    ensures InstantTimerHasTwin(p, Deliver(p, w, now, f, m).world)
  {
    RebaseOnlyWhenIdle(p, w.rx.buffer, w.now, now, f);
  }

  lemma PlayKeepsTwin(p: Settings, w: World)
    requires Consistent(p, w) && w.rx.buffer.timer.scheduled
    ensures InstantTimerHasTwin(p, Play(p, w))
  {
    PlayOutTakesEarliest(p, w.rx.buffer, w.now);
  }

  // ----- Every frame accounted for -----

  function Played(log: Log): (r: seq<Frame>)
    ensures |r| == |log.played|
    ensures forall i :: 0 <= i < |r| ==> r[i] == log.played[i].frame
  {
    seq(|log.played|, i requires 0 <= i < |log.played| => log.played[i].frame)
  }

  function Received(intervals: seq<Interval>): nat {
    if intervals == [] then 0 else Received(intervals[..|intervals| - 1]) + intervals[|intervals| - 1].received
  }

  /** How many of the frames pass a test, such as carrying a given number. */
  function Copies(s: seq<Frame>, test: Frame -> bool): nat {
    if s == [] then 0 else (if test(s[0]) then 1 else 0) + Copies(s[1..], test)
  }

  lemma {:induction false} CopiesConcat(s: seq<Frame>, t: seq<Frame>, test: Frame -> bool)
    ensures Copies(s + t, test) == Copies(s, test) + Copies(t, test)
  {
    if s == [] {
      assert s + t == t;
    } else {
      assert (s + t)[1..] == s[1..] + t;
      CopiesConcat(s[1..], t, test);
    }
  }

  lemma {:induction false} InsertCopies(f: Frame, s: seq<Frame>, test: Frame -> bool)
    ensures Copies(Insert(f, s), test) == Copies(s, test) + if test(f) then 1 else 0
  {
    if s == [] {
    } else if Before(f, s[0]) {
      assert ([f] + s)[1..] == s;
    } else {
      InsertCopies(f, s[1..], test);
      assert ([s[0]] + Insert(f, s[1..]))[1..] == Insert(f, s[1..]);
    }
  }

  lemma {:induction false} SortCopies(s: seq<Frame>, test: Frame -> bool)
    ensures Copies(Sort(s), test) == Copies(s, test)
  {
    if s != [] {
      SortCopies(s[1..], test);
      InsertCopies(s[0], Sort(s[1..]), test);
    }
  }

  /** The sequence numbers of frames. */
  function Numbers(s: seq<Frame>): (r: seq<nat>)
    ensures |r| == |s|
    ensures forall i :: 0 <= i < |r| ==> r[i] == s[i].seqNo
  {
    seq(|s|, i requires 0 <= i < |s| => s[i].seqNo)
  }

  /** Every delivered frame was played, is buffered or was discarded, as often as it was
      delivered; the list of discards has the numbers of the discarded frames, and the
      `received` counters count the others. */
  ghost predicate Conserved(w: World) {
    && (forall test: Frame -> bool :: Copies(w.log.delivered, test) ==
          Copies(Played(w.log), test) + Copies(w.rx.buffer.cb, test) + Copies(w.log.discarded, test))
    && w.rx.buffer.db == Numbers(w.log.discarded)
    && Received(w.log.intervals) + w.rx.tally.received == |w.log.delivered| - |w.rx.buffer.db|
    && Received(w.log.intervals) + w.rx.tally.received == |w.log.played| + |w.rx.buffer.cb|
  }

  lemma ReceiveConserves(p: Settings, b: Buffer, now: real, f: Frame, test: Frame -> bool)
    requires p.Usable() && |b.cb| <= p.capacity
    ensures var (a, v) := Receive(p, b, now, f);
            Copies(a.cb, test) + Copies(Discarded(f, v), test) == Copies(b.cb, test) + if test(f) then 1 else 0
  {
    var r := Rebase(p, b, now, f);
    if PlayoutTime(p, r, f.timestamp) < r.timer.arrivalTime {
      SortCopies(b.cb, test);
    } else if |b.cb| >= p.capacity {
      SortKeepsLength(b.cb);
      var sorted := Sort(b.cb);
      SortCopies(b.cb, test);
      CopiesConcat(sorted[1..], [f], test);
      SortCopies(sorted[1..] + [f], test);
    } else {
      SortCopies(b.cb + [f], test);
      CopiesConcat(b.cb, [f], test);
    }
  }

  lemma ReceiveSizes(p: Settings, b: Buffer, now: real, f: Frame)
    requires p.Usable() && |b.cb| <= p.capacity
    ensures var (a, v) := Receive(p, b, now, f);
            && |a.cb| == |b.cb| + (if v == Admitted then 1 else 0)
            && a.db == b.db + Numbers(Discarded(f, v))
            && |Discarded(f, v)| == (if v == Admitted then 0 else 1)
  {
    SortKeepsLength(b.cb);
    SortKeepsLength(b.cb + [f]);
    if b.cb != [] {
      SortKeepsLength(Sort(b.cb)[1..] + [f]);
    }
  }

  lemma DeliverConserves(p: Settings, w: World, now: real, f: Frame, m: Member)
    requires Consistent(p, w) && Conserved(w) && Deliver(p, w, now, f, m).Next?
    ensures Conserved(Deliver(p, w, now, f, m).world)
  {
    var v := Deliver(p, w, now, f, m).world;
    var gone := Discarded(f, Receive(p, w.rx.buffer, now, f).1);
    assert Played(v.log) == Played(w.log);
    ReceiveSizes(p, w.rx.buffer, now, f);
    assert Numbers(v.log.discarded) == Numbers(w.log.discarded) + Numbers(gone);
    forall test: Frame -> bool ensures Copies(v.log.delivered, test) ==
          Copies(Played(v.log), test) + Copies(v.rx.buffer.cb, test) + Copies(v.log.discarded, test)
    {
      ReceiveConserves(p, w.rx.buffer, now, f, test);
      CopiesConcat(w.log.delivered, [f], test);
      CopiesConcat(w.log.discarded, gone, test);
    }
  }

  lemma PlayConserves(p: Settings, w: World)
    requires Consistent(p, w) && Conserved(w) && w.rx.buffer.timer.scheduled
    ensures Conserved(Play(p, w))
  {
    var v := Play(p, w);
    var cb := w.rx.buffer.cb;
    SortKeepsLength(cb);
    var first := Sort(cb)[0];
    assert v.rx.buffer.cb == Sort(cb)[1..];
    assert Played(v.log) == Played(w.log) + [first];
    forall test: Frame -> bool ensures Copies(v.log.delivered, test) ==
          Copies(Played(v.log), test) + Copies(v.rx.buffer.cb, test) + Copies(v.log.discarded, test)
    {
      SortCopies(cb, test);
      CopiesConcat(Played(w.log), [first], test);
    }
  }

  lemma RateConserves(w: World, now: real)
    requires Conserved(w)
    ensures Conserved(Rate(w, now))
  {
  }

  // ----- Whole runs -----

  ghost predicate Invariant(p: Settings, w: World) {
    && Consistent(p, w)
    && Punctual(p, w)
    && InOrder(p, w)
    && InstantTimerHasTwin(p, w)
    && Conserved(w)
  }

  lemma StartInvariant(p: Settings)
    requires p.Usable()
    ensures Invariant(p, Start())
  {
  }

  lemma DeliverInvariant(p: Settings, w: World, now: real, f: Frame, m: Member)
    requires Invariant(p, w) && CanArrive(w.rx.buffer, w.now, now, f)
    requires Deliver(p, w, now, f, m).Next? && Consistent(p, Deliver(p, w, now, f, m).world)
    ensures Invariant(p, Deliver(p, w, now, f, m).world)
  {
    DeliverPunctual(p, w, now, f, m);
    DeliverInOrder(p, w, now, f, m);
    DeliverKeepsTwin(p, w, now, f, m);
    DeliverConserves(p, w, now, f, m);
  }

  lemma ArriveInvariant(p: Settings, w: World, now: real, f: Frame)
    requires Invariant(p, w) && Legal(w, Packet(now, f)) && Arrive(p, w, now, f).Next?
    ensures Invariant(p, Arrive(p, w, now, f).world)
  {
    StepConsistent(p, w, Packet(now, f));
    if !w.rx.started {
      DeliverInvariant(p, w, now, f, InitSeq(f.seqNo));
    } else if Track(w.rx.member, f).Delivered? {
      DeliverInvariant(p, w, now, f, Track(w.rx.member, f).member);
    } else {
      assert Played(Arrive(p, w, now, f).world.log) == Played(w.log);
    }
  }

  lemma PlayInvariant(p: Settings, w: World)
    requires Invariant(p, w) && w.rx.buffer.timer.scheduled
    ensures Invariant(p, Play(p, w))
  {
    StepConsistent(p, w, PlayoutDue);
    PlayPunctual(p, w);
    PlayInOrder(p, w);
    PlayKeepsTwin(p, w);
    PlayConserves(p, w);
  }

  lemma RateInvariant(p: Settings, w: World, now: real)
    requires Invariant(p, w) && Legal(w, RatingDue(now))
    ensures Invariant(p, Rate(w, now))
  {
    StepConsistent(p, w, RatingDue(now));
    RateConserves(w, now);
  }

  lemma StepInvariant(p: Settings, w: World, e: Event)
    requires Invariant(p, w) && Step(p, w, e).Next?
    ensures Invariant(p, Step(p, w, e).world)
  {
    match e
    case Packet(now, f) => ArriveInvariant(p, w, now, f);
    case PlayoutDue => PlayInvariant(p, w);
    case RatingDue(now) => RateInvariant(p, w, now);
  }

  lemma {:induction false} RunInvariant(p: Settings, w: World, events: seq<Event>)
    requires Invariant(p, w) && RunFrom(p, w, events).Next?
    ensures Invariant(p, RunFrom(p, w, events).world)
    decreases |events|
  {
    if events != [] {
      StepInvariant(p, w, events[0]);
      RunInvariant(p, Step(p, w, events[0]).world, events[1..]);
    }
  }
}
