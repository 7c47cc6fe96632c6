/** The receiving half of `RTPVoip` as the object it is: fields that the handlers update in
    place, each handler proved to make the step that VoipRun describes. */
module VoipReceivers {
  import opened Counting
  import opened EModel
  import opened Frames
  import opened JitterBuffer
  import opened LossRuns
  import opened Options
  import opened SequenceTracking
  import opened Timers
  import opened VoipRun
  import opened VoipSafety

  /** `std::accumulate` over a list of counts. */
  method Accumulate(counts: seq<nat>) returns (total: nat)
    ensures total == Sum(counts)
  {
    total := 0;
    for i := 0 to |counts|
      invariant total == Sum(counts[..i])
    {
      assert counts[..i + 1] == counts[..i] + [counts[i]];
      SumSnoc(counts[..i], counts[i]);
      total := total + counts[i];
    }
    assert counts[..|counts|] == counts;
  }

  /** `std::find` and `erase` on one list. */
  method EraseFirst(range: seq<nat>, x: nat) returns (found: bool, rest: seq<nat>)
    ensures found <==> x in range
    ensures rest == RemoveFirst(range, x)
  {
    var i := 0;
    while i < |range| && range[i] != x
      invariant i <= |range|
      invariant forall j :: 0 <= j < i ==> range[j] != x
    {
      i := i + 1;
    }
    found := i < |range|;
    rest := if found then range[..i] + range[i + 1..] else range;
    RemoveFirstAt(range, i, x);
  }

  class VoipReceiver {
    const settings: Settings
    const ie: real
    const bpl: real
    const playoutTimer: TimerMessage

    var started: bool
    var networkDelay: real
    var cb: seq<Frame>
    var db: seq<nat>

    var maxSeq: nat
    var cycles: nat
    var badSeq: nat
    var probableDropped: seq<seq<nat>>
    var misordered: seq<Frame>

    var elastReceived: nat
    var elossEvents: seq<nat>
    var discarded: bool
    var elastExpected: nat
    var elossEventsCount: nat
    var elostPackets: nat
    var emeanDelay: real

    ghost var clock: real
    ghost var log: Log

    constructor (settings: Settings, ie: real, bpl: real)
      requires settings.Usable()
      ensures this.settings == settings && this.ie == ie && this.bpl == bpl
      ensures fresh(playoutTimer) && State() == Start() && Valid()
    {
      this.settings, this.ie, this.bpl := settings, ie, bpl;
      playoutTimer := new TimerMessage();
      started, networkDelay, cb, db := false, 0.0, [], [];
      maxSeq, cycles, badSeq, probableDropped, misordered := 0, 0, SEQ_MOD + 1, [], [];
      elastReceived, elossEvents, discarded := 0, [], false;
      elastExpected, elossEventsCount, elostPackets, emeanDelay := 0, 0, 0, 0.0;
      clock, log := 0.0, FRESH_LOG;
      new;
      StartInvariant(settings);
    }

    function SenderState(): Member
      reads this
    {
      Member(maxSeq, cycles, badSeq, probableDropped, misordered)
    }

    function Counters(): Tally
      reads this
    {
      Tally(elastReceived, elossEvents, discarded, elastExpected, elossEventsCount, elostPackets, emeanDelay)
    }

    function BufferState(): Buffer
      reads this, playoutTimer
    {
      Buffer(playoutTimer.State(), networkDelay, cb, db)
    }

    ghost function State(): World
      reads this, playoutTimer
    {
      World(Receiver(started, BufferState(), SenderState(), Counters()), clock, log)
    }

    ghost predicate Valid()
      reads this, playoutTimer
    {
      Consistent(settings, State())
    }

    // ----- RTP sequence numbers -----

    /** Lists the numbers skipped. The gap does not wrap, so the widening counter meets the
        16-bit bound. */
    method HandleDroppedPackets(udelta: nat)
      requires 1 < udelta && maxSeq + udelta < SEQ_MOD
      modifies this`probableDropped
      ensures probableDropped == old(probableDropped) + [Between(maxSeq, maxSeq + udelta)]
    {
      var origSeq := (udelta + maxSeq) % SEQ_MOD;
      var newrange: seq<nat> := [];
      var start := maxSeq + 1;
      while start != origSeq
        invariant maxSeq < start <= origSeq
        invariant newrange == Between(maxSeq, start)
        decreases origSeq - start
      {
        newrange := newrange + [start];
        start := start + 1;
      }
      probableDropped := probableDropped + [newrange];
    }

    /** Takes a number off the first range that lists it. */
    method Unrecord(seqNo: nat)
      modifies this`probableDropped
      ensures probableDropped == Unlist(old(probableDropped), seqNo)
    {
      var i := 0;
      while i < |probableDropped|
        invariant i <= |probableDropped| && probableDropped == old(probableDropped)
        invariant forall j :: 0 <= j < i ==> seqNo !in probableDropped[j]
      {
        var found, range := EraseFirst(probableDropped[i], seqNo);
        if found {
          UnlistAt(probableDropped, i, seqNo);
          probableDropped := probableDropped[..i] + (if range == [] then [] else [range]) + probableDropped[i + 1..];
          return;
        }
        i := i + 1;
      }
      UnlistAt(probableDropped, i, seqNo);
    }

    /** A reordered frame is taken off the list of gaps and remembered; a frame remembered
        already is a duplicate. */
    method HandleMisorderedPackets(f: Frame) returns (duplicate: bool)
      modifies this`probableDropped, this`misordered
      ensures duplicate <==> f in old(misordered)
      ensures probableDropped == if duplicate then old(probableDropped) else Unlist(old(probableDropped), f.seqNo)
      ensures misordered == if duplicate then old(misordered) else PushBack(MISORDERED_MAX, old(misordered), f)
    {
      duplicate := f in misordered;
      if !duplicate {
        Unrecord(f.seqNo);
        misordered := PushBack(MISORDERED_MAX, misordered, f);
      }
    }

    /** `update_seq`: `deliver` is its result, `fault` the ways it does not return. */
    method UpdateSeq(f: Frame) returns (deliver: bool, fault: Option<Fault>)
      requires f.seqNo < SEQ_MOD && SenderState().Valid()
      modifies this`maxSeq, this`cycles, this`badSeq, this`probableDropped, this`misordered
      ensures match Track(old(SenderState()), f)
              case Delivered(m) => deliver && fault == None && SenderState() == m
              case Ignored(m) => !deliver && fault == None && SenderState() == m
              case Resynced => fault == Some(SenderRestarted)
              case NullFrame => fault == Some(DuplicateFrame)
    {
      deliver, fault := true, None;
      var udelta := (f.seqNo - maxSeq) % SEQ_MOD;
      if udelta < MAX_DROPOUT {
        if f.seqNo < maxSeq {
          cycles := cycles + SEQ_MOD;
        } else if udelta > 1 {
          HandleDroppedPackets(udelta);
        }
        maxSeq := f.seqNo;
      } else if udelta <= SEQ_MOD - MAX_MISORDER {
        if f.seqNo == badSeq {
          fault := Some(SenderRestarted);
        } else {
          badSeq := (f.seqNo + 1) % SEQ_MOD;
          deliver := false;
        }
      } else {
        var duplicate := HandleMisorderedPackets(f);
        if duplicate {
          fault := Some(DuplicateFrame);
        }
      }
    }

    /** The member entry is made for the first packet and updated for later ones. */
    method TrackSender(f: Frame) returns (deliver: bool, fault: Option<Fault>)
      requires f.seqNo < SEQ_MOD && SenderState().Valid()
      requires !started ==> probableDropped == [] && misordered == []
      modifies this`maxSeq, this`cycles, this`badSeq, this`probableDropped, this`misordered
      ensures match (if old(started) then Track(old(SenderState()), f) else Delivered(InitSeq(f.seqNo)))
              case Delivered(m) => deliver && fault == None && SenderState() == m
              case Ignored(m) => !deliver && fault == None && SenderState() == m
              case Resynced => fault == Some(SenderRestarted)
              case NullFrame => fault == Some(DuplicateFrame)
    {
      if !started {
        maxSeq, badSeq, cycles := f.seqNo, SEQ_MOD + 1, 0;
        deliver, fault := true, None;
      } else {
        deliver, fault := UpdateSeq(f);
      }
    }

    method DeliverFrame(now: real, f: Frame) returns (fault: Option<Fault>)
      requires settings.Usable()
      requires !started ==> !playoutTimer.scheduled
      modifies this, playoutTimer
      ensures match Deliver(settings, old(State()), now, f, old(SenderState()))
              case Next(w) => fault == None && State() == w
              case Faulted(x) => fault == Some(x)
              case Illegal => false
    {
      ghost var before := State();
      var verdict;
      verdict, fault := ProcessRtpData(now, f);
      Record(now, Logged(before.log, now, f, verdict, TalkspurtBegins(settings, before.rx.buffer, now)));
    }

    ghost method Record(now: real, log: Log)
      modifies this`clock, this`log
      ensures State() == old(State()).(now := now, log := log)
    {
      clock, this.log := now, log;
    }

    method HandlePacket(now: real, f: Frame) returns (fault: Option<Fault>)
      requires settings.Usable() && f.seqNo < SEQ_MOD && SenderState().Valid()
      requires !started ==> probableDropped == [] && misordered == [] && !playoutTimer.scheduled
      modifies this, playoutTimer
      ensures match Arrive(settings, old(State()), now, f)
              case Next(w) => fault == None && State() == w
              case Faulted(x) => fault == Some(x)
              case Illegal => false
    {
      ghost var before := State();
      var deliver;
      deliver, fault := TrackSender(f);
      if fault == None {
        if deliver {
          ghost var member := SenderState();
          assert State() == before.(rx := before.rx.(member := member));
          fault := DeliverFrame(now, f);
        } else {
          clock := now;
        }
      }
    }

    method ProcessRtp(now: real, f: Frame) returns (fault: Option<Fault>)
      requires Valid() && Legal(State(), Packet(now, f))
      modifies this, playoutTimer
      ensures match Step(settings, old(State()), Packet(now, f))
              case Next(w) => fault == None && State() == w && Valid()
              case Faulted(x) => fault == Some(x)
              case Illegal => false
    {
      ghost var before := State();
      if Step(settings, before, Packet(now, f)).Next? {
        StepConsistent(settings, before, Packet(now, f));
      }
      fault := HandlePacket(now, f);
    }

    // ----- The jitter buffer -----

    function TimeToPlay(timestamp: real): real
      reads this
    {
      timestamp + networkDelay + settings.jitterDelay
    }

    /** The list of loss events grows or its last entry does. */
    method CountLoss(ghost v: Verdict) returns (ok: bool)
      requires v != Admitted
      modifies this`elossEvents, this`discarded
      ensures match Count(old(Counters()), v)
              case CountedAs(t) => ok && Counters() == t
              case EventsEmpty => !ok
    {
      ok := true;
      if discarded {
        if elossEvents == [] {
          return false;
        }
        var last := |elossEvents| - 1;
        elossEvents := elossEvents[..last] + [elossEvents[last] + 1];
      } else {
        elossEvents := elossEvents + [1];
      }
      discarded := true;
    }

    /** The first packet of a talkspurt sets the network delay and the timer. */
    method CheckTalkspurt(now: real, f: Frame)
      requires settings.Usable()
      requires !started ==> !playoutTimer.scheduled
      modifies this`started, this`networkDelay, playoutTimer
      ensures started && BufferState() == Rebase(settings, old(BufferState()), now, f)
    {
      var talkspurtBegin := false;
      if !started || !playoutTimer.scheduled {
        started := true;
        talkspurtBegin := true;
      } else if playoutTimer.sendingTime < now - networkDelay - settings.jitterDelay {
        talkspurtBegin := true;
      }
      if talkspurtBegin {
        networkDelay := now - f.timestamp;
        playoutTimer.RescheduleDelay(now, settings.jitterDelay);
      }
    }

    method DiscardLate(f: Frame) returns (ok: bool)
      modifies this`cb, this`db, this`elossEvents, this`discarded
      ensures BufferState() == DropLate(old(BufferState()), f)
      ensures match Count(old(Counters()), Late)
              case CountedAs(t) => ok && Counters() == t
              case EventsEmpty => !ok
    {
      db := db + [f.seqNo];
      ok := CountLoss(Late);
      cb := Sort(cb);
    }

    /** The full ring overwrites its earliest frame, which is assumed to have time left. */
    method OverwriteEarliest(now: real, f: Frame) returns (discard: Frame, fault: Option<Fault>)
      requires cb != [] && settings.Usable()
      modifies this`cb, this`db, this`elossEvents, this`discarded
      ensures discard == Earliest(old(cb))
      ensures fault == Failure(settings, old(BufferState()), old(Counters()), Overflow(discard), now)
      ensures fault == None ==> BufferState() == Overwrite(settings, old(BufferState()), f)
      ensures fault == None ==> Counters() == Count(old(Counters()), Overflow(discard)).tally
    {
      SortKeepsLength(cb);
      cb := Sort(cb);
      discard := cb[0];
      if TimeToPlay(discard.timestamp) <= now {
        return discard, Some(OverflowAtDeadline);
      }
      db := db + [discard.seqNo];
      var ok := CountLoss(Overflow(discard));
      fault := if ok then None else Some(EmptyEvents);
      cb := Sort(PushBack(settings.capacity, cb, f));
    }

    method AdmitFrame(f: Frame)
      requires settings.Usable()
      modifies this`cb, this`discarded, this`elastReceived
      ensures BufferState() == Admit(settings, old(BufferState()), f)
      ensures Count(old(Counters()), Admitted) == CountedAs(Counters())
    {
      cb := Sort(PushBack(settings.capacity, cb, f));
      discarded := false;
      elastReceived := elastReceived + 1;
    }

    method PlaceFrame(now: real, f: Frame) returns (verdict: Verdict, fault: Option<Fault>)
      requires settings.Usable()
      modifies this`cb, this`db, this`elossEvents, this`discarded, this`elastReceived
      ensures verdict == Place(settings, old(BufferState()), f).1
      ensures fault == Failure(settings, old(BufferState()), old(Counters()), verdict, now)
      ensures fault == None ==> BufferState() == Place(settings, old(BufferState()), f).0
      ensures fault == None ==> Counters() == Count(old(Counters()), verdict).tally
    {
      fault := None;
      if TimeToPlay(f.timestamp) < playoutTimer.arrivalTime {
        verdict := Late;
        var ok := DiscardLate(f);
        fault := if ok then None else Some(EmptyEvents);
      } else if |cb| >= settings.capacity {
        var discard;
        discard, fault := OverwriteEarliest(now, f);
        verdict := Overflow(discard);
      } else {
        verdict := Admitted;
        AdmitFrame(f);
      }
    }

    method ProcessRtpData(now: real, f: Frame) returns (verdict: Verdict, fault: Option<Fault>)
      requires settings.Usable()
      requires !started ==> !playoutTimer.scheduled
      modifies this`started, this`networkDelay, this`cb, this`db, playoutTimer
      modifies this`elossEvents, this`discarded, this`elastReceived
      ensures started
      ensures verdict == Receive(settings, old(BufferState()), now, f).1
      ensures fault == Failure(settings, Receive(settings, old(BufferState()), now, f).0, old(Counters()), verdict, now)
      ensures fault == None ==> BufferState() == Receive(settings, old(BufferState()), now, f).0
      ensures fault == None ==> Counters() == Count(old(Counters()), verdict).tally
    {
      CheckTalkspurt(now, f);
      verdict, fault := PlaceFrame(now, f);
    }

    /** Plays the earliest frame and re-arms the timer for the next one. */
    method TakeFront(now: real) returns (played: Frame)
      requires cb != [] && !playoutTimer.scheduled
      requires forall f :: f in cb ==> now <= TimeToPlay(f.timestamp)
      modifies this`cb, playoutTimer
      ensures (BufferState(), played) == PlayOut(settings, old(BufferState()), now)
    {
      SortKeepsLength(cb);
      SortKeepsMembers(cb);
      cb := Sort(cb);
      played := cb[0];
      cb := cb[1..];
      if cb != [] {
        var nextPlayoutTime := TimeToPlay(cb[0].timestamp);
        playoutTimer.Reschedule(now, nextPlayoutTime);
      }
    }

    method PlayFront(now: real) returns (played: Frame)
      requires cb != [] && playoutTimer.scheduled
      requires forall f :: f in cb ==> now <= TimeToPlay(f.timestamp)
      modifies this`cb, this`emeanDelay, this`discarded, playoutTimer
      ensures (BufferState(), played) == PlayOut(settings, old(BufferState()), now)
      ensures Counters() == old(Counters()).(discarded := false,
                meanDelay := BlendDelay(old(emeanDelay), now - played.timestamp, settings.codecDelay))
    {
      playoutTimer.Deliver();
      played := TakeFront(now);
      CalculateMeanTotalDelay(now, played.timestamp);
      discarded := false;
    }

    /** The callback of the playout timer, called when the kernel delivers it. */
    method PlayoutBufferedPacket() returns (played: Frame)
      requires Valid() && playoutTimer.scheduled
      modifies this, playoutTimer
      ensures Step(settings, old(State()), PlayoutDue) == Next(State()) && Valid()
      ensures played == PlayOut(settings, old(BufferState()), old(playoutTimer.arrivalTime)).1
    {
      ghost var before := State();
      StepConsistent(settings, before, PlayoutDue);
      played := PlayFront(playoutTimer.arrivalTime);
      clock, log := before.rx.buffer.timer.arrivalTime, Play(settings, before).log;
      assert State() == Play(settings, before);
    }

    method CalculateMeanTotalDelay(now: real, timestamp: real)
      modifies this`emeanDelay
      ensures emeanDelay == BlendDelay(old(emeanDelay), now - timestamp, settings.codecDelay)
    {
      var playoutDelay := now - timestamp;
      emeanDelay := (emeanDelay + playoutDelay + settings.codecDelay) / 2.0;
    }

    // ----- The rating -----

    /** Every gap of the interval counts as one loss event. */
    method AppendDropped()
      modifies this`elossEvents
      ensures elossEvents == old(elossEvents) + Sizes(probableDropped)
    {
      ghost var before := elossEvents;
      for i := 0 to |probableDropped|
        invariant elossEvents == before + Sizes(probableDropped[..i])
      {
        assert Sizes(probableDropped[..i + 1]) == Sizes(probableDropped[..i]) + [|probableDropped[i]|];
        elossEvents := elossEvents + [|probableDropped[i]|];
      }
      assert probableDropped[..|probableDropped|] == probableDropped;
    }

    /** Rates the interval and clears its counters. */
    method RateInterval() returns (rating: Option<real>)
      modifies this`emeanDelay, this`elossEvents, this`elossEventsCount, this`elostPackets
      modifies this`probableDropped, this`elastReceived, this`elastExpected
      ensures var events := old(elossEvents + Sizes(probableDropped));
              && rating == IntervalRating(old(emeanDelay), bpl, ie, old(Expected(State().rx)), Sum(events), |events|)
              && SenderState() == old(SenderState()).(dropped := [])
              && Counters() == Tally(0, [], discarded, cycles + maxSeq, old(elossEventsCount) + |events|,
                                     old(elostPackets) + Sum(events), 0.0)
    {
      var expected: int := cycles + maxSeq - elastExpected;
      if elastExpected == 0 {
        expected := expected + 1;
      }
      AppendDropped();
      var lost := Accumulate(elossEvents);
      rating := IntervalRating(emeanDelay, bpl, ie, expected, lost, |elossEvents|);
      ClearInterval(lost);
    }

    method ClearInterval(lost: nat)
      modifies this`emeanDelay, this`elossEvents, this`elossEventsCount, this`elostPackets
      modifies this`probableDropped, this`elastReceived, this`elastExpected
      ensures SenderState() == old(SenderState()).(dropped := [])
      ensures Counters() == Tally(0, [], discarded, cycles + maxSeq, old(elossEventsCount + |elossEvents|),
                                  old(elostPackets) + lost, 0.0)
    {
      emeanDelay := 0.0;
      elossEventsCount := elossEventsCount + |elossEvents|;
      elostPackets := elostPackets + lost;
      elossEvents := [];
      probableDropped := [];
      elastReceived := 0;
      elastExpected := cycles + maxSeq;
    }

    /** Before the first packet there is nothing to rate. */
    method CalculateRFactor(now: real) returns (rating: Option<real>)
      requires Valid() && Legal(State(), RatingDue(now))
      modifies this
      ensures Step(settings, old(State()), RatingDue(now)) == Next(State()) && Valid()
      ensures var i := TakeInterval(old(State()).rx);
              rating == if old(started) then IntervalRating(i.meanDelay, bpl, ie, i.expected, Sum(i.events), |i.events|)
                        else None
    {
      StepConsistent(settings, State(), RatingDue(now));
      if !started {
        clock := now;
        return None;
      }
      rating := RateStarted(now);
    }

    method RateStarted(now: real) returns (rating: Option<real>)
      requires started
      modifies this
      ensures State() == Rate(old(State()), now)
      ensures var i := TakeInterval(old(State()).rx);
              rating == IntervalRating(i.meanDelay, bpl, ie, i.expected, Sum(i.events), |i.events|)
    {
      ghost var before := State();
      rating := RateInterval();
      clock, log := now, Rate(before, now).log;
    }
  }
}
