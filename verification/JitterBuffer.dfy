/** The constant jitter buffer of Applications/RTPApp/RTPVoip.cc: which frames are
    admitted, discarded, overwritten and played, driven by one re-armed timer. */
module JitterBuffer {
  import opened Frames
  import opened Timers

  /** The source asserts that an empty buffer is not full (line 129), so the capacity is
      positive; see `Configure` for the delay. */
  datatype Settings = Settings(capacity: nat, jitterDelay: real, codecDelay: real) {
    predicate Usable() {
      0 < capacity && 0.0 < jitterDelay
    }
  }

  /** The buffer holds twice the packets that fit into the delay (lines 120-127). */
  function Configure(packetisationInterval: real, jitterDelay: real, codecDelay: real): Settings
    requires 0.0 < packetisationInterval && 0.0 <= jitterDelay
  {
    Settings(2 * (jitterDelay / packetisationInterval).Floor, jitterDelay, codecDelay)
  }

  /** The assertion holds exactly if the delay covers one packetisation interval. */
  lemma UsableIff(packetisationInterval: real, jitterDelay: real, codecDelay: real)
    requires 0.0 < packetisationInterval && 0.0 <= jitterDelay
    ensures Configure(packetisationInterval, jitterDelay, codecDelay).Usable() <==> packetisationInterval <= jitterDelay
  {
    var q := jitterDelay / packetisationInterval;
    assert q * packetisationInterval == jitterDelay;
    assert packetisationInterval <= jitterDelay <==> 1.0 <= q;
  }

  datatype Buffer = Buffer(timer: TimerState, networkDelay: real, cb: seq<Frame>, db: seq<nat>)

  /** What happened to an arriving frame. */
  datatype Verdict = Admitted | Late | Overflow(evicted: Frame)

  const EMPTY := Buffer(IDLE, 0.0, [], [])

  function PlayoutTime(p: Settings, b: Buffer, timestamp: real): real {
    timestamp + b.networkDelay + p.jitterDelay
  }

  /** The second disjunct is the re-baselining test of a buffer whose timer is pending. */
  predicate TalkspurtBegins(p: Settings, b: Buffer, now: real) {
    !b.timer.scheduled || b.timer.sendingTime < now - b.networkDelay - p.jitterDelay
  }

  /** A talkspurt takes its network delay from its first packet. */
  function Rebase(p: Settings, b: Buffer, now: real, f: Frame): Buffer {
    if TalkspurtBegins(p, b, now) then
      b.(networkDelay := now - f.timestamp, timer := Armed(now, now + p.jitterDelay))
    else
      b
  }

  /** `push_back` of a ring of fixed capacity: when full it overwrites the front. */
  function PushBack(capacity: nat, ring: seq<Frame>, f: Frame): seq<Frame>
    requires 0 < capacity
  {
    if |ring| >= capacity then ring[1..] + [f] else ring + [f]
  }

  function DropLate(b: Buffer, f: Frame): Buffer {
    b.(cb := Sort(b.cb), db := b.db + [f.seqNo])
  }

  function Admit(p: Settings, b: Buffer, f: Frame): Buffer
    requires p.Usable()
  {
    b.(cb := Sort(PushBack(p.capacity, b.cb, f)))
  }

  function Earliest(cb: seq<Frame>): Frame
    requires cb != []
  {
    SortKeepsLength(cb);
    Sort(cb)[0]
  }

  /** The full ring is sorted first, so that the earliest frame is the one overwritten. */
  function Overwrite(p: Settings, b: Buffer, f: Frame): Buffer
    requires p.Usable() && b.cb != []
  {
    b.(cb := Sort(PushBack(p.capacity, Sort(b.cb), f)), db := b.db + [Earliest(b.cb).seqNo])
  }

  /** Late, overwriting or simply admitted. */
  function Place(p: Settings, b: Buffer, f: Frame): (Buffer, Verdict)
    requires p.Usable()
  {
    if PlayoutTime(p, b, f.timestamp) < b.timer.arrivalTime then (DropLate(b, f), Late)
    else if |b.cb| >= p.capacity then (Overwrite(p, b, f), Overflow(Earliest(b.cb)))
    else (Admit(p, b, f), Admitted)
  }

  function Receive(p: Settings, b: Buffer, now: real, f: Frame): (Buffer, Verdict)
    requires p.Usable()
  {
    Place(p, Rebase(p, b, now, f), f)
  }

  /** The timer callback: play the front, re-arm for the new front if there is one. */
  function PlayOut(p: Settings, b: Buffer, now: real): (Buffer, Frame)
    requires b.cb != []
  {
    SortKeepsLength(b.cb);
    var sorted := Sort(b.cb);
    var rest := b.(cb := sorted[1..], timer := b.timer.Delivered());
    (if rest.cb == [] then rest else rest.(timer := Armed(now, PlayoutTime(p, rest, rest.cb[0].timestamp))),
     sorted[0])
  }

  // ----- The state a run can reach -----

  /** Holds after every event; `now` is the time of that event. */
  ghost predicate Valid(p: Settings, b: Buffer, now: real) {
    && p.Usable()
    && |b.cb| <= p.capacity
    && IsSorted(b.cb)
    && (b.timer.scheduled <==> b.cb != [])
    && (forall f :: f in b.cb ==> f.timestamp <= now)
    && (b.timer.scheduled ==> Pending(p, b, now))
  }

  /** The pending timer lies ahead, within one buffer delay of when it was set, and not
      after the playout time of any frame it could play. */
  ghost predicate Pending(p: Settings, b: Buffer, now: real) {
    && now <= b.timer.arrivalTime
    && b.timer.arrivalTime <= b.timer.sendingTime + b.networkDelay + p.jitterDelay
    && (forall f :: f in b.cb ==> b.timer.arrivalTime <= PlayoutTime(p, b, f.timestamp))
  }

  /** The kernel delivers events in time order: an arrival at `now` is handled no later
      than the pending timer, and a frame is not received before it was stamped. */
  ghost predicate CanArrive(b: Buffer, last: real, now: real, f: Frame) {
    last <= now && f.timestamp <= now && (b.timer.scheduled ==> now <= b.timer.arrivalTime)
  }

  /** The re-baselining test at line 509 never succeeds while the timer is pending, so the
      network delay changes only when the buffer is empty. */
  lemma RebaseOnlyWhenIdle(p: Settings, b: Buffer, last: real, now: real, f: Frame)
    requires Valid(p, b, last) && CanArrive(b, last, now, f)
    ensures TalkspurtBegins(p, b, now) <==> b.cb == []
    ensures b.cb != [] ==> Receive(p, b, now, f).0.networkDelay == b.networkDelay
                           && Receive(p, b, now, f).0.timer == b.timer
  {
  }

  lemma RebaseIsValid(p: Settings, b: Buffer, last: real, now: real, f: Frame)
    requires Valid(p, b, last) && CanArrive(b, last, now, f)
    ensures var r := Rebase(p, b, now, f);
            && r.timer.scheduled && r.cb == b.cb && Pending(p, r, now)
            && (b.cb == [] ==> r.timer.arrivalTime == PlayoutTime(p, r, f.timestamp))
  {
  }

  lemma RefilledIsValid(p: Settings, r: Buffer, now: real, frames: seq<Frame>, db: seq<nat>)
    requires p.Usable() && r.timer.scheduled && 0 < |frames| <= p.capacity
    requires Pending(p, r.(cb := frames), now)
    requires forall f :: f in frames ==> f.timestamp <= now
    ensures Valid(p, r.(cb := Sort(frames), db := db), now)
  {
    SortKeepsLength(frames);
    SortKeepsMembers(frames);
    SortSorts(frames);
  }

  lemma ReceiveKeepsValid(p: Settings, b: Buffer, last: real, now: real, f: Frame)
    requires Valid(p, b, last) && CanArrive(b, last, now, f)
    ensures Valid(p, Receive(p, b, now, f).0, now)
  {
    RebaseIsValid(p, b, last, now, f);
    var r := Rebase(p, b, now, f);
    var after := Receive(p, b, now, f).0;
    if PlayoutTime(p, r, f.timestamp) < r.timer.arrivalTime {
      RefilledIsValid(p, r, now, b.cb, after.db);
    } else if |b.cb| >= p.capacity {
      SortKeepsLength(b.cb);
      SortKeepsMembers(b.cb);
      var frames := PushBack(p.capacity, Sort(b.cb), f);
      assert forall g :: g in frames ==> g in b.cb || g == f;
      RefilledIsValid(p, r, now, frames, after.db);
    } else {
      var frames := PushBack(p.capacity, b.cb, f);
      assert forall g :: g in frames ==> g in b.cb || g == f;
      RefilledIsValid(p, r, now, frames, after.db);
    }
  }

  lemma PlayOutKeepsValid(p: Settings, b: Buffer, last: real)
    requires Valid(p, b, last) && b.timer.scheduled
    ensures Valid(p, PlayOut(p, b, b.timer.arrivalTime).0, b.timer.arrivalTime)
  {
    SortKeepsLength(b.cb);
    SortKeepsMembers(b.cb);
    SortSorts(b.cb);
    var sorted := Sort(b.cb);
    var rest := sorted[1..];
    assert forall g :: g in rest ==> g in b.cb;
    assert forall g :: g in rest ==> Before(sorted[0], g);
    if rest != [] {
      assert forall g :: g in rest ==> Before(rest[0], g);
    }
  }

  lemma TimesGrows(a: real, b: real, i: real)
    requires 0.0 < i
    ensures a < b <==> a * i < b * i
  {
    assert b * i - a * i == (b - a) * i;
  }

  lemma QuotientBetween(k: real, i: real, j: real, q: real)
    requires 0.0 < i && q * i == j && k * i <= j < (k + 1.0) * i
    ensures k <= q < k + 1.0
  {
    TimesGrows(q, k, i);
    TimesGrows(q, k + 1.0, i);
  }

  /** The capacity is twice the number of whole intervals in the delay. */
  lemma CapacityIs(packetisationInterval: real, jitterDelay: real, codecDelay: real, k: nat)
    requires 0.0 < packetisationInterval
    requires k as real * packetisationInterval <= jitterDelay < (k as real + 1.0) * packetisationInterval
    ensures 0.0 <= jitterDelay
    ensures Configure(packetisationInterval, jitterDelay, codecDelay) == Settings(2 * k, jitterDelay, codecDelay)
  {
    var q := jitterDelay / packetisationInterval;
    TimesGrows(k as real, 0.0, packetisationInterval);
    QuotientBetween(k as real, packetisationInterval, jitterDelay, q);
    assert q.Floor == k;
  }
}
