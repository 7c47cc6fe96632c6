/** The single-server queue of Base/AbstractQueue.cc with the FIFO behaviour of
    Base/QueueBase.cc. Messages are numbered by arrival; `service(n)` is what
    `startService` returns for message `n` (a constant in QueueBase). */
module SingleServerQueue {
  import opened Options
  import opened Reals
  import opened Timers

  datatype Departure = Departure(msg: nat, time: real)

  datatype Station = Station(
    serving: Option<nat>,
    endService: TimerState,
    queue: seq<nat>,
    now: real,
    arrivals: seq<real>,
    departures: seq<Departure>)

  datatype Event = Arrive(time: real) | EndService

  const EMPTY_STATION := Station(None, IDLE, [], 0.0, [], [])

  predicate Legal(s: Station, e: Event) {
    match e
    case Arrive(time) => s.now <= time && (s.endService.scheduled ==> time <= s.endService.arrivalTime)
    case EndService => s.endService.scheduled && s.serving.Some?
  }

  function Handle(s: Station, e: Event, service: nat -> real): Station
    requires Legal(s, e)
  {
    match e
    case Arrive(now) =>
      var n, t := |s.arrivals|, s.(now := now, arrivals := s.arrivals + [now]);
      if s.serving == None then t.(serving := Some(n), endService := Armed(now, now + service(n)))
      else t.(queue := s.queue + [n])
    case EndService =>
      var now := s.endService.arrivalTime;
      var t := s.(now := now, departures := s.departures + [Departure(s.serving.value, now)]);
      if s.queue == [] then t.(serving := None, endService := s.endService.Delivered())
      else t.(serving := Some(s.queue[0]), queue := s.queue[1..], endService := Armed(now, now + service(s.queue[0])))
  }

  predicate LegalRun(s: Station, events: seq<Event>, service: nat -> real)
    decreases |events|
  {
    events == [] || (Legal(s, events[0]) && LegalRun(Handle(s, events[0], service), events[1..], service))
  }

  function Run(s: Station, events: seq<Event>, service: nat -> real): Station
    requires LegalRun(s, events, service)
    decreases |events|
  {
    if events == [] then s else Run(Handle(s, events[0], service), events[1..], service)
  }

  // ----- When the messages should leave -----

  /** A message is served after it arrived and after the one before it left. */
  function Leaves(arrivals: seq<real>, n: nat, service: nat -> real): real
    requires n < |arrivals|
  {
    if n == 0 then arrivals[0] + service(0)
    else Max(arrivals[n], Leaves(arrivals, n - 1, service)) + service(n)
  }

  /** The service times of messages `k` to `n`. */
  function Work(k: nat, n: nat, service: nat -> real): real
    requires k <= n
  {
    if k == n then service(n) else Work(k, n - 1, service) + service(n)
  }

  lemma {:induction false} LeavesPrefix(arrivals: seq<real>, more: seq<real>, n: nat, service: nat -> real)
    requires n < |arrivals|
    ensures Leaves(arrivals + more, n, service) == Leaves(arrivals, n, service)
  {
    if n > 0 {
      LeavesPrefix(arrivals, more, n - 1, service);
    }
  }

  /** Max-plus form: a message leaves at the latest of all the times `a_k` plus the work of
      messages `k` to `n`. */
  lemma {:induction false} LeavesIsMaxPlus(arrivals: seq<real>, n: nat, service: nat -> real)
    requires n < |arrivals|
    ensures forall k :: 0 <= k <= n ==> arrivals[k] + Work(k, n, service) <= Leaves(arrivals, n, service)
    ensures exists k :: 0 <= k <= n && arrivals[k] + Work(k, n, service) == Leaves(arrivals, n, service)
  {
    if n == 0 {
      assert arrivals[0] + Work(0, 0, service) == Leaves(arrivals, 0, service);
    } else {
      LeavesIsMaxPlus(arrivals, n - 1, service);
      var d := Leaves(arrivals, n - 1, service);
      var k :| 0 <= k <= n - 1 && arrivals[k] + Work(k, n - 1, service) == d;
      var best := if arrivals[n] < d then k else n;
      assert arrivals[best] + Work(best, n, service) == Leaves(arrivals, n, service);
      forall j | 0 <= j <= n ensures arrivals[j] + Work(j, n, service) <= Leaves(arrivals, n, service) {
        if j < n {
          assert arrivals[j] + Work(j, n - 1, service) <= d;
        }
      }
    }
  }

  lemma {:induction false} ConstantWork(k: nat, n: nat, delay: real)
    requires k <= n
    ensures Work(k, n, _ => delay) == (n - k + 1) as real * delay
  {
    if k < n {
      ConstantWork(k, n - 1, delay);
      var f := (m: nat) => delay;
      assert Work(k, n, f) == Work(k, n - 1, f) + delay;
      assert (n - k + 1) as real == (n - 1 - k + 1) as real + 1.0;
    }
  }

  // ----- What every event keeps -----

  /** What has arrived and what has left. */
  ghost predicate PastIsRight(s: Station, service: nat -> real) {
    && |s.departures| <= |s.arrivals|
    && (forall k :: 0 <= k < |s.arrivals| ==> s.arrivals[k] <= s.now)
    && (forall k :: 0 <= k < |s.departures| ==>
          s.departures[k] == Departure(k, Leaves(s.arrivals, k, service)) && s.departures[k].time <= s.now)
  }

  /** What is being served and what waits, when `done` messages of `all` have left. */
  ghost predicate InOrder(s: Station, done: nat, all: nat) {
    && s.serving == (if done < all then Some(done) else None)
    && |s.queue| == (if done < all then all - done - 1 else 0)
    && (forall i :: 0 <= i < |s.queue| ==> s.queue[i] == done + 1 + i)
  }

  ghost predicate ServiceEnds(s: Station, done: nat, service: nat -> real) {
    && s.endService.scheduled == (done < |s.arrivals|)
    && (done < |s.arrivals| ==> s.endService.arrivalTime == Leaves(s.arrivals, done, service)
                                && s.now <= s.endService.arrivalTime)
  }

  ghost predicate Invariant(s: Station, service: nat -> real) {
    && PastIsRight(s, service)
    && InOrder(s, |s.departures|, |s.arrivals|)
    && ServiceEnds(s, |s.departures|, service)
  }

  lemma ArriveKeeps(s: Station, now: real, service: nat -> real)
    requires Invariant(s, service) && Legal(s, Arrive(now)) && forall n: nat :: 0.0 <= service(n)
    ensures Invariant(Handle(s, Arrive(now), service), service)
  {
    var done := |s.departures|;
    forall k | 0 <= k < |s.arrivals| ensures Leaves(s.arrivals + [now], k, service) == Leaves(s.arrivals, k, service) {
      LeavesPrefix(s.arrivals, [now], k, service);
    }
    if s.serving == None && done > 0 {
      assert s.departures[done - 1].time <= s.now;
    }
  }

  lemma {:induction false} RunKeeps(s: Station, events: seq<Event>, service: nat -> real)
    requires Invariant(s, service) && LegalRun(s, events, service) && forall n: nat :: 0.0 <= service(n)
    ensures Invariant(Run(s, events, service), service)
    decreases |events|
  {
    if events != [] {
      match events[0] {
        case Arrive(now) => ArriveKeeps(s, now, service);
        case EndService =>
      }
      RunKeeps(Handle(s, events[0], service), events[1..], service);
    }
  }

  /** Over every run, whichever way ties between an arrival and the end of a service go:
      messages leave in the order of arrival, each at the max-plus time; the server is busy
      exactly while its event is scheduled; an idle server has an empty queue. */
  lemma DeparturesAreMaxPlus(events: seq<Event>, service: nat -> real)
    requires LegalRun(EMPTY_STATION, events, service) && forall n: nat :: 0.0 <= service(n)
    ensures var s := Run(EMPTY_STATION, events, service);
            && |s.departures| <= |s.arrivals|
            && (forall k :: 0 <= k < |s.departures| ==> s.departures[k] == Departure(k, Leaves(s.arrivals, k, service)))
            && (s.serving.Some? <==> s.endService.scheduled)
            && (s.serving == None ==> s.queue == [] && |s.departures| == |s.arrivals|)
  {
    RunKeeps(EMPTY_STATION, events, service);
  }

  /** The times of the arrivals among the events, and how many services end. */
  function Times(events: seq<Event>): seq<real> {
    if events == [] then []
    else (match events[0] case Arrive(time) => [time] case EndService => []) + Times(events[1..])
  }

  function Ends(events: seq<Event>): nat {
    if events == [] then 0 else (if events[0].EndService? then 1 else 0) + Ends(events[1..])
  }

  /** Every arrival counts, and at every end of a service one message leaves. */
  lemma {:induction false} RunFollowsEvents(s: Station, events: seq<Event>, service: nat -> real)
    requires LegalRun(s, events, service)
    ensures Run(s, events, service).arrivals == s.arrivals + Times(events)
    ensures |Run(s, events, service).departures| == |s.departures| + Ends(events)
    decreases |events|
  {
    if events == [] {
      assert s.arrivals + [] == s.arrivals;
    } else {
      var t := Handle(s, events[0], service);
      RunFollowsEvents(t, events[1..], service);
      assert t.arrivals + Times(events[1..]) == s.arrivals + Times(events);
    }
  }

  // ----- The module -----

  class QueueModule {
    const service: nat -> real
    const endServiceMsg: TimerMessage
    var msgServiced: Option<nat>
    var queue: seq<nat>

    ghost var now: real
    ghost var arrivals: seq<real>
    ghost var departures: seq<Departure>

    constructor (service: nat -> real)
      ensures this.service == service && fresh(endServiceMsg) && State() == EMPTY_STATION
    {
      this.service := service;
      endServiceMsg := new TimerMessage();
      msgServiced, queue, now, arrivals, departures := None, [], 0.0, [], [];
    }

    ghost function State(): Station
      reads this, endServiceMsg
    {
      Station(msgServiced, endServiceMsg.State(), queue, now, arrivals, departures)
    }

    /** `handleMessage` for a message from outside. */
    method HandleArrival(time: real, msg: nat)
      requires Legal(State(), Arrive(time)) && msg == |arrivals| && 0.0 <= service(msg)
      requires msgServiced.Some? <==> endServiceMsg.scheduled
      modifies this, endServiceMsg
      ensures State() == Handle(old(State()), Arrive(time), service)
    {
      if msgServiced == None {
        msgServiced := Some(msg);
        var serviceTime := service(msg);
        endServiceMsg.ScheduleAt(time, time + serviceTime);
      } else {
        queue := queue + [msg];
      }
      now, arrivals := time, arrivals + [time];
    }

    /** `handleMessage` for the end-service message, which the kernel has just delivered. */
    method HandleEndService() returns (finished: nat)
      requires Legal(State(), EndService)
      requires queue != [] ==> 0.0 <= service(queue[0])
      modifies this, endServiceMsg
      ensures State() == Handle(old(State()), EndService, service)
      ensures finished == old(msgServiced).value
    {
      var time := endServiceMsg.arrivalTime;
      endServiceMsg.Deliver();
      finished := msgServiced.value;
      departures := departures + [Departure(finished, time)];
      if queue == [] {
        msgServiced := None;
      } else {
        var next := queue[0];
        msgServiced, queue := Some(next), queue[1..];
        var serviceTime := service(next);
        endServiceMsg.ScheduleAt(time, time + serviceTime);
      }
      now := time;
    }
  }
}
