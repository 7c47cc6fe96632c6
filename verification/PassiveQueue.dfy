/** The passive queue of Base/PassiveQueueBase.cc: packets leave on request, and requests
    that find nothing are remembered. The subclass's queue is first-in first-out; when it
    drops a packet, the victim may be any of those it holds. */
module PassiveQueue {
  import opened Options

  /** Packets are numbered by arrival. `packetRequested` counts unserved requests. */
  datatype State = State(
    packetRequested: nat,
    numReceived: nat,
    numDropped: nat,
    queue: seq<nat>,
    out: seq<nat>,
    requests: nat)

  /** `drop` is the position of the packet the subclass throws away when it has to queue. */
  datatype Event = Arrive(drop: Option<nat>) | Request

  const EMPTY := State(0, 0, 0, [], [], 0)

  function Without(q: seq<nat>, i: nat): seq<nat> {
    if i < |q| then q[..i] + q[i + 1..] else q
  }

  function Handle(s: State, e: Event): State {
    match e
    case Arrive(drop) =>
      var n, t := s.numReceived, s.(numReceived := s.numReceived + 1);
      if s.packetRequested > 0 then
        t.(packetRequested := s.packetRequested - 1, out := s.out + [n])
      else
        var q := s.queue + [n];
        if drop.Some? && drop.value < |q| then t.(queue := Without(q, drop.value), numDropped := s.numDropped + 1)
        else t.(queue := q)
    case Request =>
      var t := s.(requests := s.requests + 1);
      if s.queue == [] then t.(packetRequested := s.packetRequested + 1)
      else t.(queue := s.queue[1..], out := s.out + [s.queue[0]])
  }

  function Run(s: State, events: seq<Event>): State {
    if events == [] then s else Handle(Run(s, events[..|events| - 1]), events[|events| - 1])
  }

  predicate Ascending(s: seq<nat>) {
    forall i, j :: 0 <= i < j < |s| ==> s[i] < s[j]
  }

  /** Requests wait only while nothing is queued; the counters account for every request
      and every packet; packets leave in the order of arrival. */
  ghost predicate Invariant(s: State) {
    && (s.packetRequested > 0 ==> s.queue == [])
    && |s.out| + s.packetRequested == s.requests
    && s.numReceived == |s.out| + s.numDropped + |s.queue|
    && Ascending(s.out + s.queue)
    && forall i :: 0 <= i < |s.out + s.queue| ==> (s.out + s.queue)[i] < s.numReceived
  }

  lemma WithoutKeeps(out: seq<nat>, q: seq<nat>, i: nat, bound: nat)
    requires i < |q| && Ascending(out + q) && forall k :: 0 <= k < |out + q| ==> (out + q)[k] < bound
    ensures Ascending(out + Without(q, i))
    ensures forall k :: 0 <= k < |out + Without(q, i)| ==> (out + Without(q, i))[k] < bound
  {
    var s, at := out + q, |out| + i;
    assert out + Without(q, i) == s[..at] + s[at + 1..];
  }

  lemma HandleKeeps(s: State, e: Event)
    requires Invariant(s)
    ensures Invariant(Handle(s, e))
  {
    match e
    case Arrive(drop) =>
      var n, all := s.numReceived, s.out + s.queue;
      assert Ascending(all + [n]);
      if s.packetRequested > 0 {
        assert (s.out + [n]) + [] == all + [n];
      } else {
        var q := s.queue + [n];
        assert s.out + q == all + [n];
        if drop.Some? && drop.value < |q| {
          WithoutKeeps(s.out, q, drop.value, n + 1);
        }
      }
    case Request =>
      if s.queue != [] {
        assert (s.out + [s.queue[0]]) + s.queue[1..] == s.out + s.queue;
      }
  }

  /** How many packets and requests came. */
  function Arrivals(events: seq<Event>): nat {
    if events == [] then 0
    else Arrivals(events[..|events| - 1]) + if events[|events| - 1].Arrive? then 1 else 0
  }

  function Requests(events: seq<Event>): nat {
    if events == [] then 0
    else Requests(events[..|events| - 1]) + if events[|events| - 1].Request? then 1 else 0
  }

  lemma {:induction false} AccountsBalance(events: seq<Event>)
    ensures var s := Run(EMPTY, events);
            && Invariant(s) && s.numReceived == Arrivals(events) && s.requests == Requests(events)
  {
    if events != [] {
      AccountsBalance(events[..|events| - 1]);
      HandleKeeps(Run(EMPTY, events[..|events| - 1]), events[|events| - 1]);
    }
  }

  /** A drop takes the packet at the chosen position and no other, and only when nobody waits for
      a packet. */
  lemma DropTakesTheChosen(events: seq<Event>, i: nat)
    requires i <= |Run(EMPTY, events).queue|
    ensures var s, t := Run(EMPTY, events), Run(EMPTY, events + [Arrive(Some(i))]);
            var q := s.queue + [s.numReceived];
            if Requests(events) > |s.out| then
              t.out == s.out + [s.numReceived] && t.queue == s.queue && t.numDropped == s.numDropped
            else
              && t.out == s.out && t.numDropped == s.numDropped + 1 && |t.queue| == |s.queue|
              && (forall j :: 0 <= j < i ==> t.queue[j] == q[j]) && (forall j :: i < j < |q| ==> t.queue[j - 1] == q[j])
  {
    AccountsBalance(events);
    assert (events + [Arrive(Some(i))])[..|events|] == events;
  }

  // ----- Without drops the interleaving does not show -----

  predicate DropFree(events: seq<Event>) {
    forall i :: 0 <= i < |events| ==> events[i].Arrive? ==> events[i].drop == None
  }

  function FirstPackets(k: nat): (s: seq<nat>)
    ensures |s| == k && forall i :: 0 <= i < k ==> s[i] == i
  {
    seq(k, i requires 0 <= i => i)
  }

  lemma NothingLost(s: State, e: Event)
    requires (s.packetRequested > 0 ==> s.queue == []) && (e.Arrive? ==> e.drop == None)
    requires s.out + s.queue == FirstPackets(s.numReceived)
    ensures var t := Handle(s, e);
            && t.numReceived == s.numReceived + (if e.Arrive? then 1 else 0)
            && t.requests == s.requests + (if e.Request? then 1 else 0)
            && t.numDropped == s.numDropped && t.out + t.queue == FirstPackets(t.numReceived)
  {
    var t := Handle(s, e);
    if e.Arrive? {
      assert t.out + t.queue == (s.out + s.queue) + [s.numReceived];
    } else {
      assert t.out + t.queue == s.out + s.queue;
    }
  }

  lemma {:induction false} CountsMatch(events: seq<Event>)
    requires DropFree(events)
    ensures var s := Run(EMPTY, events);
            && s.numReceived == Arrivals(events) && s.requests == Requests(events)
            && s.numDropped == 0 && s.out + s.queue == FirstPackets(s.numReceived)
  {
    if events != [] {
      var n := |events| - 1;
      CountsMatch(events[..n]);
      AccountsBalance(events[..n]);
      NothingLost(Run(EMPTY, events[..n]), events[n]);
    }
  }

  /** After any interleaving of arrivals and requests the output is the first packets, as many
      as there were both requests and arrivals. */
  lemma OutputIgnoresInterleaving(events: seq<Event>)
    requires DropFree(events)
    ensures var served := if Requests(events) < Arrivals(events) then Requests(events) else Arrivals(events);
            Run(EMPTY, events).out == FirstPackets(served)
  {
    CountsMatch(events);
    AccountsBalance(events);
    var s := Run(EMPTY, events);
    assert s.out == (s.out + s.queue)[..|s.out|];
    assert s.out == FirstPackets(|s.out|);
  }

  class PassiveQueueModule {
    var packetRequested: nat
    var numReceived: nat
    var numDropped: nat
    var queue: seq<nat>
    var out: seq<nat>
    ghost var requests: nat

    constructor ()
      ensures View() == EMPTY
    {
      packetRequested, numReceived, numDropped, queue, out, requests := 0, 0, 0, [], [], 0;
    }

    ghost function View(): State
      reads this
    {
      State(packetRequested, numReceived, numDropped, queue, out, requests)
    }

    /** The subclass's `enqueue`: true if a packet was dropped. */
    method Enqueue(msg: nat, drop: Option<nat>) returns (dropped: bool)
      modifies this`queue
      ensures var q := old(queue) + [msg];
              && (dropped <==> drop.Some? && drop.value < |q|)
              && queue == if dropped then Without(q, drop.value) else q
    {
      queue := queue + [msg];
      dropped := drop.Some? && drop.value < |queue|;
      if dropped {
        queue := queue[..drop.value] + queue[drop.value + 1..];
      }
    }

    /** The subclass's `dequeue`: nothing if the queue is empty. */
    method Dequeue() returns (msg: Option<nat>)
      modifies this`queue
      ensures if old(queue) == [] then msg == None && queue == []
              else msg == Some(old(queue)[0]) && queue == old(queue)[1..]
    {
      if queue == [] {
        return None;
      }
      msg, queue := Some(queue[0]), queue[1..];
    }

    method HandleMessage(msg: nat, drop: Option<nat>)
      requires msg == numReceived
      modifies this
      ensures View() == Handle(old(View()), Arrive(drop))
    {
      numReceived := numReceived + 1;
      if packetRequested > 0 {
        packetRequested := packetRequested - 1;
        out := out + [msg];
      } else {
        var dropped := Enqueue(msg, drop);
        if dropped {
          numDropped := numDropped + 1;
        }
      }
    }

    method RequestPacket()
      modifies this
      ensures View() == Handle(old(View()), Request)
    {
      var msg := Dequeue();
      if msg == None {
        packetRequested := packetRequested + 1;
      } else {
        out := out + [msg.value];
      }
      requests := requests + 1;
    }
  }
}
