/** The expiry list of Util/ExpiryEntryListSignal.h as a transition system: a multiset of
    entries, one timer, and the callbacks made so far. */
module Expiry {
  import opened Timers

  /** Entries are compared by `key`; `expiry` is an absolute time. */
  datatype Entry = Entry(key: int, expiry: real)

  datatype Firing = Firing(time: real, entry: Entry)

  /** `added` and `taken` record what was put in and what was removed by the owner. */
  datatype ListState = ListState(
    live: multiset<Entry>,
    timer: TimerState,
    now: real,
    fired: seq<Firing>,
    added: multiset<Entry>,
    taken: multiset<Entry>)

  datatype Event =
    | Push(now: real, entry: Entry)
    | AddOrUpdate(now: real, entry: Entry)
    | Erase(now: real, entry: Entry)
    | Expire

  const FRESH := ListState(multiset{}, IDLE, 0.0, [], multiset{}, multiset{})

  ghost predicate IsLeast(e: Entry, live: multiset<Entry>) {
    e in live && forall f :: f in live ==> e.expiry <= f.expiry
  }

  /** Armed for an entry that expires first, or not pending with nothing to wait for. */
  ghost predicate ArmedForLeast(live: multiset<Entry>, timer: TimerState, now: real) {
    if live == multiset{} then !timer.scheduled
    else timer.scheduled && exists e :: IsLeast(e, live) && timer.arrivalTime == e.expiry && now <= e.expiry
  }

  ghost predicate Matching(key: int, all: multiset<Entry>, some: multiset<Entry>) {
    forall e :: some[e] == if e.key == key then all[e] else 0
  }

  /** The kernel has not passed the pending timer when it runs something else. */
  predicate InTime(s: ListState, now: real) {
    s.now <= now && (s.timer.scheduled ==> now <= s.timer.arrivalTime)
  }

  /** One event. The heap leaves open which of several entries that expire together is
      taken first, so this is a relation. Expiry times are not in the past when an entry
      is added, and erasing does not empty the list (see `EraseDefined`). */
  ghost predicate Step(s: ListState, e: Event, t: ListState) {
    match e
    case Push(now, x) =>
      && InTime(s, now) && now <= x.expiry
      && t.live == s.live + multiset{x}
      && ArmedForLeast(t.live, t.timer, now)
      && t.now == now && t.fired == s.fired && t.added == s.added + multiset{x} && t.taken == s.taken
    case AddOrUpdate(now, x) =>
      && InTime(s, now) && now <= x.expiry
      && (exists same: multiset<Entry> :: same <= s.live && Matching(x.key, s.live, same)
            && t.live == s.live - same + multiset{x} && t.taken == s.taken + same)
      && ArmedForLeast(t.live, t.timer, now)
      && t.now == now && t.fired == s.fired && t.added == s.added + multiset{x}
    case Erase(now, x) =>
      && InTime(s, now)
      && x in s.live && s.live != multiset{x}
      && t.live == s.live - multiset{x}
      && ArmedForLeast(t.live, t.timer, now)
      && t.now == now && t.fired == s.fired && t.added == s.added && t.taken == s.taken + multiset{x}
    case Expire =>
      && s.timer.scheduled
      && (exists x :: IsLeast(x, s.live) && t.live == s.live - multiset{x}
            && t.fired == s.fired + [Firing(s.timer.arrivalTime, x)])
      && ArmedForLeast(t.live, t.timer, s.timer.arrivalTime)
      && t.now == s.timer.arrivalTime && t.added == s.added && t.taken == s.taken
  }

  /** `states` is a run from `FRESH` through `events`. */
  ghost predicate IsRun(states: seq<ListState>, events: seq<Event>) {
    && |states| == |events| + 1
    && states[0] == FRESH
    && forall k :: 0 <= k < |events| ==> Step(states[k], events[k], states[k + 1])
  }

  function Entries(fired: seq<Firing>): (r: seq<Entry>)
    ensures |r| == |fired|
    ensures forall k :: 0 <= k < |r| ==> r[k] == fired[k].entry
  {
    seq(|fired|, k requires 0 <= k < |fired| => fired[k].entry)
  }

  /** Callbacks so far came at their own expiry and in order, and none later than now. */
  ghost predicate Timely(fired: seq<Firing>, now: real) {
    && (forall k :: 0 <= k < |fired| ==> fired[k].time == fired[k].entry.expiry <= now)
    && (forall j, k :: 0 <= j < k < |fired| ==> fired[j].entry.expiry <= fired[k].entry.expiry)
  }

  ghost predicate Conserved(s: ListState) {
    s.added == s.live + s.taken + multiset(Entries(s.fired))
  }

  ghost predicate Invariant(s: ListState) {
    ArmedForLeast(s.live, s.timer, s.now) && Timely(s.fired, s.now) && Conserved(s)
  }

  lemma FiredContents(fired: seq<Firing>, f: Firing)
    ensures multiset(Entries(fired + [f])) == multiset(Entries(fired)) + multiset{f.entry}
  {
    assert Entries(fired + [f]) == Entries(fired) + [f.entry];
  }

  lemma ExpireTimely(s: ListState, t: ListState)
    requires ArmedForLeast(s.live, s.timer, s.now) && Timely(s.fired, s.now) && Step(s, Expire, t)
    ensures Timely(t.fired, t.now) && s.now <= t.now
  {
    var x :| IsLeast(x, s.live) && t.live == s.live - multiset{x}
             && t.fired == s.fired + [Firing(s.timer.arrivalTime, x)];
  }

  lemma ExpireConserves(s: ListState, t: ListState)
    requires Conserved(s) && Step(s, Expire, t)
    ensures Conserved(t)
  {
    var x :| IsLeast(x, s.live) && t.live == s.live - multiset{x}
             && t.fired == s.fired + [Firing(s.timer.arrivalTime, x)];
    FiredContents(s.fired, Firing(s.timer.arrivalTime, x));
  }

  lemma StepTimely(s: ListState, e: Event, t: ListState)
    requires ArmedForLeast(s.live, s.timer, s.now) && Timely(s.fired, s.now) && Step(s, e, t)
    ensures ArmedForLeast(t.live, t.timer, t.now) && Timely(t.fired, t.now) && s.now <= t.now
  {
    match e
    case Push(_, _) =>
    case AddOrUpdate(_, _) =>
    case Erase(_, _) =>
    case Expire => ExpireTimely(s, t);
  }

  lemma StepConserves(s: ListState, e: Event, t: ListState)
    requires Conserved(s) && Step(s, e, t)
    ensures Conserved(t)
  {
    match e
    case Push(_, _) =>
    case AddOrUpdate(now, x) =>
    case Erase(now, x) =>
    case Expire => ExpireConserves(s, t);
  }

  lemma StepKeeps(s: ListState, e: Event, t: ListState)
    requires Invariant(s) && Step(s, e, t)
    ensures Invariant(t) && s.now <= t.now
  {
    StepTimely(s, e, t);
    StepConserves(s, e, t);
  }

  lemma {:induction false} RunKeeps(states: seq<ListState>, events: seq<Event>, k: nat)
    requires IsRun(states, events) && k <= |events|
    ensures Invariant(states[k])
  {
    if k == 0 {
      assert Entries([]) == [];
    } else {
      RunKeeps(states, events, k - 1);
      StepKeeps(states[k - 1], events[k - 1], states[k]);
    }
  }

  /** Over every run: the one timer is armed for the least expiry among the live entries,
      every callback comes at its entry's own expiry, callbacks come in order of expiry, and
      every entry ever added is live, was removed by the owner, or was called back, once. */
  lemma EveryEntryOnceAtItsTime(states: seq<ListState>, events: seq<Event>)
    requires IsRun(states, events)
    ensures var s := states[|events|];
            && ArmedForLeast(s.live, s.timer, s.now)
            && (forall k :: 0 <= k < |s.fired| ==> s.fired[k].time == s.fired[k].entry.expiry)
            && (forall j, k :: 0 <= j < k < |s.fired| ==> s.fired[j].entry.expiry <= s.fired[k].entry.expiry)
            && s.added == s.live + s.taken + multiset(Entries(s.fired))
  {
    RunKeeps(states, events, |events|);
  }

  // ----- Left alone, the list empties itself in order -----

  /** What a run of expiries from `s` has done when it ends in `t` with nothing live. */
  ghost predicate Drained(s: ListState, t: ListState) {
    && |s.fired| <= |t.fired| && t.fired[..|s.fired|] == s.fired
    && multiset(Entries(t.fired[|s.fired|..])) == s.live
  }

  lemma OneMoreFiring(fired: seq<Firing>, n: nat, live: multiset<Entry>)
    requires n < |fired| && fired[n].entry in live
    requires multiset(Entries(fired[n + 1..])) == live - multiset{fired[n].entry}
    ensures multiset(Entries(fired[n..])) == live
  {
    assert Entries(fired[n..]) == [fired[n].entry] + Entries(fired[n + 1..]);
  }

  lemma DrainedLater(s: ListState, x: Entry, t: ListState, end: ListState)
    requires x in s.live && t.live == s.live - multiset{x}
    requires t.fired == s.fired + [Firing(s.timer.arrivalTime, x)]
    requires Drained(t, end)
    ensures Drained(s, end)
  {
    var n := |s.fired|;
    assert end.fired[n] == end.fired[..n + 1][n] == t.fired[n];
    OneMoreFiring(end.fired, n, s.live);
    assert end.fired[..n] == end.fired[..n + 1][..n] == t.fired[..n] == s.fired;
  }

  lemma ExpireDrains(s: ListState, t: ListState, end: ListState)
    requires Step(s, Expire, t) && Drained(t, end)
    ensures Drained(s, end)
  {
    var x :| IsLeast(x, s.live) && t.live == s.live - multiset{x}
             && t.fired == s.fired + [Firing(s.timer.arrivalTime, x)];
    DrainedLater(s, x, t, end);
  }

  /** As many expiries as there are entries call back exactly those entries, sorted by
      expiry, and leave the list empty and the timer idle. */
  lemma {:induction false} DrainsInOrder(states: seq<ListState>)
    requires states != [] && Invariant(states[0]) && |states| == |states[0].live| + 1
    requires forall k :: 0 <= k < |states| - 1 ==> Step(states[k], Expire, states[k + 1])
    ensures var t := states[|states| - 1];
            t.live == multiset{} && Invariant(t) && !t.timer.scheduled && Drained(states[0], t)
    decreases |states|
  {
    var s := states[0];
    if |states| == 1 {
      assert Entries(s.fired[|s.fired|..]) == [];
    } else {
      var t, rest := states[1], states[1..];
      assert Step(states[0], Expire, states[1]);
      StepKeeps(s, Expire, t);
      forall k | 0 <= k < |rest| - 1 ensures Step(rest[k], Expire, rest[k + 1]) {
        assert Step(states[k + 1], Expire, states[k + 2]);
      }
      DrainsInOrder(rest);
      ExpireDrains(s, t, states[|states| - 1]);
    }
  }

  // ----- What is live, from the events and the callbacks alone -----

  function Callbacks(events: seq<Event>): nat {
    if events == [] then 0
    else Callbacks(events[..|events| - 1]) + if events[|events| - 1].Expire? then 1 else 0
  }

  /** How many copies of `y` should be live when the expiries among the events called back `fired`. */
  function Copies(events: seq<Event>, fired: seq<Entry>, y: Entry): int
    decreases |events|
  {
    if events == [] then 0
    else
      var before, n := events[..|events| - 1], |fired|;
      match events[|events| - 1]
      case Push(_, x) => Copies(before, fired, y) + if y == x then 1 else 0
      case AddOrUpdate(_, x) => if y == x then 1 else if y.key == x.key then 0 else Copies(before, fired, y)
      case Erase(_, x) => Copies(before, fired, y) - if y == x then 1 else 0
      case Expire =>
        if n == 0 then 0 else Copies(before, fired[..n - 1], y) - if y == fired[n - 1] then 1 else 0
  }

  /** What an event does to the copies of `y` and to the callbacks. */
  ghost predicate Moves(s: ListState, e: Event, t: ListState, y: Entry) {
    match e
    case Push(_, x) => t.live[y] == s.live[y] + (if y == x then 1 else 0) && t.fired == s.fired
    case AddOrUpdate(_, x) =>
      t.live[y] == (if y == x then 1 else if y.key == x.key then 0 else s.live[y]) && t.fired == s.fired
    case Erase(_, x) => t.live[y] + (if y == x then 1 else 0) == s.live[y] && t.fired == s.fired
    case Expire =>
      var n := |s.fired|;
      && |t.fired| == n + 1 && t.fired[..n] == s.fired
      && t.live[y] + (if y == t.fired[n].entry then 1 else 0) == s.live[y]
  }

  lemma StepMoves(s: ListState, e: Event, t: ListState, y: Entry)
    requires Step(s, e, t)
    ensures Moves(s, e, t, y)
  {
  }

  /** One more event, on the counts. */
  lemma CopiesFollow(before: seq<Event>, s: ListState, e: Event, t: ListState, y: Entry, all: seq<Event>)
    requires Moves(s, e, t, y) && all == before + [e]
    requires |s.fired| == Callbacks(before) && s.live[y] == Copies(before, Entries(s.fired), y)
    ensures |t.fired| == Callbacks(all) && t.live[y] == Copies(all, Entries(t.fired), y)
  {
    assert all[..|before|] == before;
    if e.Expire? {
      assert Entries(t.fired)[..|s.fired|] == Entries(s.fired);
    }
  }

  lemma RunSteps(states: seq<ListState>, events: seq<Event>, k: nat)
    requires IsRun(states, events) && k < |events|
    ensures Step(states[k], events[k], states[k + 1])
    ensures events[..k + 1] == events[..k] + [events[k]]
  {
  }

  /** Over every run: an update leaves its entry as the only one of its key and the others as they were,
      a removal or an expiry takes one entry, and every expiry calls back once. */
  lemma {:induction false} LiveFollowsEvents(states: seq<ListState>, events: seq<Event>, k: nat, y: Entry)
    requires IsRun(states, events) && k <= |events|
    ensures |states[k].fired| == Callbacks(events[..k])
    ensures states[k].live[y] == Copies(events[..k], Entries(states[k].fired), y)
  {
    if k > 0 {
      var j := k - 1;
      LiveFollowsEvents(states, events, j, y);
      RunSteps(states, events, j);
      StepMoves(states[j], events[j], states[k], y);
      CopiesFollow(events[..j], states[j], events[j], states[k], y, events[..k]);
    }
  }
}
