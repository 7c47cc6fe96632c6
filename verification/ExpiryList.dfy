/** The expiry list as the container it is: a sequence kept in heap order and one timer
    that is cancelled and re-armed, each operation proved to be a step of Expiry. */
module ExpiryLists {
  import opened Counting
  import opened Expiry
  import opened Timers

  predicate ParentExpiresFirst(s: seq<Entry>, i: nat)
    requires 1 <= i < |s|
  {
    s[(i - 1) / 2].expiry <= s[i].expiry
  }

  /** The order `make_heap` establishes with a greater-than comparison. */
  predicate IsHeap(s: seq<Entry>) {
    forall i :: 1 <= i < |s| ==> ParentExpiresFirst(s, i)
  }

  predicate IsSorted(s: seq<Entry>) {
    forall i, j :: 0 <= i < j < |s| ==> s[i].expiry <= s[j].expiry
  }

  lemma {:induction false} ParentsExpireFirst(s: seq<Entry>, i: nat)
    requires IsHeap(s) && i < |s|
    ensures s[0].expiry <= s[i].expiry
    decreases i
  {
    if i > 0 {
      assert ParentExpiresFirst(s, i);
      ParentsExpireFirst(s, (i - 1) / 2);
    }
  }

  lemma FrontIsLeast(s: seq<Entry>)
    requires IsHeap(s) && s != []
    ensures IsLeast(s[0], multiset(s))
  {
    forall f | f in multiset(s) ensures s[0].expiry <= f.expiry {
      var i :| 0 <= i < |s| && s[i] == f;
      ParentsExpireFirst(s, i);
    }
  }

  method InsertSorted(s: seq<Entry>, x: Entry) returns (r: seq<Entry>)
    requires IsSorted(s)
    ensures IsSorted(r) && multiset(r) == multiset(s) + multiset{x}
  {
    var i := 0;
    while i < |s| && s[i].expiry <= x.expiry
      invariant i <= |s|
      invariant forall j :: 0 <= j < i ==> s[j].expiry <= x.expiry
    {
      i := i + 1;
    }
    r := s[..i] + [x] + s[i..];
    InsertedContents(s, i, x);
  }

  lemma InsertedContents(s: seq<Entry>, i: nat, x: Entry)
    requires i <= |s|
    ensures multiset(s[..i] + [x] + s[i..]) == multiset(s) + multiset{x}
  {
    assert s == s[..i] + s[i..];
  }

  /** Stands for `make_heap` (and the repair inside `pop_heap`): callers rely on nothing
      but the heap order and the contents. */
  method MakeHeap(s: seq<Entry>) returns (heap: seq<Entry>)
    ensures IsHeap(heap) && multiset(heap) == multiset(s) && |heap| == |s|
  {
    heap := [];
    for k := 0 to |s|
      invariant IsSorted(heap) && multiset(heap) == multiset(s[..k])
    {
      assert s[..k + 1] == s[..k] + [s[k]];
      heap := InsertSorted(heap, s[k]);
    }
    assert s[..|s|] == s;
    assert |multiset(heap)| == |heap| && |multiset(s)| == |s|;
  }

  /** `pop_heap`: the front goes to the back, the others form a heap. */
  method PopHeap(s: seq<Entry>) returns (heap: seq<Entry>)
    requires s != []
    ensures |heap| == |s| && heap[|heap| - 1] == s[0]
    ensures IsHeap(heap[..|heap| - 1]) && multiset(heap[..|heap| - 1]) == multiset(s) - multiset{s[0]}
  {
    var rest := MakeHeap(s[1..]);
    TailContents(s);
    heap := rest + [s[0]];
    assert heap[..|heap| - 1] == rest;
  }

  function OfKey(s: seq<Entry>, key: int): multiset<Entry> {
    if s == [] then multiset{}
    else OfKey(s[1..], key) + if s[0].key == key then multiset{s[0]} else multiset{}
  }

  lemma {:induction false} OfKeyMatches(s: seq<Entry>, key: int)
    ensures Matching(key, multiset(s), OfKey(s, key))
  {
    if s != [] {
      OfKeyMatches(s[1..], key);
      assert s == [s[0]] + s[1..];
      assert multiset(s) == multiset{s[0]} + multiset(s[1..]);
    }
  }

  /** `std::remove`: the entries that are not equal to one of that key, in their order. */
  function Without(s: seq<Entry>, key: int): seq<Entry> {
    if s == [] then [] else (if s[0].key == key then [] else [s[0]]) + Without(s[1..], key)
  }

  lemma {:induction false} WithoutContents(s: seq<Entry>, key: int)
    ensures OfKey(s, key) <= multiset(s)
    ensures multiset(Without(s, key)) == multiset(s) - OfKey(s, key)
  {
    if s != [] {
      WithoutContents(s[1..], key);
      assert s == [s[0]] + s[1..];
      assert multiset(s) == multiset{s[0]} + multiset(s[1..]);
    }
  }

  /** The timer stands for the front of the heap. */
  predicate ArmedForFront(entries: seq<Entry>, timer: TimerState, now: real) {
    if entries == [] then !timer.scheduled
    else timer.scheduled && timer.arrivalTime == entries[0].expiry && now <= entries[0].expiry
  }

  lemma ArmedMeansLeast(entries: seq<Entry>, timer: TimerState, now: real)
    requires IsHeap(entries) && ArmedForFront(entries, timer, now)
    ensures ArmedForLeast(multiset(entries), timer, now)
    ensures forall e :: e in entries ==> timer.arrivalTime <= e.expiry
  {
    if entries != [] {
      FrontIsLeast(entries);
      assert entries[0] in multiset(entries);
      assert forall e :: e in entries ==> e in multiset(entries);
    }
  }

  class ExpiryEntryList {
    const sig: TimerMessage
    var entries: seq<Entry>

    /** The abstract state, with the history that the operations add to. */
    ghost var view: ListState

    constructor ()
      ensures fresh(sig) && view == FRESH && Valid()
    {
      sig := new TimerMessage();
      entries := [];
      view := FRESH;
    }

    ghost predicate Valid()
      reads this, sig
    {
      && view.live == multiset(entries) && view.timer == sig.State()
      && IsHeap(entries) && ArmedForFront(entries, view.timer, view.now)
    }

    /** Arms the timer for the front of the heap; the front of an empty container is
        undefined. */
    method Reschedule(now: real)
      requires entries != [] && now <= entries[0].expiry
      modifies sig
      ensures ArmedForFront(entries, sig.State(), now)
    {
      sig.Reschedule(now, entries[0].expiry);
    }

    method SortAndReset(now: real)
      requires entries != []
      requires forall e :: e in entries ==> now <= e.expiry
      modifies this`entries, sig
      ensures multiset(entries) == old(multiset(entries))
      ensures IsHeap(entries) && ArmedForFront(entries, sig.State(), now)
    {
      ghost var before := entries;
      entries := MakeHeap(entries);
      assert entries[0] in multiset(before);
      if sig.scheduled {
        sig.Cancel();
      }
      Reschedule(now);
    }

    /** Puts `x` last and restores heap and timer. */
    method Append(now: real, x: Entry)
      requires now <= x.expiry
      requires forall e :: e in entries ==> now <= e.expiry
      modifies this`entries, sig
      ensures multiset(entries) == multiset(old(entries)) + multiset{x}
      ensures IsHeap(entries) && ArmedForFront(entries, sig.State(), now)
    {
      entries := entries + [x];
      SortAndReset(now);
    }

    method PushBack(now: real, x: Entry)
      requires Valid() && InTime(view, now) && now <= x.expiry
      modifies this, sig
      ensures Valid() && Step(old(view), Push(now, x), view)
    {
      ArmedMeansLeast(entries, view.timer, view.now);
      Append(now, x);
      view := Pushed(view, entries, sig.State(), now, x);
    }

    method RemoveEqual(x: Entry)
      modifies this`entries
      ensures multiset(entries) == multiset(old(entries)) - OfKey(old(entries), x.key)
      ensures forall e :: e in entries ==> e in old(entries)
    {
      WithoutContents(entries, x.key);
      RestMembers(entries, Without(entries, x.key), OfKey(entries, x.key));
      entries := Without(entries, x.key);
    }

    method AddOrUpdate(now: real, x: Entry)
      requires Valid() && InTime(view, now) && now <= x.expiry
      modifies this, sig
      ensures Valid() && Step(old(view), Expiry.AddOrUpdate(now, x), view)
    {
      ghost var before := entries;
      ArmedMeansLeast(entries, view.timer, view.now);
      RemoveEqual(x);
      Append(now, x);
      view := Updated(view, before, entries, sig.State(), now, x);
    }

    /** Takes one entry out. With no other entry left the reset reads the front of an empty
        container: `defined` says whether the source is defined. */
    method Erase(now: real, i: nat) returns (defined: bool)
      requires Valid() && InTime(view, now) && i < |entries|
      modifies this, sig
      ensures defined <==> |old(entries)| != 1
      ensures defined ==> Valid() && Step(old(view), Expiry.Erase(now, old(entries)[i]), view)
    {
      ghost var x := entries[i];
      ArmedMeansLeast(entries, view.timer, view.now);
      TakenOut(entries, i);
      entries := entries[..i] + entries[i + 1..];
      if entries == [] {
        return false;
      }
      SortAndReset(now);
      view := Erased(view, entries, sig.State(), now, x);
      defined := true;
    }

    /** The callback of the timer: calls back the front of the heap and re-arms. */
    method RemoveExpiredEntry() returns (expired: Entry)
      requires Valid() && sig.scheduled
      modifies this, sig
      ensures Valid() && Step(old(view), Expire, view)
      ensures view.fired == old(view.fired) + [Firing(old(sig.arrivalTime), expired)]
    {
      ghost var before := entries;
      var now := sig.arrivalTime;
      sig.Deliver();
      entries := PopHeap(entries);
      expired := entries[|entries| - 1];
      entries := entries[..|entries| - 1];
      if entries != [] {
        FrontNotPast(before, entries);
        Reschedule(now);
      }
      view := Expired(view, before, entries, sig.State());
    }
  }

  // ----- The operations are steps -----

  lemma RestMembers(s: seq<Entry>, rest: seq<Entry>, gone: multiset<Entry>)
    requires multiset(rest) == multiset(s) - gone
    ensures forall e :: e in rest ==> e in s
  {
    forall e | e in rest ensures e in s {
      assert e in multiset(rest);
      assert e in multiset(s);
    }
  }

  lemma FrontNotPast(list: seq<Entry>, rest: seq<Entry>)
    requires list != [] && IsHeap(list) && rest != []
    requires multiset(rest) == multiset(list) - multiset{list[0]}
    ensures list[0].expiry <= rest[0].expiry
  {
    FrontIsLeast(list);
    assert rest[0] in multiset(rest);
    assert rest[0] in multiset(list);
  }

  ghost function Pushed(s: ListState, after: seq<Entry>, timer: TimerState, now: real, x: Entry): (t: ListState)
    requires InTime(s, now) && now <= x.expiry && multiset(after) == s.live + multiset{x}
    requires IsHeap(after) && ArmedForFront(after, timer, now)
    ensures t.live == multiset(after) && t.timer == timer && t.now == now && Step(s, Push(now, x), t)
  {
    ArmedMeansLeast(after, timer, now);
    ListState(multiset(after), timer, now, s.fired, s.added + multiset{x}, s.taken)
  }

  ghost function Updated(s: ListState, list: seq<Entry>, after: seq<Entry>, timer: TimerState, now: real, x: Entry)
    : (t: ListState)
    requires InTime(s, now) && now <= x.expiry && s.live == multiset(list)
    requires multiset(after) == s.live - OfKey(list, x.key) + multiset{x}
    requires IsHeap(after) && ArmedForFront(after, timer, now)
    ensures t.live == multiset(after) && t.timer == timer && t.now == now && Step(s, AddOrUpdate(now, x), t)
  {
    ArmedMeansLeast(after, timer, now);
    OfKeyMatches(list, x.key);
    WithoutContents(list, x.key);
    ListState(multiset(after), timer, now, s.fired, s.added + multiset{x}, s.taken + OfKey(list, x.key))
  }

  ghost function Erased(s: ListState, after: seq<Entry>, timer: TimerState, now: real, x: Entry): (t: ListState)
    requires InTime(s, now) && x in s.live && s.live != multiset{x}
    requires multiset(after) == s.live - multiset{x}
    requires IsHeap(after) && ArmedForFront(after, timer, now)
    ensures t.live == multiset(after) && t.timer == timer && t.now == now && Step(s, Erase(now, x), t)
  {
    ArmedMeansLeast(after, timer, now);
    ListState(multiset(after), timer, now, s.fired, s.added, s.taken + multiset{x})
  }

  ghost function Expired(s: ListState, list: seq<Entry>, rest: seq<Entry>, timer: TimerState): (t: ListState)
    requires list != [] && s.live == multiset(list) && IsHeap(list) && ArmedForFront(list, s.timer, s.now)
    requires multiset(rest) == multiset(list) - multiset{list[0]} && IsHeap(rest)
    requires ArmedForFront(rest, timer, s.timer.arrivalTime)
    ensures t.live == multiset(rest) && t.timer == timer && t.now == s.timer.arrivalTime && Step(s, Expire, t)
    ensures t.fired == s.fired + [Firing(s.timer.arrivalTime, list[0])]
  {
    FrontIsLeast(list);
    ArmedMeansLeast(rest, timer, s.timer.arrivalTime);
    ListState(multiset(rest), timer, s.timer.arrivalTime,
              s.fired + [Firing(s.timer.arrivalTime, list[0])], s.added, s.taken)
  }

  lemma TakenOut(s: seq<Entry>, i: nat)
    requires i < |s|
    ensures multiset(s[..i] + s[i + 1..]) == multiset(s) - multiset{s[i]}
    ensures |s| != 1 ==> multiset(s) != multiset{s[i]}
    ensures s[i] in multiset(s)
  {
    assert s == s[..i] + [s[i]] + s[i + 1..];
    assert |multiset(s)| == |s|;
  }
}
