/** The self-message timer of Util/cTimerMessage.h.

    A timer is one message of the simulation kernel. The kernel stamps it with the
    time at which it was scheduled and the time at which it will arrive, and keeps
    both stamps after the message was delivered or cancelled. Time is a real. */
module Timers {

  /** The part of a kernel message the models look at. */
  datatype TimerState = TimerState(scheduled: bool, sendingTime: real, arrivalTime: real) {

    /** The kernel delivers the message: it is no longer scheduled, its stamps stay. */
    function Delivered(): TimerState {
      this.(scheduled := false)
    }

    /** Time until delivery, as `remainingTime` computes it: 0 for a message that was
        never sent, which it recognises by a sending time that is not positive. */
    function Remaining(now: real): real {
      if sendingTime <= 0.0 then 0.0 else arrivalTime - now
    }

    /** Time since the message was scheduled, with the same convention. */
    function Elapsed(now: real): real {
      if sendingTime <= 0.0 then 0.0 else now - sendingTime
    }
  }

  /** What `reschedule` leaves behind: one pending arrival, stamped with the present. */
  function Armed(now: real, at: real): TimerState {
    TimerState(true, now, at)
  }

  const IDLE := TimerState(false, 0.0, 0.0)

  class TimerMessage {
    var scheduled: bool
    var sendingTime: real
    var arrivalTime: real

    constructor ()
      ensures State() == IDLE
    {
      scheduled, sendingTime, arrivalTime := false, 0.0, 0.0;
    }

    function State(): TimerState
      reads this
    {
      TimerState(scheduled, sendingTime, arrivalTime)
    }

    /** The kernel refuses to schedule into the past; callers have to show they never try. */
    method Reschedule(now: real, at: real)
      requires now <= at
      modifies this
      ensures State() == Armed(now, at)
    {
      if scheduled {
        Cancel();
      }
      ScheduleAt(now, at);
    }

    method RescheduleDelay(now: real, interval: real)
      requires 0.0 <= interval
      modifies this
      ensures State() == Armed(now, now + interval)
    {
      Reschedule(now, now + interval);
    }

    method Cancel()
      requires scheduled
      modifies this
      ensures State() == old(State()).Delivered()
    {
      scheduled := false;
    }

    /** The kernel's own `scheduleAt`: only a message that is not pending may be scheduled. */
    method ScheduleAt(now: real, at: real)
      requires !scheduled && now <= at
      modifies this
      ensures State() == Armed(now, at)
    {
      scheduled, sendingTime, arrivalTime := true, now, at;
    }

    /** The kernel takes the message out of its event set to call the callback. */
    method Deliver()
      requires scheduled
      modifies this
      ensures State() == old(State()).Delivered()
    {
      scheduled := false;
    }
  }

  /** For a pending timer neither reading is negative, as the source asserts, and they add up
      to the interval it was armed with exactly when it was armed after time zero: a timer armed
      at time zero with a positive interval reports nothing remaining. */
  lemma ReadingsAddUp(armedAt: real, at: real, now: real)
    requires 0.0 <= armedAt <= now <= at
    ensures Armed(armedAt, at).Remaining(now) >= 0.0 && Armed(armedAt, at).Elapsed(now) >= 0.0
    ensures var t := Armed(armedAt, at);
            t.Remaining(now) + t.Elapsed(now) == at - armedAt
            <==> (0.0 < armedAt || at == armedAt)
  {
  }

  /** A timer armed after time zero has nothing remaining when it is due and nothing elapsed when it
      is armed, and in between the one falls as the other rises; its stamps stay when it was delivered.
      One that was never armed, or armed at time zero, reads zero throughout. */
  lemma ReadingsRunDown(armedAt: real, at: real, now: real, later: real)
    ensures var t := Armed(armedAt, at);
            && t.scheduled && !t.Delivered().scheduled
            && t.Delivered().Remaining(now) == t.Remaining(now) && t.Delivered().Elapsed(now) == t.Elapsed(now)
            && (0.0 < armedAt ==> t.Remaining(at) == 0.0 && t.Elapsed(armedAt) == 0.0)
            && (0.0 < armedAt ==> t.Remaining(now) - t.Remaining(later) == later - now
                                  == t.Elapsed(later) - t.Elapsed(now))
    ensures !IDLE.scheduled && IDLE.Remaining(now) == 0.0 == IDLE.Elapsed(now)
    ensures Armed(0.0, at).Remaining(now) == 0.0 == Armed(0.0, at).Elapsed(now)
  {
  }
}
