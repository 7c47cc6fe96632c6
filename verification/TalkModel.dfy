/** The caller's talk model as the source runs it: one handler per state, each updating
    timers and pause totals in place and binding the handler of the next state. */
module TalkModels {
  import opened Conversation
  import opened Timers

  class TalkModel {
    const p59cb: TimerMessage
    const callerTimeout: TimerMessage
    const calleeTimeout: TimerMessage
    const packetisationInterval: real

    var handler: Talk
    var callerPause: real
    var calleePause: real
    var callerPauseStat: seq<real>
    var calleePauseStat: seq<real>

    ghost predicate Valid()
      reads this
    {
      0.0 <= packetisationInterval && p59cb != callerTimeout && p59cb != calleeTimeout && callerTimeout != calleeTimeout
    }

    function State(): Dialogue
      reads this, p59cb, callerTimeout, calleeTimeout
    {
      Dialogue(handler, p59cb.State(), callerTimeout.scheduled, calleeTimeout.scheduled,
               callerPause, calleePause, callerPauseStat, calleePauseStat)
    }

    /** The callee has answered the session description. */
    constructor (packetisationInterval: real, now: real, delay: real)
      requires 0.0 <= packetisationInterval && 0.0 <= delay
      ensures Valid() && State() == Opening(now, delay)
      ensures fresh(p59cb) && fresh(callerTimeout) && fresh(calleeTimeout)
    {
      this.packetisationInterval := packetisationInterval;
      p59cb := new TimerMessage();
      callerTimeout := new TimerMessage();
      calleeTimeout := new TimerMessage();
      handler, callerPause, calleePause, callerPauseStat, calleePauseStat := TS, 0.0, 0.0, [], [];
      new;
      p59cb.RescheduleDelay(now, delay);
    }

    method StartSending(timeout: TimerMessage, now: real)
      requires 0.0 <= packetisationInterval
      modifies timeout
      ensures timeout.scheduled
    {
      if !timeout.scheduled {
        timeout.ScheduleAt(now, now + packetisationInterval);
      }
    }

    /** The kernel delivers a send timer; sending a packet arms it for the next one. */
    method SendDue(who: Party)
      requires Valid() && (if who == Caller then callerTimeout else calleeTimeout).scheduled
      modifies callerTimeout, calleeTimeout
      ensures Valid() && State() == Happen(old(State()), Conversation.SendDue(who))
      ensures var timeout := if who == Caller then callerTimeout else calleeTimeout;
              timeout.State() == Armed(old(timeout.arrivalTime), old(timeout.arrivalTime) + packetisationInterval)
    {
      var timeout := if who == Caller then callerTimeout else calleeTimeout;
      var now := timeout.arrivalTime;
      timeout.Deliver();
      timeout.ScheduleAt(now, now + packetisationInterval);
    }

    method StopSending(timeout: TimerMessage)
      modifies timeout
      ensures !timeout.scheduled
    {
      if timeout.scheduled {
        timeout.Cancel();
      }
    }

    method EndCallerPause()
      modifies this`callerPause, this`callerPauseStat
      ensures callerPause == 0.0 && callerPauseStat == Collected(old(callerPauseStat), old(callerPause))
    {
      if callerPause != 0.0 {
        callerPauseStat := callerPauseStat + [callerPause];
      }
      callerPause := 0.0;
    }

    method EndCalleePause()
      modifies this`calleePause, this`calleePauseStat
      ensures calleePause == 0.0 && calleePauseStat == Collected(old(calleePauseStat), old(calleePause))
    {
      if calleePause != 0.0 {
        calleePauseStat := calleePauseStat + [calleePause];
      }
      calleePause := 0.0;
    }

    method P59TS(now: real, draw: Draw)
      requires Valid() && handler == TS && !p59cb.scheduled && now == p59cb.arrivalTime && 0.0 <= draw.duration
      modifies this, p59cb, callerTimeout, calleeTimeout
      ensures Valid() && State() == Enter(old(State()), draw)
    {
      StartSending(callerTimeout, now);
      EndCallerPause();
      calleePause := calleePause + draw.duration;
      handler := if draw.high then MS else DT;
      p59cb.RescheduleDelay(now, draw.duration);
      StopSending(calleeTimeout);
    }

    method P59DT(now: real, draw: Draw)
      requires Valid() && handler == DT && !p59cb.scheduled && now == p59cb.arrivalTime && 0.0 <= draw.duration
      modifies this, p59cb, callerTimeout, calleeTimeout
      ensures Valid() && State() == Enter(old(State()), draw)
    {
      StartSending(callerTimeout, now);
      EndCallerPause();
      EndCalleePause();
      handler := if draw.high then TS else ST;
      p59cb.RescheduleDelay(now, draw.duration);
      StartSending(calleeTimeout, now);
    }

    method P59ST(now: real, draw: Draw)
      requires Valid() && handler == ST && !p59cb.scheduled && now == p59cb.arrivalTime && 0.0 <= draw.duration
      modifies this, p59cb, callerTimeout, calleeTimeout
      ensures Valid() && State() == Enter(old(State()), draw)
    {
      StopSending(callerTimeout);
      callerPause := callerPause + draw.duration;
      EndCalleePause();
      handler := if draw.high then MS else DT;
      p59cb.RescheduleDelay(now, draw.duration);
      StartSending(calleeTimeout, now);
    }

    method P59MS(now: real, draw: Draw)
      requires Valid() && handler == MS && !p59cb.scheduled && now == p59cb.arrivalTime && 0.0 <= draw.duration
      modifies this, p59cb, callerTimeout, calleeTimeout
      ensures Valid() && State() == Enter(old(State()), draw)
    {
      StopSending(callerTimeout);
      callerPause := callerPause + draw.duration;
      calleePause := calleePause + draw.duration;
      handler := if draw.high then TS else ST;
      p59cb.RescheduleDelay(now, draw.duration);
      StopSending(calleeTimeout);
    }

    /** The kernel delivers the callback message and calls whichever handler is bound. */
    method Transition(draw: Draw)
      requires Valid() && p59cb.scheduled && 0.0 <= draw.duration
      modifies this, p59cb, callerTimeout, calleeTimeout
      ensures Valid() && State() == Enter(old(State()), draw)
    {
      var now := p59cb.arrivalTime;
      p59cb.Deliver();
      match handler
      case TS => P59TS(now, draw);
      case DT => P59DT(now, draw);
      case ST => P59ST(now, draw);
      case MS => P59MS(now, draw);
    }
  }
}
