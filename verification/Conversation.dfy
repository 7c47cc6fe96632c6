/** The two-party conversation of ITU-T P.59 in Applications/RTPApp/RTPVoip.cc: four talk
    states, entered by a callback of the caller that drives the send timers of both
    parties and measures their pauses. */
module Conversation {
  import opened Timers

  /** Caller talks, both talk, callee talks, both are silent. */
  datatype Talk = TS | DT | ST | MS

  datatype Party = Caller | Callee

  /** One stay in a state. The duration is drawn from an exponential distribution. */
  datatype Spell = Spell(state: Talk, duration: real)

  /** The two random draws of a transition: how long the state lasts, and whether the
      second draw exceeds the transition probability. */
  datatype Draw = Draw(duration: real, high: bool)

  /** `next` is the handler bound to the callback, `timer` the callback's message. */
  datatype Dialogue = Dialogue(
    next: Talk,
    timer: TimerState,
    callerSends: bool,
    calleeSends: bool,
    callerPause: real,
    calleePause: real,
    callerPauses: seq<real>,
    calleePauses: seq<real>)

  predicate Silent(who: Party, s: Talk) {
    s == MS || s == if who == Caller then ST else TS
  }

  /** Where a state leads: the high draw from TS and ST is silence, from DT and MS it is TS. */
  function Successor(s: Talk, high: bool): Talk {
    match s
    case TS => if high then MS else DT
    case ST => if high then MS else DT
    case DT => if high then TS else ST
    case MS => if high then TS else ST
  }

  /** A pause that ends is collected, unless it has no length. */
  function Collected(pauses: seq<real>, pause: real): seq<real> {
    if pause == 0.0 then pauses else pauses + [pause]
  }

  /** The handler of state `d.next`, called when its timer is delivered. */
  function Enter(d: Dialogue, draw: Draw): Dialogue {
    var s, now := d.next, d.timer.arrivalTime;
    var callerQuiet, calleeQuiet := Silent(Caller, s), Silent(Callee, s);
    Dialogue(
      Successor(s, draw.high),
      Armed(now, now + draw.duration),
      !callerQuiet,
      !calleeQuiet,
      if callerQuiet then d.callerPause + draw.duration else 0.0,
      if calleeQuiet then d.calleePause + draw.duration else 0.0,
      if callerQuiet then d.callerPauses else Collected(d.callerPauses, d.callerPause),
      if calleeQuiet then d.calleePauses else Collected(d.calleePauses, d.calleePause))
  }

  // ----- Whole conversations -----

  /** The callee's description arrives: the caller will start talking after a short delay. */
  function Opening(now: real, delay: real): Dialogue {
    Dialogue(TS, Armed(now, now + delay), false, false, 0.0, 0.0, [], [])
  }

  function Talked(d: Dialogue, draws: seq<Draw>): Dialogue {
    if draws == [] then d else Enter(Talked(d, draws[..|draws| - 1]), draws[|draws| - 1])
  }

  /** The states entered, each with its duration. */
  function History(d: Dialogue, draws: seq<Draw>): (h: seq<Spell>)
    ensures |h| == |draws|
  {
    if draws == [] then []
    else
      var n := |draws| - 1;
      History(d, draws[..n]) + [Spell(Talked(d, draws[..n]).next, draws[n].duration)]
  }

  function TimeIn(h: seq<Spell>, who: Party): real {
    if h == [] then 0.0
    else TimeIn(h[..|h| - 1], who) + if Silent(who, h[|h| - 1].state) then h[|h| - 1].duration else 0.0
  }

  function Duration(h: seq<Spell>): real {
    if h == [] then 0.0 else Duration(h[..|h| - 1]) + h[|h| - 1].duration
  }

  function Sum(s: seq<real>): real {
    if s == [] then 0.0 else Sum(s[..|s| - 1]) + s[|s| - 1]
  }

  /** How many spells at the start of `h` are silent. */
  function LeadingSilence(h: seq<Spell>, who: Party): (k: nat)
    ensures k <= |h|
    ensures forall i :: 0 <= i < k ==> Silent(who, h[i].state)
    ensures k < |h| ==> !Silent(who, h[k].state)
  {
    if h == [] || !Silent(who, h[0].state) then 0 else 1 + LeadingSilence(h[1..], who)
  }

  /** The lengths of the maximal silent blocks, in order. */
  function Blocks(h: seq<Spell>, who: Party): seq<real>
    decreases |h|
  {
    if h == [] then []
    else if !Silent(who, h[0].state) then Blocks(h[1..], who)
    else
      var k := LeadingSilence(h, who);
      [Duration(h[..k])] + Blocks(h[k..], who)
  }

  function NonZero(s: seq<real>): seq<real> {
    if s == [] then [] else NonZero(s[..|s| - 1]) + if s[|s| - 1] == 0.0 then [] else [s[|s| - 1]]
  }

  function Pause(d: Dialogue, who: Party): real {
    if who == Caller then d.callerPause else d.calleePause
  }

  function Pauses(d: Dialogue, who: Party): seq<real> {
    if who == Caller then d.callerPauses else d.calleePauses
  }

  predicate EndsSilent(h: seq<Spell>, who: Party) {
    h != [] && Silent(who, h[|h| - 1].state)
  }

  // ----- Blocks grow at the end -----

  lemma {:induction false} LeadingSilenceGrows(h: seq<Spell>, x: Spell, who: Party)
    ensures LeadingSilence(h + [x], who) ==
            if LeadingSilence(h, who) == |h| && Silent(who, x.state) then |h| + 1 else LeadingSilence(h, who)
  {
    var g := h + [x];
    assert g[|h|] == x;
    assert forall i :: 0 <= i < |h| ==> g[i] == h[i];
  }

  function Extended(blocks: seq<real>, x: Spell, who: Party, open: bool): seq<real> {
    if !Silent(who, x.state) then blocks
    else if open && blocks != [] then blocks[..|blocks| - 1] + [blocks[|blocks| - 1] + x.duration]
    else blocks + [x.duration]
  }

  lemma DurationSnoc(h: seq<Spell>, x: Spell)
    ensures Duration(h + [x]) == Duration(h) + x.duration
  {
  }

  lemma AllSilentIsOneBlock(h: seq<Spell>, who: Party)
    requires h != [] && LeadingSilence(h, who) == |h|
    ensures Blocks(h, who) == [Duration(h)]
  {
    assert h[..|h|] == h && h[|h|..] == [];
  }

  lemma {:induction false} BlocksNonEmpty(h: seq<Spell>, who: Party)
    requires EndsSilent(h, who)
    ensures Blocks(h, who) != []
    decreases |h|
  {
    if !Silent(who, h[0].state) {
      BlocksNonEmpty(h[1..], who);
    }
  }

  lemma SilentBlockGoesOn(h: seq<Spell>, x: Spell, who: Party)
    requires LeadingSilence(h + [x], who) == |h + [x]|
    ensures Blocks(h + [x], who) == [Duration(h) + x.duration]
  {
    AllSilentIsOneBlock(h + [x], who);
    DurationSnoc(h, x);
  }

  lemma SpokenEndsBlock(h: seq<Spell>, x: Spell, who: Party)
    requires h != [] && LeadingSilence(h + [x], who) == |h| && !Silent(who, x.state)
    ensures Blocks(h + [x], who) == [Duration(h)]
  {
    var g := h + [x];
    assert g[..|h|] == h && g[|h|..] == [x] && [x][1..] == [];
    assert g[0] == h[0];
    BlocksCons(g, who);
  }

  lemma LeadingBlockGrows(h: seq<Spell>, x: Spell, who: Party, b: seq<real>, c: seq<real>)
    requires h != [] && LeadingSilence(h, who) == |h| && b == Blocks(h, who) && c == Blocks(h + [x], who)
    ensures c == Extended(b, x, who, true)
  {
    LeadingSilenceGrows(h, x, who);
    AllSilentIsOneBlock(h, who);
    if Silent(who, x.state) {
      SilentBlockGoesOn(h, x, who);
    } else {
      SpokenEndsBlock(h, x, who);
    }
  }

  lemma ExtendedCons(first: real, rest: seq<real>, x: Spell, who: Party, open: bool)
    requires open ==> rest != []
    ensures Extended([first] + rest, x, who, open) == [first] + Extended(rest, x, who, open)
  {
  }

  lemma BlocksCons(h: seq<Spell>, who: Party)
    requires h != [] && Silent(who, h[0].state)
    ensures var k := LeadingSilence(h, who); Blocks(h, who) == [Duration(h[..k])] + Blocks(h[k..], who)
  {
  }

  lemma LaterBlocksGrow(h: seq<Spell>, x: Spell, who: Party)
    requires h != [] && 0 < LeadingSilence(h, who) < |h|
    requires var k := LeadingSilence(h, who);
             Blocks(h[k..] + [x], who) == Extended(Blocks(h[k..], who), x, who, EndsSilent(h[k..], who))
    ensures Blocks(h + [x], who) == Extended(Blocks(h, who), x, who, EndsSilent(h, who))
  {
    var g, k := h + [x], LeadingSilence(h, who);
    LeadingSilenceGrows(h, x, who);
    assert g[k..] == h[k..] + [x] && g[..k] == h[..k];
    BlocksCons(h, who);
    BlocksCons(g, who);
    if EndsSilent(h[k..], who) {
      BlocksNonEmpty(h[k..], who);
    }
    ExtendedCons(Duration(h[..k]), Blocks(h[k..], who), x, who, EndsSilent(h[k..], who));
  }

  lemma FirstBlock(x: Spell, who: Party)
    ensures Blocks([x], who) == Extended([], x, who, false)
  {
    assert [x][1..] == [];
    if Silent(who, x.state) {
      AllSilentIsOneBlock([x], who);
      DurationSnoc([], x);
      assert [] + [x] == [x];
    }
  }

  lemma {:induction false} BlocksGrow(h: seq<Spell>, x: Spell, who: Party)
    ensures Blocks(h + [x], who) == Extended(Blocks(h, who), x, who, EndsSilent(h, who))
    decreases |h|
  {
    if h == [] {
      assert h + [x] == [x];
      FirstBlock(x, who);
    } else if !Silent(who, h[0].state) {
      assert (h + [x])[1..] == h[1..] + [x];
      BlocksGrow(h[1..], x, who);
    } else if LeadingSilence(h, who) == |h| {
      LeadingBlockGrows(h, x, who, Blocks(h, who), Blocks(h + [x], who));
    } else {
      BlocksGrow(h[LeadingSilence(h, who)..], x, who);
      LaterBlocksGrow(h, x, who);
    }
  }

  // ----- What every transition keeps -----

  /** The blocks that are over: all but the one at the end, if that is still silent. */
  function Finished(h: seq<Spell>, who: Party): seq<real> {
    var b := Blocks(h, who);
    if EndsSilent(h, who) && b != [] then b[..|b| - 1] else b
  }

  /** The block still open at the end. */
  ghost predicate OpenBlock(h: seq<Spell>, who: Party, pause: real) {
    var b := Blocks(h, who);
    if EndsSilent(h, who) then b != [] && pause == b[|b| - 1] else pause == 0.0
  }

  /** The samples are the finished silent blocks that have a length, the pending pause is
      the block still open, and together they are the time spent silent. */
  ghost predicate PausesMatch(d: Dialogue, h: seq<Spell>, who: Party) {
    && Pauses(d, who) == NonZero(Finished(h, who))
    && OpenBlock(h, who, Pause(d, who))
    && Sum(Pauses(d, who)) + Pause(d, who) == TimeIn(h, who)
  }

  lemma SilenceGrows(h: seq<Spell>, x: Spell, who: Party, pause: real)
    requires Silent(who, x.state) && OpenBlock(h, who, pause)
    ensures Finished(h + [x], who) == Finished(h, who) && OpenBlock(h + [x], who, pause + x.duration)
  {
    BlocksGrow(h, x, who);
    var b, c := Blocks(h, who), Blocks(h + [x], who);
    assert c[..|c| - 1] == if EndsSilent(h, who) then b[..|b| - 1] else b;
  }

  lemma SilenceEnds(h: seq<Spell>, x: Spell, who: Party, pause: real)
    requires !Silent(who, x.state) && OpenBlock(h, who, pause)
    ensures NonZero(Finished(h + [x], who)) == Collected(NonZero(Finished(h, who)), pause)
    ensures OpenBlock(h + [x], who, 0.0)
  {
    BlocksGrow(h, x, who);
  }

  lemma EnterKeepsPauses(d: Dialogue, h: seq<Spell>, draw: Draw, who: Party)
    requires PausesMatch(d, h, who)
    ensures PausesMatch(Enter(d, draw), h + [Spell(d.next, draw.duration)], who)
  {
    var x := Spell(d.next, draw.duration);
    assert (h + [x])[..|h|] == h;
    if Silent(who, d.next) {
      SilenceGrows(h, x, who, Pause(d, who));
    } else {
      SilenceEnds(h, x, who, Pause(d, who));
    }
  }

  lemma {:induction false} PausesThroughout(d: Dialogue, draws: seq<Draw>, who: Party)
    requires PausesMatch(d, [], who)
    ensures PausesMatch(Talked(d, draws), History(d, draws), who)
  {
    if draws != [] {
      var n := |draws| - 1;
      PausesThroughout(d, draws[..n], who);
      EnterKeepsPauses(Talked(d, draws[..n]), History(d, draws[..n]), draws[n], who);
    }
  }

  // ----- The theorems -----

  /** Between transitions the send timers go off: the party sends a packet, which re-arms its
      timer (Transport/RTP/RTP.cc:652). */
  datatype Happening = Switch(draw: Draw) | SendDue(who: Party)

  function Draws(events: seq<Happening>): seq<Draw> {
    if events == [] then []
    else
      var n := |events| - 1;
      Draws(events[..n]) + if events[n].Switch? then [events[n].draw] else []
  }

  predicate Sends(d: Dialogue, who: Party) {
    if who == Caller then d.callerSends else d.calleeSends
  }

  function Happen(d: Dialogue, e: Happening): Dialogue {
    match e
    case Switch(draw) => Enter(d, draw)
    case SendDue(_) => d
  }

  function After(d: Dialogue, events: seq<Happening>): Dialogue {
    if events == [] then d else Happen(After(d, events[..|events| - 1]), events[|events| - 1])
  }

  lemma TalkedSnoc(d: Dialogue, draws: seq<Draw>, draw: Draw)
    ensures Talked(d, draws + [draw]) == Enter(Talked(d, draws), draw)
  {
    assert (draws + [draw])[..|draws|] == draws;
  }

  lemma {:induction false} AfterIsTalked(d: Dialogue, events: seq<Happening>)
    ensures After(d, events) == Talked(d, Draws(events))
  {
    if events != [] {
      var n := |events| - 1;
      AfterIsTalked(d, events[..n]);
      var before := Draws(events[..n]);
      if events[n].Switch? {
        TalkedSnoc(d, before, events[n].draw);
      } else {
        assert Draws(events) == before;
      }
    }
  }

  /** Through any interleaving of transitions and sends a party's send timer runs exactly if the
      conversation is in a state that lets it talk. So its packets go out only in such states,
      and none before the first transition. */
  lemma SendTimersFollowState(now: real, delay: real, events: seq<Happening>, who: Party)
    ensures var h := History(Opening(now, delay), Draws(events));
            Sends(After(Opening(now, delay), events), who) <==> h != [] && !Silent(who, h[|h| - 1].state)
  {
    AfterIsTalked(Opening(now, delay), events);
  }

  lemma AfterSnoc(d: Dialogue, events: seq<Happening>, e: Happening)
    ensures After(d, events + [e]) == Happen(After(d, events), e)
  {
    assert (events + [e])[..|events|] == events;
  }

  lemma {:induction false} SendsChangeNothing(d: Dialogue, events: seq<Happening>, sends: seq<Happening>)
    requires forall i :: 0 <= i < |sends| ==> sends[i].SendDue?
    ensures After(d, events + sends) == After(d, events)
  {
    if sends == [] {
      assert events + sends == events;
    } else {
      var n := |sends| - 1;
      SendsChangeNothing(d, events, sends[..n]);
      AfterSnoc(d, events + sends[..n], sends[n]);
      assert events + sends == events + sends[..n] + [sends[n]];
    }
  }

  /** Nobody sends before the first transition; it starts the caller's send timer and not
      the callee's. */
  lemma CallerStarts(now: real, delay: real, sends: seq<Happening>, draw: Draw)
    requires forall i :: 0 <= i < |sends| ==> sends[i].SendDue?
    ensures var d := Opening(now, delay);
            && !Sends(After(d, sends), Caller) && !Sends(After(d, sends), Callee)
            && Sends(After(d, sends + [Switch(draw)]), Caller) && !Sends(After(d, sends + [Switch(draw)]), Callee)
  {
    var d := Opening(now, delay);
    SendsChangeNothing(d, [], sends);
    assert [] + sends == sends;
    AfterSnoc(d, sends, Switch(draw));
  }

  /** The draw of one transition decides who sends after the next, whatever came before. While one
      party sends, a high draw stops both timers and a low one lets both run. While both or neither
      send, the timer that runs next is the caller's on a high draw and the callee's on a low one. */
  lemma DrawDecidesTurn(now: real, delay: real, events: seq<Happening>, draw: Draw, sends: seq<Happening>, next: Draw)
    requires forall i :: 0 <= i < |sends| ==> sends[i].SendDue?
    ensures var d := Opening(now, delay);
            var before := After(d, events + [Switch(draw)]);
            var after := After(d, events + [Switch(draw)] + sends + [Switch(next)]);
            if Sends(before, Caller) != Sends(before, Callee) then
              Sends(after, Caller) == Sends(after, Callee) == !draw.high
            else
              Sends(after, Caller) == draw.high && Sends(after, Callee) == !draw.high
  {
    var d := Opening(now, delay);
    AfterSnoc(d, events, Switch(draw));
    SendsChangeNothing(d, events + [Switch(draw)], sends);
    AfterSnoc(d, events + [Switch(draw)] + sends, Switch(next));
  }

  /** The conversation starts with the caller talking, and from then on a party's turn to
      talk alone never follows the other's directly; nor do double talk and silence. */
  lemma {:induction false} TurnsNeverTouch(now: real, delay: real, draws: seq<Draw>, k: nat)
    requires k < |draws|
    ensures var h := History(Opening(now, delay), draws);
            && h[0].state == TS
            && (0 < k ==> (h[k].state in {TS, ST} <==> h[k - 1].state in {DT, MS}))
    decreases |draws|
  {
    var d, n := Opening(now, delay), |draws| - 1;
    if n == 0 {
      assert draws[..0] == [];
    } else if k < n {
      TurnsNeverTouch(now, delay, draws[..n], k);
    } else {
      TurnsNeverTouch(now, delay, draws[..n], n - 1);
    }
  }

  /** Collected plus pending pause is the total time in the states in which the party is
      silent, and each sample is the length of one maximal silent block. */
  lemma PausesAreSilentBlocks(now: real, delay: real, draws: seq<Draw>, who: Party)
    ensures var d, h := Talked(Opening(now, delay), draws), History(Opening(now, delay), draws);
            && Sum(Pauses(d, who)) + Pause(d, who) == TimeIn(h, who)
            && Pauses(d, who) == NonZero(Finished(h, who))
            && OpenBlock(h, who, Pause(d, who))
  {
    PausesThroughout(Opening(now, delay), draws, who);
  }

  /** Every spell lasts, in simulation time, exactly as long as was drawn for it. */
  lemma {:induction false} TimerCountsDurations(now: real, delay: real, draws: seq<Draw>)
    ensures var d := Opening(now, delay);
            Talked(d, draws).timer.arrivalTime == now + delay + Duration(History(d, draws))
  {
    if draws != [] {
      var d, n := Opening(now, delay), |draws| - 1;
      TimerCountsDurations(now, delay, draws[..n]);
      DurationSnoc(History(d, draws[..n]), Spell(Talked(d, draws[..n]).next, draws[n].duration));
    }
  }
}
