/** The generic TCP server of Applications/TCPApp/TCPGenericSrvApp.cc: replies after a
    requested delay, and a CLOSE that waits for the longest delay seen so far. */
module ServerClose {
  import opened Reals

  datatype Message = Reply(conn: int, bytes: nat) | Close(conn: int)

  /** A message the server decided to send. `id` counts decisions, which is also the order
      of insertion into the event set; `due` is when it is to go out. */
  datatype Item = Item(id: nat, due: real, msg: Message)

  /** `history` holds every decision, `pending` the scheduled self-messages in order of
      insertion, `sent` what has gone to TCP. */
  datatype Server = Server(
    delay: real,
    maxMsgDelay: real,
    now: real,
    history: seq<Item>,
    pending: seq<Item>,
    sent: seq<Item>,
    msgsRcvd: nat,
    bytesRcvd: nat,
    msgsSent: nat,
    bytesSent: nat)

  datatype Request = Request(conn: int, length: nat, expectedReplyLength: nat, replyDelay: real, close: bool)

  datatype Event =
    | Data(now: real, request: Request)
    | PeerClosed(now: real, conn: int)
    | Indication(now: real)
    | SelfMessage

  function Initial(delay: real): Server {
    Server(delay, 0.0, 0.0, [], [], [], 0, 0, 0, 0)
  }

  function Bytes(m: Message): nat {
    if m.Reply? then m.bytes else 0
  }

  function SendBack(s: Server, i: Item): Server {
    s.(sent := s.sent + [i], msgsSent := s.msgsSent + 1, bytesSent := s.bytesSent + Bytes(i.msg))
  }

  function SendOrSchedule(s: Server, m: Message, d: real): Server {
    var i := Item(|s.history|, s.now + d, m);
    var t := s.(history := s.history + [i]);
    if d == 0.0 then SendBack(t, i) else t.(pending := t.pending + [i])
  }

  function NoteRequest(s: Server, r: Request): Server {
    s.(msgsRcvd := s.msgsRcvd + 1, bytesRcvd := s.bytesRcvd + r.length,
       maxMsgDelay := Max(s.maxMsgDelay, r.replyDelay))
  }

  function ReplyTo(s: Server, r: Request): Server {
    if r.expectedReplyLength == 0 then s
    else SendOrSchedule(s, Reply(r.conn, r.expectedReplyLength), s.delay + r.replyDelay)
  }

  function CloseAfter(s: Server, conn: int): Server {
    SendOrSchedule(s, Close(conn), s.delay + s.maxMsgDelay)
  }

  function HandleData(s: Server, r: Request): Server {
    var t := ReplyTo(NoteRequest(s, r), r);
    if r.close then CloseAfter(t, r.conn) else t
  }

  /** The kernel takes the earliest self-message, of several the one inserted first. */
  function Earliest(pending: seq<Item>): (k: nat)
    requires pending != []
    ensures k < |pending|
    ensures forall j :: 0 <= j < |pending| ==> pending[k].due <= pending[j].due
    ensures forall j :: 0 <= j < k ==> pending[k].due < pending[j].due
  {
    if |pending| == 1 then 0
    else
      var k := Earliest(pending[1..]);
      assert forall j :: 1 <= j < |pending| ==> pending[j] == pending[1..][j - 1];
      if pending[0].due <= pending[1..][k].due then 0 else k + 1
  }

  function TakeSelfMessage(s: Server): Server
    requires s.pending != []
  {
    var k := Earliest(s.pending);
    var i := s.pending[k];
    SendBack(s.(now := i.due, pending := s.pending[..k] + s.pending[k + 1..]), i)
  }

  function Handle(s: Server, e: Event): Server
    requires Legal(s, e)
  {
    match e
    case Data(now, r) => HandleData(s.(now := now), r)
    case PeerClosed(now, conn) => CloseAfter(s.(now := now), conn)
    case Indication(now) => s.(now := now)
    case SelfMessage => TakeSelfMessage(s)
  }

  /** Time does not pass a pending self-message (a tie may go either way), and nothing is
      scheduled into the past. */
  predicate Legal(s: Server, e: Event) {
    match e
    case SelfMessage => s.pending != []
    case Indication(now) => Reaches(s, now)
    case PeerClosed(now, _) => Reaches(s, now) && 0.0 <= s.delay + s.maxMsgDelay
    case Data(now, r) =>
      && Reaches(s, now)
      && (r.expectedReplyLength != 0 ==> 0.0 <= s.delay + r.replyDelay)
      && (r.close ==> 0.0 <= s.delay + Max(s.maxMsgDelay, r.replyDelay))
  }

  predicate Reaches(s: Server, now: real) {
    s.now <= now && forall i :: i in s.pending ==> now <= i.due
  }

  predicate LegalRun(s: Server, events: seq<Event>)
    decreases |events|
  {
    events == [] || (Legal(s, events[0]) && LegalRun(Handle(s, events[0]), events[1..]))
  }

  function Run(s: Server, events: seq<Event>): Server
    requires LegalRun(s, events)
    decreases |events|
  {
    if events == [] then s else Run(Handle(s, events[0]), events[1..])
  }

  // ----- What every step keeps -----

  predicate Ascending(s: seq<Item>) {
    forall j, k :: 0 <= j < k < |s| ==> s[j].id < s[k].id
  }

  /** Decisions are numbered in order; each is pending or sent. */
  ghost predicate Tracked(s: Server) {
    && (forall k :: 0 <= k < |s.history| ==> s.history[k].id == k)
    && Ascending(s.pending)
    && (forall i :: i in s.pending ==> i in s.history && i !in s.sent)
    && (forall i :: i in s.history ==> i in s.pending || i in s.sent)
    && (forall i :: i in s.sent ==> i in s.history)
    && (forall j, k :: 0 <= j < k < |s.sent| ==> s.sent[j] != s.sent[k])
  }

  /** A pending message is not overdue, and a reply is due no later than a CLOSE decided
      now would be. */
  ghost predicate Bounded(s: Server) {
    && (forall i :: i in s.pending ==> s.now <= i.due)
    && (forall i :: i in s.pending && i.msg.Reply? ==> i.due <= s.now + s.delay + s.maxMsgDelay)
    && (s.pending != [] ==> 0.0 < s.delay + s.maxMsgDelay)
  }

  /** A pending reply is due no later than any pending CLOSE decided after it. */
  ghost predicate CloseWaits(s: Server) {
    forall r, c :: r in s.pending && c in s.pending && r.msg.Reply? && c.msg.Close? && r.id < c.id ==> r.due <= c.due
  }

  /** Every reply decided before a CLOSE that was sent was sent before it. */
  ghost predicate CloseLast(s: Server) {
    forall j, r :: 0 <= j < |s.sent| && s.sent[j].msg.Close? && r in s.history && r.msg.Reply? && r.id < s.sent[j].id
                   ==> r in s.sent[..j]
  }

  ghost predicate Invariant(s: Server) {
    Tracked(s) && Bounded(s) && CloseWaits(s) && CloseLast(s)
  }

  lemma NewestId(s: Server, i: Item)
    requires Tracked(s) && i.id == |s.history|
    ensures i !in s.history && i !in s.pending && i !in s.sent
    ensures forall h :: h in s.history ==> h.id < i.id
  {
  }

  lemma ScheduleTracked(s: Server, m: Message, d: real)
    requires Tracked(s)
    ensures Tracked(SendOrSchedule(s, m, d))
  {
    var i := Item(|s.history|, s.now + d, m);
    var t := SendOrSchedule(s, m, d);
    NewestId(s, i);
    assert forall h :: h in t.history <==> h in s.history || h == i;
    assert forall h :: h in s.pending + [i] <==> h in s.pending || h == i;
    assert forall h :: h in s.sent + [i] <==> h in s.sent || h == i;
    forall j | 0 <= j < |s.pending| ensures s.pending[j].id < i.id {
      assert s.pending[j] in s.pending;
    }
  }

  lemma ScheduleBounded(s: Server, m: Message, d: real)
    requires Tracked(s) && Bounded(s) && CloseWaits(s) && 0.0 <= d
    requires m.Reply? ==> d <= s.delay + s.maxMsgDelay
    requires m.Close? ==> d == s.delay + s.maxMsgDelay
    ensures Bounded(SendOrSchedule(s, m, d)) && CloseWaits(SendOrSchedule(s, m, d))
  {
  }

  /** A CLOSE goes out at once only if no reply can be waiting. */
  lemma SentCloseLast(s: Server, i: Item, t: Server)
    requires Tracked(s) && CloseLast(s) && (i in s.history || i.id == |s.history|)
    requires t.sent == s.sent + [i]
    requires forall h :: h in t.history ==> h in s.history || h == i
    requires i.msg.Close? ==> forall r :: r in s.pending && r.msg.Reply? ==> i.id <= r.id
    ensures CloseLast(t)
  {
    forall j, r | 0 <= j < |t.sent| && t.sent[j].msg.Close? && r in t.history && r.msg.Reply? && r.id < t.sent[j].id
      ensures r in t.sent[..j]
    {
      if j < |s.sent| {
        assert t.sent[j] == s.sent[j] && t.sent[..j] == s.sent[..j];
        assert s.sent[j] in s.history;
        assert s.sent[j].id < |s.history|;
      } else {
        assert t.sent[..j] == s.sent;
      }
    }
  }

  lemma ScheduleCloseLast(s: Server, m: Message, d: real)
    requires Invariant(s)
    requires m.Close? ==> d == s.delay + s.maxMsgDelay
    ensures CloseLast(SendOrSchedule(s, m, d))
  {
    var i := Item(|s.history|, s.now + d, m);
    var t := SendOrSchedule(s, m, d);
    NewestId(s, i);
    assert forall h :: h in t.history <==> h in s.history || h == i;
    if d == 0.0 {
      SentCloseLast(s, i, t);
    } else {
      assert forall j :: 0 <= j < |s.sent| ==> s.sent[j] in s.history;
    }
  }

  lemma ScheduleKeeps(s: Server, m: Message, d: real)
    requires Invariant(s) && 0.0 <= d
    requires m.Reply? ==> d <= s.delay + s.maxMsgDelay
    requires m.Close? ==> d == s.delay + s.maxMsgDelay
    ensures var t := SendOrSchedule(s, m, d);
            Invariant(t) && t.delay == s.delay && t.maxMsgDelay == s.maxMsgDelay
  {
    ScheduleTracked(s, m, d);
    ScheduleBounded(s, m, d);
    ScheduleCloseLast(s, m, d);
  }

  /** The clock and the longest delay may grow; nothing else is touched. */
  lemma AdvanceKeeps(s: Server, now: real, maxMsgDelay: real, msgs: nat, bytes: nat)
    requires Invariant(s) && Reaches(s, now) && s.maxMsgDelay <= maxMsgDelay
    ensures Invariant(s.(now := now, maxMsgDelay := maxMsgDelay, msgsRcvd := msgs, bytesRcvd := bytes))
  {
  }

  lemma ReplyKeeps(s: Server, r: Request)
    requires Invariant(s) && r.replyDelay <= s.maxMsgDelay
    requires r.expectedReplyLength != 0 ==> 0.0 <= s.delay + r.replyDelay
    ensures var t := ReplyTo(s, r);
            Invariant(t) && t.delay == s.delay && t.maxMsgDelay == s.maxMsgDelay
  {
    var t, m, d := ReplyTo(s, r), Reply(r.conn, r.expectedReplyLength), s.delay + r.replyDelay;
    if r.expectedReplyLength == 0 {
      assert t == s;
    } else {
      ScheduleKeeps(s, m, d);
      assert t == SendOrSchedule(s, m, d);
    }
  }

  lemma CloseKeeps(s: Server, conn: int)
    requires Invariant(s) && 0.0 <= s.delay + s.maxMsgDelay
    ensures Invariant(CloseAfter(s, conn))
  {
    var m, d := Close(conn), s.delay + s.maxMsgDelay;
    ScheduleKeeps(s, m, d);
    assert CloseAfter(s, conn) == SendOrSchedule(s, m, d);
  }

  lemma DataKeeps(s: Server, now: real, r: Request)
    requires Invariant(s) && Legal(s, Data(now, r))
    ensures Invariant(Handle(s, Data(now, r)))
  {
    var s1 := NoteRequest(s.(now := now), r);
    AdvanceKeeps(s, now, s1.maxMsgDelay, s1.msgsRcvd, s1.bytesRcvd);
    ReplyKeeps(s1, r);
    if r.close {
      CloseKeeps(ReplyTo(s1, r), r.conn);
    }
  }

  lemma TakenMembers(pending: seq<Item>, k: nat)
    requires k < |pending| && Ascending(pending)
    ensures var rest := pending[..k] + pending[k + 1..];
            && Ascending(rest)
            && (forall i :: i in rest <==> i in pending && i != pending[k])
  {
  }

  lemma TakeKeeps(s: Server)
    requires Invariant(s) && s.pending != []
    ensures Invariant(TakeSelfMessage(s))
  {
    var k := Earliest(s.pending);
    var i := s.pending[k];
    var t := TakeSelfMessage(s);
    TakenMembers(s.pending, k);
    assert i in s.pending && i in s.history;
    assert forall h :: h in t.sent <==> h in s.sent || h == i;
    TakeCloseLast(s);
  }

  /** By the time a CLOSE is the earliest message no reply decided before it is pending. */
  lemma TakeCloseLast(s: Server)
    requires Invariant(s) && s.pending != []
    ensures CloseLast(TakeSelfMessage(s))
  {
    var k := Earliest(s.pending);
    var i := s.pending[k];
    assert i in s.pending && i in s.history;
    if i.msg.Close? {
      forall r | r in s.pending && r.msg.Reply? ensures i.id <= r.id {
        var j :| 0 <= j < |s.pending| && s.pending[j] == r;
        assert j < k ==> i.due < r.due;
      }
    }
    SentCloseLast(s, i, TakeSelfMessage(s));
  }

  lemma HandleKeeps(s: Server, e: Event)
    requires Invariant(s) && Legal(s, e)
    ensures Invariant(Handle(s, e))
  {
    match e
    case Data(now, r) => DataKeeps(s, now, r);
    case PeerClosed(now, conn) =>
      AdvanceKeeps(s, now, s.maxMsgDelay, s.msgsRcvd, s.bytesRcvd);
      CloseKeeps(s.(now := now), conn);
    case Indication(now) => AdvanceKeeps(s, now, s.maxMsgDelay, s.msgsRcvd, s.bytesRcvd);
    case SelfMessage => TakeKeeps(s);
  }

  lemma {:induction false} RunKeeps(s: Server, events: seq<Event>)
    requires Invariant(s) && LegalRun(s, events)
    ensures Invariant(Run(s, events))
    decreases |events|
  {
    if events != [] {
      HandleKeeps(s, events[0]);
      RunKeeps(Handle(s, events[0]), events[1..]);
    }
  }

  /** Over every run, with any number of connections and any delays the kernel accepts:
      when a CLOSE has gone out, every reply decided before it has gone out before it, also
      when both were due at the same time or were sent without delay. */
  lemma CloseNeverOvertakesReply(delay: real, events: seq<Event>)
    requires LegalRun(Initial(delay), events)
    ensures var s := Run(Initial(delay), events);
            forall j, r :: 0 <= j < |s.sent| && s.sent[j].msg.Close? && r in s.history && r.msg.Reply?
                           && r.id < s.sent[j].id
                           ==> exists i :: 0 <= i < j && s.sent[i] == r
  {
    RunKeeps(Initial(delay), events);
    var s := Run(Initial(delay), events);
    forall j, r | 0 <= j < |s.sent| && s.sent[j].msg.Close? && r in s.history && r.msg.Reply? && r.id < s.sent[j].id
      ensures exists i :: 0 <= i < j && s.sent[i] == r
    {
      assert r in s.sent[..j];
    }
  }

  // ----- The order and the count of what goes out -----

  function TotalBytes(sent: seq<Item>): nat {
    if sent == [] then 0 else TotalBytes(sent[..|sent| - 1]) + Bytes(sent[|sent| - 1].msg)
  }

  ghost predicate Ordered(sent: seq<Item>, now: real) {
    && (forall j, k :: 0 <= j < k < |sent| ==> sent[j].due <= sent[k].due)
    && (forall j :: 0 <= j < |sent| ==> sent[j].due <= now)
  }

  predicate Counted(sent: seq<Item>, msgs: nat, bytes: nat) {
    msgs == |sent| && bytes == TotalBytes(sent)
  }

  ghost predicate InDueOrder(s: Server) {
    Ordered(s.sent, s.now) && Counted(s.sent, s.msgsSent, s.bytesSent)
  }

  lemma SendKeepsOrder(s: Server, i: Item)
    requires InDueOrder(s) && i.due == s.now
    ensures InDueOrder(SendBack(s, i))
  {
  }

  lemma ScheduleKeepsOrder(s: Server, m: Message, d: real)
    requires InDueOrder(s)
    ensures InDueOrder(SendOrSchedule(s, m, d))
  {
    if d == 0.0 {
      SendKeepsOrder(s.(history := s.history + [Item(|s.history|, s.now, m)]), Item(|s.history|, s.now, m));
    }
  }

  lemma ReplyKeepsOrder(s: Server, r: Request)
    requires InDueOrder(s)
    ensures InDueOrder(ReplyTo(s, r))
  {
    var t, m, d := ReplyTo(s, r), Reply(r.conn, r.expectedReplyLength), s.delay + r.replyDelay;
    if r.expectedReplyLength == 0 {
      assert t == s;
    } else {
      ScheduleKeepsOrder(s, m, d);
      assert t == SendOrSchedule(s, m, d);
    }
  }

  lemma DataKeepsOrder(s: Server, r: Request)
    requires InDueOrder(s)
    ensures InDueOrder(HandleData(s, r))
  {
    ReplyKeepsOrder(NoteRequest(s, r), r);
    var t := ReplyTo(NoteRequest(s, r), r);
    var m, d := Close(r.conn), t.delay + t.maxMsgDelay;
    if r.close {
      ScheduleKeepsOrder(t, m, d);
      assert HandleData(s, r) == SendOrSchedule(t, m, d);
    } else {
      assert HandleData(s, r) == t;
    }
  }

  lemma TakeKeepsOrder(s: Server)
    requires InDueOrder(s) && Bounded(s) && s.pending != []
    ensures InDueOrder(TakeSelfMessage(s))
  {
  }

  lemma {:induction false} RunKeepsOrder(s: Server, events: seq<Event>)
    requires InDueOrder(s) && Invariant(s) && LegalRun(s, events)
    ensures InDueOrder(Run(s, events))
    decreases |events|
  {
    if events != [] {
      HandleKeeps(s, events[0]);
      match events[0] {
        case Data(now, r) => DataKeepsOrder(s.(now := now), r);
        case PeerClosed(now, conn) => ScheduleKeepsOrder(s.(now := now), Close(conn), s.delay + s.maxMsgDelay);
        case Indication(_) =>
        case SelfMessage => TakeKeepsOrder(s);
      }
      RunKeepsOrder(Handle(s, events[0]), events[1..]);
    }
  }

  /** Messages go out in the order in which they are due, every decision is sent at most
      once and is otherwise still pending, and the counters count exactly what was sent. */
  lemma EveryDecisionSentOnceInOrder(delay: real, events: seq<Event>)
    requires LegalRun(Initial(delay), events)
    ensures var s := Run(Initial(delay), events);
            && (forall j, k :: 0 <= j < k < |s.sent| ==> s.sent[j].due <= s.sent[k].due && s.sent[j] != s.sent[k])
            && (forall i :: i in s.history <==> i in s.pending || i in s.sent)
            && (forall i :: i in s.pending ==> i !in s.sent)
            && s.msgsSent == |s.sent| && s.bytesSent == TotalBytes(s.sent)
  {
    RunKeepsOrder(Initial(delay), events);
    RunKeeps(Initial(delay), events);
  }

  // ----- What a run decides, from the events alone -----

  /** The greatest reply delay that a request asked for, or zero. */
  function GreatestDelay(events: seq<Event>): real {
    if events == [] then 0.0
    else
      var g, e := GreatestDelay(events[..|events| - 1]), events[|events| - 1];
      if e.Data? && g < e.request.replyDelay then e.request.replyDelay else g
  }

  /** How many requests came, and of how many bytes. */
  function Requests(events: seq<Event>): nat {
    if events == [] then 0
    else Requests(events[..|events| - 1]) + if events[|events| - 1].Data? then 1 else 0
  }

  function RequestBytes(events: seq<Event>): nat {
    if events == [] then 0
    else
      var e := events[|events| - 1];
      RequestBytes(events[..|events| - 1]) + if e.Data? then e.request.length else 0
  }

  /** One reply for a request that expects one, numbered from `id`. */
  function Replies(delay: real, e: Event, id: nat): seq<Item> {
    if e.Data? && e.request.expectedReplyLength != 0 then
      var r := e.request;
      [Item(id, e.now + delay + r.replyDelay, Reply(r.conn, r.expectedReplyLength))]
    else []
  }

  /** One CLOSE for a request that asks for it and for a peer that has closed. */
  function Closes(delay: real, e: Event, greatest: real, id: nat): seq<Item> {
    if e.Data? && e.request.close then [Item(id, e.now + delay + greatest, Close(e.request.conn))]
    else if e.PeerClosed? then [Item(id, e.now + delay + greatest, Close(e.conn))]
    else []
  }

  function Decisions(delay: real, events: seq<Event>): seq<Item> {
    if events == [] then []
    else
      var e, before := events[|events| - 1], Decisions(delay, events[..|events| - 1]);
      var replied := before + Replies(delay, e, |before|);
      replied + Closes(delay, e, GreatestDelay(events), |replied|)
  }

  lemma {:induction false} RunByPrefix(s: Server, events: seq<Event>)
    requires LegalRun(s, events) && events != []
    ensures var n := |events| - 1;
            && LegalRun(s, events[..n]) && Legal(Run(s, events[..n]), events[n])
            && Run(s, events) == Handle(Run(s, events[..n]), events[n])
    decreases |events|
  {
    var n := |events| - 1;
    if n == 0 {
      assert events[..0] == [];
    } else {
      RunByPrefix(Handle(s, events[0]), events[1..]);
      assert events[1..][..n - 1] == events[..n][1..];
    }
  }

  /** What one event does to what was decided and received. */
  lemma HandleDecides(s: Server, e: Event, greatest: real)
    requires Legal(s, e)
    requires greatest == if e.Data? && s.maxMsgDelay < e.request.replyDelay then e.request.replyDelay else s.maxMsgDelay
    ensures var t, replied := Handle(s, e), s.history + Replies(s.delay, e, |s.history|);
            && t.history == replied + Closes(s.delay, e, greatest, |replied|)
            && t.delay == s.delay && t.maxMsgDelay == greatest
            && t.msgsRcvd == s.msgsRcvd + (if e.Data? then 1 else 0)
            && t.bytesRcvd == s.bytesRcvd + (if e.Data? then e.request.length else 0)
  {
    if e.Data? {
      var u := NoteRequest(s.(now := e.now), e.request);
      assert ReplyTo(u, e.request).history == s.history + Replies(s.delay, e, |s.history|);
    }
  }

  /** Every run decides exactly this, in this order: one reply for each request that expects one, to
      its connection, of the length expected, due after the server's and its own delay; and one CLOSE
      for each request that asks for it and each closed peer, due after the greatest delay so far.
      What was received is the sum over the requests. */
  lemma {:induction false} DecisionsFollowEvents(delay: real, events: seq<Event>)
    requires LegalRun(Initial(delay), events)
    ensures var s := Run(Initial(delay), events);
            && s.history == Decisions(delay, events)
            && s.delay == delay && s.maxMsgDelay == GreatestDelay(events)
            && s.msgsRcvd == Requests(events) && s.bytesRcvd == RequestBytes(events)
  {
    if events != [] {
      var n := |events| - 1;
      RunByPrefix(Initial(delay), events);
      DecisionsFollowEvents(delay, events[..n]);
      HandleDecides(Run(Initial(delay), events[..n]), events[n], GreatestDelay(events));
    }
  }

  /** A decision goes out with the event that made it exactly if it is due then. */
  lemma SentAtOnceIff(delay: real, events: seq<Event>, i: Item)
    requires LegalRun(Initial(delay), events) && events != [] && !events[|events| - 1].SelfMessage?
    requires i in Decisions(delay, events) && |Decisions(delay, events[..|events| - 1])| <= i.id
    ensures i in Run(Initial(delay), events).sent <==> i.due == events[|events| - 1].now
  {
    var n := |events| - 1;
    RunByPrefix(Initial(delay), events);
    DecisionsFollowEvents(delay, events);
    DecisionsFollowEvents(delay, events[..n]);
    RunKeeps(Initial(delay), events[..n]);
    HandleSends(Run(Initial(delay), events[..n]), events[n], i);
  }

  lemma HandleSends(s: Server, e: Event, i: Item)
    requires Invariant(s) && Legal(s, e) && !e.SelfMessage?
    requires i in Handle(s, e).history && |s.history| <= i.id
    ensures i in Handle(s, e).sent <==> i.due == e.now
  {
  }
}
