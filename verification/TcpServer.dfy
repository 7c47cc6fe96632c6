/** The server module itself: its parameters and counters, updated by every message. The
    fields `pending` and `out` stand for the kernel's event set and the gate to TCP. */
module TcpServers {
  import opened ServerClose

  class TcpGenericServer {
    const delay: real
    var maxMsgDelay: real
    var msgsRcvd: nat
    var bytesRcvd: nat
    var msgsSent: nat
    var bytesSent: nat

    var simTime: real
    var pending: seq<Item>
    var out: seq<Item>
    var history: seq<Item>

    constructor (replyDelay: real)
      ensures State() == Initial(replyDelay) && delay == replyDelay
    {
      delay, maxMsgDelay := replyDelay, 0.0;
      msgsRcvd, bytesRcvd, msgsSent, bytesSent := 0, 0, 0, 0;
      simTime, pending, out, history := 0.0, [], [], [];
    }

    function State(): Server
      reads this
    {
      Server(delay, maxMsgDelay, simTime, history, pending, out, msgsRcvd, bytesRcvd, msgsSent, bytesSent)
    }

    method Send(i: Item)
      modifies this`msgsSent, this`bytesSent, this`out
      ensures State() == SendBack(old(State()), i)
    {
      msgsSent := msgsSent + 1;
      bytesSent := bytesSent + Bytes(i.msg);
      out := out + [i];
    }

    method SendOrScheduleMessage(m: Message, d: real)
      modifies this`msgsSent, this`bytesSent, this`out, this`pending, this`history
      ensures State() == SendOrSchedule(old(State()), m, d)
    {
      var i := Item(|history|, simTime + d, m);
      history := history + [i];
      if d == 0.0 {
        Send(i);
      } else {
        pending := pending + [i];
      }
    }

    method HandleRequest(r: Request)
      modifies this
      ensures State() == HandleData(old(State()), r)
    {
      msgsRcvd := msgsRcvd + 1;
      bytesRcvd := bytesRcvd + r.length;
      var msgDelay := r.replyDelay;
      if msgDelay > maxMsgDelay {
        maxMsgDelay := msgDelay;
      }
      assert State() == NoteRequest(old(State()), r);
      if r.expectedReplyLength != 0 {
        SendOrScheduleMessage(Reply(r.conn, r.expectedReplyLength), delay + msgDelay);
      }
      if r.close {
        SendOrScheduleMessage(Close(r.conn), delay + maxMsgDelay);
      }
    }

    /** The kernel advances the clock and delivers a message. */
    method HandleMessage(e: Event)
      requires Legal(State(), e)
      modifies this
      ensures State() == Handle(old(State()), e)
    {
      match e
      case SelfMessage =>
        var k := Earliest(pending);
        var i := pending[k];
        pending := pending[..k] + pending[k + 1..];
        simTime := i.due;
        Send(i);
      case PeerClosed(now, conn) =>
        simTime := now;
        SendOrScheduleMessage(Close(conn), delay + maxMsgDelay);
      case Data(now, r) =>
        simTime := now;
        HandleRequest(r);
      case Indication(now) =>
        simTime := now;
    }
  }
}
