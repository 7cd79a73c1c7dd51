/**
 What a reader sends back: a pong for each ping, a close frame for a close frame, for a frame that may not
 come, and for a message beyond the limit.
 */
module Replies {
  import opened Bytes
  import opened Frames
  import opened FrameReader
  import opened ReadLimit
  import opened MessageReader

  /** The control messages that have been sent, whether a close was among them, and how many replies were tried. */
  datatype Talk = Talk(controls: seq<Message>, closed: bool, tries: nat)

  /** A reply goes out unless it comes too late or after a close; late says which ones come too late. */
  function Answered(t: Talk, reply: Option<Message>, late: nat -> bool): Talk {
    if reply.None? then t
    else if late(t.tries) || t.closed then t.(tries := t.tries + 1)
    else Talk(t.controls + [reply.value], reply.value.mtype == CLOSE, t.tries + 1)
  }

  /** What has been sent when NextReader has come to the next message. */
  function TalkToMessage(t: Talk, s: RState, isServer: bool, limit: int, late: nat -> bool): Talk
    decreases |s.input|
  {
    var r, u := Advance(s, isServer, limit), Answered(t, Reply(s, isServer, limit), late);
    if r.Failed? || IsData(r.op) then u else TalkToMessage(u, r.s, isServer, limit, late)
  }

  /** What has been sent when Read has come to payload, or to the end of the message. */
  function TalkToPayload(t: Talk, s: RState, isServer: bool, limit: int, late: nat -> bool): Talk
    decreases |s.input|
  {
    if s.remaining > 0 || s.fin then t
    else
      var r, u := Advance(s, isServer, limit), Answered(t, Reply(s, isServer, limit), late);
      if r.Failed? || IsData(r.op) then u else TalkToPayload(u, r.s, isServer, limit, late)
  }

  /** What has been sent when the message has been read to its end. */
  function TalkInRest(t: Talk, s: RState, isServer: bool, limit: int, late: nat -> bool): Talk
    decreases |s.input|
  {
    if s.fin || s.remaining > |s.input| then t
    else
      var r, u := Advance(s, isServer, limit), Answered(t, Reply(s, isServer, limit), late);
      if r.Failed? || IsData(r.op) then u else TalkInRest(u, r.s, isServer, limit, late)
  }

  lemma {:induction false} TalkBefore(t: Talk, s: RState, isServer: bool, limit: int, late: nat -> bool)
    ensures var r, u := ToPayload(s, isServer, limit), TalkToPayload(t, s, isServer, limit, late);
            TalkInRest(t, s, isServer, limit, late) == if r.Advanced? then TalkInRest(u, r.s, isServer, limit, late) else u
    decreases |s.input|
  {
    hide Advance, Reply, Answered;
    if s.remaining <= 0 && !s.fin {
      var r := Advance(s, isServer, limit);
      if r.Advanced? && !IsData(r.op) {
        TalkBefore(Answered(t, Reply(s, isServer, limit), late), r.s, isServer, limit, late);
      }
    }
  }

  lemma SameReply(s: RState, n: nat, isServer: bool, limit: int)
    requires KeyOk(s, isServer) && s.remaining > 0 && n <= s.remaining && n <= |s.input|
    ensures Reply(Receive(s, n, isServer).0, isServer, limit) == Reply(s, isServer, limit)
  {
    hide DecodeHead, FormatClose, Mask, ReasonText;
    var u, t := Receive(s, n, isServer).0, Skip(s);
    if s.remaining <= |s.input| {
      SliceOfRest(s.input, n, s.remaining - n);
      assert Skip(u) == Some(t.value.(maskPos := u.maskPos));
    }
  }

  lemma TalkAfterRead(t: Talk, s: RState, n: nat, isServer: bool, limit: int, late: nat -> bool)
    requires KeyOk(s, isServer) && s.remaining > 0 && n <= s.remaining && n <= |s.input|
    ensures TalkInRest(t, Receive(s, n, isServer).0, isServer, limit, late) == TalkInRest(t, s, isServer, limit, late)
  {
    SameAdvance(s, n, isServer, limit);
    SameReply(s, n, isServer, limit);
    Received(s, n, isServer);
    hide Advance, Reply, Answered, Receive;
  }

  /** Nothing more is said once the message has ended, or the stream has. */
  lemma TalkIsOver(t: Talk, s: RState, isServer: bool, limit: int, late: nat -> bool)
    ensures s.remaining <= 0 && s.fin ==> TalkInRest(t, s, isServer, limit, late) == t
    ensures s.remaining > 0 && s.input == [] ==> TalkInRest(t, s, isServer, limit, late) == t
  {
    hide Advance, Reply, Answered;
  }
}
