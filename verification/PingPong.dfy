/**
 A server that gets a ping and nothing else: the bytes that it sends.
 */
module PingPong {
  import opened Bytes
  import opened Frames
  import opened FrameReader
  import opened ReadLimit
  import opened StreamReader
  import opened Replies
  import opened StreamReplies
  import opened Websocket

  /** Frames that come to one control message are that one frame. */
  lemma {:induction false} OneControlFrame(fs: seq<Frame>, m: Message)
    requires var a := Assemble(fs, false); a.ok && a.done == [] && a.part.None? && a.controls == [m]
    ensures fs == [Frame(true, m.mtype, [], m.data)]
  {
    hide Assemble;
    if fs == [] {
      NoFrames();
    } else {
      var front, f := fs[..|fs| - 1], fs[|fs| - 1];
      assert fs == front + [f];
      AssembleSnoc(front, f, false);
      NothingBefore(front, f, m);
      NoControlsNoFrames(front);
    }
  }

  lemma NoFrames()
    ensures Assemble([], false) == Assembly(true, false, [], None, [])
  {
  }

  lemma NothingBefore(front: seq<Frame>, f: Frame, m: Message)
    requires var b := AddFrame(Assemble(front, false), f, false); b.ok && b.done == [] && b.part.None? && b.controls == [m]
    ensures var a := Assemble(front, false); a.ok && a.done == [] && a.part.None? && a.controls == []
    ensures f == Frame(true, m.mtype, [], m.data)
  {
    hide Assemble;
    var a := Assemble(front, false);
    assert IsControl(f.op);
    assert a.controls + [Message(f.op, f.payload)] == [m];
    assert (a.controls + [Message(f.op, f.payload)])[|a.controls|] == Message(f.op, f.payload);
    assert a.controls == [];
  }

  lemma LastIsControl(a: Assembly, f: Frame)
    requires var b := AddFrame(a, f, false); b.ok && b.done == [] && b.part.None?
    ensures AddFrame(a, f, false).controls != []
  {
  }

  lemma {:induction false} NoControlsNoFrames(fs: seq<Frame>)
    requires var a := Assemble(fs, false); a.ok && a.done == [] && a.part.None? && a.controls == []
    ensures fs == []
  {
    hide Assemble, AddFrame;
    if fs != [] {
      var front, f := fs[..|fs| - 1], fs[|fs| - 1];
      assert fs == front + [f];
      AssembleSnoc(front, f, false);
      LastIsControl(Assemble(front, false), f);
    }
  }

  lemma PingAlone(f: Frame)
    requires f.fin && f.op == PING && |f.key| == 4 && |f.payload| <= 125
    ensures WireFrames([f]) && Wire([f]) == EncodeFrame(f) && Assemble([f], true).ok
    ensures RepliesTo([f], 0, Taken([f], 0)) == [Message(10, f.payload)]
  {
    WireOne(f);
    assert Assemble([f][..0], true) == Assembly(true, false, [], None, []);
    assert Taken([f], 1) == 1 && RepliesTo([f], 1, 1) == [];
  }

  lemma StartsInSync(s: RState, f: Frame)
    requires WireFrames([f]) && Assemble([f], true).ok && s == RState(Wire([f]), 0, true, 1, 0, 0, [0, 0, 0, 0])
    ensures InSync(s, [f], Place(0, []), true)
  {
    assert [f][0..] == [f] && [f][..0] == [];
    assert Mask(s.key, 0, []) + Wire([f]) == Wire([f]);
  }

  lemma PongBytes(payload: seq<byte>)
    requires |payload| <= 125
    ensures var f := Frame(true, 10, [], payload);
            WireFrames([f]) && Wire([f]) == [138, |payload|] + payload
  {
    var f := Frame(true, 10, [], payload);
    WireOne(f);
    UnmaskedIsItself(0, payload);
  }

  lemma WireOfControl(l: Link, wire: seq<byte>, m: Message)
    requires l.Ok(wire, true, false) && |m.data| <= 125 && m.mtype == 10
    requires var a := l.Sent(false); a.done == [] && a.part.None? && a.controls == [m]
    ensures wire == [138, |m.data|] + m.data
  {
    OneControlFrame(l.frames, m);
    PongBytes(m.data);
    hide Assemble, Wire, EncodeFrame;
    assert wire == Wire(l.frames) + [];
  }

  /** A new server connection reads what comes, until there is nothing more. */
  method Serve(input: seq<byte>, late: nat -> bool) returns (c: Conn)
    ensures fresh(c) && c.link.Ok(c.wire, true, false)
    ensures c.Sent() == c.link.Sent(false) && c.Sent().done == [] && c.Sent().part.None?
    ensures c.Sayings() == TalkToMessage(Talk([], false, 0), RState(input, 0, true, 1, 0, 0, [0, 0, 0, 0]), true, 0, late)
  {
    hide TalkToMessage, NextMessage, DeclaredToMessage, Link.Ok, Wire;
    c := new Conn(true, 1, 0, true, late, input);
    assert c.Sent() == Assembly(true, false, [], None, []);
    var _, _, _ := c.NextReader();
  }

  /** A masked ping comes in; an unmasked pong with its payload goes out, if the reply is not too late. */
  method PingIsAnswered(key: seq<byte>, payload: seq<byte>) returns (sent: seq<byte>)
    requires |key| == 4 && |payload| <= 125
    ensures sent == [138, |payload|] + payload
  {
    hide TalkToMessage, InSync, Wire, EncodeFrame, Assemble, RepliesTo, Taken, Link.Ok;
    var f, late := Frame(true, PING, key, payload), (n: nat) => false;
    PingAlone(f);
    ghost var s := RState(Wire([f]), 0, true, 1, 0, 0, [0, 0, 0, 0]);
    StartsInSync(s, f);
    ToMessageReplies(Talk([], false, 0), s, [f], Place(0, []), true, late);
    var c := Serve(EncodeFrame(f), late);
    assert [] + [Message(10, payload)] == [Message(10, payload)];
    WireOfControl(c.link, c.wire, Message(10, payload));
    sent := c.wire;
  }
}
