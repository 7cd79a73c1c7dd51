/**
 Reading a stream that is exactly the wire form of a sequence of frames: the reader steps
 from frame to frame, and what they hand out is what the frames carry.
 */
module StreamReader {
  import opened Bytes
  import opened Frames
  import opened FrameReader

  /** Where a reader stands in the frames fs: k frames are begun, left of the last one is unread. */
  datatype Place = Place(k: nat, left: seq<byte>)

  /** The unread input is the unread part of the last frame, masked, followed by the other frames. */
  ghost predicate InSync(s: RState, fs: seq<Frame>, p: Place, isServer: bool) {
    && p.k <= |fs|
    && Assemble(fs, isServer).ok && WireFrames(fs)
    && |p.left| == s.remaining
    && |s.key| == (if isServer then 4 else 0)
    && s.input == Mask(s.key, s.maskPos, p.left) + Wire(fs[p.k..])
    && (s.fin <==> Assemble(fs[..p.k], isServer).part.None?)
  }

  /** What is still to come of the message under way. */
  function Unread(s: RState, fs: seq<Frame>, p: Place): seq<byte> {
    p.left + if s.fin then [] else Tail(fs, p.k)
  }

  /** Passing over the rest of a frame leads to the next frame. */
  lemma SkipInSync(s: RState, fs: seq<Frame>, p: Place, isServer: bool)
    requires InSync(s, fs, p, isServer)
    ensures Skip(s) == Some(s.(input := Wire(fs[p.k..]), remaining := 0))
  {
    hide Mask, Wire, Assemble, WireFrame;
    var m := Mask(s.key, s.maskPos, p.left);
    assert (m + Wire(fs[p.k..]))[|p.left|..] == Wire(fs[p.k..]);
    if p.left == [] {
      assert m + Wire(fs[p.k..]) == Wire(fs[p.k..]);
    }
  }

  lemma WireFrom(fs: seq<Frame>, k: nat)
    requires WireFrames(fs) && k < |fs|
    ensures Wire(fs[k..]) == EncodeFrame(fs[k]) + Wire(fs[k + 1..])
  {
    hide EncodeFrame, WireFrame;
    assert fs[k..][1..] == fs[k + 1..];
  }

  /** Where the reader stands after frame k. */
  function After(fs: seq<Frame>, k: nat): Place
    requires k < |fs|
  {
    Place(k + 1, if IsControl(fs[k].op) then [] else fs[k].payload)
  }

  /** Entering frame k of the stream. */
  lemma EnterInSync(t: RState, fs: seq<Frame>, k: nat, isServer: bool, limit: int)
    requires InSync(t, fs, Place(k, []), isServer) && k < |fs| && limit <= 0
    ensures var h := DecodeHead(t.input, !t.fin, isServer);
            && h.Head? && h.size <= |t.input| && |h.key| == (if isServer then 4 else 0)
            && var r := Enter(t, h, isServer, limit);
               if fs[k].op == CLOSE then r == Failed(CloseOutcome(fs[k].payload))
               else
                 && r.Advanced? && r.op == fs[k].op && r.s.seqNo == t.seqNo
                 && r.s.length == (if IsControl(fs[k].op) then t.length else Int64(t.length + |fs[k].payload|))
                 && InSync(r.s, fs, After(fs, k), isServer)
  {
    hide EncodeFrame, DecodeHead, Mask, Wire, Assemble, Assembly.Take, CloseOutcome;
    var f := fs[k];
    var rest := Wire(fs[k + 1..]);
    GrammarStep(fs, k, isServer);
    WireFrom(fs, k);
    assert Mask(t.key, t.maskPos, []) + Wire(fs[k..]) == Wire(fs[k..]);
    DecodeEncoded(f, rest, !t.fin, isServer);
    var h := DecodeHead(t.input, !t.fin, isServer);
    var m := Mask(f.key, 0, f.payload);
    assert (m + rest)[..h.length] == m && (m + rest)[h.length..] == rest;
    MaskCancels(f.key, 0, f.payload);
    TakeFin(Assemble(fs[..k], isServer), f, isServer);
    if !isServer {
      UnmaskedIsItself(0, f.payload);
      UnmaskedIsItself(t.maskPos, f.payload);
    }
    assert Mask(h.key, 0, []) + rest == rest && Mask(t.key, t.maskPos, []) + rest == rest;
  }

  /** A data frame decides whether a message is under way, a control frame does not. */
  lemma TakeFin(a: Assembly, f: Frame, masked: bool)
    requires MayFollow(a, f, masked)
    ensures var b := a.Take(f.fin, f.op, f.payload);
            b.part.None? <==> if IsControl(f.op) then a.part.None? else f.fin
  {
  }

  /** One step of the reader moves on by exactly one frame, wherever in the frame before it stands. */
  lemma AdvanceInSync(s: RState, fs: seq<Frame>, p: Place, isServer: bool, limit: int)
    requires InSync(s, fs, p, isServer) && limit <= 0
    ensures var r := Advance(s, isServer, limit);
            if p.k == |fs| then r == Failed(UnexpectedEOF)
            else if fs[p.k].op == CLOSE then r == Failed(CloseOutcome(fs[p.k].payload))
            else
              && r.Advanced? && r.op == fs[p.k].op && r.s.seqNo == s.seqNo
              && r.s.length == (if IsControl(fs[p.k].op) then s.length else Int64(s.length + |fs[p.k].payload|))
              && InSync(r.s, fs, After(fs, p.k), isServer)
  {
    hide Mask, Wire, Assemble, DecodeHead, Enter, WireFrame, CloseOutcome;
    SkipInSync(s, fs, p, isServer);
    var t := s.(input := Wire(fs[p.k..]), remaining := 0);
    assert Mask(t.key, t.maskPos, []) + Wire(fs[p.k..]) == Wire(fs[p.k..]);
    assert InSync(t, fs, Place(p.k, []), isServer);
    if p.k < |fs| {
      EnterInSync(t, fs, p.k, isServer, limit);
    } else {
      EmptyInput(t, fs, isServer);
    }
  }

  lemma EmptyInput(t: RState, fs: seq<Frame>, isServer: bool)
    requires t.input == Wire(fs[|fs|..])
    ensures DecodeHead(t.input, !t.fin, isServer) == Short
  {
  }

  /**
   NextReader finds the next message whatever was left unread of the one before, and fails
   exactly when no other message has begun.
   */
  lemma NextInSync(s: RState, fs: seq<Frame>, p: Place, isServer: bool, limit: int) returns (q: Place)
    requires InSync(s, fs, p, isServer) && limit <= 0
    ensures var r := NextMessage(s, isServer, limit);
            var ms := MessagesFrom(fs, p.k);
            if ms == [] then r.Failed?
            else
              && r.Advanced? && r.op == ms[0].mtype && r.s.seqNo == s.seqNo + 1
              && InSync(r.s, fs, q, isServer)
              && Unread(r.s, fs, q) == ms[0].data && MessagesFrom(fs, q.k) == ms[1..]
  {
    hide Mask, Wire, Assemble, WireFrame;
    q := ToMessageInSync(s.(seqNo := s.seqNo + 1, length := 0), fs, p, isServer, limit);
  }

  /** Once frame k is entered, what is unread is what frames from k on carry. */
  lemma UnreadAfter(s: RState, fs: seq<Frame>, k: nat, isServer: bool)
    requires k < |fs| && InSync(s, fs, After(fs, k), isServer)
    ensures !IsControl(fs[k].op) ==> Unread(s, fs, After(fs, k)) == Tail(fs, k)
    ensures IsControl(fs[k].op) && !s.fin ==> Unread(s, fs, After(fs, k)) == Tail(fs, k)
    ensures !IsControl(fs[k].op) ==> (s.fin <==> fs[k].fin)
    ensures EndsFrom(fs, k) ==> s.fin || EndsFrom(fs, k + 1)
    ensures !IsData(fs[k].op) ==> MessagesFrom(fs, k) == MessagesFrom(fs, k + 1)
  {
    hide Mask, Wire, Assemble, WireFrame, Assembly.Take;
    FinAfter(fs, k, isServer);
    if IsControl(fs[k].op) && !s.fin {
      assert [] + Tail(fs, k + 1) == Tail(fs, k + 1);
    }
  }

  lemma ToMessageInSync(s: RState, fs: seq<Frame>, p: Place, isServer: bool, limit: int) returns (q: Place)
    requires InSync(s, fs, p, isServer) && limit <= 0
    ensures var r := ToMessage(s, isServer, limit);
            var ms := MessagesFrom(fs, p.k);
            if ms == [] then r.Failed?
            else
              && r.Advanced? && r.op == ms[0].mtype && r.s.seqNo == s.seqNo
              && InSync(r.s, fs, q, isServer)
              && Unread(r.s, fs, q) == ms[0].data && MessagesFrom(fs, q.k) == ms[1..]
    decreases |fs| - p.k
  {
    hide Mask, Wire, WireFrame, CloseOutcome, Advance, Assemble, Assembly.Take;
    q := p;
    AdvanceInSync(s, fs, p, isServer, limit);
    if p.k < |fs| {
      GrammarStep(fs, p.k, isServer);
      if fs[p.k].op == CLOSE {
        CloseIsLast(fs, p.k, isServer);
      } else {
        q := After(fs, p.k);
        var r := Advance(s, isServer, limit);
        UnreadAfter(r.s, fs, p.k, isServer);
        if !IsData(r.op) {
          q := ToMessageInSync(r.s, fs, q, isServer, limit);
        }
      }
    }
  }

  /** After a data frame, a message is under way unless the frame was its last. */
  lemma FinAfter(fs: seq<Frame>, k: nat, masked: bool)
    requires Assemble(fs, masked).ok && k < |fs|
    ensures Assemble(fs[..k + 1], masked).part.None? <==>
            if IsControl(fs[k].op) then Assemble(fs[..k], masked).part.None? else fs[k].fin
  {
    hide Assemble, Assembly.Take;
    GrammarStep(fs, k, masked);
    TakeFin(Assemble(fs[..k], masked), fs[k], masked);
  }

  /** Nothing comes after a close frame. */
  lemma CloseIsLast(fs: seq<Frame>, k: nat, masked: bool)
    requires Assemble(fs, masked).ok && k < |fs| && fs[k].op == CLOSE
    ensures k + 1 == |fs| && !EndsFrom(fs, k)
  {
    GrammarStep(fs, k, masked);
    if k + 1 < |fs| {
      GrammarStep(fs, k + 1, masked);
    }
  }

  /**
   Read moves on through control frames and empty fragments without losing a byte of the
   message: it gets to payload or to the end of the message if the message does end.
   */
  lemma ToPayloadInSync(s: RState, fs: seq<Frame>, p: Place, isServer: bool, limit: int) returns (q: Place)
    requires InSync(s, fs, p, isServer) && limit <= 0
    ensures var r := ToPayload(s, isServer, limit);
            && (s.fin || EndsFrom(fs, p.k) ==> r.Advanced? && (r.s.fin || EndsFrom(fs, q.k)))
            && (r.Advanced? ==>
                  && InSync(r.s, fs, q, isServer) && r.s.seqNo == s.seqNo
                  && (r.s.remaining > 0 || r.s.fin)
                  && Unread(r.s, fs, q) == Unread(s, fs, p) && MessagesFrom(fs, q.k) == MessagesFrom(fs, p.k))
    decreases |fs| - p.k
  {
    hide Mask, Wire, WireFrame, CloseOutcome, Advance, Assemble, Assembly.Take;
    q := p;
    if s.remaining <= 0 && !s.fin {
      AdvanceInSync(s, fs, p, isServer, limit);
      if p.k < |fs| {
        GrammarStep(fs, p.k, isServer);
        if fs[p.k].op == CLOSE {
          CloseIsLast(fs, p.k, isServer);
        } else {
          q := After(fs, p.k);
          var r := Advance(s, isServer, limit);
          FinAfter(fs, p.k, isServer);
          UnreadAfter(r.s, fs, p.k, isServer);
          assert Unread(s, fs, p) == Tail(fs, p.k);
          q := ToPayloadInSync(r.s, fs, q, isServer, limit);
        }
      }
    }
  }

  /** Reading within a frame hands out the next bytes of what is unread. */
  lemma ReceiveInSync(s: RState, fs: seq<Frame>, p: Place, n: nat, isServer: bool)
    requires InSync(s, fs, p, isServer) && n <= |p.left|
    ensures n <= |s.input|
    ensures var (t, data) := Receive(s, n, isServer);
            && data == p.left[..n] && t.seqNo == s.seqNo && InSync(t, fs, Place(p.k, p.left[n..]), isServer)
            && Unread(s, fs, p) == data + Unread(t, fs, Place(p.k, p.left[n..]))
  {
    hide Mask, Wire, Assemble, WireFrame;
    var a, b := p.left[..n], p.left[n..];
    var pos := (s.maskPos + n) % 4;
    assert p.left == a + b;
    MaskSplit(s.key, s.maskPos, a, b);
    var rest := Wire(fs[p.k..]);
    assert s.input == Mask(s.key, s.maskPos, a) + (Mask(s.key, pos, b) + rest);
    assert s.input[..n] == Mask(s.key, s.maskPos, a) && s.input[n..] == Mask(s.key, pos, b) + rest;
    MaskCancels(s.key, s.maskPos, a);
    if !isServer {
      UnmaskedIsItself(s.maskPos, a);
      UnmaskedIsItself(pos, b);
      UnmaskedIsItself(s.maskPos, b);
    }
  }

  /** When all messages are whole, the message under way does end. */
  lemma {:induction false} WholeMessagesEnd(fs: seq<Frame>, k: nat, masked: bool)
    requires Assemble(fs, masked).ok && Assemble(fs, masked).part.None? && k <= |fs|
    ensures Assemble(fs[..k], masked).part.Some? ==> EndsFrom(fs, k)
    decreases |fs| - k
  {
    hide Assembly.Take;
    if k < |fs| {
      WholeMessagesEnd(fs, k + 1, masked);
      FinAfter(fs, k, masked);
    } else {
      assert fs[..k] == fs;
    }
  }
}
