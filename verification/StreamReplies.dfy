/**
 The replies of a reader to a stream of frames: each ping is answered with a pong that has its payload, in
 order, a close frame with a close frame, and nothing else is.
 */
module StreamReplies {
  import opened Bytes
  import opened Frames
  import opened FrameReader
  import opened StreamReader
  import opened Replies
  import opened LimitedMessages

  function ReplyTo(f: Frame): seq<Message> {
    if f.op == 9 then [Message(10, f.payload)]
    else if f.op == 8 then [Message(8, [])]
    else []
  }

  /** The replies to frames from k on, up to but without n. */
  function RepliesTo(fs: seq<Frame>, k: nat, n: nat): seq<Message>
    requires n <= |fs|
    decreases n - k
  {
    if k >= n then [] else ReplyTo(fs[k]) + RepliesTo(fs, k + 1, n)
  }

  /** The frames that NextReader takes: up to the one that begins a message, or to the end. */
  function Taken(fs: seq<Frame>, k: nat): (n: nat)
    requires k <= |fs|
    ensures k <= n <= |fs|
    decreases |fs| - k
  {
    if k == |fs| then k else if IsData(fs[k].op) then k + 1 else Taken(fs, k + 1)
  }

  lemma EnterReplies(t: RState, fs: seq<Frame>, k: nat, isServer: bool)
    requires InSync(t, fs, Place(k, []), isServer) && k < |fs|
    ensures var h := DecodeHead(t.input, !t.fin, isServer);
            && h.Head? && h.size <= |t.input| && |h.key| == (if isServer then 4 else 0)
            && var q := EnterReply(t, h, 0);
               if ReplyTo(fs[k]) == [] then q.None? else q == Some(ReplyTo(fs[k])[0])
  {
    hide EncodeFrame, DecodeHead, Mask, Wire, Assemble, Assembly.Take, CloseOutcome, FormatClose;
    var f := fs[k];
    var rest := Wire(fs[k + 1..]);
    GrammarStep(fs, k, isServer);
    WireFrom(fs, k);
    assert Mask(t.key, t.maskPos, []) + Wire(fs[k..]) == Wire(fs[k..]);
    DecodeEncoded(f, rest, !t.fin, isServer);
    var h := DecodeHead(t.input, !t.fin, isServer);
    var m := Mask(f.key, 0, f.payload);
    assert (m + rest)[..h.length] == m;
    MaskCancels(f.key, 0, f.payload);
  }

  lemma ReplyInSync(s: RState, fs: seq<Frame>, p: Place, isServer: bool)
    requires InSync(s, fs, p, isServer)
    ensures var q := Reply(s, isServer, 0);
            if p.k == |fs| || ReplyTo(fs[p.k]) == [] then q.None? else q == Some(ReplyTo(fs[p.k])[0])
  {
    hide Mask, Wire, Assemble, DecodeHead, EnterReply, WireFrame;
    SkipInSync(s, fs, p, isServer);
    var t := s.(input := Wire(fs[p.k..]), remaining := 0);
    assert Mask(t.key, t.maskPos, []) + Wire(fs[p.k..]) == Wire(fs[p.k..]);
    if p.k < |fs| {
      EnterReplies(t, fs, p.k, isServer);
    } else {
      EmptyInput(t, fs, isServer);
    }
  }

  /** One frame has been answered. */
  lemma OneReply(t: Talk, f: Frame, q: Option<Message>, late: nat -> bool)
    requires !t.closed && !late(t.tries)
    requires if ReplyTo(f) == [] then q.None? else q == Some(ReplyTo(f)[0])
    ensures Answered(t, q, late).controls == t.controls + ReplyTo(f)
    ensures Answered(t, q, late).closed <==> f.op == 8
  {
  }

  lemma TakenStep(fs: seq<Frame>, k: nat)
    requires k <= |fs|
    ensures k == |fs| ==> Taken(fs, k) == k && RepliesTo(fs, k, k) == []
    ensures k < |fs| && IsData(fs[k].op) ==> Taken(fs, k) == k + 1 && RepliesTo(fs, k, k + 1) == []
    ensures k < |fs| && !IsData(fs[k].op) ==>
              Taken(fs, k) == Taken(fs, k + 1) && RepliesTo(fs, k, Taken(fs, k)) == ReplyTo(fs[k]) + RepliesTo(fs, k + 1, Taken(fs, k + 1))
    ensures RepliesTo(fs, |fs|, |fs|) == []
  {
    if k < |fs| {
      assert RepliesTo(fs, k + 1, k + 1) == [];
    }
  }

  lemma TalkStep(t: Talk, s: RState, isServer: bool, late: nat -> bool)
    ensures var r, u := Advance(s, isServer, 0), Answered(t, Reply(s, isServer, 0), late);
            TalkToMessage(t, s, isServer, 0, late) ==
            if r.Failed? || IsData(r.op) then u else TalkToMessage(u, r.s, isServer, 0, late)
  {
    hide Advance, Reply, Answered;
  }

  lemma Behind(a: seq<Message>, b: seq<Message>, c: seq<Message>)
    ensures a + b + c == a + (b + c)
    ensures forall m :: m in b + c <==> m in b || m in c
    ensures a + [] == a && b + [] == b
  {
  }

  /** All replies go out in their order when none comes too late, until a close has been sent. */
  lemma {:induction false} ToMessageReplies(t: Talk, s: RState, fs: seq<Frame>, p: Place, isServer: bool, late: nat -> bool)
    requires InSync(s, fs, p, isServer) && !t.closed && forall n :: !late(n)
    ensures var u, rs := TalkToMessage(t, s, isServer, 0, late), RepliesTo(fs, p.k, Taken(fs, p.k));
            u.controls == t.controls + rs && (u.closed <==> Message(8, []) in rs)
    decreases |fs| - p.k
  {
    hide InSync, Mask, Wire, WireFrame, CloseOutcome, Advance, Assemble, Assembly.Take, Reply, Answered, RepliesTo, Taken, TalkToMessage;
    var k := p.k;
    SyncedFacts(s, fs, p, isServer);
    ReplyInSync(s, fs, p, isServer);
    AdvanceInSync(s, fs, p, isServer, 0);
    TalkStep(t, s, isServer, late);
    TakenStep(fs, k);
    Behind(t.controls, [], []);
    if k == |fs| {
      NoReply(t, late);
    } else {
      var u := Answered(t, Reply(s, isServer, 0), late);
      OneReply(t, fs[k], Reply(s, isServer, 0), late);
      if fs[k].op == 8 {
        CloseIsLast(fs, k, isServer);
        TakenStep(fs, |fs|);
      } else if !IsData(fs[k].op) {
        ToMessageReplies(u, Advance(s, isServer, 0).s, fs, After(fs, k), isServer, late);
        Behind(t.controls, ReplyTo(fs[k]), RepliesTo(fs, k + 1, Taken(fs, k + 1)));
      }
    }
  }

  lemma NoReply(t: Talk, late: nat -> bool)
    ensures Answered(t, None, late) == t
  {
  }

  lemma SyncedFacts(s: RState, fs: seq<Frame>, p: Place, isServer: bool)
    requires InSync(s, fs, p, isServer)
    ensures p.k <= |fs| && Assemble(fs, isServer).ok && WireFrames(fs)
  {
  }

  // ---------------------------------------------------------------- the rest of a message

  /** The frames that are taken up to the end of the message under way. */
  function RestTaken(fs: seq<Frame>, k: nat): (n: nat)
    requires k <= |fs|
    ensures k <= n <= |fs|
    decreases |fs| - k
  {
    if k == |fs| then k else if !IsControl(fs[k].op) && fs[k].fin then k + 1 else RestTaken(fs, k + 1)
  }

  lemma RestTakenStep(fs: seq<Frame>, k: nat)
    requires k <= |fs|
    ensures k == |fs| ==> RestTaken(fs, k) == k && RepliesTo(fs, k, k) == []
    ensures k < |fs| && !IsControl(fs[k].op) && fs[k].fin ==> RepliesTo(fs, k, RestTaken(fs, k)) == []
    ensures k < |fs| && (IsControl(fs[k].op) || !fs[k].fin) ==>
              RepliesTo(fs, k, RestTaken(fs, k)) == ReplyTo(fs[k]) + RepliesTo(fs, k + 1, RestTaken(fs, k + 1))
  {
    if k < |fs| {
      assert RepliesTo(fs, k + 1, k + 1) == [];
    }
  }

  lemma RestTalkStep(t: Talk, s: RState, isServer: bool, late: nat -> bool)
    requires s.remaining <= |s.input|
    ensures var r, u := Advance(s, isServer, 0), Answered(t, Reply(s, isServer, 0), late);
            TalkInRest(t, s, isServer, 0, late) ==
            if s.fin then t
            else if r.Failed? || IsData(r.op) then u else TalkInRest(u, r.s, isServer, 0, late)
  {
    hide Advance, Reply, Answered;
  }

  /** The same while the rest of a message is read: pings between its fragments are answered. */
  lemma {:induction false} InRestReplies(t: Talk, s: RState, fs: seq<Frame>, p: Place, isServer: bool, late: nat -> bool)
    requires InSync(s, fs, p, isServer) && !t.closed && forall n :: !late(n)
    ensures p.k <= |fs|
    ensures var u, rs := TalkInRest(t, s, isServer, 0, late), if s.fin then [] else RepliesTo(fs, p.k, RestTaken(fs, p.k));
            u.controls == t.controls + rs && (u.closed <==> Message(8, []) in rs)
    decreases |fs| - p.k
  {
    hide InSync, Mask, Wire, WireFrame, CloseOutcome, Advance, Assemble, Assembly.Take, Reply, Answered, RepliesTo, RestTaken, TalkInRest;
    var k := p.k;
    SyncedFacts(s, fs, p, isServer);
    LeftIsRemaining(s, fs, p, isServer);
    RestTalkStep(t, s, isServer, late);
    Behind(t.controls, [], []);
    if !s.fin {
      ReplyInSync(s, fs, p, isServer);
      AdvanceInSync(s, fs, p, isServer, 0);
      RestTakenStep(fs, k);
      if k == |fs| {
        NoReply(t, late);
      } else {
        var u, r := Answered(t, Reply(s, isServer, 0), late), Advance(s, isServer, 0);
        OneReply(t, fs[k], Reply(s, isServer, 0), late);
        InMessage(s, fs, p, isServer);
        if fs[k].op == 8 {
          CloseIsLast(fs, k, isServer);
          RestTakenStep(fs, |fs|);
        } else {
          EnteredFin(s, r.s, fs, p, isServer);
          InRestReplies(u, r.s, fs, After(fs, k), isServer, late);
          Behind(t.controls, ReplyTo(fs[k]), RepliesTo(fs, k + 1, RestTaken(fs, k + 1)));
        }
      }
    }
  }
}
