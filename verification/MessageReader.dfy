/**
 What is left of a message, read to its end: the same bytes and the same error whatever the sizes of the
 reads are, on any stream of bytes at all.
 */
module MessageReader {
  import opened Bytes
  import opened Frames
  import opened FrameReader
  import opened ReadLimit

  /** The bytes, the error if there is one, and whether the end of the message was come to. */
  datatype Rest = Rest(data: seq<byte>, err: Option<ReadError>, whole: bool)
  {
    function Behind(before: seq<byte>): Rest {
      Rest(before + data, err, whole)
    }
  }

  /** Only a server has a key. */
  predicate KeyOk(s: RState, isServer: bool) {
    |s.key| == if isServer then 4 else 0
  }

  lemma AdvanceKeepsKey(s: RState, isServer: bool, limit: int)
    ensures var r := Advance(s, isServer, limit);
            r.Advanced? ==> r.s.seqNo == s.seqNo && (KeyOk(s, isServer) ==> KeyOk(r.s, isServer))
  {
    hide DecodeHead, CloseOutcome, Mask;
    var t := Skip(s);
    if t.Some? {
      DecodedSize(t.value.input, !s.fin, isServer);
    }
  }

  lemma {:induction false} PayloadIsBehind(s: RState, isServer: bool, limit: int)
    ensures var r := ToPayload(s, isServer, limit);
            r.Advanced? ==>
              && |r.s.input| <= |s.input| && (r.s.remaining > 0 || r.s.fin) && r.s.seqNo == s.seqNo
              && (KeyOk(s, isServer) ==> KeyOk(r.s, isServer))
    decreases |s.input|
  {
    hide Advance, KeyOk;
    if s.remaining <= 0 && !s.fin {
      var r := Advance(s, isServer, limit);
      AdvanceKeepsKey(s, isServer, limit);
      if r.Advanced? && !IsData(r.op) {
        PayloadIsBehind(r.s, isServer, limit);
      }
    }
  }

  /** The end of the stream within a payload passes for the end of the message. */
  function ReadRest(s: RState, isServer: bool, limit: int): Rest
    decreases |s.input|
  {
    PayloadIsBehind(s, isServer, limit);
    match ToPayload(s, isServer, limit)
    case Failed(e) => Rest([], Some(if e == EOF then UnexpectedEOF else e), false)
    case Advanced(t, _) =>
      if t.remaining <= 0 then Rest([], None, true)
      else if |t.input| < t.remaining then Rest(Receive(t, |t.input|, isServer).1, None, false)
      else
        var (u, d) := Receive(t, t.remaining, isServer);
        ReadRest(u, isServer, limit).Behind(d)
  }

  // ---------------------------------------------------------------- one read

  /** Control frames and empty fragments on the way to payload make no difference. */
  lemma RestFromPayload(s: RState, isServer: bool, limit: int)
    ensures var r := ToPayload(s, isServer, limit);
            r.Advanced? ==> ReadRest(s, isServer, limit) == ReadRest(r.s, isServer, limit)
  {
    hide Advance, Receive;
    PayloadIsBehind(s, isServer, limit);
  }

  /** A read that gives nothing is the last one. */
  lemma RestIsOver(s: RState, isServer: bool, limit: int)
    ensures match ToPayload(s, isServer, limit)
            case Failed(e) => ReadRest(s, isServer, limit) == Rest([], Some(if e == EOF then UnexpectedEOF else e), false)
            case Advanced(t, _) =>
              && (t.remaining <= 0 ==> ReadRest(s, isServer, limit) == Rest([], None, true))
              && (t.remaining > 0 && t.input == [] ==> ReadRest(s, isServer, limit) == Rest([], None, false))
  {
    hide Advance, ToPayload;
    assert forall key: seq<byte>, pos: nat :: |key| == 4 ==> Mask(key, pos, []) == [];
  }

  /** Two transport reads within a payload are one. */
  lemma ReceiveTwice(s: RState, n: nat, m: nat, isServer: bool)
    requires KeyOk(s, isServer) && n + m <= |s.input|
    ensures var (u, d) := Receive(s, n, isServer);
            var (v, e) := Receive(u, m, isServer);
            Receive(s, n + m, isServer) == (v, d + e)
  {
    hide Mask;
    SliceOfRest(s.input, n, m);
    assert s.input[..n + m] == s.input[..n] + s.input[n..n + m];
    if isServer {
      MaskSplit(s.key, s.maskPos, s.input[..n], s.input[n..n + m]);
      assert (s.maskPos + n + m) % 4 == ((s.maskPos + n) % 4 + m) % 4;
    }
  }

  /** Within a frame: what is left of it, and then the rest. */
  lemma RestInFrame(s: RState, isServer: bool, limit: int)
    requires s.remaining > 0
    ensures ReadRest(s, isServer, limit) ==
            if |s.input| < s.remaining then Rest(Receive(s, |s.input|, isServer).1, None, false)
            else
              var (u, d) := Receive(s, s.remaining, isServer);
              ReadRest(u, isServer, limit).Behind(d)
  {
    hide Advance, Receive;
  }

  lemma BehindTwice(r: Rest, a: seq<byte>, b: seq<byte>)
    ensures r.Behind(b).Behind(a) == r.Behind(a + b)
  {
    assert a + (b + r.data) == a + b + r.data;
  }

  lemma Received(s: RState, n: nat, isServer: bool)
    requires n <= |s.input|
    ensures var u := Receive(s, n, isServer).0;
            && u.remaining == s.remaining - n && |u.input| == |s.input| - n && u.seqNo == s.seqNo
            && |Receive(s, n, isServer).1| == n
  {
  }

  /** A read of any size takes the first bytes of what is left and leaves the others. */
  lemma RestAfterRead(s: RState, n: nat, isServer: bool, limit: int)
    requires KeyOk(s, isServer) && s.remaining > 0 && n <= s.remaining && n <= |s.input|
    ensures var (u, d) := Receive(s, n, isServer);
            ReadRest(s, isServer, limit) == ReadRest(u, isServer, limit).Behind(d)
  {
    hide Receive, ReadRest, Rest.Behind, KeyOk;
    var (u, d) := Receive(s, n, isServer);
    RestInFrame(s, isServer, limit);
    Received(s, n, isServer);
    if n < s.remaining {
      RestInFrame(u, isServer, limit);
      if |s.input| < s.remaining {
        ReceiveTwice(s, n, |s.input| - n, isServer);
        CutBehind(d, Receive(u, |s.input| - n, isServer).1);
      } else {
        ReceiveTwice(s, n, s.remaining - n, isServer);
        var (v, e) := Receive(u, s.remaining - n, isServer);
        BehindTwice(ReadRest(v, isServer, limit), d, e);
      }
    }
  }

  lemma CutBehind(a: seq<byte>, b: seq<byte>)
    ensures Rest(b, None, false).Behind(a) == Rest(a + b, None, false)
  {
  }

  // ---------------------------------------------------------------- frame by frame

  /** Wherever in a frame the reader stands, its next step is the same. */
  lemma SameAdvance(s: RState, n: nat, isServer: bool, limit: int)
    requires KeyOk(s, isServer) && s.remaining > 0 && n <= s.remaining && n <= |s.input|
    ensures var u := Receive(s, n, isServer).0;
            && Advance(u, isServer, limit) == Advance(s, isServer, limit)
            && Declared(u, isServer) == Declared(s, isServer) && u.fin == s.fin
  {
    hide DecodeHead, CloseOutcome, Mask;
    var u, t := Receive(s, n, isServer).0, Skip(s);
    if s.remaining <= |s.input| {
      SliceOfRest(s.input, n, s.remaining - n);
      assert Skip(u) == Some(t.value.(maskPos := u.maskPos));
    }
  }

  /** Between frames: the rest is what is left after the next frame has been entered. */
  lemma RestFromFrame(s: RState, isServer: bool, limit: int)
    requires s.remaining <= 0 && !s.fin
    ensures var r := Advance(s, isServer, limit);
            ReadRest(s, isServer, limit) ==
            if r.Failed? then Rest([], Some(if r.err == EOF then UnexpectedEOF else r.err), false)
            else if IsData(r.op) then Rest([], Some(Internal), false)
            else ReadRest(r.s, isServer, limit)
  {
    hide Advance, Receive;
    var r := Advance(s, isServer, limit);
    if r.Advanced? && !IsData(r.op) {
      assert ToPayload(s, isServer, limit) == ToPayload(r.s, isServer, limit);
    }
  }

  /** The stream ends within the payload of a frame of the message. */
  ghost predicate EndsInPayload(s: RState, isServer: bool, limit: int)
    decreases |s.input|
  {
    if s.remaining > |s.input| then true
    else if s.fin then false
    else
      var r := Advance(s, isServer, limit);
      r.Advanced? && !IsData(r.op) && EndsInPayload(r.s, isServer, limit)
  }

  lemma EndAfterFrame(s: RState, isServer: bool, limit: int)
    requires KeyOk(s, isServer) && 0 < s.remaining <= |s.input|
    ensures EndsInPayload(Receive(s, s.remaining, isServer).0, isServer, limit) <==> EndsInPayload(s, isServer, limit)
  {
    hide Advance;
    SameAdvance(s, s.remaining, isServer, limit);
  }

  /** A message that is not whole is taken for a whole one if and only if the stream ends within a payload of it. */
  lemma {:induction false} CutIsSilent(s: RState, isServer: bool, limit: int)
    requires KeyOk(s, isServer)
    ensures var r := ReadRest(s, isServer, limit);
            && (r.err.None? && !r.whole <==> EndsInPayload(s, isServer, limit))
            && (r.whole ==> r.err.None?)
    decreases |s.input|
  {
    hide Advance, Mask;
    if s.remaining > 0 {
      hide ReadRest;
      RestInFrame(s, isServer, limit);
      if s.remaining <= |s.input| {
        EndAfterFrame(s, isServer, limit);
        CutIsSilent(Receive(s, s.remaining, isServer).0, isServer, limit);
      }
    } else if !s.fin {
      hide ReadRest;
      RestFromFrame(s, isServer, limit);
      AdvanceKeepsKey(s, isServer, limit);
      var r := Advance(s, isServer, limit);
      if r.Advanced? && !IsData(r.op) {
        CutIsSilent(r.s, isServer, limit);
      }
    }
  }

  /** A client gets a text of two bytes, the second of which never comes. */
  const CUT: seq<byte> := [129, 2, 65]

  /** An input: the one byte is taken for the whole message. */
  lemma CutMessage()
    ensures var next := NextMessage(RState(CUT, 0, true, 0, 0, 0, []), false, 0);
            next.Advanced? && ReadRest(next.s, false, 0) == Rest([65], None, false)
  {
    var start := RState(CUT, 0, true, 0, 0, 0, []);
    var s := RState([65], 2, true, 1, 2, 0, []);
    assert CUT[2..] == [65] && CUT[2..2] == [];
    assert DecodeHead(CUT, false, false) == Head(true, TEXT, 2, [], 2);
    assert Advance(start.(seqNo := 1, length := 0), false, 0) == Advanced(s, TEXT);
    assert NextMessage(start, false, 0) == Advanced(s, TEXT);
    assert [65][..1] == [65];
  }

  // ---------------------------------------------------------------- the lengths of a whole message

  /** The lengths that are declared up to the end of the message. */
  function DeclaredInRest(s: RState, isServer: bool, limit: int): nat
    decreases |s.input|
  {
    if s.fin then 0
    else
      var r := Advance(s, isServer, limit);
      Declared(s, isServer) + if r.Failed? || IsData(r.op) then 0 else DeclaredInRest(r.s, isServer, limit)
  }

  /** The lengths that are declared from where NextReader begins up to the end of the message that it comes to. */
  function DeclaredInMessage(s: RState, isServer: bool, limit: int): nat {
    var s0 := s.(seqNo := s.seqNo + 1, length := 0);
    var r := ToMessage(s0, isServer, limit);
    DeclaredToMessage(s0, isServer, limit) + if r.Advanced? then DeclaredInRest(r.s, isServer, limit) else 0
  }

  lemma {:induction false} DeclaredBefore(s: RState, isServer: bool, limit: int)
    ensures var r := ToPayload(s, isServer, limit);
            DeclaredInRest(s, isServer, limit) ==
            DeclaredToPayload(s, isServer, limit) + if r.Advanced? then DeclaredInRest(r.s, isServer, limit) else 0
    decreases |s.input|
  {
    hide Advance, Declared;
    if s.remaining <= 0 && !s.fin {
      var r := Advance(s, isServer, limit);
      if r.Advanced? && !IsData(r.op) {
        DeclaredBefore(r.s, isServer, limit);
      }
    }
  }

  lemma DeclaredAfterRead(s: RState, n: nat, isServer: bool, limit: int)
    requires KeyOk(s, isServer) && s.remaining > 0 && n <= s.remaining && n <= |s.input|
    ensures DeclaredInRest(Receive(s, n, isServer).0, isServer, limit) == DeclaredInRest(s, isServer, limit)
  {
    hide Advance, Declared, Receive;
    SameAdvance(s, n, isServer, limit);
  }
}
