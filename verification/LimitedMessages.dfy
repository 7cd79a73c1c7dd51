/**
 Exactly which messages a reader with a limit gets whole, when the stream is one of frames: the counts are
 taken frame by frame, from where NextReader begins up to the final frame of the message.
 */
module LimitedMessages {
  import opened Bytes
  import opened Frames
  import opened FrameReader
  import opened StreamReader
  import opened MessageReader
  import opened AbandonedMessages

  /** The first frame from k on with payload of the message under way, or its final one. */
  function FirstPayload(fs: seq<Frame>, k: nat): (j: nat)
    requires k <= |fs|
    ensures k <= j <= |fs| && (j < |fs| ==> !IsControl(fs[j].op) && (fs[j].payload != [] || fs[j].fin))
    decreases |fs| - k
  {
    if k == |fs| || (!IsControl(fs[k].op) && (fs[k].payload != [] || fs[k].fin)) then k else FirstPayload(fs, k + 1)
  }

  /** The final frame of the message under way. */
  function FirstFinal(fs: seq<Frame>, k: nat): (j: nat)
    requires k <= |fs|
    ensures k <= j <= |fs| && (j < |fs| ==> !IsControl(fs[j].op) && fs[j].fin)
    decreases |fs| - k
  {
    if k == |fs| || (!IsControl(fs[k].op) && fs[k].fin) then k else FirstFinal(fs, k + 1)
  }

  /** One frame of the message under way: it is entered, unless the count does not keep to the limit. */
  lemma FrameCounts(s: RState, fs: seq<Frame>, p: Place, total: nat, isServer: bool, limit: int)
    requires InSync(s, fs, p, isServer) && limit > 0 && s.length == Int64(total) && Keeps(total, limit)
    requires !s.fin && p.k < |fs| && fs[p.k].op != CLOSE
    ensures var r, k := Advance(s, isServer, limit), p.k;
            var n := total + if IsControl(fs[k].op) then 0 else |fs[k].payload|;
            && !IsData(fs[k].op)
            && if Keeps(n, limit) then
                 && r.Advanced? && r.op == fs[k].op && r.s.length == Int64(n)
                 && InSync(r.s, fs, After(fs, k), isServer)
                 && (r.s.fin <==> !IsControl(fs[k].op) && fs[k].fin)
                 && Unread(r.s, fs, After(fs, k)) == Tail(fs, k)
               else r == Failed(ReadLimit)
  {
    hide InSync, Advance, Assemble, Wire, WireFrame, Mask, CloseOutcome, Tail;
    var k := p.k;
    SyncFacts(s, fs, p, isServer);
    AdvanceInSync(s, fs, p, isServer, 0);
    LimitStops(s, isServer, limit);
    CountOn(total, |fs[k].payload|);
    InMessage(s, fs, p, isServer);
    UnreadAfter(Advance(s, isServer, 0).s, fs, k, isServer);
    EnteredFin(s, Advance(s, isServer, 0).s, fs, p, isServer);
  }

  /** A frame before another one is not a close frame. */
  lemma NotClose(s: RState, fs: seq<Frame>, p: Place, j: nat, isServer: bool)
    requires InSync(s, fs, p, isServer) && p.k <= j < |fs| && !IsControl(fs[j].op)
    ensures fs[p.k].op != CLOSE
  {
    hide Wire, WireFrame, Mask, Assemble;
    if fs[p.k].op == CLOSE {
      CloseIsLast(fs, p.k, isServer);
    }
  }

  /** The loop of Read comes to payload, or to the end of the message, if and only if the counts up to there are kept. */
  lemma {:induction false} PayloadCounts(s: RState, fs: seq<Frame>, p: Place, total: nat, isServer: bool, limit: int)
    requires InSync(s, fs, p, isServer) && limit > 0 && s.length == Int64(total) && Keeps(total, limit)
    requires p.left == [] && !s.fin && FirstPayload(fs, p.k) < |fs|
    ensures var r, j := ToPayload(s, isServer, limit), FirstPayload(fs, p.k);
            if AllKept(fs, p.k, j, total, limit) then
              && r.Advanced? && InSync(r.s, fs, After(fs, j), isServer)
              && r.s.length == Int64(total + Sum(fs, p.k, j))
              && Unread(r.s, fs, After(fs, j)) == Unread(s, fs, p)
            else r == Failed(ReadLimit)
    decreases |fs| - p.k
  {
    hide InSync, Assemble, Wire, WireFrame, Mask, AllKept, Advance, Keeps, Tail, Sum;
    var k, j := p.k, FirstPayload(fs, p.k);
    NotClose(s, fs, p, j, isServer);
    FrameCounts(s, fs, p, total, isServer, limit);
    KeptStep(fs, k, j, total, limit);
    LeftIsRemaining(s, fs, p, isServer);
    var n := total + if IsControl(fs[k].op) then 0 else |fs[k].payload|;
    assert [] + Tail(fs, k) == Tail(fs, k);
    if Keeps(n, limit) {
      var t := Advance(s, isServer, limit).s;
      LeftIsRemaining(t, fs, After(fs, k), isServer);
      if k < j {
        PayloadCounts(t, fs, After(fs, k), n, isServer, limit);
      }
    }
  }

  lemma LeftIsRemaining(s: RState, fs: seq<Frame>, p: Place, isServer: bool)
    requires InSync(s, fs, p, isServer)
    ensures s.remaining == |p.left| <= |s.input| && KeyOk(s, isServer)
  {
    hide Wire, Mask;
  }

  /** No message begins within another one. */
  lemma InMessage(s: RState, fs: seq<Frame>, p: Place, isServer: bool)
    requires InSync(s, fs, p, isServer) && !s.fin && p.k < |fs|
    ensures !IsData(fs[p.k].op)
  {
    hide Wire, WireFrame, Mask;
    GrammarStep(fs, p.k, isServer);
  }

  lemma EnteredFin(s: RState, t: RState, fs: seq<Frame>, p: Place, isServer: bool)
    requires InSync(s, fs, p, isServer) && !s.fin && p.k < |fs| && InSync(t, fs, After(fs, p.k), isServer)
    ensures t.fin <==> !IsControl(fs[p.k].op) && fs[p.k].fin
  {
    hide Wire, WireFrame, Mask, Assemble;
    FinAfter(fs, p.k, isServer);
  }

  // ---------------------------------------------------------------- whole messages

  /** What is left of the frame comes first. */
  lemma RestOfFrame(s: RState, fs: seq<Frame>, p: Place, isServer: bool, limit: int)
    requires InSync(s, fs, p, isServer) && p.left != []
    ensures |p.left| == s.remaining <= |s.input|
    ensures var u := Receive(s, |p.left|, isServer).0;
            && InSync(u, fs, Place(p.k, []), isServer) && u.length == s.length && u.fin == s.fin
            && Unread(s, fs, p) == p.left + Unread(u, fs, Place(p.k, []))
            && ReadRest(s, isServer, limit) == ReadRest(u, isServer, limit).Behind(p.left)
  {
    hide InSync, Receive, ReadRest;
    LeftIsRemaining(s, fs, p, isServer);
    ReceiveInSync(s, fs, p, |p.left|, isServer);
    assert p.left[..|p.left|] == p.left && p.left[|p.left|..] == [];
    RestInFrame(s, isServer, limit);
    SameCount(s, |p.left|, isServer);
  }

  lemma SameCount(s: RState, n: nat, isServer: bool)
    requires n <= |s.input|
    ensures Receive(s, n, isServer).0.length == s.length && Receive(s, n, isServer).0.fin == s.fin
  {
  }

  /** The bytes that come are a beginning of those that were sent, and all of them exactly if all counts are kept. */
  ghost predicate Comes(r: Rest, all: seq<byte>, kept: bool) {
    if kept then r == Rest(all, None, true) else r.err == Some(ReadLimit) && !r.whole && r.data <= all
  }

  /** A message that ends is read to its end if and only if the counts keep to the limit up to its final frame. */
  lemma {:induction false} RestCounts(s: RState, fs: seq<Frame>, p: Place, total: nat, isServer: bool, limit: int)
    requires InSync(s, fs, p, isServer) && limit > 0 && s.length == Int64(total) && Keeps(total, limit)
    requires s.fin || FirstFinal(fs, p.k) < |fs|
    ensures Comes(ReadRest(s, isServer, limit), Unread(s, fs, p), s.fin || AllKept(fs, p.k, FirstFinal(fs, p.k), total, limit))
    decreases |fs| - p.k, |p.left|
  {
    hide InSync, Assemble, Wire, WireFrame, Mask, AllKept, Advance, Keeps, Tail, Sum, ReadRest, Receive;
    LeftIsRemaining(s, fs, p, isServer);
    if p.left != [] {
      RestOfFrame(s, fs, p, isServer, limit);
      RestCounts(Receive(s, |p.left|, isServer).0, fs, Place(p.k, []), total, isServer, limit);
    } else if s.fin {
      RestIsOver(s, isServer, limit);
    } else {
      var k, e := p.k, FirstFinal(fs, p.k);
      NotClose(s, fs, p, e, isServer);
      FrameCounts(s, fs, p, total, isServer, limit);
      KeptStep(fs, k, e, total, limit);
      RestFromFrame(s, isServer, limit);
      assert [] + Tail(fs, k) == Tail(fs, k);
      var n := total + if IsControl(fs[k].op) then 0 else |fs[k].payload|;
      if Keeps(n, limit) {
        RestCounts(Advance(s, isServer, limit).s, fs, After(fs, k), n, isServer, limit);
      }
    }
  }

  lemma {:induction false} SumSplit(fs: seq<Frame>, k: nat, j: nat, i: nat)
    requires k <= j < i < |fs|
    ensures Sum(fs, k, i) == Sum(fs, k, j) + Sum(fs, j + 1, i)
    decreases j - k
  {
    if k < j {
      SumSplit(fs, k + 1, j, i);
    } else {
      assert Sum(fs, k + 1, k) == 0;
    }
  }

  lemma KeptSplit(fs: seq<Frame>, k: nat, j: nat, e: nat, limit: int)
    requires k <= j < e < |fs|
    ensures AllKept(fs, k, e, 0, limit) <==> AllKept(fs, k, j, 0, limit) && AllKept(fs, j + 1, e, Sum(fs, k, j), limit)
  {
    hide Keeps, Sum;
    forall i | j < i <= e ensures Sum(fs, k, i) == Sum(fs, k, j) + Sum(fs, j + 1, i) {
      SumSplit(fs, k, j, i);
    }
    if AllKept(fs, k, e, 0, limit) {
      var next := j + 1;
      forall i | next <= i <= e ensures Keeps(Sum(fs, k, j) + Sum(fs, next, i), limit) {
        assert Keeps(0 + Sum(fs, k, i), limit);
      }
      forall i | k <= i <= j ensures Keeps(0 + Sum(fs, k, i), limit) {
      }
    }
    if AllKept(fs, k, j, 0, limit) && AllKept(fs, j + 1, e, Sum(fs, k, j), limit) {
      var next := j + 1;
      forall i | k <= i <= e ensures Keeps(0 + Sum(fs, k, i), limit) {
        if i > j {
          assert Keeps(Sum(fs, k, j) + Sum(fs, next, i), limit);
        }
      }
    }
  }

  lemma {:induction false} FirstMessage(fs: seq<Frame>, k: nat)
    requires k <= |fs| && FirstData(fs, k) < |fs|
    ensures var j := FirstData(fs, k);
            MessagesFrom(fs, k) != [] && MessagesFrom(fs, k)[0] == Message(fs[j].op, Tail(fs, j))
    decreases |fs| - k
  {
    if !IsData(fs[k].op) {
      FirstMessage(fs, k + 1);
    }
  }

  /**
   The next message of a stream comes to an end, all of it and without an error, if and only if all counts keep
   to the limit: those of what is left of the message before, and then its own, frame by frame up to its final one.
   */
  lemma MessageCounts(s: RState, fs: seq<Frame>, p: Place, isServer: bool, limit: int)
    requires InSync(s, fs, p, isServer) && limit > 0
    requires FirstData(fs, p.k) < |fs| && FirstFinal(fs, FirstData(fs, p.k)) < |fs|
    ensures MessagesFrom(fs, p.k) != []
    ensures var n, m := NextMessage(s, isServer, limit), MessagesFrom(fs, p.k)[0];
            var kept := AllKept(fs, p.k, FirstFinal(fs, FirstData(fs, p.k)), 0, limit);
            if n.Advanced? then n.op == m.mtype && Comes(ReadRest(n.s, isServer, limit), m.data, kept)
            else n == Failed(ReadLimit) && !kept
  {
    hide InSync, Assemble, Wire, WireFrame, Mask, AllKept, Advance, Keeps, Sum, ReadRest, ToMessage, Tail, MessagesFrom;
    var k, j := p.k, FirstData(fs, p.k);
    var e := FirstFinal(fs, j);
    FirstMessage(fs, k);
    LengthIsFree(s, fs, p, isServer);
    var s0 := s.(seqNo := s.seqNo + 1, length := 0);
    NothingCounted(limit);
    ToMessageCounts(s0, fs, p, 0, isServer, limit);
    if j < e {
      KeptSplit(fs, k, j, e, limit);
    }
    if AllKept(fs, k, j, 0, limit) {
      LastIsKept(fs, k, j, limit);
      var t := ToMessage(s0, isServer, limit).s;
      UnreadAfter(t, fs, j, isServer);
      RestCounts(t, fs, After(fs, j), Sum(fs, k, j), isServer, limit);
    }
  }

  lemma LengthIsFree(s: RState, fs: seq<Frame>, p: Place, isServer: bool)
    requires InSync(s, fs, p, isServer)
    ensures p.k <= |fs| && InSync(s.(seqNo := s.seqNo + 1, length := 0), fs, p, isServer)
  {
    hide Assemble, Wire, WireFrame, Mask;
  }

  lemma NothingCounted(limit: int)
    requires limit > 0
    ensures Int64(0) == 0 && Keeps(0, limit)
  {
  }

  lemma LastIsKept(fs: seq<Frame>, k: nat, j: nat, limit: int)
    requires k <= j < |fs| && AllKept(fs, k, j, 0, limit)
    ensures Keeps(Sum(fs, k, j), limit)
  {
    hide Keeps, Sum;
    assert Keeps(0 + Sum(fs, k, j), limit);
  }
}
