/**
 What is left of a message that was given up counts against the read limit of the next one: NextReader
 sets the count to zero before it passes over the fragments that are still to come.
 */
module AbandonedMessages {
  import opened Bytes
  import opened Frames
  import opened FrameReader
  import opened StreamReader

  /** The limit only stops frames of messages that the reader would take without one. */
  lemma LimitStops(s: RState, isServer: bool, limit: int)
    requires limit > 0
    ensures var r := Advance(s, isServer, 0);
            Advance(s, isServer, limit) ==
            if r.Advanced? && !IsControl(r.op) && r.s.length > limit then Failed(ReadLimit) else r
  {
    hide DecodeHead, Mask, CloseOutcome;
  }

  /** The first frame from k on that begins a message. */
  function FirstData(fs: seq<Frame>, k: nat): (j: nat)
    requires k <= |fs|
    ensures k <= j <= |fs| && (j < |fs| ==> IsData(fs[j].op))
    decreases |fs| - k
  {
    if k == |fs| || IsData(fs[k].op) then k else FirstData(fs, k + 1)
  }

  /** The payload bytes of messages in frames k to i. */
  function Sum(fs: seq<Frame>, k: nat, i: nat): nat
    requires i < |fs|
    decreases i - k
  {
    if k > i then 0 else (if IsControl(fs[k].op) then 0 else |fs[k].payload|) + Sum(fs, k + 1, i)
  }

  /** The count may be n: numbers from 2^63 on count as negative ones. */
  predicate Keeps(n: nat, limit: int) {
    Int64(n) <= limit
  }

  /** Below 2^64 that is: within the limit, or so large that the count has wrapped around. */
  lemma KeepsExactly(n: nat, limit: int)
    requires n < TWO64 && 0 < limit < TWO63
    ensures Keeps(n, limit) <==> n <= limit || n >= TWO63
  {
    if n >= TWO63 {
      assert Int64(n) == n - TWO64;
    }
  }

  lemma CountOn(total: nat, n: nat)
    ensures Int64(Int64(total) + n) == Int64(total + n)
  {
    var q := (total + TWO63) / TWO64;
    assert Int64(total) == total - TWO64 * q;
    assert (total + n + TWO63 - TWO64 * q) % TWO64 == (total + n + TWO63) % TWO64;
  }

  /** All counts on the way to the next message are kept, when total has been counted before. */
  ghost predicate AllKept(fs: seq<Frame>, k: nat, j: nat, total: nat, limit: int)
    requires j < |fs|
  {
    forall i :: k <= i <= j ==> Keeps(total + Sum(fs, k, i), limit)
  }

  lemma KeptStep(fs: seq<Frame>, k: nat, j: nat, total: nat, limit: int)
    requires k <= j < |fs| && Keeps(total, limit)
    ensures var n := total + if IsControl(fs[k].op) then 0 else |fs[k].payload|;
            && (k < j ==> (AllKept(fs, k, j, total, limit) <==> Keeps(n, limit) && AllKept(fs, k + 1, j, n, limit)))
            && (k == j ==> (AllKept(fs, k, j, total, limit) <==> Keeps(n, limit)))
            && total + Sum(fs, k, j) == n + Sum(fs, k + 1, j)
            && (k == j ==> Sum(fs, k + 1, j) == 0)
  {
    hide Keeps;
    var n := total + if IsControl(fs[k].op) then 0 else |fs[k].payload|;
    assert Sum(fs, k + 1, k) == 0 && Sum(fs, k, k) == n - total;
    assert forall i :: k + 1 <= i <= j ==> total + Sum(fs, k, i) == n + Sum(fs, k + 1, i);
    if AllKept(fs, k, j, total, limit) {
      var next := k + 1;
      assert Keeps(total + Sum(fs, k, k), limit);
      forall i | next <= i <= j ensures Keeps(n + Sum(fs, next, i), limit) {
        assert Keeps(total + Sum(fs, k, i), limit);
      }
    }
  }

  lemma {:induction false} ToMessageCounts(s: RState, fs: seq<Frame>, p: Place, total: nat, isServer: bool, limit: int)
    requires InSync(s, fs, p, isServer) && limit > 0 && s.length == Int64(total) && Keeps(total, limit)
    requires FirstData(fs, p.k) < |fs|
    ensures var r, j := ToMessage(s, isServer, limit), FirstData(fs, p.k);
            if AllKept(fs, p.k, j, total, limit) then
              && r.Advanced? && r.op == fs[j].op && InSync(r.s, fs, After(fs, j), isServer)
              && r.s.length == Int64(total + Sum(fs, p.k, j))
            else r == Failed(ReadLimit)
    decreases |fs| - p.k
  {
    hide InSync, Advance, Assemble, Wire, WireFrame, Mask, CloseOutcome, AllKept, Sum;
    var k, j := p.k, FirstData(fs, p.k);
    SyncFacts(s, fs, p, isServer);
    if fs[k].op == CLOSE {
      CloseIsLast(fs, k, isServer);
    }
    AdvanceInSync(s, fs, p, isServer, 0);
    LimitStops(s, isServer, limit);
    KeptStep(fs, k, j, total, limit);
    var n := total + if IsControl(fs[k].op) then 0 else |fs[k].payload|;
    CountOn(total, |fs[k].payload|);
    if k < j && Keeps(n, limit) {
      ToMessageCounts(Advance(s, isServer, 0).s, fs, After(fs, k), n, isServer, limit);
    }
  }

  lemma SyncFacts(s: RState, fs: seq<Frame>, p: Place, isServer: bool)
    requires InSync(s, fs, p, isServer)
    ensures p.k <= |fs| && Assemble(fs, isServer).ok && WireFrames(fs)
  {
  }

  /**
   Exactly when NextReader comes to the next message: the payload bytes of the fragments that are
   passed over, and then those of its first frame as well, must keep to the limit at every frame.
   */
  lemma NextCounts(s: RState, fs: seq<Frame>, p: Place, isServer: bool, limit: int)
    requires InSync(s, fs, p, isServer) && limit > 0 && FirstData(fs, p.k) < |fs|
    ensures var r, j := NextMessage(s, isServer, limit), FirstData(fs, p.k);
            if AllKept(fs, p.k, j, 0, limit) then
              r.Advanced? && r.op == fs[j].op && InSync(r.s, fs, After(fs, j), isServer)
            else r == Failed(ReadLimit)
  {
    hide Assemble, Wire, WireFrame, Mask, AllKept, ToMessage, After;
    ToMessageCounts(s.(seqNo := s.seqNo + 1, length := 0), fs, p, 0, isServer, limit);
  }

  lemma {:induction false} SumGrows(fs: seq<Frame>, k: nat, i: nat, j: nat)
    requires i <= j < |fs|
    ensures Sum(fs, k, i) <= Sum(fs, k, j)
    decreases j - k
  {
    if k <= i {
      SumGrows(fs, k + 1, i, j);
    }
  }

  /** While the sum stays below 2^63, that is: the sum keeps to the limit. */
  lemma WithinLimit(fs: seq<Frame>, k: nat, j: nat, limit: int)
    requires k <= j < |fs| && 0 < limit && Sum(fs, k, j) < TWO63
    ensures AllKept(fs, k, j, 0, limit) <==> Sum(fs, k, j) <= limit
  {
    forall i | k <= i <= j ensures Sum(fs, k, i) <= Sum(fs, k, j) {
      SumGrows(fs, k, i, j);
    }
    if AllKept(fs, k, j, 0, limit) {
      assert Keeps(0 + Sum(fs, k, j), limit);
    }
  }

  /** A message in two fragments of a byte each, and another message of one byte. */
  const THREE_FRAMES: seq<Frame> :=
    [Frame(false, TEXT, [], [64]), Frame(true, CONTINUATION, [], [65]), Frame(true, TEXT, [], [66])]

  /**
   An input: a client whose limit is one byte begins the first message and gives it up. Then it is
   refused the second one, which keeps to the limit.
   */
  lemma ShortMessageIsRefused(s: RState)
    requires s == RState(Wire(THREE_FRAMES), 0, true, 0, 0, 0, [])
    ensures WireFrames(THREE_FRAMES) && NextMessage(s, false, 1).Advanced?
    ensures NextMessage(NextMessage(s, false, 1).s, false, 1) == Failed(ReadLimit)
  {
    var fs := THREE_FRAMES;
    ThreeFramesAreRight();
    StartsInSync(s, fs);
    hide InSync, Wire, NextMessage, Assemble;
    assert FirstData(fs, 0) == 0 && Sum(fs, 1, 0) == 0 && Sum(fs, 0, 0) == 1;
    WithinLimit(fs, 0, 0, 1);
    NextCounts(s, fs, Place(0, []), false, 1);
    assert FirstData(fs, 2) == 2 && FirstData(fs, 1) == 2;
    assert Sum(fs, 3, 2) == 0 && Sum(fs, 2, 2) == 1 && Sum(fs, 1, 2) == 2;
    WithinLimit(fs, 1, 2, 1);
    NextCounts(NextMessage(s, false, 1).s, fs, Place(1, [64]), false, 1);
  }

  lemma ThreeFramesAreRight()
    ensures Assemble(THREE_FRAMES, false).ok && WireFrames(THREE_FRAMES)
  {
    var fs := THREE_FRAMES;
    assert fs[..2][..1] == fs[..1] && fs[..1][..0] == [];
    assert Assemble(fs[..1], false) == Assembly(true, false, [], Some(Message(TEXT, [64])), []);
    assert Assemble(fs[..2], false) == Assembly(true, false, [Message(TEXT, [64, 65])], None, []) by {
      assert [64] + [65] == [64, 65];
    }
  }

  lemma StartsInSync(s: RState, fs: seq<Frame>)
    requires Assemble(fs, false).ok && WireFrames(fs) && s == RState(Wire(fs), 0, true, 0, 0, 0, [])
    ensures InSync(s, fs, Place(0, []), false)
  {
    assert fs[0..] == fs && fs[..0] == [];
    assert Mask(s.key, 0, []) + Wire(fs) == Wire(fs);
  }
}
