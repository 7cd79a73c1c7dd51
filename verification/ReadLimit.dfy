/**
 The read limit: how the bytes handed out of a message relate to the length that the
 reader counts, on any stream of bytes at all.
 */
module ReadLimit {
  import opened Bytes
  import opened Frames
  import opened FrameReader

  /** The payload length that the next frame declares, if it is a frame of a message. */
  function Declared(s: RState, isServer: bool): nat {
    var t := Skip(s);
    if t.None? then 0
    else
      match DecodeHead(t.value.input, !s.fin, isServer)
      case Head(_, op, length, _, _) => if IsControl(op) then 0 else length
      case _ => 0
  }

  /** The lengths that are declared on the way to the next message. */
  function DeclaredToMessage(s: RState, isServer: bool, limit: int): nat
    decreases |s.input|
  {
    var r := Advance(s, isServer, limit);
    Declared(s, isServer) + if r.Failed? || IsData(r.op) then 0 else DeclaredToMessage(r.s, isServer, limit)
  }

  /** The lengths that are declared on the way to payload, or to the end of the message. */
  function DeclaredToPayload(s: RState, isServer: bool, limit: int): nat
    decreases |s.input|
  {
    if s.remaining > 0 || s.fin then 0
    else
      var r := Advance(s, isServer, limit);
      Declared(s, isServer) + if r.Failed? || IsData(r.op) then 0 else DeclaredToPayload(r.s, isServer, limit)
  }

  /**
   While the lengths declared since NextReader sum to less than 2^63, the count is that sum
   and keeps to the limit, and what was handed out is part of it. (The fragments of an
   abandoned message count as well, so it is a part and not always the whole.)
   */
  predicate Counted(s: RState, handed: nat, declared: nat, limit: int) {
    declared < TWO63 ==> handed <= s.length == declared && (limit > 0 ==> s.length <= limit)
  }

  /** Moreover, there is room in the count for what is left of the frame. */
  predicate Measured(s: RState, handed: nat, declared: nat, limit: int) {
    && Counted(s, handed, declared, limit)
    && (declared < TWO63 ==> s.remaining >= 0 && handed + s.remaining <= s.length)
  }

  lemma StepKeepsMeasure(s: RState, handed: nat, declared: nat, isServer: bool, limit: int)
    requires Counted(s, handed, declared, limit)
    ensures var r := Advance(s, isServer, limit);
            r.Advanced? ==> Measured(r.s, handed, declared + Declared(s, isServer), limit)
  {
    hide DecodeHead, Mask, CloseOutcome;
    var t := Skip(s);
    if t.Some? {
      var h := DecodeHead(t.value.input, !s.fin, isServer);
      if h.Head? {
        DecodedSize(t.value.input, !s.fin, isServer);
        EnterKeepsMeasure(t.value, h, handed, declared, isServer, limit);
      }
    }
  }

  lemma DecodedSize(b: seq<byte>, mid: bool, isServer: bool)
    ensures var h := DecodeHead(b, mid, isServer);
            h.Head? ==> h.size <= |b| && |h.key| == (if isServer then 4 else 0) && (IsControl(h.op) ==> h.length <= MAX_CONTROL)
  {
  }

  lemma EnterKeepsMeasure(s: RState, h: Head, handed: nat, declared: nat, isServer: bool, limit: int)
    requires h.Head? && h.size <= |s.input| && (|h.key| == 0 || |h.key| == 4)
    requires Counted(s, handed, declared, limit)
    ensures var r := Enter(s, h, isServer, limit);
            var d := declared + if IsControl(h.op) then 0 else h.length;
            r.Advanced? ==> Measured(r.s, handed, d, limit)
  {
    hide Mask, CloseOutcome;
  }

  /**
   Beyond that bound the limit does not hold: the count wraps around, and a frame of a message is let
   through if and only if the sum of the lengths keeps to the limit or is at least 2^63.
   */
  lemma LetThrough(s: RState, h: Head, isServer: bool, limit: int)
    requires h.Head? && h.size <= |s.input| && (|h.key| == 0 || |h.key| == 4)
    requires !IsControl(h.op) && h.length < TWO64 && 0 <= s.length <= limit && 0 < limit < TWO63
    ensures Enter(s, h, isServer, limit).Advanced? <==> s.length + h.length <= limit || s.length + h.length >= TWO63
  {
    if h.length >= TWO63 {
      assert Int64(h.length) == h.length - TWO64;
    } else if s.length + h.length >= TWO63 {
      assert Int64(s.length + h.length) == s.length + h.length - TWO64;
    }
  }

  /** A fragment that declares 2^63 bytes, and a last one of two. */
  const OVERFLOWING: seq<byte> := [1, 127, 128, 0, 0, 0, 0, 0, 0, 0, 128, 2, 65, 66]

  /** So a client hands out two bytes of one message although its limit is one. */
  lemma LimitIsPassed()
    ensures var start := RState(OVERFLOWING, 0, true, 0, 0, 0, []);
            var next := NextMessage(start, false, 1);
            && next.Advanced?
            && var read := ToPayload(next.s, false, 1);
               read.Advanced? && 2 <= |read.s.input| && Receive(read.s, 2, false).1 == [65, 66]
  {
    var b, rest := OVERFLOWING, [128, 2, 65, 66];
    assert FinBit(1) == false && Opcode(1) == 1;
    FirstDecoded();
    LastDecoded();
    hide DecodeHead, Value;
    var start := RState(b, 0, true, 0, 0, 0, []);
    assert b[10..] == rest;
    var s1 := start.(seqNo := 1, input := rest, fin := false, remaining := -TWO63, length := -TWO63);
    assert Advance(start.(seqNo := 1, length := 0), false, 1) == Advanced(s1, TEXT);
    assert NextMessage(start, false, 1) == Advanced(s1, TEXT);
    var s2 := s1.(input := [65, 66], fin := true, remaining := 2, length := 2 - TWO63);
    assert rest[2..] == [65, 66];
    assert Advance(s1, false, 1) == Advanced(s2, CONTINUATION);
    assert ToPayload(s1, false, 1) == ToPayload(s2, false, 1) == Advanced(s2, CONTINUATION);
    assert [65, 66][..2] == [65, 66];
  }

  lemma FirstDecoded()
    ensures DecodeHead(OVERFLOWING, false, false) == Head(false, TEXT, TWO63, [], 10)
  {
    var b := OVERFLOWING;
    assert b[2..10] == [128] + [0] + [0] + [0] + [0] + [0] + [0] + [0];
    ShiftedByZeroes();
    assert b[10..10] == [];
  }

  lemma ValueSnoc(b: seq<byte>, d: byte)
    ensures Value(b + [d]) == 256 * Value(b) + d
  {
    assert (b + [d])[..|b|] == b;
  }

  lemma ShiftedByZeroes()
    ensures Value([128] + [0] + [0] + [0] + [0] + [0] + [0] + [0]) == TWO63
  {
    ValueSnoc([128], 0);
    ValueSnoc([128] + [0], 0);
    ValueSnoc([128] + [0] + [0], 0);
    ValueSnoc([128] + [0] + [0] + [0], 0);
    ValueSnoc([128] + [0] + [0] + [0] + [0], 0);
    ValueSnoc([128] + [0] + [0] + [0] + [0] + [0], 0);
    ValueSnoc([128] + [0] + [0] + [0] + [0] + [0] + [0], 0);
  }

  lemma LastDecoded()
    ensures DecodeHead([128, 2, 65, 66], true, false) == Head(true, CONTINUATION, 2, [], 2)
  {
  }

  lemma CountFromZero(s: RState, limit: int)
    ensures s.length == 0 ==> Counted(s, 0, 0, limit)
  {
  }
}
