/**
 The frame reader of conn.go as functions on the bytes that are still to be read: the header
 checks, one step to the next frame, and what the steps mean for a stream of frames.
 */
module FrameReader {
  import opened Bytes
  import opened Frames

  // ---------------------------------------------------------------- frame headers

  datatype Head =
    | Short
    | Bad(reason: Reason)
    | Head(fin: bool, op: int, length: nat, key: seq<byte>, size: nat)

  datatype Reason =
    | Reserved(bits: int) | LongControl | ControlNotFinal | StartInMessage | NoMessage | BadOpcode(op: int) | BadMask

  function FinBit(b0: byte): bool { b0 >= 128 }

  function Opcode(b0: byte): int { b0 % 16 }

  function ShortLength(b1: byte): nat { b1 % 128 }

  function MaskBit(b1: byte): bool { b1 >= 128 }

  /** The checks on the first two bytes; mid says whether a message is under way. */
  function FirstTwo(b0: byte, b1: byte, mid: bool): Option<Reason> {
    var op := Opcode(b0);
    if b0 / 16 % 8 != 0 then Some(Reserved(b0 / 16 % 8))
    else if IsControl(op) then
      if ShortLength(b1) > MAX_CONTROL then Some(LongControl)
      else if !FinBit(b0) then Some(ControlNotFinal)
      else None
    else if IsData(op) then
      if mid then Some(StartInMessage) else None
    else if op == CONTINUATION then
      if !mid then Some(NoMessage) else None
    else Some(BadOpcode(op))
  }

  function ExtraLength(b1: byte): nat {
    if ShortLength(b1) == 126 then 2 else if ShortLength(b1) == 127 then 8 else 0
  }

  function DecodeHead(b: seq<byte>, mid: bool, isServer: bool): Head {
    if |b| < 2 then Short
    else if FirstTwo(b[0], b[1], mid).Some? then Bad(FirstTwo(b[0], b[1], mid).value)
    else
      var e := 2 + ExtraLength(b[1]);
      if |b| < e then Short
      else if MaskBit(b[1]) != isServer then Bad(BadMask)
      else
        var size := e + if isServer then 4 else 0;
        if |b| < size then Short
        else Head(FinBit(b[0]), Opcode(b[0]), if e == 2 then ShortLength(b[1]) else Value(b[2..e]), b[e..size], size)
  }

  lemma FirstByte(fin: bool, op: int)
    requires 0 <= op < 16
    ensures var b0 := op + if fin then 128 else 0;
            FinBit(b0) == fin && Opcode(b0) == op && b0 / 16 % 8 == 0
  {
  }

  lemma SecondByte(masked: bool, l: int)
    requires 0 <= l < 128
    ensures var b1 := l + if masked then 128 else 0;
            MaskBit(b1) == masked && ShortLength(b1) == l
  {
  }

  /** The first two bytes of a header, and the length bytes after them. */
  lemma HeaderBytes(fin: bool, op: int, masked: bool, n: nat)
    requires 0 <= op < 16 && n < 0x8000_0000_0000_0000
    ensures var h := EncodeHeader(fin, op, masked, n);
            && FinBit(h[0]) == fin && Opcode(h[0]) == op && h[0] / 16 % 8 == 0
            && MaskBit(h[1]) == masked && |h| == 2 + ExtraLength(h[1])
            && (ShortLength(h[1]) <= MAX_CONTROL <==> n <= MAX_CONTROL)
            && n == if |h| == 2 then ShortLength(h[1]) else Value(h[2..])
  {
    hide FinBit, Opcode, MaskBit, ShortLength, BigEndian, Value;
    var h := EncodeHeader(fin, op, masked, n);
    var k := |h| - 2;
    FirstByte(fin, op);
    SecondByte(masked, if k == 8 then 127 else if k == 2 then 126 else n);
    if k > 0 {
      PowersOf256();
      ValueOfBigEndian(n, k);
      assert h[2..] == BigEndian(n, k);
    }
  }

  /** Where the parts of an encoded frame stand. */
  lemma EncodedLayout(f: Frame, rest: seq<byte>, h: seq<byte>, b: seq<byte>)
    requires WireFrame(f) && h == EncodeHeader(f.fin, f.op, f.key != [], |f.payload|) && b == EncodeFrame(f) + rest
    ensures var k := |h| + |f.key|;
            && |EncodeFrame(f)| == k + |f.payload| && |b| == k + |f.payload| + |rest|
            && b[0] == h[0] && b[1] == h[1] && b[2..|h|] == h[2..]
            && b[|h|..k] == f.key && b[k..] == Mask(f.key, 0, f.payload) + rest
  {
    hide EncodeHeader, Mask;
    var m := Mask(f.key, 0, f.payload);
    assert b == h + f.key + m + rest;
    assert b[..|h|] == h;
    assert b[2..|h|] == b[..|h|][2..];
  }

  /**
   A frame is taken in exactly when it may come next: control frames must be short and
   whole, messages must not overlap, and masking must be that of the other end. The header
   then says what the frame says, and the payload starts where the header ends.
   */
  lemma DecodeEncoded(f: Frame, rest: seq<byte>, mid: bool, isServer: bool)
    requires WireFrame(f)
    ensures var h := DecodeHead(EncodeFrame(f) + rest, mid, isServer);
            var fits := Plausible(f, isServer) && (IsData(f.op) ==> !mid) && (f.op == CONTINUATION ==> mid);
            if fits then
              && h == Head(f.fin, f.op, |f.payload|, f.key, |EncodeFrame(f)| - |f.payload|)
              && (EncodeFrame(f) + rest)[h.size..] == Mask(f.key, 0, f.payload) + rest
            else h.Bad?
  {
    hide FinBit, Opcode, MaskBit, ShortLength, Value, EncodeHeader, EncodeFrame, Mask;
    var h := EncodeHeader(f.fin, f.op, f.key != [], |f.payload|);
    HeaderBytes(f.fin, f.op, f.key != [], |f.payload|);
    EncodedLayout(f, rest, h, EncodeFrame(f) + rest);
  }

  // ---------------------------------------------------------------- reader steps

  datatype ReadError =
    | EOF | UnexpectedEOF | ReadLimit | Protocol(reason: Reason) | Closed(code: int, text: seq<byte>) | Internal

  /** The read fields of Conn, with the bytes that are still to be read. */
  datatype RState = RState(
    input: seq<byte>, remaining: int, fin: bool, seqNo: nat, length: int, maskPos: nat, key: seq<byte>)

  datatype Step = Advanced(s: RState, op: int) | Failed(err: ReadError)

  const TWO63: int := 0x8000_0000_0000_0000
  const TWO64: int := 0x1_0000_0000_0000_0000

  /** A number kept in 64 bits with a sign. */
  function Int64(n: int): (r: int)
    ensures -TWO63 <= r < TWO63
    ensures -TWO63 <= n < TWO63 ==> r == n
  {
    (n + TWO63) % TWO64 - TWO63
  }

  function CloseOutcome(payload: seq<byte>): ReadError {
    if |payload| < 2 then Closed(1005, [])
    else
      var code := Value(payload[..2]);
      if code == 1000 || code == 1001 then EOF else Closed(code, payload[2..])
  }

  /** Step 1 of advanceFrame: what is left of the frame before is passed over. */
  function Skip(s: RState): Option<RState> {
    if s.remaining <= 0 then Some(s)
    else if |s.input| < s.remaining then None
    else Some(s.(input := s.input[s.remaining..], remaining := 0))
  }

  /** Steps 4 to 7 of advanceFrame. */
  function Enter(s: RState, h: Head, isServer: bool, limit: int): Step
    requires h.Head? && h.size <= |s.input| && (|h.key| == 0 || |h.key| == 4)
  {
    var t := s.(input := s.input[h.size..], remaining := Int64(h.length),
                maskPos := if isServer then 0 else s.maskPos, key := if isServer then h.key else s.key);
    if !IsControl(h.op) then
      var u := t.(fin := h.fin, length := Int64(t.length + t.remaining));
      if limit > 0 && u.length > limit then Failed(ReadLimit) else Advanced(u, h.op)
    else if |t.input| < h.length then Failed(UnexpectedEOF)
    else if h.op == CLOSE then Failed(CloseOutcome(Mask(h.key, 0, t.input[..h.length])))
    else Advanced(t.(input := t.input[h.length..], remaining := 0), h.op)
  }

  /** advanceFrame. */
  function Advance(s: RState, isServer: bool, limit: int): (r: Step)
    ensures r.Advanced? ==> |r.s.input| < |s.input|
  {
    var t := Skip(s);
    if t.None? then Failed(EOF)
    else
      var h := DecodeHead(t.value.input, !s.fin, isServer);
      match h
      case Short => Failed(UnexpectedEOF)
      case Bad(reason) => Failed(Protocol(reason))
      case Head(_, _, _, _, _) => Enter(t.value, h, isServer, limit)
  }

  /** NextReader: on to the first frame of the next message. */
  function NextMessage(s: RState, isServer: bool, limit: int): Step {
    ToMessage(s.(seqNo := s.seqNo + 1, length := 0), isServer, limit)
  }

  function ToMessage(s: RState, isServer: bool, limit: int): Step
    decreases |s.input|
  {
    var r := Advance(s, isServer, limit);
    if r.Failed? || IsData(r.op) then r else ToMessage(r.s, isServer, limit)
  }

  /** The loop of Read: on to payload of the current message, or to its end. */
  function ToPayload(s: RState, isServer: bool, limit: int): Step
    decreases |s.input|
  {
    if s.remaining > 0 || s.fin then Advanced(s, CONTINUATION)
    else
      var r := Advance(s, isServer, limit);
      if r.Failed? then r
      else if IsData(r.op) then Failed(Internal)
      else ToPayload(r.s, isServer, limit)
  }

  /** One transport read within the payload: n bytes are taken and unmasked. */
  function Receive(s: RState, n: nat, isServer: bool): (RState, seq<byte>)
    requires n <= |s.input|
  {
    (s.(input := s.input[n..], remaining := s.remaining - n,
        maskPos := if isServer then (s.maskPos + n) % 4 else s.maskPos),
     if |s.key| == 4 then Mask(s.key, s.maskPos, s.input[..n]) else s.input[..n])
  }

  // ---------------------------------------------------------------- control frames sent in reply

  function Ascii(s: string): (r: seq<byte>)
    ensures |r| == |s|
  {
    seq(|s|, i requires 0 <= i < |s| => s[i] as int % 256)
  }

  function Digits(n: int): (r: seq<byte>)
    requires 0 <= n < 100
    ensures |r| <= 2
  {
    if n < 10 then [48 + n] else [48 + n / 10, 48 + n % 10]
  }

  function ReasonText(r: Reason): (t: seq<byte>)
    ensures |t| <= 100
  {
    match r
    case Reserved(bits) => Ascii("unexpected reserved bits ") + if 0 <= bits < 100 then Digits(bits) else []
    case LongControl => Ascii("control frame length > 125")
    case ControlNotFinal => Ascii("control frame not final")
    case StartInMessage => Ascii("message start before final message frame")
    case NoMessage => Ascii("continuation after final message frame")
    case BadOpcode(op) => Ascii("unknown opcode ") + if 0 <= op < 100 then Digits(op) else []
    case BadMask => Ascii("incorrect mask flag")
  }

  function FormatClose(code: nat, text: seq<byte>): (r: seq<byte>)
    ensures |r| == 2 + |text|
  {
    BigEndian(code, 2) + text
  }

  /** The control frame that a step sends back, if it sends one. */
  function Reply(s: RState, isServer: bool, limit: int): Option<Message> {
    var t := Skip(s);
    if t.None? then None
    else
      var h := DecodeHead(t.value.input, !s.fin, isServer);
      match h
      case Short => None
      case Bad(reason) => Some(Message(CLOSE, FormatClose(1002, ReasonText(reason))))
      case Head(_, _, _, _, _) => EnterReply(t.value, h, limit)
  }

  function EnterReply(s: RState, h: Head, limit: int): Option<Message>
    requires h.Head? && h.size <= |s.input| && (|h.key| == 0 || |h.key| == 4)
  {
    var rest := s.input[h.size..];
    if !IsControl(h.op) then
      if limit > 0 && Int64(s.length + Int64(h.length)) > limit then Some(Message(CLOSE, FormatClose(1009, [])))
      else None
    else if |rest| < h.length then None
    else if h.op == CLOSE then Some(Message(CLOSE, []))
    else if h.op == PING then Some(Message(PONG, Mask(h.key, 0, rest[..h.length])))
    else None
  }

  /** What becomes of a frame, and what is sent back. */
  lemma EnterParts(s: RState, h: Head, isServer: bool, limit: int)
    requires h.Head? && h.size <= |s.input| && (|h.key| == 0 || |h.key| == 4)
    ensures var rest, r, q := s.input[h.size..], Enter(s, h, isServer, limit), EnterReply(s, h, limit);
            var pos, key := if isServer then 0 else s.maskPos, if isServer then h.key else s.key;
            if !IsControl(h.op) then
              var n := Int64(s.length + Int64(h.length));
              if limit > 0 && n > limit then r == Failed(ReadLimit) && q == Some(Message(CLOSE, FormatClose(1009, [])))
              else r == Advanced(RState(rest, Int64(h.length), h.fin, s.seqNo, n, pos, key), h.op) && q.None?
            else if |rest| < h.length then r == Failed(UnexpectedEOF) && q.None?
            else
              var payload := Mask(h.key, 0, rest[..h.length]);
              if h.op == CLOSE then r == Failed(CloseOutcome(payload)) && q == Some(Message(CLOSE, []))
              else
                && r == Advanced(RState(rest[h.length..], 0, s.fin, s.seqNo, s.length, pos, key), h.op)
                && q == if h.op == PING then Some(Message(PONG, payload)) else None
  {
    hide Mask, CloseOutcome, FormatClose, Int64;
  }

  // ---------------------------------------------------------------- reading a stream of frames

  /** The bytes of the message under way that the frames from k on carry. */
  function Tail(fs: seq<Frame>, k: nat): seq<byte>
    decreases |fs| - k
  {
    if k >= |fs| then []
    else if IsControl(fs[k].op) then Tail(fs, k + 1)
    else fs[k].payload + if fs[k].fin then [] else Tail(fs, k + 1)
  }

  /** The messages that begin in frame k or later. */
  function MessagesFrom(fs: seq<Frame>, k: nat): seq<Message>
    decreases |fs| - k
  {
    if k >= |fs| then []
    else if IsData(fs[k].op) then [Message(fs[k].op, Tail(fs, k))] + MessagesFrom(fs, k + 1)
    else MessagesFrom(fs, k + 1)
  }

  /** Does the message under way come to its end in frame k or later? */
  predicate EndsFrom(fs: seq<Frame>, k: nat)
    decreases |fs| - k
  {
    k < |fs| && ((!IsControl(fs[k].op) && fs[k].fin) || EndsFrom(fs, k + 1))
  }

  /** The messages of an assembly, the incomplete one last. */
  function All(a: Assembly): seq<Message> {
    a.done + if a.part.Some? then [a.part.value] else []
  }

  lemma GrammarStep(fs: seq<Frame>, k: nat, masked: bool)
    requires Assemble(fs, masked).ok && k < |fs|
    ensures Assemble(fs[..k], masked).ok && MayFollow(Assemble(fs[..k], masked), fs[k], masked)
    ensures Assemble(fs[..k + 1], masked) == Assemble(fs[..k], masked).Take(fs[k].fin, fs[k].op, fs[k].payload)
  {
    GrammarPrefix(fs, k + 1, masked);
    assert fs[..k + 1][..k] == fs[..k] && fs[..k + 1][k] == fs[k];
  }

  /**
   Putting frames together one after another gives the same messages as looking ahead for
   the rest of each message.
   */
  lemma {:induction false} MessagesAgree(fs: seq<Frame>, k: nat, masked: bool)
    requires Assemble(fs, masked).ok && k <= |fs|
    ensures var a := Assemble(fs[..k], masked);
            All(Assemble(fs, masked)) ==
              a.done
              + (if a.part.Some? then [Message(a.part.value.mtype, a.part.value.data + Tail(fs, k))] else [])
              + MessagesFrom(fs, k)
    decreases |fs| - k
  {
    var a := Assemble(fs[..k], masked);
    if k == |fs| {
      assert fs[..k] == fs;
      if a.part.Some? {
        assert a.part.value.data + [] == a.part.value.data;
      }
    } else {
      MessagesAgree(fs, k + 1, masked);
      GrammarStep(fs, k, masked);
      MessageStep(a, fs, k, masked);
    }
  }

  /** One frame moved from the frames to come to the assembly before them. */
  lemma MessageStep(a: Assembly, fs: seq<Frame>, k: nat, masked: bool)
    requires k < |fs| && MayFollow(a, fs[k], masked)
    ensures var b := a.Take(fs[k].fin, fs[k].op, fs[k].payload);
            a.done + (if a.part.Some? then [Message(a.part.value.mtype, a.part.value.data + Tail(fs, k))] else [])
            + MessagesFrom(fs, k) ==
            b.done + (if b.part.Some? then [Message(b.part.value.mtype, b.part.value.data + Tail(fs, k + 1))] else [])
            + MessagesFrom(fs, k + 1)
  {
    hide Tail, MessagesFrom;
    var f := fs[k];
    if f.op == CONTINUATION {
      ContinuationStep(a.part.value, fs, k);
    } else if IsData(f.op) {
      DataStep(a.done, fs, k);
      assert a.done + [] == a.done;
      assert f.fin ==> a.done + [Message(f.op, f.payload)] + [] == a.done + [Message(f.op, f.payload)];
    } else {
      ControlStep(fs, k);
    }
  }

  lemma ControlStep(fs: seq<Frame>, k: nat)
    requires k < |fs| && IsControl(fs[k].op)
    ensures Tail(fs, k) == Tail(fs, k + 1) && MessagesFrom(fs, k) == MessagesFrom(fs, k + 1)
  {
  }

  lemma ContinuationStep(m: Message, fs: seq<Frame>, k: nat)
    requires k < |fs| && fs[k].op == CONTINUATION
    ensures m.data + Tail(fs, k) == if fs[k].fin then m.data + fs[k].payload else m.data + fs[k].payload + Tail(fs, k + 1)
    ensures MessagesFrom(fs, k) == MessagesFrom(fs, k + 1)
  {
    var rest := if fs[k].fin then [] else Tail(fs, k + 1);
    assert m.data + (fs[k].payload + rest) == m.data + fs[k].payload + rest;
    assert m.data + fs[k].payload + [] == m.data + fs[k].payload;
  }

  lemma DataStep(done: seq<Message>, fs: seq<Frame>, k: nat)
    requires k < |fs| && IsData(fs[k].op)
    ensures var m := Message(fs[k].op, fs[k].payload + if fs[k].fin then [] else Tail(fs, k + 1));
            done + MessagesFrom(fs, k) == done + [m] + MessagesFrom(fs, k + 1)
    ensures fs[k].payload + [] == fs[k].payload
  {
  }
}
