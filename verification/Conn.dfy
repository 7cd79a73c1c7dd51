/**
 One end of a WebSocket connection (gorilla/websocket/conn.go): the message writer, which
 cuts messages into frames through a write buffer, and the message reader, which puts them
 together again.
 */
module Websocket {
  import opened Bytes
  import opened Frames
  import opened FrameBuffer
  import opened FrameReader
  import opened ReadLimit
  import opened MessageReader
  import opened Replies

  const NO_FRAME := -1

  datatype WsError =
    | ErrCloseSent | ErrBadWriteOpCode | ErrWriteClosed | ErrInvalidControlFrame | ErrInternal | ErrNet | ErrWriteTimeout | ErrSource

  /** Errors after which every later write of a message fails too. */
  predicate IsFatal(e: WsError) {
    e == ErrCloseSent || e == ErrNet || e == ErrInternal
  }

  /**
   What the application has written so far: the data messages that are finished, the one
   that is open with all the bytes written to it, and the number that a writer must carry
   to be the current one.
   */
  datatype Writing = Writing(done: seq<Message>, open: Option<Message>, seqNo: nat) {
    function Append(p: seq<byte>): Writing {
      if open.None? then this else this.(open := Some(open.value.(data := open.value.data + p)))
    }

    /** A new message is begun; one that is still open is finished first. */
    function Begin(mtype: int): Writing {
      Finish().(open := Some(Message(mtype, [])))
    }

    lemma AppendTwice(p: seq<byte>, q: seq<byte>)
      ensures Append(p).Append(q) == Append(p + q)
    {
      if open.Some? {
        assert open.value.data + p + q == open.value.data + (p + q);
      }
    }

    lemma AppendNothing()
      ensures Append([]) == this
    {
      if open.Some? {
        assert open.value.data + [] == open.value.data;
      }
    }

    /** The open message is finished; control messages are not data messages. */
    function Finish(): Writing {
      if open.None? then this
      else Writing(if IsData(open.value.mtype) then done + [open.value] else done, None, seqNo + 1)
    }
  }

  /**
   text, all that was written to the open message of type curType, is what the incomplete
   message on the wire holds followed by the payload in the write buffer.
   */
  predicate Holds(part: Option<Message>, frameType: int, curType: int, text: seq<byte>, payload: seq<byte>) {
    if frameType == NO_FRAME then
      part.None? && payload == [] && text == []
    else if frameType == CONTINUATION then
      && IsData(curType)
      && part.Some? && part.value.mtype == curType
      && text == part.value.data + payload
    else
      && (IsData(curType) || IsControl(curType))
      && curType == frameType && part.None?
      && text == payload
  }

  function MakeView(done: seq<Message>, frameType: int, curType: int, text: seq<byte>, seqNo: nat): Writing {
    Writing(done, if frameType == NO_FRAME then None else Some(Message(curType, text)), seqNo)
  }

  lemma FlushKeeps(
    a: Assembly, b: Assembly, frameType: int, curType: int, text: seq<byte>, payload: seq<byte>, extra: seq<byte>,
    fin: bool, seqNo: nat)
    requires Holds(a.part, frameType, curType, text, payload) && frameType != NO_FRAME
    requires b.done == a.Take(fin, frameType, payload + extra).done
    requires b.part == a.Take(fin, frameType, payload + extra).part
    requires fin || !IsControl(frameType)
    ensures if fin then Holds(b.part, NO_FRAME, curType, [], [])
            else Holds(b.part, CONTINUATION, curType, text + extra, [])
    ensures var v := MakeView(a.done, frameType, curType, text, seqNo).Append(extra);
            if fin then MakeView(b.done, NO_FRAME, curType, [], seqNo + 1) == v.Finish()
            else MakeView(b.done, CONTINUATION, curType, text + extra, seqNo) == v
  {
    if frameType == CONTINUATION {
      assert text + extra == a.part.value.data + (payload + extra);
    }
  }

  lemma ControlTakesNoPart(a: Assembly, fin: bool, op: int, payload: seq<byte>)
    ensures IsControl(op) ==> a.Take(fin, op, payload).part == a.part
  {
  }

  lemma HoldsFacts(part: Option<Message>, frameType: int, curType: int, text: seq<byte>, payload: seq<byte>)
    requires Holds(part, frameType, curType, text, payload) && frameType != NO_FRAME
    ensures IsControl(frameType) || IsData(frameType) || frameType == CONTINUATION
    ensures frameType == CONTINUATION <==> part.Some?
    ensures frameType == CLOSE <==> curType == CLOSE
  {
  }

  lemma DropKeeps(
    done: seq<Message>, part: Option<Message>, frameType: int, curType: int, text: seq<byte>, payload: seq<byte>,
    seqNo: nat)
    requires Holds(part, frameType, curType, text, payload) && IsControl(frameType)
    ensures Holds(part, NO_FRAME, curType, [], [])
    ensures MakeView(done, NO_FRAME, curType, [], seqNo + 1) ==
            MakeView(done, frameType, curType, text, seqNo).Finish()
    ensures MakeView(done, frameType, curType, text, seqNo).done == done
    ensures curType == frameType
  {
  }

  lemma StartHolds(part: Option<Message>, curType: int, text: seq<byte>, payload: seq<byte>, messageType: int)
    requires Holds(part, NO_FRAME, curType, text, payload)
    ensures payload == [] && text == []
    ensures IsControl(messageType) || IsData(messageType) ==> Holds(part, messageType, messageType, [], [])
  {
  }

  function Concat(bufs: seq<seq<byte>>): seq<byte> {
    if bufs == [] then [] else Concat(bufs[..|bufs| - 1]) + bufs[|bufs| - 1]
  }

  lemma {:induction false} ConcatPrefix(bufs: seq<seq<byte>>, i: nat)
    requires i < |bufs|
    ensures Concat(bufs[..i + 1]) == Concat(bufs[..i]) + bufs[i]
    ensures Concat(bufs[..i + 1]) <= Concat(bufs)
    decreases |bufs| - i
  {
    assert bufs[..i + 1][..i] == bufs[..i];
    if i + 1 < |bufs| {
      ConcatPrefix(bufs, i + 1);
    } else {
      assert bufs[..i + 1] == bufs;
    }
  }

  lemma ShortWrite(sent: seq<byte>, buf: seq<byte>, all: seq<byte>, k: nat)
    requires sent + buf <= all && k <= |buf|
    ensures |sent| + k <= |all| && all[..|sent| + k] == sent + buf[..k]
  {
  }

  lemma ConcatTwo(a: seq<byte>, b: seq<byte>)
    ensures Concat([a, b]) == a + b
  {
    var bufs := [a, b];
    assert bufs[..1] == [a] && [a][..0] == [];
    assert Concat([a]) == Concat([]) + a;
    assert Concat(bufs) == Concat(bufs[..1]) + b;
  }

  /**
   What the transport has accepted: whole frames, and perhaps a piece of one more frame
   that would have kept to the grammar.
   */
  datatype Link = Link(frames: seq<Frame>, torn: Option<Frame>, tail: seq<byte>) {
    function Sent(masked: bool): Assembly {
      Assemble(frames, masked)
    }

    predicate Ok(wire: seq<byte>, open: bool, masked: bool) {
      && Sent(masked).ok
      && WireFrames(frames)
      && (open ==> torn.None?)
      && (torn.None? ==> tail == [])
      && (torn.Some? ==> MayFollow(Sent(masked), torn.value, masked) && tail <= EncodeFrame(torn.value))
      && wire == Wire(frames) + tail
    }

    /** The first n bytes of f go out. */
    function Send(f: Frame, n: nat): Link
      requires WireFrame(f) && n <= |EncodeFrame(f)|
    {
      if n == |EncodeFrame(f)| then this.(frames := frames + [f]) else Link(frames, Some(f), EncodeFrame(f)[..n])
    }

    lemma SendOk(wire: seq<byte>, f: Frame, n: nat, masked: bool)
      requires Ok(wire, true, masked) && MayFollow(Sent(masked), f, masked) && n <= |EncodeFrame(f)|
      ensures Send(f, n).Ok(wire + EncodeFrame(f)[..n], n == |EncodeFrame(f)|, masked)
      ensures Send(f, n).Sent(masked) ==
              if n == |EncodeFrame(f)| then AddFrame(Sent(masked), f, masked) else Sent(masked)
    {
      hide EncodeFrame, AddFrame, Assemble, Wire;
      AssembleSnoc(frames, f, masked);
      AddFrameIsOk(Sent(masked), f, masked);
      WireSnoc(frames, f);
      if n == |EncodeFrame(f)| {
        AllOf(wire, Wire(frames), EncodeFrame(f));
      }
    }
  }

  lemma AllOf(wire: seq<byte>, before: seq<byte>, more: seq<byte>)
    requires wire == before + []
    ensures wire + more[..|more|] == before + more + []
  {
    assert wire == before && more[..|more|] == more;
  }

  lemma AddFrameIsOk(a: Assembly, f: Frame, masked: bool)
    requires a.ok && MayFollow(a, f, masked)
    ensures AddFrame(a, f, masked).ok
  {
  }

  class Conn {
    const isServer: bool
    // The transport never fails and no other goroutine sends a close frame.
    const faultless: bool
    // Which of the replies that the reader sends come too late, after the write wait.
    const late: nat -> bool

    // Write side, as in conn.go.
    var closeSent: bool
    var writeErr: Option<WsError>
    const writeBuf: array<byte>
    var writePos: nat
    var writeFrameType: int
    var writeSeq: nat

    // The transport: whether it is open, and all bytes that it has accepted.
    var netOpen: bool
    var wire: seq<byte>
    ghost var link: Link

    // The message that is being written: its type and all bytes written to it.
    ghost var curType: int
    ghost var text: seq<byte>

    // Read side, as in conn.go, with the bytes that are still to come.
    var input: seq<byte>
    var readErr: Option<ReadError>
    var readRemaining: int
    var readFinal: bool
    var readSeq: nat
    var readLength: int
    const readLimit: int
    var readMaskPos: nat
    var readMaskKey: seq<byte>

    // How many replies the reader has tried to send.
    var tries: nat

    // Of the message that is being read: the bytes handed out, and the lengths declared.
    ghost var handed: nat
    ghost var declared: nat

    constructor (isServer: bool, writeBufSize: nat, readLimit: int, faultless: bool, late: nat -> bool, input: seq<byte>)
      requires writeBufSize >= 1
      ensures Valid() && ReadValid() && writeErr.None? && !closeSent && netOpen
      ensures wire == [] && link == Link([], None, []) && View() == Writing([], None, 0)
      ensures this.isServer == isServer && this.faultless == faultless && this.readLimit == readLimit && this.late == late && tries == 0
      ensures RS() == RState(input, 0, true, 0, 0, 0, if isServer then [0, 0, 0, 0] else []) && readErr.None?
      ensures fresh(writeBuf) && writeBuf.Length == writeBufSize + HEADER_SPACE
    {
      this.isServer, this.faultless, this.readLimit, this.late, tries := isServer, faultless, readLimit, late, 0;
      closeSent, writeErr, netOpen, wire, link := false, None, true, [], Link([], None, []);
      writeBuf := new byte[writeBufSize + HEADER_SPACE](_ => 0);
      writePos, writeFrameType, writeSeq, curType, text := HEADER_SPACE, NO_FRAME, 0, NO_FRAME, [];
      this.input, readErr, readRemaining, readFinal, readSeq := input, None, 0, true, 0;
      readLength, readMaskPos, readMaskKey, handed, declared := 0, 0, [0, 0, 0, 0], 0, 0;
    }

    ghost function Sent(): Assembly
      reads this`link
    {
      link.Sent(!isServer)
    }

    ghost predicate WireValid()
      reads this`link, this`wire, this`netOpen, this`closeSent
    {
      && link.Ok(wire, netOpen, !isServer)
      && (Sent().closed ==> closeSent)
      && (faultless ==> netOpen)
    }

    /** What has been written to the open message is on the wire or in the buffer. */
    ghost predicate Buffered()
      reads this, writeBuf
    {
      && writeBuf.Length > HEADER_SPACE
      && HEADER_SPACE <= writePos <= writeBuf.Length
      && Holds(Sent().part, writeFrameType, curType, text, writeBuf[HEADER_SPACE..writePos])
    }

    ghost predicate Valid()
      reads this, writeBuf
    {
      && WireValid()
      && writeBuf.Length > HEADER_SPACE
      && (if writeErr.None? then Buffered() else IsFatal(writeErr.value))
    }

    ghost function View(): Writing
      reads this
    {
      MakeView(Sent().done, writeFrameType, curType, text, writeSeq)
    }

    // ------------------------------------------------------------ the transport

    /** A transport write: it fails exactly when it accepts fewer bytes than it is given. */
    method NetWrite(buf: seq<byte>) returns (n: nat)
      modifies this`wire
      ensures n <= |buf| && wire == old(wire) + buf[..n]
      ensures !netOpen ==> n == 0
      ensures faultless && netOpen ==> n == |buf|
    {
      n := 0;
      if netOpen {
        var k: int := *;
        n := if faultless || k < 0 || k > |buf| then |buf| else k;
      }
      wire := wire + buf[..n];
    }

    method NewMaskKey() returns (key: seq<byte>)
      ensures |key| == 4
    {
      var k0: int, k1: int, k2: int, k3: int := *, *, *, *;
      key := [k0 % 256, k1 % 256, k2 % 256, k3 % 256];
    }

    /** The buffers of a write one after another; a short write closes the connection. */
    method SendBuffers(bufs: seq<seq<byte>>) returns (n: nat)
      requires Concat(bufs) != []
      modifies this`wire, this`netOpen
      ensures n <= |Concat(bufs)| && wire == old(wire) + Concat(bufs)[..n]
      ensures netOpen == (old(netOpen) && n == |Concat(bufs)|)
      ensures !old(netOpen) ==> n == 0
      ensures faultless && old(netOpen) ==> n == |Concat(bufs)|
    {
      n := 0;
      assert Concat(bufs[..0]) == [];
      hide Concat;
      for i := 0 to |bufs|
        invariant n == |Concat(bufs[..i])| && wire == old(wire) + Concat(bufs[..i])
        invariant netOpen == old(netOpen)
        invariant !old(netOpen) ==> n == 0
      {
        ConcatPrefix(bufs, i);
        if |bufs[i]| > 0 {
          var k := NetWrite(bufs[i]);
          n := n + k;
          if k != |bufs[i]| {
            ShortWrite(Concat(bufs[..i]), bufs[i], Concat(bufs), k);
            netOpen := false;
            return;
          }
        }
      }
      assert bufs[..|bufs|] == bufs;
    }

    // ------------------------------------------------------------ control frames

    /** The bytes of a control frame, built in a buffer of its own. */
    method ControlFrame(messageType: int, data: seq<byte>) returns (buf: seq<byte>, ghost f: Frame)
      requires IsControl(messageType) && |data| <= MAX_CONTROL
      ensures Plausible(f, !isServer) && buf == EncodeFrame(f)
      ensures f.fin && f.op == messageType && f.payload == data
    {
      var b0 := messageType + 128;
      var b1 := |data| + if isServer then 0 else 128;
      buf := [b0, b1];
      if isServer {
        buf := buf + data;
        f := Frame(true, messageType, [], data);
      } else {
        var key := NewMaskKey();
        buf := buf + key + Mask(key, 0, data);
        f := Frame(true, messageType, key, data);
      }
    }

    method WriteControl(messageType: int, data: seq<byte>, timedOut: bool) returns (err: Option<WsError>)
      requires WireValid()
      modifies this`closeSent, this`netOpen, this`wire, this`link
      ensures WireValid()
      ensures Sent().done == old(Sent().done) && Sent().part == old(Sent().part)
      ensures err.None? ==> Sent().controls == old(Sent().controls) + [Message(messageType, data)]
      ensures err.Some? ==> Sent().controls == old(Sent().controls)
      ensures err == Some(ErrBadWriteOpCode) <==> !IsControl(messageType)
      ensures err == Some(ErrInvalidControlFrame) <==> IsControl(messageType) && |data| > MAX_CONTROL
      ensures old(closeSent) ==> err.Some? && closeSent
      ensures timedOut ==> err.Some?
      ensures closeSent == (old(closeSent) || (messageType == CLOSE && |data| <= MAX_CONTROL && !timedOut))
      ensures faultless && !timedOut && !old(closeSent) && IsControl(messageType) && |data| <= MAX_CONTROL ==> err.None?
    {
      if !IsControl(messageType) {
        return Some(ErrBadWriteOpCode);
      }
      if |data| > MAX_CONTROL {
        return Some(ErrInvalidControlFrame);
      }
      var buf, f := ControlFrame(messageType, data);
      if timedOut {
        return Some(ErrWriteTimeout);
      }
      if closeSent {
        return Some(ErrCloseSent);
      } else if messageType == CLOSE {
        closeSent := true;
      }
      err := None;
      ghost var l, w := link, wire;
      var n := NetWrite(buf);
      if n != |buf| {
        err := Some(ErrNet);
      }
      if n != 0 && n != |buf| {
        netOpen := false;
      }
      if n != 0 {
        link := link.Send(f, n);
        l.SendOk(w, f, n, !isServer);
      }
    }

    /** Other goroutines may send any number of control frames while a writer is at work. */
    method Interference()
      requires WireValid()
      modifies this`closeSent, this`netOpen, this`wire, this`link
      ensures WireValid()
      ensures Sent().done == old(Sent().done) && Sent().part == old(Sent().part)
      ensures old(closeSent) ==> closeSent
      ensures faultless ==> closeSent == old(closeSent)
    {
      var k: int := *;
      while k > 0
        invariant WireValid()
        invariant Sent().done == old(Sent().done) && Sent().part == old(Sent().part)
        invariant old(closeSent) ==> closeSent
        invariant faultless ==> closeSent == old(closeSent)
      {
        var messageType: int, data: seq<byte>, timedOut: bool := *, *, *;
        if !faultless || messageType != CLOSE {
          var _ := WriteControl(messageType, data, timedOut);
        }
        k := k - 1;
      }
    }

    // ------------------------------------------------------------ frames of messages

    /** The locked part of Conn.write: the pieces of one frame go to the transport. */
    method SendFrame(buf: seq<byte>, extra: seq<byte>, ghost f: Frame) returns (err: Option<WsError>)
      requires link.Ok(wire, netOpen, !isServer) && (faultless ==> netOpen)
      requires MayFollow(Sent(), f, !isServer) && buf + extra == EncodeFrame(f) && buf != []
      modifies this`netOpen, this`wire, this`link
      ensures link.Ok(wire, netOpen, !isServer) && (faultless ==> netOpen)
      ensures err == None || err == Some(ErrNet)
      ensures Sent() == if err.None? then AddFrame(old(Sent()), f, !isServer) else old(Sent())
      ensures faultless ==> err.None?
    {
      hide EncodeFrame, AddFrame;
      ghost var l, w, open := link, wire, netOpen;
      ConcatTwo(buf, extra);
      var n := SendBuffers([buf, extra]);
      err := if n == |buf| + |extra| then None else Some(ErrNet);
      if open {
        link := link.Send(f, n);
        l.SendOk(w, f, n, !isServer);
      }
    }

    /** Conn.write: sends one frame, given as two pieces, unless a close frame has gone before. */
    method Transmit(frameType: int, buf: seq<byte>, extra: seq<byte>, ghost f: Frame) returns (err: Option<WsError>)
      requires WireValid()
      requires Plausible(f, !isServer) && buf + extra == EncodeFrame(f) && f.op == frameType && buf != []
      requires IsData(frameType) ==> Sent().part.None?
      requires frameType == CONTINUATION ==> Sent().part.Some?
      modifies this`closeSent, this`netOpen, this`wire, this`link
      ensures WireValid()
      ensures err.None? ==>
                && Sent().done == old(Sent()).Take(f.fin, f.op, f.payload).done
                && Sent().part == old(Sent()).Take(f.fin, f.op, f.payload).part
      ensures err.Some? ==> Sent().done == old(Sent().done) && Sent().part == old(Sent().part)
      ensures old(closeSent) ==> err == Some(ErrCloseSent) && closeSent
      ensures frameType == CLOSE ==> closeSent
      ensures faultless && frameType != CLOSE ==> closeSent == old(closeSent)
      ensures faultless && !old(closeSent) ==> err.None?
      ensures err.Some? ==> err == Some(ErrCloseSent) || err == Some(ErrNet)
    {
      hide EncodeFrame, AddFrame;
      ghost var before := Sent();
      Interference();
      if closeSent {
        return Some(ErrCloseSent);
      } else if frameType == CLOSE {
        closeSent := true;
      }
      AddFrameData(before, Sent(), f, !isServer);
      err := SendFrame(buf, extra, f);
    }

    /** The frame that the write buffer and extra amount to. */
    lemma BuiltFrame(fin: bool, op: int, key: seq<byte>, payload: seq<byte>, extra: seq<byte>, buf: seq<byte>)
      requires 0 <= op < 16 && |key| == (if isServer then 0 else 4) && (isServer || extra == [])
      requires |payload| + |extra| < 0x8000_0000_0000_0000
      requires buf == EncodeHeader(fin, op, !isServer, |payload| + |extra|) + key + Mask(key, 0, payload)
      ensures buf + extra == EncodeFrame(Frame(fin, op, key, payload + extra))
      ensures buf != []
    {
      if isServer {
        UnmaskedIsItself(0, payload);
        UnmaskedIsItself(0, payload + extra);
      } else {
        assert payload + extra == payload;
      }
    }

    /** The part of flushFrame that sends what is in the buffer, followed by extra, as one frame. */
    method SendBuffered(fin: bool, extra: seq<byte>) returns (err: Option<WsError>)
      requires WireValid()
      requires HEADER_SPACE <= writePos <= writeBuf.Length && writePos + |extra| < 0x8000_0000_0000_0000
      requires IsControl(writeFrameType) || IsData(writeFrameType) || writeFrameType == CONTINUATION
      requires IsControl(writeFrameType) ==> fin && writePos - HEADER_SPACE + |extra| <= MAX_CONTROL
      requires IsData(writeFrameType) ==> Sent().part.None?
      requires writeFrameType == CONTINUATION ==> Sent().part.Some?
      modifies this`closeSent, this`netOpen, this`wire, this`link, writeBuf
      ensures WireValid()
      ensures err.None? ==>
                var payload := old(writeBuf[HEADER_SPACE..writePos]) + extra;
                && Sent().done == old(Sent()).Take(fin, writeFrameType, payload).done
                && Sent().part == old(Sent()).Take(fin, writeFrameType, payload).part
      ensures err.Some? ==> Sent().done == old(Sent().done) && Sent().part == old(Sent().part)
      ensures err.Some? ==> IsFatal(err.value)
      ensures faultless && writeFrameType != CLOSE ==> closeSent == old(closeSent)
      ensures err.None? && writeFrameType == CLOSE ==> closeSent
      ensures faultless && !old(closeSent) && (isServer || extra == []) ==> err.None?
      ensures old(closeSent) ==> closeSent && err.Some?
    {
      hide EncodeFrame, EncodeHeader, AddFrame, Assemble, Link.Ok, Assembly.Take, Mask;
      ghost var payload := writeBuf[HEADER_SPACE..writePos];
      var key := [];
      if !isServer {
        key := NewMaskKey();
      }
      var length := writePos - HEADER_SPACE + |extra|;
      var framePos := CompleteFrame(writeBuf, writePos, isServer, fin, writeFrameType, length, key);
      if !isServer && |extra| > 0 {
        return Some(ErrInternal);
      }
      var buf := writeBuf[framePos..writePos];
      BuiltFrame(fin, writeFrameType, key, payload, extra, buf);
      err := Transmit(writeFrameType, buf, extra, Frame(fin, writeFrameType, key, payload + extra));
    }

    method FlushFrame(fin: bool, extra: seq<byte>) returns (err: Option<WsError>)
      requires Valid() && writeErr.None? && writeFrameType != NO_FRAME
      requires writePos + |extra| < 0x8000_0000_0000_0000
      modifies this, writeBuf
      ensures Valid()
      ensures err == Some(ErrInvalidControlFrame) <==>
              IsControl(old(writeFrameType)) && (!fin || old(writePos) - HEADER_SPACE + |extra| > MAX_CONTROL)
      ensures err.None? ==>
                && writeErr.None? && writePos == HEADER_SPACE
                && View() == if fin then old(View()).Append(extra).Finish() else old(View()).Append(extra)
      ensures err == Some(ErrInvalidControlFrame) ==>
                && writeErr.None? && IsControl(old(curType))
                && View() == old(View()).Finish() && View().done == old(View()).done
      ensures err.Some? && err != Some(ErrInvalidControlFrame) ==> writeErr == err && View().done == old(View()).done
      ensures err.Some? || IsControl(old(writeFrameType)) ==> Sent().part == old(Sent().part)
      ensures faultless && (old(curType) != CLOSE || err == Some(ErrInvalidControlFrame)) ==> closeSent == old(closeSent)
      ensures err.None? && old(curType) == CLOSE ==> closeSent
      ensures faultless && !old(closeSent) && (isServer || extra == []) ==> err.None? || err == Some(ErrInvalidControlFrame)
      ensures old(closeSent) ==> closeSent && err.Some?
    {
      hide Holds, Assemble, Link.Ok, Writing.Finish, Writing.Append;
      var length := writePos - HEADER_SPACE + |extra|;
      if IsControl(writeFrameType) && (!fin || length > MAX_CONTROL) {
        DropFrame();
        return Some(ErrInvalidControlFrame);
      }
      writeErr := SendAndReset(fin, extra);
      return writeErr;
    }

    /** The part of flushFrame for a control message that cannot be one frame. */
    method DropFrame()
      requires Valid() && writeErr.None? && IsControl(writeFrameType)
      modifies this`writeSeq, this`writeFrameType, this`writePos, this`text
      ensures Valid() && View() == old(View()).Finish() && View().done == old(View()).done
      ensures IsControl(old(curType))
    {
      hide Holds, Assemble, Link.Ok, Writing.Finish;
      DropKeeps(Sent().done, Sent().part, writeFrameType, curType, text, writeBuf[HEADER_SPACE..writePos], writeSeq);
      writeSeq := writeSeq + 1;
      writeFrameType := NO_FRAME;
      writePos := HEADER_SPACE;
      text := [];
      assert writeBuf[HEADER_SPACE..writePos] == [];
    }

    /** The part of flushFrame that sends the frame and sets up for the next one. */
    method SendAndReset(fin: bool, extra: seq<byte>) returns (err: Option<WsError>)
      requires Valid() && writeErr.None? && writeFrameType != NO_FRAME
      requires writePos + |extra| < 0x8000_0000_0000_0000
      requires IsControl(writeFrameType) ==> fin && writePos - HEADER_SPACE + |extra| <= MAX_CONTROL
      modifies this`closeSent, this`netOpen, this`wire, this`link, writeBuf
      modifies this`writeSeq, this`writeFrameType, this`writePos, this`text
      ensures WireValid()
      ensures err.None? ==>
                && Valid() && writePos == HEADER_SPACE
                && View() == if fin then old(View()).Append(extra).Finish() else old(View()).Append(extra)
      ensures err.Some? ==> View().done == old(View()).done
      ensures err.Some? || IsControl(old(writeFrameType)) ==> Sent().part == old(Sent().part)
      ensures err.Some? ==> IsFatal(err.value)
      ensures err.None? && old(curType) == CLOSE ==> closeSent
      ensures faultless && old(curType) != CLOSE ==> closeSent == old(closeSent)
      ensures faultless && !old(closeSent) && (isServer || extra == []) ==> err.None?
      ensures old(closeSent) ==> closeSent && err.Some?
    {
      hide Holds, Assemble, Link.Ok, Writing.Finish, Assembly.Take;
      ControlTakesNoPart(Sent(), fin, writeFrameType, writeBuf[HEADER_SPACE..writePos] + extra);
      ghost var a, payload := Sent(), writeBuf[HEADER_SPACE..writePos];
      HoldsFacts(a.part, writeFrameType, curType, text, payload);
      err := SendBuffered(fin, extra);
      if err.None? {
        FlushKeeps(a, Sent(), writeFrameType, curType, text, payload, extra, fin, writeSeq);
      }
      SetUpNext(fin, extra);
    }

    /** The end of flushFrame: what the buffer held is on its way. */
    method SetUpNext(fin: bool, ghost extra: seq<byte>)
      requires writeBuf.Length >= HEADER_SPACE
      modifies this`writeSeq, this`writeFrameType, this`writePos, this`text
      ensures writePos == HEADER_SPACE && writeBuf[HEADER_SPACE..writePos] == []
      ensures writeFrameType == (if fin then NO_FRAME else CONTINUATION)
      ensures writeSeq == (if fin then old(writeSeq) + 1 else old(writeSeq))
      ensures text == if fin then [] else old(text) + extra
    {
      text := text + extra;
      writePos := HEADER_SPACE;
      writeFrameType := CONTINUATION;
      if fin {
        writeSeq := writeSeq + 1;
        writeFrameType := NO_FRAME;
        text := [];
      }
    }

    // ------------------------------------------------------------ message writers

    /** Once a close frame has been sent, no more of any message is. */
    twostate predicate Shut()
      reads this
    {
      old(closeSent) ==> closeSent && View().done == old(View()).done && Sent().part == old(Sent().part)
    }

    /** The open message is a control message that is too long to be sent. */
    ghost predicate Overlong()
      reads this
    {
      View().open.Some? && IsControl(curType) && |text| > MAX_CONTROL
    }

    /** The open message is a close message. */
    ghost predicate Closing()
      reads this
    {
      View().open.Some? && curType == CLOSE
    }

    function Capacity(): int
      reads this, writeBuf
    {
      writeBuf.Length - HEADER_SPACE
    }

    /** The connection can go on: nothing has failed for good. */
    ghost predicate Usable()
      reads this, writeBuf
    {
      Valid() && writeErr.None?
    }

    /** w is the number of a writer that NextWriter has handed out. */
    ghost predicate Issued(w: nat)
      reads this
    {
      w == writeSeq && writeErr.None? ==> writeFrameType != NO_FRAME
    }

    /** What is known of an open message while nothing has failed. */
    lemma OpenFacts()
      requires Valid()
      ensures writeErr.None? && writeFrameType != NO_FRAME ==>
                && (IsControl(curType) || IsData(curType))
                && (IsControl(curType) <==> IsControl(writeFrameType))
                && (IsControl(curType) ==> curType == writeFrameType && |text| == writePos - HEADER_SPACE && Sent().part.None?)
      ensures writeErr.None? ==> HEADER_SPACE <= writePos <= writeBuf.Length
    {
      hide Assemble, Link.Ok;
    }

    method NextWriter(messageType: int) returns (w: nat, err: Option<WsError>)
      requires Valid() && writeBuf.Length < 0x8000_0000_0000_0000
      modifies this, writeBuf
      ensures Valid() && Issued(w)
      ensures old(writeErr).Some? ==> err == writeErr == old(writeErr) && View() == old(View())
      ensures err.None? ==>
                && Usable() && w == writeSeq && (IsControl(messageType) || IsData(messageType))
                && View() == old(View()).Begin(messageType)
      ensures err.None? ==> curType == messageType && text == []
      ensures old(writeErr).None? && old(View()).open.Some? && IsControl(old(curType)) ==> Sent().part.None?
      ensures err.Some? && !IsFatal(err.value) ==> Usable() && View() == old(View()).Finish()
      ensures err.Some? && IsFatal(err.value) ==> writeErr == err && View().done == old(View()).done
      ensures err == Some(ErrBadWriteOpCode) ==> !IsControl(messageType) && !IsData(messageType)
      ensures err == Some(ErrInvalidControlFrame) <==> old(writeErr).None? && old(Overlong())
      ensures err.None? || IsFatal(err.value) || err == Some(ErrBadWriteOpCode) || err == Some(ErrInvalidControlFrame)
      ensures faultless && !old(closeSent) && old(writeErr).None? ==>
                && (err.None? || err == Some(ErrBadWriteOpCode) || err == Some(ErrInvalidControlFrame))
                && closeSent == (old(Closing()) && !old(Overlong()))
      ensures Shut()
    {
      hide Holds, Assemble, Link.Ok;
      OpenFacts();
      w := writeSeq + 1;
      if writeErr.Some? {
        return w, writeErr;
      }
      if writeFrameType != NO_FRAME {
        View().AppendNothing();
        err := FlushFrame(true, []);
        if err.Some? {
          return writeSeq + 1, err;
        }
      }
      if !IsControl(messageType) && !IsData(messageType) {
        return writeSeq + 1, Some(ErrBadWriteOpCode);
      }
      StartHolds(Sent().part, curType, text, writeBuf[HEADER_SPACE..writePos], messageType);
      writeFrameType := messageType;
      curType := messageType;
      return writeSeq, None;
    }

    method WriterErr(w: nat) returns (err: Option<WsError>)
      requires Valid()
      ensures err != Some(ErrSource)
      ensures err == if writeSeq != w then Some(ErrWriteClosed) else writeErr
    {
      if writeSeq != w {
        return Some(ErrWriteClosed);
      }
      return writeErr;
    }

    /** Makes room in the write buffer by flushing a fragment, if there is none. */
    method MakeRoom() returns (err: Option<WsError>)
      requires Usable() && writeFrameType != NO_FRAME
      requires writeBuf.Length < 0x8000_0000_0000_0000
      modifies this, writeBuf
      ensures Valid()
      ensures err.None? ==>
                && Usable() && View() == old(View()) && writeFrameType != NO_FRAME
                && curType == old(curType) && text == old(text) && writePos < writeBuf.Length
      ensures err.None? || IsFatal(err.value) || err == Some(ErrInvalidControlFrame)
      ensures err == Some(ErrInvalidControlFrame) ==>
                && Usable() && IsControl(old(curType))
                && View() == Writing(old(View()).done, None, old(writeSeq) + 1)
      ensures err == Some(ErrInvalidControlFrame) <==> IsControl(old(curType)) && |old(text)| >= Capacity()
      ensures err.Some? && IsFatal(err.value) ==> writeErr == err && View().done == old(View()).done
      ensures faultless ==> closeSent == old(closeSent)
      ensures faultless && !old(closeSent) ==> err.None? || err == Some(ErrInvalidControlFrame)
      ensures Shut()
    {
      hide Assemble, Link.Ok;
      OpenFacts();
      err := None;
      if writePos == writeBuf.Length {
        View().AppendNothing();
        err := FlushFrame(false, []);
      }
    }

    /** There is room for n bytes, at least one and at most max. */
    method NCopy(max: nat) returns (n: nat, err: Option<WsError>)
      requires Usable() && writeFrameType != NO_FRAME && max > 0
      requires writeBuf.Length < 0x8000_0000_0000_0000
      modifies this, writeBuf
      ensures Valid()
      ensures err.None? ==>
                && Usable() && View() == old(View()) && writeFrameType != NO_FRAME
                && curType == old(curType) && text == old(text)
                && 0 < n <= max && writePos + n <= writeBuf.Length
      ensures err.None? || IsFatal(err.value) || err == Some(ErrInvalidControlFrame)
      ensures err == Some(ErrInvalidControlFrame) ==>
                && Usable() && IsControl(old(curType))
                && View() == Writing(old(View()).done, None, old(writeSeq) + 1)
      ensures err == Some(ErrInvalidControlFrame) <==> IsControl(old(curType)) && |old(text)| >= Capacity()
      ensures err.Some? && IsFatal(err.value) ==> writeErr == err && View().done == old(View()).done
      ensures faultless ==> closeSent == old(closeSent)
      ensures faultless && !old(closeSent) ==> err.None? || err == Some(ErrInvalidControlFrame)
      ensures Shut()
    {
      hide Assemble, Link.Ok, Valid, Holds;
      err := MakeRoom();
      if err.Some? {
        return 0, err;
      }
      n := writeBuf.Length - writePos;
      if n > max {
        n := max;
      }
    }

    /** Copies bytes that fit into the write buffer. */
    method Buffer(p: seq<byte>)
      requires Usable() && writeFrameType != NO_FRAME && writePos + |p| <= writeBuf.Length
      modifies this`writePos, this`text, writeBuf
      ensures Usable() && View() == old(View()).Append(p) && View().done == old(View()).done
      ensures text == old(text) + p
    {
      hide Assemble, Link.Ok;
      ghost var payload := writeBuf[HEADER_SPACE..writePos];
      CopyInto(writeBuf, writePos, p);
      assert writeBuf[..writePos][HEADER_SPACE..] == payload;
      writePos := writePos + |p|;
      text := text + p;
      assert writeBuf[HEADER_SPACE..writePos] == payload + p;
      if writeFrameType == CONTINUATION {
        assert text == Sent().part.value.data + (payload + p);
      }
    }

    /** The loop that Write and WriteString share: bytes go through the write buffer. */
    method WriteBuffered(p: seq<byte>) returns (n: nat, err: Option<WsError>)
      requires Usable() && writeFrameType != NO_FRAME
      requires writeBuf.Length < 0x8000_0000_0000_0000
      modifies this, writeBuf
      ensures Valid()
      ensures err.None? ==> n == |p| && Usable() && View() == old(View()).Append(p) && text == old(text) + p
      ensures err.None? || IsFatal(err.value) || err == Some(ErrInvalidControlFrame)
      ensures err == Some(ErrInvalidControlFrame) ==>
                && Usable() && IsControl(old(curType))
                && View() == Writing(old(View()).done, None, old(writeSeq) + 1)
                && |old(text)| + |p| > Capacity()
      ensures err.Some? && IsFatal(err.value) ==> writeErr == err && View().done == old(View()).done
      ensures faultless ==> closeSent == old(closeSent)
      ensures faultless && !old(closeSent) ==> err.None? || err == Some(ErrInvalidControlFrame)
      ensures Shut()
    {
      hide Assemble, Link.Ok, Holds, Writing.Append, Writing.Finish, Valid;
      var q := p;
      ghost var copied: seq<byte> := [];
      View().AppendNothing();
      while |q| > 0
        invariant Usable() && writeFrameType != NO_FRAME && curType == old(curType)
        invariant p == copied + q && writeSeq == old(writeSeq)
        invariant View() == old(View()).Append(copied) && View().done == old(View()).done
        invariant text == old(text) + copied
        invariant faultless ==> closeSent == old(closeSent)
        invariant Shut()
      {
        n, err := NCopy(|q|);
        if err.Some? {
          return 0, err;
        }
        Buffer(q[..n]);
        old(View()).AppendTwice(copied, q[..n]);
        assert copied + q == (copied + q[..n]) + q[n..];
        copied := copied + q[..n];
        q := q[n..];
      }
      assert p == copied;
      return |p|, None;
    }

    /**
     What a writer's call does that would lead to v: a stale writer changes nothing, a
     control message that is too long is dropped, and after any other error nothing more
     is finished.
     */
    twostate predicate Outcome(w: nat, new err: Option<WsError>, new v: Writing)
      reads this, writeBuf
    {
      && Valid()
      && Shut()
      && (old(writeSeq) != w ==>
            err == Some(ErrWriteClosed) && View() == old(View())
            && writeErr == old(writeErr) && closeSent == old(closeSent))
      && (old(writeSeq) == w && old(writeErr).Some? ==>
            err == writeErr == old(writeErr) && View() == old(View()) && closeSent == old(closeSent))
      && (old(writeSeq) == w && old(writeErr).None? ==>
            && err != Some(ErrWriteClosed)
            && (err.None? || err == Some(ErrSource) ==> Usable() && View() == v)
            && (err == Some(ErrInvalidControlFrame) ==>
                  && Usable() && IsControl(old(curType))
                  && View() == Writing(old(View()).done, None, old(writeSeq) + 1))
            && (err.Some? && IsFatal(err.value) ==> writeErr == err && View().done == old(View()).done)
            && (err.None? || IsFatal(err.value) || err == Some(ErrInvalidControlFrame) || err == Some(ErrSource))
            && (faultless && !old(closeSent) ==>
                  && (err.None? || err == Some(ErrInvalidControlFrame) || err == Some(ErrSource))
                  && closeSent == (old(curType) == CLOSE && err.None? && v.open.None?)))
    }

    /** messageWriter.write: a server sends a large chunk without copying it, any other goes through the buffer. */
    method WriteChunk(w: nat, final: bool, p: seq<byte>) returns (n: nat, err: Option<WsError>)
      requires Valid() && Issued(w)
      requires writeBuf.Length + |p| < 0x8000_0000_0000_0000
      modifies this, writeBuf
      ensures var direct := final && isServer && |p| > 2 * writeBuf.Length;
              Outcome(w, err, if direct then old(View()).Append(p).Finish() else old(View()).Append(p))
      ensures err.None? ==> n == |p|
      ensures err != Some(ErrSource)
      ensures err == Some(ErrInvalidControlFrame) ==>
                |old(text)| + |p| > Capacity() || (final && isServer && |old(text)| + |p| > MAX_CONTROL)
      ensures var direct := final && isServer && |p| > 2 * writeBuf.Length;
              && (direct && err.None? && IsControl(old(curType)) ==> |old(text)| + |p| <= MAX_CONTROL)
              && (!direct && err.None? ==> text == old(text) + p && curType == old(curType) && writeSeq == w)
    {
      hide Assemble, Link.Ok, Holds;
      OpenFacts();
      err := WriterErr(w);
      if err.Some? {
        return 0, err;
      }
      if |p| > 2 * writeBuf.Length && isServer {
        err := FlushFrame(final, p);
        return if err.Some? then 0 else |p|, err;
      }
      n, err := WriteBuffered(p);
    }

    method Write(w: nat, p: seq<byte>) returns (n: nat, err: Option<WsError>)
      requires Valid() && Issued(w)
      requires writeBuf.Length + |p| < 0x8000_0000_0000_0000
      modifies this, writeBuf
      ensures Outcome(w, err, old(View()).Append(p))
      ensures err.None? ==> n == |p|
      ensures err != Some(ErrSource)
      ensures err == Some(ErrInvalidControlFrame) ==> |old(text)| + |p| > Capacity()
    {
      n, err := WriteChunk(w, false, p);
    }

    method WriteString(w: nat, p: seq<byte>) returns (n: nat, err: Option<WsError>)
      requires Valid() && Issued(w)
      requires writeBuf.Length < 0x8000_0000_0000_0000
      modifies this, writeBuf
      ensures Outcome(w, err, old(View()).Append(p))
      ensures err.None? ==> n == |p|
      ensures err != Some(ErrSource)
      ensures err == Some(ErrInvalidControlFrame) ==> |old(text)| + |p| > Capacity()
    {
      hide Assemble, Link.Ok, Holds;
      OpenFacts();
      err := WriterErr(w);
      if err.Some? {
        return 0, err;
      }
      n, err := WriteBuffered(p);
    }

    method CloseWriter(w: nat) returns (err: Option<WsError>)
      requires Valid() && Issued(w)
      requires writeBuf.Length < 0x8000_0000_0000_0000
      modifies this, writeBuf
      ensures Outcome(w, err, old(View()).Finish()) && err != Some(ErrSource)
      ensures err == Some(ErrInvalidControlFrame) <==> old(writeErr).None? && old(writeSeq) == w && old(Overlong())
    {
      hide Assemble, Link.Ok, Holds;
      OpenFacts();
      err := WriterErr(w);
      if err.None? {
        View().AppendNothing();
        err := FlushFrame(true, []);
      }
    }

    /**
     Reads a source to its end straight into the write buffer. The source holds the given
     bytes, hands out any number of them at a time, and ends with an error if it is broken.
     */
    method ReadFrom(w: nat, source: seq<byte>, broken: bool) returns (nn: nat, err: Option<WsError>)
      requires Valid() && Issued(w)
      requires writeBuf.Length < 0x8000_0000_0000_0000
      modifies this, writeBuf
      ensures Outcome(w, err, old(View()).Append(source))
      ensures err.None? ==> nn == |source| && !broken
      ensures err == Some(ErrSource) ==> broken
      ensures err == Some(ErrInvalidControlFrame) ==> |old(text)| + |source| >= Capacity()
    {
      hide Assemble, Link.Ok, Holds;
      OpenFacts();
      err := WriterErr(w);
      if err.Some? {
        return 0, err;
      }
      nn, err := ReadSource(source);
      if err.None? && broken {
        err := Some(ErrSource);
      }
    }

    /** The loop of ReadFrom: the bytes of the source go through the write buffer. */
    method ReadSource(source: seq<byte>) returns (nn: nat, err: Option<WsError>)
      requires Usable() && writeFrameType != NO_FRAME
      requires writeBuf.Length < 0x8000_0000_0000_0000
      modifies this, writeBuf
      ensures Valid()
      ensures err.None? ==> nn == |source| && Usable() && View() == old(View()).Append(source)
      ensures err.None? || IsFatal(err.value) || err == Some(ErrInvalidControlFrame)
      ensures err == Some(ErrInvalidControlFrame) ==>
                && Usable() && IsControl(old(curType))
                && View() == Writing(old(View()).done, None, old(writeSeq) + 1)
                && |old(text)| + |source| >= Capacity()
      ensures err.Some? && IsFatal(err.value) ==> writeErr == err && View().done == old(View()).done
      ensures faultless ==> closeSent == old(closeSent)
      ensures faultless && !old(closeSent) ==> err.None? || err == Some(ErrInvalidControlFrame)
      ensures Shut()
    {
      hide Assemble, Link.Ok, Holds, Writing.Append, Writing.Finish, Valid;
      nn := 0;
      ghost var copied: seq<byte> := [];
      View().AppendNothing();
      var atEnd := false;
      while !atEnd
        invariant Usable() && writeFrameType != NO_FRAME && curType == old(curType) && writeSeq == old(writeSeq)
        invariant |copied| == nn <= |source| && copied == source[..nn] && (atEnd ==> nn == |source|)
        invariant View() == old(View()).Append(copied) && View().done == old(View()).done
        invariant |text| == |old(text)| + nn
        invariant faultless ==> closeSent == old(closeSent)
        invariant Shut()
        decreases |source| - nn, !atEnd
      {
        err := MakeRoom();
        if err.Some? {
          return nn, err;
        }
        var n := SourceRead(|source| - nn, writeBuf.Length - writePos);
        Buffer(source[nn..nn + n]);
        old(View()).AppendTwice(copied, source[nn..nn + n]);
        copied := copied + source[nn..nn + n];
        nn := nn + n;
        if nn == |source| {
          // The end may come together with the last bytes or by itself.
          var together := *;
          atEnd := n == 0 || together;
        }
      }
      assert copied == source;
      err := None;
    }

    /** How many of the bytes that are left a read into so much space delivers. */
    method SourceRead(left: nat, space: nat) returns (n: nat)
      requires space > 0
      ensures n <= left && n <= space && (left > 0 ==> n > 0)
    {
      var most := if left < space then left else space;
      var k: int := *;
      n := if k <= 0 || k > most then most else k;
    }

    method WriteMessage(messageType: int, data: seq<byte>) returns (err: Option<WsError>)
      requires Valid() && writeBuf.Length + |data| < 0x8000_0000_0000_0000
      modifies this, writeBuf
      ensures Valid()
      ensures old(writeErr).Some? ==> err == writeErr == old(writeErr) && View() == old(View())
      ensures err.None? ==> Usable() && View() == old(View()).Begin(messageType).Append(data).Finish()
      ensures err.Some? && !IsFatal(err.value) ==>
                && Usable() && View().open.None? && View().done == old(View()).Finish().done
                && writeSeq >= old(View()).Finish().seqNo
      ensures err.Some? && IsFatal(err.value) ==>
                writeErr == err && (View().done == old(View()).done || View().done == old(View()).Finish().done)
      ensures faultless && !old(closeSent) && old(writeErr).None? && !(old(Closing()) && !old(Overlong())) ==>
                && (err.None? || err == Some(ErrBadWriteOpCode) || err == Some(ErrInvalidControlFrame))
                && closeSent == (messageType == CLOSE && err.None?)
      ensures faultless && !old(closeSent) && old(writeErr).None? && old(Closing()) && !old(Overlong()) ==>
                closeSent && View().done == old(View()).done && Sent().part.None?
      ensures old(writeErr).None? && old(Overlong()) ==> err == Some(ErrInvalidControlFrame) && View() == old(View()).Finish()
      ensures err == Some(ErrBadWriteOpCode) ==> !IsControl(messageType) && !IsData(messageType)
      ensures err == Some(ErrInvalidControlFrame) && !old(Overlong()) ==>
                IsControl(messageType) && (|data| > MAX_CONTROL || |data| > Capacity())
      ensures err.None? && IsControl(messageType) ==> |data| <= MAX_CONTROL
      ensures Shut()
    {
      hide Assemble, Link.Ok, Holds;
      var w;
      w, err := NextWriter(messageType);
      if err.Some? {
        return err;
      }
      var n;
      n, err := WriteChunk(w, true, data);
      if err.Some? {
        return err;
      }
      if writeSeq == w {
        OpenFacts();
        View().AppendNothing();
        err := FlushFrame(true, []);
      }
    }

    // ------------------------------------------------------------ the buffered reader

    ghost function RS(): RState
      reads this`input, this`readRemaining, this`readFinal, this`readSeq, this`readLength
      reads this`readMaskPos, this`readMaskKey
    {
      RState(input, readRemaining, readFinal, readSeq, readLength, readMaskPos, if isServer then readMaskKey else [])
    }

    ghost predicate ReadValid()
      reads this
    {
      && |readMaskKey| == 4
      && (readErr.None? ==> Measured(RS(), handed, declared, readLimit))
      && (readLimit > 0 && declared < TWO63 ==> handed <= readLimit)
    }

    /** A read of the buffered reader: some of what is there, and end of file when nothing is. */
    method BrRead(max: nat) returns (data: seq<byte>, eof: bool)
      modifies this`input
      ensures |data| <= max && data + input == old(input)
      ensures eof ==> data == [] && old(input) == []
      ensures max > 0 && data == [] ==> eof
    {
      var most := if max < |input| then max else |input|;
      var k: int := *;
      var n := if k <= 0 || k > most then most else k;
      data, input := input[..n], input[n..];
      eof := *;
      eof := data == [] && input == [] && (eof || max > 0);
    }

    /** readFull: exactly n bytes, or unexpected end of file. */
    method ReadFull(n: nat) returns (data: seq<byte>, err: Option<ReadError>)
      modifies this`input
      ensures if |old(input)| >= n then err.None? && data == old(input)[..n] && input == old(input)[n..]
              else err == Some(UnexpectedEOF)
    {
      data := [];
      var eof := false;
      while |data| < n && !eof
        invariant data + input == old(input) && |data| <= n
        invariant eof ==> input == []
        decreases n - |data|, !eof
      {
        var d;
        d, eof := BrRead(n - |data|);
        assert data + (d + input) == data + d + input;
        data := data + d;
      }
      err := if |data| == n then None else Some(UnexpectedEOF);
    }

    /** Step 1 of advanceFrame. */
    method SkipRemainder() returns (err: Option<ReadError>)
      modifies this`input, this`readRemaining
      ensures if Skip(old(RS())).Some? then err.None? && RS() == Skip(old(RS())).value else err == Some(EOF)
    {
      err := None;
      if readRemaining > 0 {
        var _, e := ReadFull(readRemaining);
        if e.Some? {
          return Some(EOF);
        }
        readRemaining := 0;
      }
    }

    /** Steps 2 to 4 of advanceFrame: the header. */
    method ReadHead() returns (h: Head)
      modifies this`input
      ensures h == DecodeHead(old(input), !readFinal, isServer)
      ensures h.Head? ==> h.size <= |old(input)| && input == old(input)[h.size..]
    {
      hide FirstTwo, FinBit, Opcode, MaskBit, ShortLength, Value;
      ghost var b := input;
      var b2, err := ReadFull(2);
      if err.Some? {
        return Short;
      }
      var reason := FirstTwo(b2[0], b2[1], !readFinal);
      if reason.Some? {
        return Bad(reason.value);
      }
      var l := ShortLength(b2[1]);
      var e := ExtraLength(b2[1]);
      var bl, err1 := ReadFull(e);
      if err1.Some? {
        return Short;
      }
      SliceOfRest(b, 2, e);
      assert bl == b[2..2 + e] && input == b[2 + e..];
      if MaskBit(b2[1]) != isServer {
        return Bad(BadMask);
      }
      var key, err2 := ReadFull(if isServer then 4 else 0);
      if err2.Some? {
        return Short;
      }
      var size := 2 + e + |key|;
      SliceOfRest(b, 2 + e, |key|);
      assert key == b[2 + e..size] && input == b[size..];
      return Head(FinBit(b2[0]), Opcode(b2[0]), if e == 0 then l else Value(bl), key, size);
    }

    // ------------------------------------------------------------ frames and messages read

    ghost function Sayings(): Talk
      reads this`link, this`closeSent, this`tries
    {
      Talk(Sent().controls, closeSent, tries)
    }

    /** The reply, if there is one, goes out or fails; nothing else is sent. Without faults, it goes out whenever it can. */
    twostate predicate RepliedOnly(new reply: Option<Message>)
      reads this`link, this`wire, this`netOpen, this`closeSent, this`tries
    {
      && WireValid()
      && Sent().done == old(Sent()).done && Sent().part == old(Sent()).part
      && (Sent().controls == old(Sent()).controls
          || (reply.Some? && Sent().controls == old(Sent()).controls + [reply.value]))
      && (faultless ==> Sayings() == Answered(old(Sayings()), reply, late))
    }

    method SendReply(reply: Message)
      requires WireValid() && IsControl(reply.mtype) && |reply.data| <= MAX_CONTROL
      modifies this`closeSent, this`netOpen, this`wire, this`link, this`tries
      ensures RepliedOnly(Some(reply))
    {
      var timedOut := late(tries);
      tries := tries + 1;
      var _ := WriteControl(reply.mtype, reply.data, timedOut);
    }

    /** Steps 6 and 7 of advanceFrame: a control frame's payload is read and acted upon. */
    method HandleControl(h: Head) returns (err: Option<ReadError>)
      requires h.Head? && IsControl(h.op) && h.length <= MAX_CONTROL && (|h.key| == 0 || |h.key| == 4) && WireValid()
      modifies this`input, this`closeSent, this`netOpen, this`wire, this`link, this`tries
      ensures |old(input)| < h.length ==> err == Some(UnexpectedEOF) && RepliedOnly(None)
      ensures |old(input)| >= h.length ==>
                var payload := Mask(h.key, 0, old(input)[..h.length]);
                && input == old(input)[h.length..]
                && err == (if h.op == CLOSE then Some(CloseOutcome(payload)) else None)
                && RepliedOnly(if h.op == CLOSE then Some(Message(CLOSE, []))
                               else if h.op == PING then Some(Message(PONG, payload)) else None)
    {
      hide Mask, Link.Ok, Assemble;
      var raw, e := ReadFull(h.length);
      if e.Some? {
        return e;
      }
      var payload := Mask(h.key, 0, raw);
      if h.op == PING {
        SendReply(Message(PONG, payload));
      } else if h.op == CLOSE {
        SendReply(Message(CLOSE, []));
        return Some(CloseOutcome(payload));
      }
      return None;
    }

    /** Step 5 of advanceFrame: the length of a frame of a message is counted. */
    method CountFrame(h: Head) returns (op: int, err: Option<ReadError>)
      requires h.Head? && !IsControl(h.op) && WireValid()
      modifies this`readFinal, this`readLength, this`closeSent, this`netOpen, this`wire, this`link, this`tries
      ensures readFinal == h.fin && readLength == Int64(old(readLength) + readRemaining)
      ensures var over := readLimit > 0 && readLength > readLimit;
              && (if over then err == Some(ReadLimit) else err.None? && op == h.op)
              && RepliedOnly(if over then Some(Message(CLOSE, FormatClose(1009, []))) else None)
    {
      hide Link.Ok, Assemble, FormatClose, Int64;
      readFinal := h.fin;
      readLength := Int64(readLength + readRemaining);
      if readLimit > 0 && readLength > readLimit {
        SendReply(Message(CLOSE, FormatClose(1009, [])));
        return NO_FRAME, Some(ReadLimit);
      }
      return h.op, None;
    }

    /** Steps 4 to 7 of advanceFrame. */
    method EnterFrame(h: Head, ghost s: RState) returns (op: int, err: Option<ReadError>)
      requires h.Head? && |h.key| == (if isServer then 4 else 0) && |readMaskKey| == 4 && WireValid()
      requires h.size <= |s.input| && RS() == s.(input := s.input[h.size..]) && (IsControl(h.op) ==> h.length <= MAX_CONTROL)
      modifies this`input, this`readRemaining, this`readFinal, this`readLength, this`readMaskPos, this`readMaskKey
      modifies this`closeSent, this`netOpen, this`wire, this`link, this`tries
      ensures |readMaskKey| == 4
      ensures match Enter(s, h, isServer, readLimit)
              case Advanced(t, o) => err.None? && op == o && RS() == t
              case Failed(e) => err == Some(e)
      ensures RepliedOnly(EnterReply(s, h, readLimit))
    {
      hide Mask, Link.Ok, Assemble, CloseOutcome, FormatClose, Int64, Answered, Conn.WireValid, Enter, EnterReply;
      EnterParts(s, h, isServer, readLimit);
      readRemaining := Int64(h.length);
      if isServer {
        readMaskPos, readMaskKey := 0, h.key;
      }
      if IsControl(h.op) {
        op := h.op;
        err := HandleControl(h);
        readRemaining := 0;
      } else {
        op, err := CountFrame(h);
      }
    }

    /** advanceFrame: on to the next frame; a frame that may not come is answered with a close frame. */
    method AdvanceFrame() returns (op: int, err: Option<ReadError>)
      requires WireValid() && |readMaskKey| == 4
      modifies this`input, this`readRemaining, this`readFinal, this`readLength, this`readMaskPos, this`readMaskKey
      modifies this`closeSent, this`netOpen, this`wire, this`link, this`tries
      ensures |readMaskKey| == 4
      ensures match Advance(old(RS()), isServer, readLimit)
              case Advanced(s, o) => err.None? && op == o && RS() == s
              case Failed(e) => err == Some(e)
      ensures RepliedOnly(Reply(old(RS()), isServer, readLimit))
    {
      hide Mask, Link.Ok, Assemble, DecodeHead, CloseOutcome, Enter, EnterReply;
      op := NO_FRAME;
      err := SkipRemainder();
      if err.Some? {
        return;
      }
      ghost var s := RS();
      DecodedSize(input, !readFinal, isServer);
      var h := ReadHead();
      match h
      case Short =>
        return op, Some(UnexpectedEOF);
      case Bad(reason) =>
        SendReply(Message(CLOSE, FormatClose(1002, ReasonText(reason))));
        return op, Some(Protocol(reason));
      case Head(_, _, _, _, _) =>
        op, err := EnterFrame(h, s);
    }

    ghost predicate WriterUntouched(done: seq<Message>, part: Option<Message>)
      reads this`link, this`wire, this`netOpen, this`closeSent
    {
      WireValid() && Sent().done == done && Sent().part == part
    }

    /** One turn of the loops in NextReader and Read: advanceFrame, and the count of what is read. */
    method Turn() returns (op: int)
      requires WireValid() && |readMaskKey| == 4 && readErr.None?
      requires Counted(RS(), handed, declared, readLimit)
      modifies this`input, this`readRemaining, this`readFinal, this`readLength, this`readMaskPos, this`readMaskKey
      modifies this`closeSent, this`netOpen, this`wire, this`link, this`tries, this`readErr, this`declared
      ensures |readMaskKey| == 4 && WriterUntouched(old(Sent().done), old(Sent().part))
      ensures match Advance(old(RS()), isServer, readLimit)
              case Advanced(s, o) =>
                && readErr.None? && op == o && RS() == s
                && Measured(s, handed, declared, readLimit)
              case Failed(e) => readErr == Some(e)
      ensures declared == old(declared) + Declared(old(RS()), isServer)
      ensures faultless ==> Sayings() == Answered(old(Sayings()), Reply(old(RS()), isServer, readLimit), late)
    {
      hide Link.Ok, Assemble, Advance, Reply, Measured, Counted, Declared;
      StepKeepsMeasure(RS(), handed, declared, isServer, readLimit);
      declared := declared + Declared(RS(), isServer);
      op, readErr := AdvanceFrame();
    }

    method NextReader() returns (mtype: int, seqNo: nat, err: Option<ReadError>)
      requires WireValid() && ReadValid()
      modifies this`input, this`readRemaining, this`readFinal, this`readLength, this`readMaskPos, this`readMaskKey
      modifies this`closeSent, this`netOpen, this`wire, this`link, this`tries, this`readErr, this`declared, this`handed, this`readSeq
      ensures ReadValid() && WriterUntouched(old(Sent().done), old(Sent().part))
      ensures seqNo == readSeq == old(readSeq) + 1
      ensures old(readErr).Some? ==> err == readErr == old(readErr)
      ensures old(readErr).None? ==>
                match NextMessage(old(RS()), isServer, readLimit)
                case Advanced(s, o) => err.None? && readErr.None? && mtype == o && RS() == s
                case Failed(e) => err == readErr == Some(e)
      ensures handed == 0
      ensures old(readErr).None? ==>
                declared == DeclaredToMessage(old(RS()).(seqNo := old(readSeq) + 1, length := 0), isServer, readLimit)
      ensures old(readErr).None? && faultless ==>
                Sayings() == TalkToMessage(old(Sayings()), old(RS()).(seqNo := old(readSeq) + 1, length := 0), isServer, readLimit, late)
    {
      hide Link.Ok, Assemble, Advance, Counted, Declared, Reply, Answered;
      readSeq := readSeq + 1;
      readLength := 0;
      seqNo := readSeq;
      handed, declared := 0, 0;
      ghost var s0 := RS();
      CountFromZero(s0, readLimit);
      while readErr.None?
        invariant |readMaskKey| == 4 && WriterUntouched(old(Sent().done), old(Sent().part))
        invariant readErr.None? ==> Counted(RS(), handed, declared, readLimit)
        invariant readSeq == seqNo
        invariant old(readErr).None? ==>
                    if readErr.None? then ToMessage(RS(), isServer, readLimit) == ToMessage(s0, isServer, readLimit)
                    else ToMessage(s0, isServer, readLimit) == Failed(readErr.value)
        invariant old(readErr).Some? ==> readErr == old(readErr)
        invariant old(readErr).None? ==>
                    declared + (if readErr.None? then DeclaredToMessage(RS(), isServer, readLimit) else 0)
                    == DeclaredToMessage(s0, isServer, readLimit)
        invariant handed == 0
        invariant old(readErr).None? && faultless ==>
                    TalkToMessage(old(Sayings()), s0, isServer, readLimit, late)
                    == if readErr.None? then TalkToMessage(Sayings(), RS(), isServer, readLimit, late) else Sayings()
        decreases readErr.None?, |input|
      {
        mtype := Turn();
        if readErr.None? && IsData(mtype) {
          return mtype, seqNo, None;
        }
      }
      return NO_FRAME, seqNo, readErr;
    }

    /** The loop of Read: on to payload of the current message, or to its end. */
    method Settle()
      requires WireValid() && ReadValid() && readErr.None?
      modifies this`input, this`readRemaining, this`readFinal, this`readLength, this`readMaskPos, this`readMaskKey
      modifies this`closeSent, this`netOpen, this`wire, this`link, this`tries, this`readErr, this`declared
      ensures ReadValid() && WriterUntouched(old(Sent().done), old(Sent().part))
      ensures match ToPayload(old(RS()), isServer, readLimit)
              case Advanced(s, _) => readErr.None? && RS() == s
              case Failed(e) => readErr == Some(e)
      ensures declared == old(declared) + DeclaredToPayload(old(RS()), isServer, readLimit)
      ensures faultless ==> Sayings() == TalkToPayload(old(Sayings()), old(RS()), isServer, readLimit, late)
    {
      hide Link.Ok, Assemble, Advance, Counted, Declared, Reply, Answered;
      ghost var s0 := RS();
      while readErr.None? && readRemaining <= 0 && !readFinal
        invariant |readMaskKey| == 4 && WriterUntouched(old(Sent().done), old(Sent().part))
        invariant readErr.None? ==> Measured(RS(), handed, declared, readLimit)
        invariant if readErr.None? then ToPayload(RS(), isServer, readLimit) == ToPayload(s0, isServer, readLimit)
                  else ToPayload(s0, isServer, readLimit) == Failed(readErr.value)
        invariant declared + (if readErr.None? then DeclaredToPayload(RS(), isServer, readLimit) else 0)
                  == old(declared) + DeclaredToPayload(s0, isServer, readLimit)
        invariant faultless ==>
                    TalkToPayload(old(Sayings()), s0, isServer, readLimit, late)
                    == if readErr.None? then TalkToPayload(Sayings(), RS(), isServer, readLimit, late) else Sayings()
        decreases readErr.None?, |input|
      {
        var op := Turn();
        if readErr.None? && IsData(op) {
          readErr := Some(Internal);
        }
      }
    }

    /** messageReader.Read into a slice of length max, by the reader that NextReader numbered seqNo. */
    method Read(seqNo: nat, max: nat) returns (data: seq<byte>, err: Option<ReadError>)
      requires WireValid() && ReadValid()
      modifies this`input, this`readRemaining, this`readFinal, this`readLength, this`readMaskPos, this`readMaskKey
      modifies this`closeSent, this`netOpen, this`wire, this`link, this`tries, this`readErr, this`declared, this`handed, this`readSeq
      ensures ReadValid() && WriterUntouched(old(Sent().done), old(Sent().part))
      ensures handed == old(handed) + |data|
      ensures readLimit > 0 && declared < TWO63 ==> handed <= readLimit
      ensures declared == old(declared) +
                if seqNo == old(readSeq) && old(readErr).None? then DeclaredToPayload(old(RS()), isServer, readLimit) else 0
      ensures faultless ==>
                Sayings() == if seqNo == old(readSeq) && old(readErr).None?
                             then TalkToPayload(old(Sayings()), old(RS()), isServer, readLimit, late) else old(Sayings())
      ensures seqNo != old(readSeq) ==> data == [] && err == Some(EOF) && RS() == old(RS()) && readErr == old(readErr)
      ensures seqNo == old(readSeq) && old(readErr).Some? ==>
                data == [] && readErr == old(readErr)
                && err == if readErr == Some(EOF) then Some(UnexpectedEOF) else readErr
      ensures seqNo == old(readSeq) && old(readErr).None? ==>
                match ToPayload(old(RS()), isServer, readLimit)
                case Failed(e) =>
                  data == [] && readErr == Some(e) && err == Some(if e == EOF then UnexpectedEOF else e)
                case Advanced(s, _) =>
                  if s.remaining > 0 then
                    && |data| <= max && |data| <= s.remaining && |data| <= |s.input|
                    && (RS(), data) == Receive(s, |data|, isServer) && err == readErr
                    && (max > 0 && s.input != [] ==> data != []) && (max > 0 && data == [] ==> err.Some?)
                    && (err.Some? ==> err == Some(EOF) && s.input == [])
                  else
                    data == [] && err == Some(EOF) && readErr.None? && RS() == s.(seqNo := s.seqNo + 1)
    {
      hide Link.Ok, Assemble, ToPayload, Mask, DeclaredToPayload, TalkToPayload;
      data := [];
      if seqNo != readSeq {
        return data, Some(EOF);
      }
      if readErr.None? {
        Settle();
        if readErr.None? {
          if readRemaining > 0 {
            data, err := ReceiveBytes(max);
            return data, err;
          }
          readSeq := readSeq + 1;
          return data, Some(EOF);
        }
      }
      err := readErr;
      if err == Some(EOF) && seqNo == readSeq {
        err := Some(UnexpectedEOF);
      }
    }

    /** All that a reader gives up to the end of its message, in pieces of any size. */
    method ReadAll(seqNo: nat) returns (p: seq<byte>, err: Option<ReadError>)
      requires WireValid() && ReadValid() && readErr.None? && seqNo == readSeq
      modifies this`input, this`readRemaining, this`readFinal, this`readLength, this`readMaskPos, this`readMaskKey
      modifies this`closeSent, this`netOpen, this`wire, this`link, this`tries, this`readErr, this`declared, this`handed, this`readSeq
      ensures ReadValid() && WriterUntouched(old(Sent().done), old(Sent().part))
      ensures var r := ReadRest(old(RS()), isServer, readLimit); p == r.data && err == r.err
      ensures handed == old(handed) + |p|
      ensures declared <= old(declared) + DeclaredInRest(old(RS()), isServer, readLimit)
      ensures faultless ==> Sayings() == TalkInRest(old(Sayings()), old(RS()), isServer, readLimit, late)
    {
      hide Link.Ok, Assemble, ToPayload, DeclaredToPayload, DeclaredInRest, ReadRest, Receive, Measured, TalkToPayload, TalkInRest;
      p, err := [], None;
      ghost var s0, declared0 := RS(), declared;
      while err.None?
        invariant WireValid() && ReadValid() && WriterUntouched(old(Sent().done), old(Sent().part))
        invariant err.None? ==> readErr.None? && readSeq == seqNo
        invariant handed == old(handed) + |p|
        invariant var r := ReadRest(s0, isServer, readLimit);
                  if err.None? then r == ReadRest(RS(), isServer, readLimit).Behind(p)
                  else p == r.data && r.err == if err == Some(EOF) then None else err
        invariant declared + (if err.None? then DeclaredInRest(RS(), isServer, readLimit) else 0)
                  <= declared0 + DeclaredInRest(s0, isServer, readLimit)
        invariant faultless ==>
                    TalkInRest(old(Sayings()), s0, isServer, readLimit, late)
                    == if err.None? then TalkInRest(Sayings(), RS(), isServer, readLimit, late) else Sayings()
        decreases err.None?, |input|
      {
        ghost var s, r := RS(), ToPayload(RS(), isServer, readLimit);
        PayloadIsBehind(s, isServer, readLimit);
        RestFromPayload(s, isServer, readLimit);
        RestIsOver(s, isServer, readLimit);
        DeclaredBefore(s, isServer, readLimit);
        TalkBefore(Sayings(), s, isServer, readLimit, late);
        var size: int := *;
        var d;
        d, err := Read(seqNo, if size <= 0 then 512 else size);
        if r.Advanced? && r.s.remaining > 0 {
          Received(r.s, |d|, isServer);
          RestAfterRead(r.s, |d|, isServer, readLimit);
          BehindTwice(ReadRest(RS(), isServer, readLimit), p, d);
          DeclaredAfterRead(r.s, |d|, isServer, readLimit);
          TalkAfterRead(Sayings(), r.s, |d|, isServer, readLimit, late);
        }
        if r.Advanced? {
          TalkIsOver(Sayings(), r.s, isServer, readLimit, late);
        }
        p := p + d;
      }
      if err == Some(EOF) {
        err := None;
      }
    }

    method ReadMessage() returns (mtype: int, p: seq<byte>, err: Option<ReadError>)
      requires WireValid() && ReadValid()
      modifies this`input, this`readRemaining, this`readFinal, this`readLength, this`readMaskPos, this`readMaskKey
      modifies this`closeSent, this`netOpen, this`wire, this`link, this`tries, this`readErr, this`declared, this`handed, this`readSeq
      ensures ReadValid() && WriterUntouched(old(Sent().done), old(Sent().part))
      ensures old(readErr).Some? ==> p == [] && err == readErr == old(readErr)
      ensures old(readErr).None? ==>
                match NextMessage(old(RS()), isServer, readLimit)
                case Failed(e) => p == [] && err == Some(e)
                case Advanced(s, o) => mtype == o && p == ReadRest(s, isServer, readLimit).data && err == ReadRest(s, isServer, readLimit).err
      ensures readLimit > 0 && old(readErr).None? && DeclaredInMessage(old(RS()), isServer, readLimit) < TWO63 ==> |p| <= readLimit
      ensures old(readErr).None? && faultless ==>
                var s0, n := old(RS()).(seqNo := old(readSeq) + 1, length := 0), NextMessage(old(RS()), isServer, readLimit);
                var t := TalkToMessage(old(Sayings()), s0, isServer, readLimit, late);
                Sayings() == if n.Advanced? then TalkInRest(t, n.s, isServer, readLimit, late) else t
    {
      hide Link.Ok, Assemble, ToMessage, DeclaredToMessage, DeclaredInRest, ReadRest, Measured, TalkToMessage, TalkInRest;
      p := [];
      var seqNo;
      mtype, seqNo, err := NextReader();
      if err.None? {
        p, err := ReadAll(seqNo);
      }
    }

    /** The part of Read that takes bytes of the payload. */
    method ReceiveBytes(max: nat) returns (data: seq<byte>, err: Option<ReadError>)
      requires ReadValid() && readErr.None? && readRemaining > 0
      modifies this`input, this`readRemaining, this`readMaskPos, this`readErr, this`handed
      ensures ReadValid() && handed == old(handed) + |data| && err == readErr
      ensures readErr.Some? ==> data == [] && readErr == Some(EOF) && old(input) == []
      ensures |data| <= max && |data| <= old(readRemaining) && |data| <= |old(input)|
      ensures (RS(), data) == Receive(old(RS()), |data|, isServer)
      ensures max > 0 && old(input) != [] ==> data != []
      ensures max > 0 && data == [] ==> err.Some?
    {
      hide Mask;
      var raw, eof := BrRead(if max > readRemaining then readRemaining else max);
      assert raw == old(input)[..|raw|] && input == old(input)[|raw|..];
      if eof {
        readErr := Some(EOF);
      }
      data := raw;
      if isServer {
        data := Mask(readMaskKey, readMaskPos, raw);
        readMaskPos := (readMaskPos + |raw|) % 4;
      }
      readRemaining := readRemaining - |raw|;
      handed := handed + |raw|;
      return data, readErr;
    }
  }
}
