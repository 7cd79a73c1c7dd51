/**
 Whole runs of two connections back to back: whatever an application writes at one end,
 in any pieces and with control frames in between, is read at the other end.
 */
module RoundTrip {
  import opened Bytes
  import opened Frames
  import opened FrameReader
  import opened StreamReader
  import opened Websocket

  /** A message that never ends is the last one, and it is not whole. */
  lemma {:induction false} EndlessIsLast(fs: seq<Frame>, k: nat, masked: bool)
    requires Assemble(fs, masked).ok && k <= |fs|
    requires Assemble(fs[..k], masked).part.Some? && !EndsFrom(fs, k)
    ensures MessagesFrom(fs, k) == [] && Assemble(fs, masked).part.Some?
    decreases |fs| - k
  {
    hide Assembly.Take;
    if k < |fs| {
      GrammarStep(fs, k, masked);
      FinAfter(fs, k, masked);
      EndlessIsLast(fs, k + 1, masked);
    } else {
      assert fs[..k] == fs;
    }
  }

  /** When no message is under way and none is to come, all messages are whole. */
  lemma {:induction false} NothingLeft(fs: seq<Frame>, k: nat, masked: bool)
    requires Assemble(fs, masked).ok && k <= |fs|
    requires Assemble(fs[..k], masked).part.None? && MessagesFrom(fs, k) == []
    ensures Assemble(fs, masked).part.None?
    decreases |fs| - k
  {
    hide Assembly.Take;
    if k < |fs| {
      GrammarStep(fs, k, masked);
      FinAfter(fs, k, masked);
      NothingLeft(fs, k + 1, masked);
    } else {
      assert fs[..k] == fs;
    }
  }

  /** One Read by the current reader, on a stream of frames. */
  method ReadInSync(c: Conn, max: nat, ghost fs: seq<Frame>, ghost p: Place)
    returns (data: seq<byte>, err: Option<ReadError>, ghost q: Place)
    requires c.WireValid() && c.ReadValid() && c.readErr.None? && c.readLimit <= 0 && max > 0
    requires InSync(c.RS(), fs, p, c.isServer)
    modifies c
    ensures c.WireValid() && c.ReadValid()
    ensures err.None? || err == Some(EOF) ==>
              && c.readErr.None? && InSync(c.RS(), fs, q, c.isServer) && MessagesFrom(fs, q.k) == MessagesFrom(fs, p.k)
              && Unread(old(c.RS()), fs, p) == data + Unread(c.RS(), fs, q)
              && (old(c.readFinal) || EndsFrom(fs, p.k) ==> c.readFinal || EndsFrom(fs, q.k))
    ensures err.None? ==> data != [] && c.readSeq == old(c.readSeq)
    ensures err == Some(EOF) ==> data == [] && c.readFinal && Unread(c.RS(), fs, q) == []
    ensures err.Some? && err != Some(EOF) ==>
              data == [] && c.readErr.Some? && !old(c.readFinal) && !EndsFrom(fs, p.k)
  {
    hide Mask, Wire, Assemble, WireFrame, ToPayload, Link.Ok, Receive;
    ghost var s := c.RS();
    q := ToPayloadInSync(s, fs, p, c.isServer, c.readLimit);
    ghost var r := ToPayload(s, c.isServer, c.readLimit);
    data, err := c.Read(c.readSeq, max);
    if r.Advanced? && r.s.remaining > 0 {
      ReceiveInSync(r.s, fs, q, |data|, c.isServer);
      q := Place(q.k, q.left[|data|..]);
    }
  }

  /**
   Reads of a message by the current reader, in pieces of any size: patience of them, or as
   many as it takes when patience is negative.
   */
  method ReadPieces(c: Conn, patience: int, ghost fs: seq<Frame>, ghost p: Place)
    returns (data: seq<byte>, whole: bool, ghost q: Place)
    requires c.WireValid() && c.ReadValid() && c.readErr.None? && c.readLimit <= 0
    requires InSync(c.RS(), fs, p, c.isServer)
    modifies c
    ensures c.WireValid() && c.ReadValid()
    ensures data <= Unread(old(c.RS()), fs, p)
    ensures whole ==> data == Unread(old(c.RS()), fs, p)
    ensures patience < 0 && (old(c.readFinal) || EndsFrom(fs, p.k)) ==> whole
    ensures whole ==> c.readErr.None?
    ensures c.readErr.None? ==>
              InSync(c.RS(), fs, q, c.isServer) && MessagesFrom(fs, q.k) == MessagesFrom(fs, p.k)
    ensures c.readErr.Some? ==> !EndsFrom(fs, p.k) && !old(c.readFinal)
    ensures whole ==> c.readFinal
  {
    hide Mask, Wire, Assemble, WireFrame, Link.Ok, InSync;
    data, whole, q := [], false, p;
    ghost var u := Unread(c.RS(), fs, p);
    var left := patience;
    while left != 0
      invariant c.WireValid() && c.ReadValid() && c.readErr.None?
      invariant InSync(c.RS(), fs, q, c.isServer) && MessagesFrom(fs, q.k) == MessagesFrom(fs, p.k)
      invariant u == data + Unread(c.RS(), fs, q)
      invariant old(c.readFinal) || EndsFrom(fs, p.k) ==> c.readFinal || EndsFrom(fs, q.k)
      invariant patience < 0 ==> left < 0
      decreases |Unread(c.RS(), fs, q)|
    {
      var max: int := *;
      var d, err;
      d, err, q := ReadInSync(c, if max <= 0 then 512 else max, fs, q);
      if err.Some? {
        whole := err == Some(EOF);
        return;
      }
      assert data + (d + Unread(c.RS(), fs, q)) == data + d + Unread(c.RS(), fs, q);
      data := data + d;
      left := left - 1;
    }
  }

  /**
   The next message is taken, and read with the given patience. It may be whole only if it
   is not the incomplete one at the end.
   */
  method ReceiveOne(c: Conn, patience: int, ghost fs: seq<Frame>, ghost p: Place)
    returns (m: Option<Message>, whole: bool, ghost q: Place)
    requires c.WireValid() && c.ReadValid() && c.readErr.None? && c.readLimit <= 0
    requires InSync(c.RS(), fs, p, c.isServer)
    modifies c
    ensures c.WireValid() && c.ReadValid()
    ensures m.None? <==> MessagesFrom(fs, p.k) == []
    ensures m.Some? ==>
              var ms := MessagesFrom(fs, p.k);
              var incomplete := |ms| == 1 && Assemble(fs, c.isServer).part.Some?;
              && m.value.mtype == ms[0].mtype && m.value.data <= ms[0].data
              && (whole ==> m.value == ms[0] && !incomplete)
              && (patience < 0 && !incomplete ==> whole)
              && (c.readErr.None? ==> InSync(c.RS(), fs, q, c.isServer) && MessagesFrom(fs, q.k) == ms[1..])
              && (c.readErr.Some? ==> |ms| == 1)
  {
    hide Mask, Wire, Assemble, WireFrame, Link.Ok, NextMessage;
    m, whole := None, false;
    q := NextInSync(c.RS(), fs, p, c.isServer, c.readLimit);
    var mtype, _, err := c.NextReader();
    if err.None? {
      ghost var k := q.k;
      if !c.readFinal && !EndsFrom(fs, k) {
        EndlessIsLast(fs, k, c.isServer);
      }
      var data;
      data, whole, q := ReadPieces(c, patience, fs, q);
      if whole && MessagesFrom(fs, q.k) == [] {
        NothingLeft(fs, q.k, c.isServer);
      }
      m := Some(Message(mtype, data));
    }
  }

  /**
   Is m what a reader may have of the i-th message sent? Its type, and a beginning of its
   bytes; all of them if it was read to its end, which only succeeds for a finished message.
   */
  predicate Matches(m: Message, whole: bool, patience: int, sent: Assembly, i: nat)
    requires i < |All(sent)|
  {
    && m.mtype == All(sent)[i].mtype && m.data <= All(sent)[i].data
    && (whole ==> i < |sent.done| && m == sent.done[i])
    && (patience < 0 && i < |sent.done| ==> whole)
  }

  function PatienceAt(patience: seq<int>, i: nat): int {
    if i < |patience| then patience[i] else -1
  }

  ghost predicate Received(got: seq<Message>, whole: seq<bool>, patience: seq<int>, sent: Assembly) {
    && |got| == |whole| <= |All(sent)|
    && (forall i :: 0 <= i < |got| ==> Matches(got[i], whole[i], PatienceAt(patience, i), sent, i))
  }

  lemma ReceivedMore(
    got: seq<Message>, whole: seq<bool>, patience: seq<int>, sent: Assembly, m: Message, w: bool, ms: seq<Message>)
    requires Received(got, whole, patience, sent) && |got| < |All(sent)| && ms == All(sent)[|got|..]
    requires var incomplete := |ms| == 1 && sent.part.Some?;
             && m.mtype == ms[0].mtype && m.data <= ms[0].data
             && (w ==> m == ms[0] && !incomplete)
             && (PatienceAt(patience, |got|) < 0 && !incomplete ==> w)
    ensures Received(got + [m], whole + [w], patience, sent)
    ensures ms[1..] == All(sent)[|got + [m]|..]
    ensures |ms| == 1 ==> |got + [m]| == |All(sent)|
  {
  }

  /** Messages are taken until there are no more; the i-th is read with patience[i], the others to their end. */
  method ReceiveAll(c: Conn, patience: seq<int>, ghost fs: seq<Frame>) returns (got: seq<Message>, whole: seq<bool>)
    requires c.WireValid() && c.ReadValid() && c.readErr.None? && c.readLimit <= 0
    requires InSync(c.RS(), fs, Place(0, []), c.isServer)
    modifies c
    ensures Received(got, whole, patience, Assemble(fs, c.isServer))
    ensures |got| == |All(Assemble(fs, c.isServer))|
  {
    got, whole := [], [];
    ghost var p := Place(0, []);
    ghost var sent := Assemble(fs, c.isServer);
    AllFromStart(fs, c.isServer);
    assert All(sent)[0..] == All(sent);
    assert Received(got, whole, patience, sent);
    hide *;
    var more := true;
    while more
      invariant c.WireValid() && c.ReadValid()
      invariant Received(got, whole, patience, sent) && |got| <= |All(sent)|
      invariant if more then
                  && c.readErr.None? && InSync(c.RS(), fs, p, c.isServer)
                  && MessagesFrom(fs, p.k) == All(sent)[|got|..]
                else |got| == |All(sent)|
      decreases more, |All(sent)| - |got|
    {
      var m, w;
      ghost var ms := MessagesFrom(fs, p.k);
      m, w, p := ReceiveOne(c, PatienceAt(patience, |got|), fs, p);
      if m.None? {
        more := false;
      } else {
        ReceivedMore(got, whole, patience, sent, m.value, w, ms);
        got, whole := got + [m.value], whole + [w];
        more := c.readErr.None?;
      }
    }
  }

  lemma AllFromStart(fs: seq<Frame>, masked: bool)
    requires Assemble(fs, masked).ok
    ensures MessagesFrom(fs, 0) == All(Assemble(fs, masked))
  {
    MessagesAgree(fs, 0, masked);
    assert fs[..0] == [];
  }

  // ---------------------------------------------------------------- scripts

  datatype Way = ByWrite | ByString | ByReadFrom

  /** What an application may do with the write side of a connection. */
  datatype Op =
    | Next(mtype: int)
    | Put(data: seq<byte>, way: Way)
    | Done
    | Whole(mtype: int, data: seq<byte>)
    | Control(mtype: int, data: seq<byte>)

  /**
   The application's own view: finished data messages, the open message, of either kind, and
   whether it has sent a close frame.
   */
  datatype App = App(done: seq<Message>, open: Option<Message>, closed: bool) {
    predicate HasControl() {
      open.Some? && IsControl(open.value.mtype)
    }

    /** The open message cannot be sent, because a control message is a single frame of at most 125 bytes. */
    predicate Overlong() {
      HasControl() && |open.value.data| > MAX_CONTROL
    }

    function Finish(): App {
      if open.None? then this
      else if HasControl() then this.(open := None, closed := open.value.mtype == CLOSE && !Overlong())
      else this.(done := done + [open.value], open := None)
    }

    /** refused says that a control message was too long for the operation, and has been dropped. */
    function Do(op: Op, refused: bool): App {
      if closed then this
      else
        match op
        case Next(t) => if Ends() || !(IsData(t) || IsControl(t)) then Finish() else Finish().(open := Some(Message(t, [])))
        case Put(p, _) =>
          if open.None? then this
          else if refused then this.(open := None)
          else this.(open := Some(Message(open.value.mtype, open.value.data + p)))
        case Done => Finish()
        case Whole(t, p) =>
          if Ends() then Finish()
          else if IsData(t) then Finish().(done := Finish().done + [Message(t, p)])
          else Finish().(closed := t == CLOSE && !refused)
        case Control(t, p) => this.(closed := t == CLOSE && |p| <= MAX_CONTROL)
    }

    /** Finishing the open message leaves nothing more to do: a close frame is sent, or there is an error. */
    predicate Ends() {
      Overlong() || Finish().closed
    }

    /**
     When an operation may refuse a control message, and when it may not: the write buffer holds
     capacity bytes, and what does not fit into it would need a second frame. (ReadFrom may find out
     that a source is at its end only after it has made room for more.)
     */
    predicate Allows(op: Op, refused: bool, capacity: int) {
      if closed then !refused
      else
        match op
        case Put(p, _) =>
          if HasControl() then
            if refused then |open.value.data| + |p| >= capacity else |open.value.data| + |p| <= capacity
          else !refused
        case Whole(t, p) =>
          if IsControl(t) && !Ends() then if refused then |p| > MAX_CONTROL || |p| > capacity else |p| <= MAX_CONTROL
          else !refused
        case _ => !refused
    }
  }

  function Run(ops: seq<Op>, refused: seq<bool>): App
    requires |refused| == |ops|
  {
    if ops == [] then App([], None, false)
    else Run(ops[..|ops| - 1], refused[..|ops| - 1]).Do(ops[|ops| - 1], refused[|ops| - 1])
  }

  /** Control messages were refused only where they may be, and sent only where they can be. */
  ghost predicate Fair(ops: seq<Op>, refused: seq<bool>, capacity: int)
    requires |refused| == |ops|
  {
    forall i :: 0 <= i < |ops| ==> Run(ops[..i], refused[..i]).Allows(ops[i], refused[i], capacity)
  }

  /** Lengths stay below what memory can hold. */
  predicate Proper(op: Op) {
    match op
    case Put(p, _) => |p| < 0x1000_0000_0000_0000
    case Whole(t, p) => |p| < 0x1000_0000_0000_0000
    case _ => true
  }

  /** What is on the wire of a message that is not finished. */
  predicate PartOf(open: Option<Message>, part: Option<Message>) {
    part.Some? ==>
      open.Some? && IsData(open.value.mtype) && part.value.mtype == open.value.mtype && part.value.data <= open.value.data
  }

  lemma PartFollows(c: Conn)
    requires c.Usable()
    ensures PartOf(c.View().open, c.Sent().part)
  {
    hide Assemble, Link.Ok;
  }

  /** The connection is where the application thinks it is; w is its latest writer. */
  ghost predicate Agrees(c: Conn, w: Option<nat>, a: App)
    reads c, c.writeBuf
  {
    && c.Valid() && c.faultless && c.writeBuf.Length < 0x1000_0000_0000_0000
    && c.View().done == a.done
    && c.closeSent == a.closed
    && (w.Some? && c.writeErr.None? ==> w.value <= c.writeSeq && c.Issued(w.value))
    && PartOf(a.open, c.Sent().part)
    && (!a.closed ==>
          && c.Usable() && c.View().open == a.open
          && (a.open.Some? ==> w == Some(c.writeSeq) && (IsData(a.open.value.mtype) || IsControl(a.open.value.mtype)))
          && (w.Some? && a.open.None? ==> w.value < c.writeSeq))
  }

  /** The open message as the connection has it. */
  lemma OpenIsThere(c: Conn, w: Option<nat>, a: App)
    requires Agrees(c, w, a) && !a.closed
    ensures a.open.Some? <==> c.writeFrameType != NO_FRAME
    ensures a.open.Some? ==> a.open.value == Message(c.curType, c.text)
    ensures a.Overlong() <==> c.Overlong()
    ensures c.Closing() <==> a.open.Some? && a.open.value.mtype == CLOSE
    ensures a.HasControl() ==> |c.text| <= c.Capacity() && c.Sent().part.None?
  {
    hide Assemble, Link.Ok;
    c.OpenFacts();
  }

  method DoNext(c: Conn, w: Option<nat>, t: int, ghost a: App) returns (w': Option<nat>, ghost refused: bool)
    requires Agrees(c, w, a) && Proper(Next(t))
    modifies c, c.writeBuf
    ensures a.Allows(Next(t), refused, c.Capacity()) && Agrees(c, w', a.Do(Next(t), refused))
  {
    hide Mask, Wire, Assemble, Link.Ok, Holds;
    w', refused := w, false;
    if !a.closed {
      OpenIsThere(c, w, a);
    }
    var n, err := c.NextWriter(t);
    if err.None? {
      w' := Some(n);
    }
    if c.writeErr.None? {
      c.OpenFacts();
      PartFollows(c);
    }
  }

  method DoPut(c: Conn, w: Option<nat>, p: seq<byte>, way: Way, ghost a: App) returns (w': Option<nat>, ghost refused: bool)
    requires Agrees(c, w, a) && Proper(Put(p, way))
    modifies c, c.writeBuf
    ensures a.Allows(Put(p, way), refused, c.Capacity()) && Agrees(c, w', a.Do(Put(p, way), refused))
  {
    hide Mask, Wire, Assemble, Link.Ok, Holds;
    w', refused := w, false;
    if !a.closed {
      OpenIsThere(c, w, a);
    }
    if w.Some? {
      var _, err := PutData(c, w.value, p, way);
      refused := !a.closed && err == Some(ErrInvalidControlFrame);
    }
    if c.writeErr.None? {
      c.OpenFacts();
      PartFollows(c);
    }
  }

  method DoDone(c: Conn, w: Option<nat>, ghost a: App) returns (w': Option<nat>, ghost refused: bool)
    requires Agrees(c, w, a) && Proper(Done)
    modifies c, c.writeBuf
    ensures a.Allows(Done, refused, c.Capacity()) && Agrees(c, w', a.Do(Done, refused))
  {
    hide Mask, Wire, Assemble, Link.Ok, Holds;
    w', refused := w, false;
    if !a.closed {
      OpenIsThere(c, w, a);
    }
    if w.Some? {
      var _ := c.CloseWriter(w.value);
    }
    if c.writeErr.None? {
      c.OpenFacts();
      PartFollows(c);
    }
  }

  method DoWhole(c: Conn, w: Option<nat>, t: int, p: seq<byte>, ghost a: App) returns (w': Option<nat>, ghost refused: bool)
    requires Agrees(c, w, a) && Proper(Whole(t, p))
    modifies c, c.writeBuf
    ensures a.Allows(Whole(t, p), refused, c.Capacity()) && Agrees(c, w', a.Do(Whole(t, p), refused))
  {
    hide Mask, Wire, Assemble, Link.Ok, Holds;
    w', refused := w, false;
    if !a.closed {
      OpenIsThere(c, w, a);
    }
    assert [] + p == p;
    var err := c.WriteMessage(t, p);
    refused := !a.closed && !a.Ends() && err == Some(ErrInvalidControlFrame);
    if c.writeErr.None? {
      c.OpenFacts();
      PartFollows(c);
    }
  }

  method DoControl(c: Conn, w: Option<nat>, t: int, p: seq<byte>, ghost a: App) returns (w': Option<nat>, ghost refused: bool)
    requires Agrees(c, w, a) && Proper(Control(t, p))
    modifies c, c.writeBuf
    ensures a.Allows(Control(t, p), refused, c.Capacity()) && Agrees(c, w', a.Do(Control(t, p), refused))
  {
    hide Mask, Wire, Assemble, Link.Ok, Holds;
    w', refused := w, false;
    if !a.closed {
      OpenIsThere(c, w, a);
    }
    if !a.closed {
      PartFollows(c);
    }
    var _ := c.WriteControl(t, p, false);
    if c.writeErr.None? {
      c.OpenFacts();
      PartFollows(c);
    }
  }

  method DoOp(c: Conn, w: Option<nat>, op: Op, ghost a: App) returns (w': Option<nat>, ghost refused: bool)
    requires Agrees(c, w, a) && Proper(op)
    modifies c, c.writeBuf
    ensures a.Allows(op, refused, c.Capacity()) && Agrees(c, w', a.Do(op, refused))
  {
    hide Agrees, App.Do, App.Allows;
    match op
    case Next(t) => w', refused := DoNext(c, w, t, a);
    case Put(p, way) => w', refused := DoPut(c, w, p, way, a);
    case Done => w', refused := DoDone(c, w, a);
    case Whole(t, p) => w', refused := DoWhole(c, w, t, p, a);
    case Control(t, p) => w', refused := DoControl(c, w, t, p, a);
  }

  /** A chunk of a message, handed over in one of three ways. */
  method PutData(c: Conn, w: nat, p: seq<byte>, way: Way) returns (n: nat, err: Option<WsError>)
    requires c.Valid() && c.Issued(w) && c.writeBuf.Length + |p| < 0x8000_0000_0000_0000
    modifies c, c.writeBuf
    ensures c.Outcome(w, err, old(c.View()).Append(p)) && err != Some(ErrSource)
    ensures err == Some(ErrInvalidControlFrame) ==> |old(c.text)| + |p| >= c.Capacity()
  {
    match way
    case ByWrite =>
      n, err := c.Write(w, p);
    case ByString =>
      n, err := c.WriteString(w, p);
    case ByReadFrom =>
      n, err := c.ReadFrom(w, p, false);
  }

  method RunScript(c: Conn, ops: seq<Op>) returns (ghost refused: seq<bool>)
    requires Agrees(c, None, App([], None, false))
    requires forall i :: 0 <= i < |ops| ==> Proper(ops[i])
    modifies c, c.writeBuf
    ensures |refused| == |ops| && Fair(ops, refused, old(c.Capacity()))
    ensures var a := Run(ops, refused);
            c.Valid() && c.faultless && c.View().done == a.done && PartOf(a.open, c.Sent().part)
  {
    var w: Option<nat> := None;
    ghost var capacity := c.Capacity();
    refused := [];
    NothingRun(ops, capacity);
    hide *;
    for i := 0 to |ops|
      invariant |refused| == i && c.Capacity() == capacity
      invariant Fair(ops[..i], refused, capacity) && Agrees(c, w, Run(ops[..i], refused))
    {
      ghost var r;
      w, r := DoOp(c, w, ops[i], Run(ops[..i], refused));
      RunSnoc(ops, i, refused, r, capacity);
      refused := refused + [r];
    }
    RunEnd(c, w, ops, refused);
  }

  lemma NothingRun(ops: seq<Op>, capacity: int)
    ensures Fair(ops[..0], [], capacity) && Run(ops[..0], []) == App([], None, false)
  {
  }

  lemma RunSnoc(ops: seq<Op>, i: nat, refused: seq<bool>, r: bool, capacity: int)
    requires i < |ops| && |refused| == i && Fair(ops[..i], refused, capacity)
    requires Run(ops[..i], refused).Allows(ops[i], r, capacity)
    ensures Run(ops[..i + 1], refused + [r]) == Run(ops[..i], refused).Do(ops[i], r)
    ensures Fair(ops[..i + 1], refused + [r], capacity)
  {
    hide Run, App.Allows, App.Do, Fair;
    var more, rs := ops[..i + 1], refused + [r];
    SameStart(ops, i, refused, r);
    RunLast(more, rs);
    forall j | 0 <= j < i + 1 ensures Run(more[..j], rs[..j]).Allows(more[j], rs[j], capacity) {
      if j < i {
        SamePrefix(ops, i, j);
        assert rs[..j] == refused[..j] && rs[j] == refused[j];
        FairAt(ops[..i], refused, capacity, j);
      }
    }
    AllFair(more, rs, capacity);
  }

  lemma RunLast(ops: seq<Op>, refused: seq<bool>)
    requires |refused| == |ops| > 0
    ensures var n := |ops| - 1; Run(ops, refused) == Run(ops[..n], refused[..n]).Do(ops[n], refused[n])
  {
    hide App.Do;
  }

  lemma FairAt(ops: seq<Op>, refused: seq<bool>, capacity: int, j: nat)
    requires |refused| == |ops| && j < |ops| && Fair(ops, refused, capacity)
    ensures Run(ops[..j], refused[..j]).Allows(ops[j], refused[j], capacity)
  {
    hide Run, App.Allows;
  }

  lemma AllFair(ops: seq<Op>, refused: seq<bool>, capacity: int)
    requires |refused| == |ops|
    requires forall j :: 0 <= j < |ops| ==> Run(ops[..j], refused[..j]).Allows(ops[j], refused[j], capacity)
    ensures Fair(ops, refused, capacity)
  {
    hide Run, App.Allows;
  }

  lemma SameStart(ops: seq<Op>, i: nat, refused: seq<bool>, r: bool)
    requires i < |ops| && |refused| == i
    ensures ops[..i + 1][..i] == ops[..i] && ops[..i + 1][i] == ops[i] && (refused + [r])[..i] == refused
  {
  }

  lemma SamePrefix(ops: seq<Op>, i: nat, j: nat)
    requires j < i < |ops|
    ensures ops[..i + 1][..j] == ops[..i][..j] && ops[..i + 1][j] == ops[..i][j]
  {
  }

  lemma RunEnd(c: Conn, w: Option<nat>, ops: seq<Op>, refused: seq<bool>)
    requires |refused| == |ops| && Agrees(c, w, Run(ops[..|ops|], refused))
    ensures ops[..|ops|] == ops && Agrees(c, w, Run(ops, refused))
    ensures var a := Run(ops, refused);
            c.Valid() && c.faultless && c.View().done == a.done && PartOf(a.open, c.Sent().part)
  {
    assert ops[..|ops|] == ops;
  }

  /**
   What a reader has of what an application has done: the types of the finished messages, in
   order, a beginning of each, and all of those whose end it was told, as it is of those that it reads
   without giving up. Nothing else comes, except that a message that is still open may come last, with
   a beginning of its bytes and no end.
   */
  ghost predicate Delivered(got: seq<Message>, whole: seq<bool>, patience: seq<int>, a: App) {
    && |a.done| <= |got| == |whole|
    && (forall i :: 0 <= i < |a.done| ==>
          && got[i].mtype == a.done[i].mtype && got[i].data <= a.done[i].data
          && (PatienceAt(patience, i) < 0 ==> whole[i]))
    && (forall i :: 0 <= i < |got| && whole[i] ==> i < |a.done| && got[i] == a.done[i])
    && (|got| > |a.done| ==>
          && |got| == |a.done| + 1 && a.open.Some? && IsData(a.open.value.mtype)
          && got[|a.done|].mtype == a.open.value.mtype && got[|a.done|].data <= a.open.value.data)
  }

  /**
   One end writes by a script, with pings and pongs of other goroutines in between, and the
   other end reads what has come over the transport. It sees exactly the types of the finished
   data messages in order, and all bytes of those that it reads to their end (whole): for any
   script, roles, buffer size, mask keys, and sizes of reads.
   */
  method Exchange(isServer: bool, bufSize: nat, ops: seq<Op>, patience: seq<int>)
      returns (got: seq<Message>, whole: seq<bool>, ghost refused: seq<bool>)
    requires 1 <= bufSize < 0x0FFF_0000_0000_0000
    requires forall i :: 0 <= i < |ops| ==> Proper(ops[i])
    ensures |refused| == |ops| && Fair(ops, refused, bufSize)
    ensures Delivered(got, whole, patience, Run(ops, refused))
  {
    var c := new Conn(isServer, bufSize, 0, true, _ => false, []);
    refused := RunScript(c, ops);
    var d := new Conn(!isServer, bufSize, 0, true, _ => false, c.wire);
    ghost var fs := c.link.frames;
    StreamFromStart(d.RS(), fs, d.isServer);
    hide *;
    got, whole := ReceiveAll(d, patience, fs);
    DeliveredAll(got, whole, patience, Assemble(fs, d.isServer), Run(ops, refused));
  }

  /** If no data message is left open, a reader that reads everything to its end has exactly what was finished. */
  lemma NothingMore(got: seq<Message>, whole: seq<bool>, patience: seq<int>, a: App)
    requires Delivered(got, whole, patience, a) && (a.open.None? || IsControl(a.open.value.mtype))
    requires forall i :: 0 <= i < |a.done| ==> PatienceAt(patience, i) < 0
    ensures got == a.done
  {
  }

  /** A fresh reader at the start of a stream of frames. */
  lemma StreamFromStart(s: RState, fs: seq<Frame>, isServer: bool)
    requires Assemble(fs, isServer).ok && WireFrames(fs)
    requires s == RState(Wire(fs), 0, true, 0, 0, 0, if isServer then [0, 0, 0, 0] else [])
    ensures InSync(s, fs, Place(0, []), isServer)
  {
    assert fs[0..] == fs && fs[..0] == [];
    assert Mask(s.key, 0, []) + Wire(fs) == Wire(fs);
  }

  lemma DeliveredAll(got: seq<Message>, whole: seq<bool>, patience: seq<int>, sent: Assembly, a: App)
    requires Received(got, whole, patience, sent) && |got| == |All(sent)|
    requires sent.done == a.done && PartOf(a.open, sent.part)
    ensures Delivered(got, whole, patience, a)
  {
    forall i | 0 <= i < |got| ensures Matches(got[i], whole[i], PatienceAt(patience, i), sent, i) {
    }
  }
}
