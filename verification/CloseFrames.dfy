/**
 Frames that end the reading: a close frame by its code, a frame that may not come, and one beyond the limit.
 Codes, opcodes and bounds are written out here.
 */
module CloseFrames {
  import opened Bytes
  import opened Frames
  import opened FrameReader
  import opened StreamReader
  import opened MessageReader

  function CodeOf(high: nat, low: nat): nat {
    256 * high + low
  }

  lemma TwoByteValue(b: seq<byte>)
    requires |b| == 2
    ensures Value(b) == CodeOf(b[0], b[1])
  {
    ValueStep(b);
    ValueStep(b[..1]);
    assert b[..1][..0] == [];
    NoValue();
  }

  /** 1000 and 1001 end the stream in order, any other code is an error with its text, and no code is 1005. */
  lemma CloseCodes(payload: seq<byte>)
    ensures |payload| < 2 ==> CloseOutcome(payload) == Closed(1005, [])
    ensures |payload| >= 2 ==>
              var code := CodeOf(payload[0], payload[1]);
              CloseOutcome(payload) == if code == 1000 || code == 1001 then EOF else Closed(code, payload[2..])
  {
    if |payload| >= 2 {
      TwoByteValue(payload[..2]);
    }
  }

  /** What the reader of a stream comes to at a close frame. */
  lemma CloseEndsReading(s: RState, fs: seq<Frame>, p: Place, isServer: bool)
    requires InSync(s, fs, p, isServer) && p.k < |fs| && fs[p.k].op == 8
    ensures var e := CloseOutcome(fs[p.k].payload);
            && NextMessage(s, isServer, 0) == Failed(e)
            && (s.remaining == 0 && !s.fin ==>
                  ReadRest(s, isServer, 0) == Rest([], Some(if e == EOF then UnexpectedEOF else e), false))
  {
    hide InSync, Advance, CloseOutcome, Assemble, Wire, WireFrame, Mask, NextMessage, ReadRest;
    LengthDoesNotMatter(s, fs, p, isServer);
    AdvanceInSync(s, fs, p, isServer, 0);
    AdvanceInSync(s.(seqNo := s.seqNo + 1, length := 0), fs, p, isServer, 0);
    NextFails(s, isServer);
    if s.remaining == 0 && !s.fin {
      RestFromFrame(s, isServer, 0);
    }
  }

  lemma NextFails(s: RState, isServer: bool)
    ensures var r := Advance(s.(seqNo := s.seqNo + 1, length := 0), isServer, 0); r.Failed? ==> NextMessage(s, isServer, 0) == r
  {
    hide Advance;
  }

  lemma LengthDoesNotMatter(s: RState, fs: seq<Frame>, p: Place, isServer: bool)
    requires InSync(s, fs, p, isServer)
    ensures InSync(s.(seqNo := s.seqNo + 1, length := 0), fs, p, isServer)
  {
    hide Assemble, Wire, WireFrame, Mask;
  }

  /** Which headers are refused by their first two bytes, when a message is under way (mid) or not. */
  lemma RefusedHeaders(b0: byte, b1: byte, mid: bool)
    ensures FirstTwo(b0, b1, mid).Some? <==>
            || b0 / 16 % 8 != 0
            || (b0 % 16 in {8, 9, 10} && (b1 % 128 > 125 || b0 < 128))
            || (b0 % 16 in {1, 2} && mid)
            || (b0 % 16 == 0 && !mid)
            || b0 % 16 !in {0, 1, 2, 8, 9, 10}
  {
  }

  /** The close frames that are sent for them: 1002 with the reason, and 1009 for a message beyond the limit. */
  lemma RefusalsAreSent(s: RState, isServer: bool, limit: int)
    requires s.remaining <= 0
    ensures var h := DecodeHead(s.input, !s.fin, isServer);
            && (h.Bad? ==>
                  && Advance(s, isServer, limit) == Failed(Protocol(h.reason))
                  && Reply(s, isServer, limit) == Some(Message(8, [3, 234] + ReasonText(h.reason))))
            && (Advance(s, isServer, limit) == Failed(ReadLimit) ==> Reply(s, isServer, limit) == Some(Message(8, [3, 241])))
  {
    CodesAre();
    hide DecodeHead, ReasonText, FormatClose, CloseOutcome, Mask, Value;
    NotALimit();
  }

  lemma CodesAre()
    ensures forall text :: FormatClose(1002, text) == [3, 234] + text
    ensures FormatClose(1009, []) == [3, 241]
  {
    assert BigEndian(1002, 2) == BigEndian(3, 1) + [234] && BigEndian(3, 1) == BigEndian(0, 0) + [3];
    assert BigEndian(1009, 2) == BigEndian(3, 1) + [241];
  }

  lemma NotALimit()
    ensures forall payload: seq<byte> :: CloseOutcome(payload) != ReadLimit
  {
  }
}
