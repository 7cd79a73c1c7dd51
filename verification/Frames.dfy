/**
 WebSocket frames as RFC 6455 defines them: how one frame looks on the wire (section 5.2),
 how a payload is masked (section 5.3), and how a sequence of frames is put together
 into messages (section 5.4).
 */
module Frames {
  import opened Bytes

  const CONTINUATION := 0
  const TEXT := 1
  const BINARY := 2
  const CLOSE := 8
  const PING := 9
  const PONG := 10
  const MAX_CONTROL := 125

  predicate IsControl(op: int) {
    op == CLOSE || op == PING || op == PONG
  }

  predicate IsData(op: int) {
    op == TEXT || op == BINARY
  }

  // ---------------------------------------------------------------- one frame

  /** A frame; key is empty when the frame is not masked and has four bytes when it is. */
  datatype Frame = Frame(fin: bool, op: int, key: seq<byte>, payload: seq<byte>)

  /** The key byte that masks the payload byte at position p. */
  function KeyByte(key: seq<byte>, p: nat): byte
    requires |key| == 4
  {
    key[p % 4]
  }

  /** data masked, its first byte standing at position pos of the payload. */
  function Mask(key: seq<byte>, pos: nat, data: seq<byte>): (r: seq<byte>)
    requires |key| == 0 || |key| == 4
    ensures |r| == |data|
  {
    if key == [] then data
    else seq(|data|, i requires 0 <= i < |data| => Xor(data[i], KeyByte(key, pos + i)))
  }

  function EncodeHeader(fin: bool, op: int, masked: bool, n: nat): (r: seq<byte>)
    requires 0 <= op < 16
    ensures |r| == if n >= 0x1_0000 then 10 else if n > 125 then 4 else 2
  {
    var b0 := op + if fin then 128 else 0;
    var m := if masked then 128 else 0;
    if n >= 0x1_0000 then [b0, m + 127] + BigEndian(n, 8)
    else if n > 125 then [b0, m + 126] + BigEndian(n, 2)
    else [b0, m + n]
  }

  /** What a frame must be for it to have a wire form. */
  predicate WireFrame(f: Frame) {
    && 0 <= f.op < 16
    && (|f.key| == 0 || |f.key| == 4)
    && |f.payload| < 0x8000_0000_0000_0000
  }

  function EncodeFrame(f: Frame): (r: seq<byte>)
    requires WireFrame(f)
    ensures |r| >= 2
  {
    EncodeHeader(f.fin, f.op, f.key != [], |f.payload|) + f.key + Mask(f.key, 0, f.payload)
  }

  predicate WireFrames(fs: seq<Frame>) {
    forall i :: 0 <= i < |fs| ==> WireFrame(fs[i])
  }

  /** The bytes of a sequence of frames. */
  function Wire(fs: seq<Frame>): (r: seq<byte>)
    requires WireFrames(fs)
  {
    if fs == [] then [] else EncodeFrame(fs[0]) + Wire(fs[1..])
  }

  lemma {:induction false} WireConcat(fs: seq<Frame>, gs: seq<Frame>)
    requires WireFrames(fs) && WireFrames(gs)
    ensures WireFrames(fs + gs) && Wire(fs + gs) == Wire(fs) + Wire(gs)
  {
    hide EncodeFrame, WireFrame;
    if fs == [] {
      assert fs + gs == gs;
    } else {
      assert (fs + gs)[1..] == fs[1..] + gs;
      WireConcat(fs[1..], gs);
    }
  }

  lemma WireOne(f: Frame)
    requires WireFrame(f)
    ensures WireFrames([f]) && Wire([f]) == EncodeFrame(f)
  {
    assert Wire([f]) == EncodeFrame(f) + Wire([f][1..]);
  }

  lemma WireSnoc(fs: seq<Frame>, f: Frame)
    requires WireFrames(fs) && WireFrame(f)
    ensures WireFrames(fs + [f]) && Wire(fs + [f]) == Wire(fs) + EncodeFrame(f)
  {
    WireConcat(fs, [f]);
    WireOne(f);
  }

  lemma UnmaskedIsItself(pos: nat, data: seq<byte>)
    ensures Mask([], pos, data) == data
  {
  }

  /** Masking twice with the same key and position gives the data back. */
  lemma MaskCancels(key: seq<byte>, pos: nat, data: seq<byte>)
    requires |key| == 0 || |key| == 4
    ensures Mask(key, pos, Mask(key, pos, data)) == data
  {
    if key != [] {
      forall i | 0 <= i < |data|
        ensures Mask(key, pos, Mask(key, pos, data))[i] == data[i]
      {
        XorCancels(data[i], KeyByte(key, pos + i));
      }
    }
  }

  /** Section 5.3: each byte is combined bit by bit with the byte of the key whose turn it is. */
  lemma MaskIsBitwise(key: seq<byte>, pos: nat, data: seq<byte>)
    requires |key| == 4
    ensures forall i :: 0 <= i < |data| ==> IsXor(Mask(key, pos, data)[i], data[i], key[(pos + i) % 4])
  {
    hide Xor, IsXor;
    forall i | 0 <= i < |data| ensures IsXor(Mask(key, pos, data)[i], data[i], key[(pos + i) % 4]) {
      XorIsBitwise(data[i], key[(pos + i) % 4]);
    }
  }

  /**
   Section 5.2: the bytes of a frame. The final bit and the opcode, the mask bit and the length in one of three
   forms, the key of a masked frame, and the payload.
   */
  lemma FrameBytes(f: Frame)
    requires WireFrame(f)
    ensures var b, n := EncodeFrame(f), |f.payload|;
            var e := if n <= 125 then 2 else if n <= 65535 then 4 else 10;
            var k := e + |f.key|;
            && |b| == k + n
            && b[0] == (if f.fin then 128 else 0) + f.op
            && b[1] == (if f.key == [] then 0 else 128) + (if n <= 125 then n else if n <= 65535 then 126 else 127)
            && (e == 4 ==> Word(b[2], b[3]) == n)
            && (e == 10 ==> Horner(b[2..10]) == n)
            && b[e..k] == f.key
            && (f.key == [] ==> b[k..] == f.payload)
            && (f.key != [] ==> forall i :: 0 <= i < n ==> IsXor(b[k + i], f.payload[i], f.key[i % 4]))
  {
    hide EncodeHeader, EncodeFrame, Mask, IsXor, Horner, Word, Xor;
    var n := |f.payload|;
    var h, w := EncodeHeader(f.fin, f.op, f.key != [], n), Mask(f.key, 0, f.payload);
    EncodeIs(f);
    HeaderParts(f.fin, f.op, f.key != [], n);
    FrameParts(h, f.key, w);
    if f.key != [] {
      MaskIsBitwise(f.key, 0, f.payload);
    } else {
      UnmaskedIsItself(0, f.payload);
    }
  }

  lemma EncodeIs(f: Frame)
    requires WireFrame(f)
    ensures EncodeFrame(f) == EncodeHeader(f.fin, f.op, f.key != [], |f.payload|) + f.key + Mask(f.key, 0, f.payload)
  {
  }

  /** Where the parts of three put together stand. */
  lemma FrameParts(h: seq<byte>, key: seq<byte>, w: seq<byte>)
    requires |h| >= 2
    ensures var b, k := h + key + w, |h| + |key|;
            && b[0] == h[0] && b[1] == h[1] && b[2..|h|] == h[2..] && (|h| > 3 ==> b[2] == h[2] && b[3] == h[3])
            && b[|h|..k] == key && b[k..] == w
            && forall i :: 0 <= i < |w| ==> b[k + i] == w[i]
  {
    var b := h + key + w;
    assert b[..|h|] == h;
    assert b[2..|h|] == b[..|h|][2..];
  }

  lemma HeaderParts(fin: bool, op: int, masked: bool, n: nat)
    requires 0 <= op < 16 && n < 0x8000_0000_0000_0000
    ensures var h := EncodeHeader(fin, op, masked, n);
            && |h| == (if n <= 125 then 2 else if n <= 65535 then 4 else 10)
            && h[0] == (if fin then 128 else 0) + op
            && h[1] == (if masked then 128 else 0) + (if n <= 125 then n else if n <= 65535 then 126 else 127)
            && (125 < n <= 65535 ==> Word(h[2], h[3]) == n)
            && (65535 < n ==> Horner(h[2..]) == n)
  {
    hide BigEndian, Word, Horner;
    if 125 < n <= 65535 {
      TwoBytes(n);
    } else if 65535 < n {
      EightBytes(n);
      assert EncodeHeader(fin, op, masked, n)[2..] == BigEndian(n, 8);
    }
  }

  function Word(high: nat, low: nat): nat {
    256 * high + low
  }

  /** The number that eight bytes stand for, the highest first. */
  function Horner(b: seq<byte>): nat
    requires |b| == 8
  {
    Word(Word(Word(Word(Word(Word(Word(b[0], b[1]), b[2]), b[3]), b[4]), b[5]), b[6]), b[7])
  }

  lemma EightBytes(n: nat)
    requires n < 0x8000_0000_0000_0000
    ensures Horner(BigEndian(n, 8)) == n
  {
    PowersOf256();
    ValueOfBigEndian(n, 8);
    ValueIsHorner(BigEndian(n, 8));
  }

  lemma ValueIsHorner(b: seq<byte>)
    requires |b| == 8
    ensures Value(b) == Horner(b)
  {
    ValueStep(b[..1]);
    ValueStep(b[..2]);
    ValueStep(b[..3]);
    ValueStep(b[..4]);
    ValueStep(b[..5]);
    ValueStep(b[..6]);
    ValueStep(b[..7]);
    ValueStep(b);
    assert b[..1][..0] == [] && b[..2][..1] == b[..1] && b[..3][..2] == b[..2] && b[..4][..3] == b[..3];
    assert b[..5][..4] == b[..4] && b[..6][..5] == b[..5] && b[..7][..6] == b[..6];
    hide Value;
    assert Value([]) == 0 by { NoValue(); }
  }

  lemma NoValue()
    ensures Value([]) == 0
  {
  }

  lemma ValueStep(b: seq<byte>)
    requires b != []
    ensures Value(b) == 256 * Value(b[..|b| - 1]) + b[|b| - 1]
  {
  }

  lemma TwoBytes(n: nat)
    requires n <= 65535
    ensures Word(BigEndian(n, 2)[0], BigEndian(n, 2)[1]) == n
  {
    assert BigEndian(n / 256, 1) == BigEndian(n / 256 / 256, 0) + [n / 256 % 256];
    assert BigEndian(n, 2) == [n / 256 % 256, n % 256];
  }

  lemma KeyByteModulo(key: seq<byte>, p: nat, i: nat)
    requires |key| == 4
    ensures KeyByte(key, p + i) == KeyByte(key, p % 4 + i)
  {
  }

  /** Masking may be done piece by piece, and the position only counts modulo 4. */
  lemma MaskSplit(key: seq<byte>, pos: nat, a: seq<byte>, b: seq<byte>)
    requires |key| == 0 || |key| == 4
    ensures Mask(key, pos, a + b) == Mask(key, pos, a) + Mask(key, (pos + |a|) % 4, b)
  {
    if key != [] {
      var l, m, r := Mask(key, pos, a + b), Mask(key, pos, a), Mask(key, (pos + |a|) % 4, b);
      forall i: nat | i < |a|
        ensures l[i] == m[i]
      {
      }
      forall i: nat | i < |b|
        ensures l[|a| + i] == r[i]
      {
        MaskShift(key, pos, a, b, i);
      }
      assert l == m + r;
    }
  }

  lemma MaskShift(key: seq<byte>, pos: nat, a: seq<byte>, b: seq<byte>, i: nat)
    requires |key| == 4 && i < |b|
    ensures Mask(key, pos, a + b)[|a| + i] == Mask(key, (pos + |a|) % 4, b)[i]
  {
    hide Xor, KeyByte;
    KeyByteModulo(key, pos + |a|, i);
    assert (a + b)[|a| + i] == b[i];
    assert pos + (|a| + i) == pos + |a| + i;
  }

  // ---------------------------------------------------------------- frames to messages

  datatype Message = Message(mtype: int, data: seq<byte>)

  /**
   What a sequence of frames amounts to: the data messages that are complete, the one
   that is not, the control frames in order, whether a close frame has been seen, and
   whether the sequence keeps to the fragmentation grammar at all.
   */
  datatype Assembly = Assembly(
    ok: bool, closed: bool, done: seq<Message>, part: Option<Message>, controls: seq<Message>)
  {
    /** One more frame with this opcode and payload. */
    function Take(fin: bool, op: int, payload: seq<byte>): Assembly
      requires op == CONTINUATION ==> part.Some?
    {
      if IsControl(op) then
        this.(closed := op == CLOSE, controls := controls + [Message(op, payload)])
      else
        var m := if op == CONTINUATION then Message(part.value.mtype, part.value.data + payload)
                 else Message(op, payload);
        if fin then this.(done := done + [m], part := None) else this.(part := Some(m))
    }
  }

  /** Frames of one endpoint are all masked (a client's) or all unmasked (a server's). */
  predicate Plausible(f: Frame, masked: bool) {
    && WireFrame(f)
    && (masked <==> f.key != [])
    && (IsControl(f.op) || IsData(f.op) || f.op == CONTINUATION)
    && (IsControl(f.op) ==> f.fin && |f.payload| <= MAX_CONTROL)
  }

  /** RFC 6455 section 5.4: may f follow frames that amount to a? */
  predicate MayFollow(a: Assembly, f: Frame, masked: bool) {
    && Plausible(f, masked)
    && !a.closed
    && (IsData(f.op) ==> a.part.None?)
    && (f.op == CONTINUATION ==> a.part.Some?)
  }

  function AddFrame(a: Assembly, f: Frame, masked: bool): Assembly {
    if a.ok && MayFollow(a, f, masked) then a.Take(f.fin, f.op, f.payload) else a.(ok := false)
  }

  function Assemble(fs: seq<Frame>, masked: bool): Assembly {
    if fs == [] then Assembly(true, false, [], None, [])
    else AddFrame(Assemble(fs[..|fs| - 1], masked), fs[|fs| - 1], masked)
  }

  lemma AssembleSnoc(fs: seq<Frame>, f: Frame, masked: bool)
    ensures Assemble(fs + [f], masked) == AddFrame(Assemble(fs, masked), f, masked)
  {
    assert (fs + [f])[..|fs|] == fs;
  }

  lemma {:induction false} GrammaticalFramesHaveWireForm(fs: seq<Frame>, masked: bool)
    requires Assemble(fs, masked).ok
    ensures WireFrames(fs)
  {
    if fs != [] {
      GrammaticalFramesHaveWireForm(fs[..|fs| - 1], masked);
    }
  }

  /** A sequence that keeps to the grammar has only prefixes that do. */
  lemma {:induction false} GrammarPrefix(fs: seq<Frame>, k: nat, masked: bool)
    requires Assemble(fs, masked).ok && k <= |fs|
    ensures Assemble(fs[..k], masked).ok
    decreases |fs|
  {
    if k < |fs| {
      var front := fs[..|fs| - 1];
      GrammarPrefix(front, k, masked);
      assert front[..k] == fs[..k];
    } else {
      assert fs[..k] == fs;
    }
  }

  /** Control frames in between do not change what a frame does to the data messages. */
  lemma AddFrameData(a: Assembly, b: Assembly, f: Frame, masked: bool)
    requires a.ok && b.ok && a.done == b.done && a.part == b.part && MayFollow(b, f, masked)
    ensures AddFrame(b, f, masked).ok && (AddFrame(b, f, masked).closed <==> f.op == CLOSE)
    ensures AddFrame(b, f, masked).done == a.Take(f.fin, f.op, f.payload).done
    ensures AddFrame(b, f, masked).part == a.Take(f.fin, f.op, f.payload).part
  {
  }
}
