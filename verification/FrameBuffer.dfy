/**
 The in-place work on buffers that conn.go does: writing a big-endian number, writing a
 frame header, masking a stretch of a buffer.
 */
module FrameBuffer {
  import opened Bytes
  import opened Frames

  const HEADER_SPACE: nat := 14

  /** Everything outside b[lo..hi] is as it was before. */
  twostate predicate OnlyChanged(b: array<byte>, lo: nat, hi: nat)
    requires lo <= hi <= b.Length
    reads b
  {
    b[..lo] == old(b[..lo]) && b[hi..] == old(b[hi..])
  }

  method PutBigEndian(b: array<byte>, off: nat, n: nat, k: nat)
    requires off + k <= b.Length
    modifies b
    ensures b[off..off + k] == BigEndian(n, k)
    ensures OnlyChanged(b, off, off + k)
  {
    if k > 0 {
      PutBigEndian(b, off, n / 256, k - 1);
      ghost var mid := b[..];
      b[off + k - 1] := n % 256;
      LastPut(old(b[..]), mid, b[..], off, off + k - 1);
      assert b[off..off + k] == b[..][off..off + k];
    }
  }

  /** One more byte has been written at i, behind those from off on. */
  lemma LastPut(was: seq<byte>, mid: seq<byte>, now: seq<byte>, off: nat, i: nat)
    requires off <= i < |mid| == |was| == |now| && now == mid[i := now[i]]
    requires mid[..off] == was[..off] && mid[i..] == was[i..]
    ensures now[..off] == was[..off] && now[i + 1..] == was[i + 1..] && now[off..i + 1] == mid[off..i] + [now[i]]
  {
    assert was[i + 1..] == was[i..][1..] && now[i + 1..] == mid[i..][1..];
  }

  /** maskBytes: combines b[lo..hi] with the key in place and returns the next key position. */
  method MaskBytes(key: seq<byte>, pos: nat, b: array<byte>, lo: nat, hi: nat) returns (next: nat)
    requires |key| == 4 && lo <= hi <= b.Length
    modifies b
    ensures b[lo..hi] == Mask(key, pos, old(b[lo..hi]))
    ensures forall i :: lo <= i < hi ==> IsXor(b[i], old(b[i]), key[(pos + i - lo) % 4])
    ensures OnlyChanged(b, lo, hi)
    ensures next == (pos + (hi - lo)) % 4
  {
    ghost var was := b[..];
    next := pos;
    for i := lo to hi
      invariant next == pos + (i - lo)
      invariant forall j :: lo <= j < i ==> b[j] == Xor(was[j], KeyByte(key, pos + (j - lo)))
      invariant forall j :: 0 <= j < lo || i <= j < b.Length ==> b[j] == was[j]
    {
      b[i] := Xor(b[i], KeyByte(key, next));
      next := next + 1;
    }
    next := next % 4;
    assert b[lo..hi] == Mask(key, pos, was[lo..hi]);
    EachIsXor(key, pos, was, b[..], lo, hi);
  }

  lemma EachIsXor(key: seq<byte>, pos: nat, was: seq<byte>, now: seq<byte>, lo: nat, hi: nat)
    requires |key| == 4 && lo <= hi <= |was| == |now| && now[lo..hi] == Mask(key, pos, was[lo..hi])
    ensures forall i :: lo <= i < hi ==> IsXor(now[i], was[i], key[(pos + i - lo) % 4])
  {
    MaskIsBitwise(key, pos, was[lo..hi]);
    hide Mask, IsXor, Xor;
    forall i | lo <= i < hi ensures IsXor(now[i], was[i], key[(pos + i - lo) % 4]) {
      var m := Mask(key, pos, was[lo..hi]);
      assert m[i - lo] == now[i] && was[lo..hi][i - lo] == was[i];
      assert pos + (i - lo) == pos + i - lo;
    }
  }

  /**
   The header part of flushFrame: writes the header so that it ends where the mask key or
   the payload starts, and returns where it begins.
   */
  method PutHeader(b: array<byte>, isServer: bool, fin: bool, op: int, length: nat) returns (framePos: nat)
    requires b.Length >= HEADER_SPACE && 0 <= op < 16
    modifies b
    ensures framePos <= (if isServer then HEADER_SPACE else HEADER_SPACE - 4)
    ensures b[framePos..if isServer then HEADER_SPACE else HEADER_SPACE - 4] == EncodeHeader(fin, op, !isServer, length)
    ensures b[HEADER_SPACE..] == old(b[HEADER_SPACE..])
  {
    var b0 := op + if fin then 128 else 0;
    var b1 := if isServer then 0 else 128;
    ghost var payload := b[HEADER_SPACE..];
    framePos := if isServer then 4 else 0;
    if length >= 0x1_0000 {
      PutBigEndian(b, framePos + 2, length, 8);
      assert b[framePos + 10..][HEADER_SPACE - framePos - 10..] == payload;
      b[framePos] := b0;
      b[framePos + 1] := b1 + 127;
      assert b[framePos..framePos + 10] == [b0, b1 + 127] + b[framePos + 2..framePos + 10];
    } else if length > 125 {
      framePos := framePos + 6;
      PutBigEndian(b, framePos + 2, length, 2);
      assert b[framePos + 4..][HEADER_SPACE - framePos - 4..] == payload;
      b[framePos] := b0;
      b[framePos + 1] := b1 + 126;
      assert b[framePos..framePos + 4] == [b0, b1 + 126] + b[framePos + 2..framePos + 4];
    } else {
      framePos := framePos + 8;
      b[framePos] := b0;
      b[framePos + 1] := b1 + length;
      assert b[framePos..framePos + 2] == [b0, b1 + length];
    }
  }

  /** The built-in copy: src goes to b[off..]. */
  method CopyInto(b: array<byte>, off: nat, src: seq<byte>)
    requires off + |src| <= b.Length
    modifies b
    ensures b[off..off + |src|] == src
    ensures OnlyChanged(b, off, off + |src|)
  {
    ghost var was := b[..];
    for i := 0 to |src|
      invariant forall j :: 0 <= j < i ==> b[off + j] == src[j]
      invariant forall j :: 0 <= j < off || off + i <= j < b.Length ==> b[j] == was[j]
    {
      b[off + i] := src[i];
    }
  }

  /** Writes the mask key in front of the payload b[HEADER_SPACE..end] and masks the payload. */
  method PutMasked(b: array<byte>, end: nat, key: seq<byte>)
    requires |key| == 4 && HEADER_SPACE <= end <= b.Length
    modifies b
    ensures b[..HEADER_SPACE - 4] == old(b[..HEADER_SPACE - 4])
    ensures b[HEADER_SPACE - 4..end] == key + Mask(key, 0, old(b[HEADER_SPACE..end]))
  {
    hide Mask;
    ghost var payload := b[HEADER_SPACE..end];
    CopyInto(b, HEADER_SPACE - 4, key);
    assert b[HEADER_SPACE..end] == b[HEADER_SPACE..][..end - HEADER_SPACE] == payload;
    label copied:
    var _ := MaskBytes(key, 0, b, HEADER_SPACE, end);
    assert b[..HEADER_SPACE][..HEADER_SPACE - 4] == old@copied(b[..HEADER_SPACE])[..HEADER_SPACE - 4];
    assert b[..HEADER_SPACE][HEADER_SPACE - 4..] == old@copied(b[..HEADER_SPACE])[HEADER_SPACE - 4..];
    assert b[HEADER_SPACE - 4..end] == b[..HEADER_SPACE][HEADER_SPACE - 4..] + b[HEADER_SPACE..end];
  }

  /**
   Completes the frame whose payload stands in b[HEADER_SPACE..end]: the header goes in
   front, and a client's payload is masked in place.
   */
  method CompleteFrame(b: array<byte>, end: nat, isServer: bool, fin: bool, op: int, length: nat, key: seq<byte>)
    returns (framePos: nat)
    requires HEADER_SPACE <= end <= b.Length && 0 <= op < 16 && |key| == if isServer then 0 else 4
    modifies b
    ensures framePos < HEADER_SPACE
    ensures b[framePos..end] == EncodeHeader(fin, op, !isServer, length) + key + Mask(key, 0, old(b[HEADER_SPACE..end]))
    ensures forall i :: HEADER_SPACE <= i < end ==>
              if isServer then b[i] == old(b[i]) else IsXor(b[i], old(b[i]), key[(i - HEADER_SPACE) % 4])
  {
    hide Mask, EncodeHeader, IsXor;
    ghost var payload := b[HEADER_SPACE..end];
    framePos := PutHeader(b, isServer, fin, op, length);
    assert b[HEADER_SPACE..end] == b[HEADER_SPACE..][..end - HEADER_SPACE] == payload;
    if isServer {
      UnmaskedIsItself(0, payload);
      assert b[framePos..end] == b[framePos..HEADER_SPACE] + [] + b[HEADER_SPACE..end];
    } else {
      ghost var header := b[framePos..HEADER_SPACE - 4];
      PutMasked(b, end, key);
      assert b[..HEADER_SPACE - 4][framePos..] == header;
      assert b[framePos..end] == b[..HEADER_SPACE - 4][framePos..] + b[HEADER_SPACE - 4..end];
      assert b[HEADER_SPACE..end] == b[HEADER_SPACE - 4..end][4..] == Mask(key, 0, payload);
    }
    BodyIs(key, old(b[..]), b[..], end);
  }

  lemma BodyIs(key: seq<byte>, was: seq<byte>, now: seq<byte>, end: nat)
    requires (|key| == 0 || |key| == 4) && HEADER_SPACE <= end <= |was| == |now|
    requires now[HEADER_SPACE..end] == Mask(key, 0, was[HEADER_SPACE..end])
    ensures forall i :: HEADER_SPACE <= i < end ==>
              if key == [] then now[i] == was[i] else IsXor(now[i], was[i], key[(i - HEADER_SPACE) % 4])
  {
    hide Mask, IsXor;
    if key == [] {
      UnmaskedIsItself(0, was[HEADER_SPACE..end]);
      forall i | HEADER_SPACE <= i < end ensures now[i] == was[i] {
        assert now[HEADER_SPACE..end][i - HEADER_SPACE] == now[i];
      }
    } else {
      EachIsXor(key, 0, was, now, HEADER_SPACE, end);
      forall i | HEADER_SPACE <= i < end ensures IsXor(now[i], was[i], key[(i - HEADER_SPACE) % 4]) {
        assert 0 + i - HEADER_SPACE == i - HEADER_SPACE;
      }
    }
  }
}
