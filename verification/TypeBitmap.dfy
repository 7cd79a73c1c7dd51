/**
 The list of record types in an NSEC record (RFC 4034 section 4.1.2, miekg/dns msg.go): types are
 grouped in windows of 256, and each window is a bitmap of as many bytes as it needs.
 */
module TypeBitmap {
  import opened Bytes

  type RRType = t: nat | t < 0x1_0000

  /** IndexOutOfRange stands for the run-time panic of a write or a read past the end of the message. */
  datatype BitmapError = Overflow | IndexOutOfRange

  // ---------------------------------------------------------------- bits

  /** Bit i of n, counted from the least significant one. */
  predicate Has(n: nat, i: nat) {
    if i == 0 then n % 2 == 1 else Has(n / 2, i - 1)
  }

  /** The bitwise or of n and 1 shifted by i. */
  function With(n: nat, i: nat): nat {
    if i == 0 then n / 2 * 2 + 1 else 2 * With(n / 2, i - 1) + n % 2
  }

  lemma {:induction false} WithFits(n: nat, i: nat, w: nat)
    requires i < w && n < Pow2(w)
    ensures With(n, i) < Pow2(w)
  {
    if i > 0 {
      WithFits(n / 2, i - 1, w - 1);
    }
  }

  lemma {:induction false} WithHas(n: nat, i: nat, j: nat)
    ensures Has(With(n, i), j) <==> j == i || Has(n, j)
  {
    var r := With(n, i);
    if i == 0 {
      HalfAndBit(n / 2, 1);
      assert r / 2 == n / 2 && r % 2 == 1;
    } else {
      HalfAndBit(With(n / 2, i - 1), n % 2);
      assert r / 2 == With(n / 2, i - 1) && r % 2 == n % 2;
      if j > 0 {
        WithHas(n / 2, i - 1, j - 1);
      }
    }
  }

  lemma HalfAndBit(q: nat, d: nat)
    requires d < 2
    ensures (2 * q + d) / 2 == q && (2 * q + d) % 2 == d
  {
  }

  lemma {:induction false} NoBits(i: nat)
    ensures !Has(0, i)
  {
    if i > 0 {
      NoBits(i - 1);
    }
  }

  /** Bit k of b, counted from the most significant one as in the bitmap. */
  predicate Bit(b: byte, k: nat)
    requires k < 8
  {
    Has(b, 7 - k)
  }

  function SetBit(b: byte, k: nat): (r: byte)
    requires k < 8
    ensures forall j :: 0 <= j < 8 ==> (Bit(r, j) <==> j == k || Bit(b, j))
  {
    Pow2Of8();
    WithFits(b, 7 - k, BYTE_BITS);
    var r: byte := With(b, 7 - k);
    assert forall j :: 0 <= j < 8 ==> (Bit(r, j) <==> j == k || Bit(b, j)) by {
      forall j | 0 <= j < 8 ensures Bit(r, j) <==> j == k || Bit(b, j) {
        WithHas(b, 7 - k, 7 - j);
      }
    }
    r
  }

  function Window(t: RRType): (w: byte) {
    t / 256
  }

  function Octet(t: RRType): (n: nat)
    ensures n < 32
  {
    t % 256 / 8
  }

  // ---------------------------------------------------------------- what is packed

  datatype Put = Put(m: seq<byte>, off: nat) | Fails(error: BitmapError)

  /** The message after type t has gone into the window at offset at. */
  function PutOne(m: seq<byte>, at: nat, t: RRType): (r: seq<byte>)
    requires at + 2 + Octet(t) < |m|
    ensures |r| == |m| && r[..at] == m[..at]
  {
    var o := at + 2 + Octet(t);
    m[at := Window(t)][at + 1 := Octet(t) + 1][o := SetBit(m[o], t % 8)]
  }

  /** Packs types, when the window at offset at is number last and octet n is its last one. */
  function PutAll(types: seq<RRType>, m: seq<byte>, at: nat, last: byte, n: nat): (r: Put)
    ensures r.Put? ==> |r.m| == |m|
  {
    if types == [] then
      if at + n + 3 > |m| then Fails(Overflow) else Put(m, at + n + 3)
    else
      var t := types[0];
      var next := if Window(t) != last then at + n + 3 else at;
      if next + 2 + Octet(t) > |m| then Fails(Overflow)
      else if next + 2 + Octet(t) == |m| then Fails(IndexOutOfRange)
      else PutAll(types[1..], PutOne(m, next, t), next, Window(t), Octet(t))
  }

  function PackBitmap(types: seq<RRType>, m: seq<byte>, off: nat): Put {
    if types == [] then Put(m, off)
    else if off + 2 > |m| then Fails(Overflow)
    else PutAll(types, m, off, 0, 0)
  }

  /** One turn of the packing loop. */
  lemma PutStep(types: seq<RRType>, j: nat, m: seq<byte>, at: nat, last: byte, n: nat)
    requires j < |types|
    ensures var t := types[j];
            var next := if Window(t) != last then at + n + 3 else at;
            PutAll(types[j..], m, at, last, n) ==
            if next + 2 + Octet(t) > |m| then Fails(Overflow)
            else if next + 2 + Octet(t) == |m| then Fails(IndexOutOfRange)
            else PutAll(types[j + 1..], PutOne(m, next, t), next, Window(t), Octet(t))
  {
    hide PutOne, Window, Octet;
    assert types[j..][0] == types[j] && types[j..][1..] == types[j + 1..];
  }

  lemma PutEnd(types: seq<RRType>, m: seq<byte>, at: nat, last: byte, n: nat)
    ensures types[0..] == types
    ensures PutAll(types[|types|..], m, at, last, n) == if at + n + 3 > |m| then Fails(Overflow) else Put(m, at + n + 3)
  {
    assert types[|types|..] == [];
  }

  /** The window number, the length and the bit of one type. */
  method WriteType(msg: array<byte>, at: nat, t: RRType)
    requires at + 2 + Octet(t) < msg.Length
    modifies msg
    ensures msg[..] == PutOne(old(msg[..]), at, t)
  {
    hide SetBit, Window, Octet;
    msg[at] := Window(t);
    msg[at + 1] := Octet(t) + 1;
    msg[at + 2 + Octet(t)] := SetBit(msg[at + 2 + Octet(t)], t % 8);
  }

  method PackTypes(types: seq<RRType>, msg: array<byte>, off0: nat) returns (off: nat, err: Option<BitmapError>)
    modifies msg
    ensures var p := PackBitmap(types, old(msg[..]), off0);
            && (p.Put? ==> err.None? && off == p.off && msg[..] == p.m)
            && (p.Fails? ==> err == Some(p.error))
  {
    hide PutOne, PutAll, Window, Octet;
    off := off0;
    if |types| == 0 {
      return off, None;
    }
    var lastwindow: byte, length := 0, 0;
    if off + 2 > msg.Length {
      return msg.Length, Some(Overflow);
    }
    var j := 0;
    ghost var was := msg[..];
    PutEnd(types, was, off0, 0, 0);
    while j < |types|
      invariant j <= |types|
      invariant PutAll(types[j..], msg[..], off, lastwindow, length) == PutAll(types, was, off0, 0, 0)
    {
      var t := types[j];
      var window := Window(t);
      PutStep(types, j, msg[..], off, lastwindow, length);
      if lastwindow != window {
        off := off + length + 3;
        if off > msg.Length {
          return msg.Length, Some(Overflow);
        }
      }
      length := Octet(t);
      if off + 2 + length > msg.Length {
        return msg.Length, Some(Overflow);
      }
      if off + 2 + length == msg.Length {
        return msg.Length, Some(IndexOutOfRange);
      }
      WriteType(msg, off, t);
      lastwindow := window;
      j := j + 1;
    }
    PutEnd(types, msg[..], off, lastwindow, length);
    off := off + 2 + length;
    off := off + 1;
    if off > msg.Length {
      return msg.Length, Some(Overflow);
    }
    return off, None;
  }

  // ---------------------------------------------------------------- what is read

  datatype Bitmap = Bitmap(types: seq<nat>, off: nat) | Malformed(error: BitmapError)

  /** The type of bit k joins the types if the bit is set. */
  function Noted(types: seq<nat>, b: byte, base: nat, k: nat): seq<nat>
    requires k < 8
  {
    if Bit(b, k) then types + [base + k] else types
  }

  /** The types of the first k bits of b; base is the type of its first bit. */
  function OctetTypes(b: byte, base: nat, k: nat): seq<nat>
    requires k <= 8
  {
    if k == 0 then [] else Noted(OctetTypes(b, base, k - 1), b, base, k - 1)
  }

  /** The types in the length octets from offset at on. */
  function WindowTypes(m: seq<byte>, at: nat, length: nat, window: byte): seq<nat>
    requires at + length <= |m|
  {
    if length == 0 then []
    else WindowTypes(m, at, length - 1, window) + OctetTypes(m[at + length - 1], window * 256 + 8 * (length - 1), 8)
  }

  function ReadWindows(m: seq<byte>, off: nat, end: nat): (r: Bitmap)
    ensures r.Bitmap? ==> r.off >= off
    decreases end - off
  {
    if off + 2 >= end then Bitmap([], off)
    else if off + 2 > |m| then Malformed(IndexOutOfRange)
    else
      var length := m[off + 1];
      if length == 0 || length > 32 || off + 2 + length > |m| then Malformed(Overflow)
      else
        var rest := ReadWindows(m, off + 2 + length, end);
        if rest.Malformed? then rest
        else Bitmap(WindowTypes(m, off + 2, length, m[off]) + rest.types, rest.off)
  }

  function ReadBitmap(m: seq<byte>, off: nat, end: nat): Bitmap {
    if off == end then Bitmap([], off)
    else if off + 2 > end || off + 2 > |m| then Malformed(Overflow)
    else ReadWindows(m, off, end)
  }

  lemma OctetStep(b: byte, base: nat, k: nat)
    requires k < 8
    ensures OctetTypes(b, base, k + 1) == Noted(OctetTypes(b, base, k), b, base, k)
  {
  }

  /** All eight bits are looked at, the most significant one first. */
  method UnpackOctet(b: byte, base: nat) returns (types: seq<nat>)
    ensures types == OctetTypes(b, base, 8)
  {
    assert OctetTypes(b, base, 0) == [];
    hide Bit, Noted, OctetTypes;
    types := [];
    types := Noted(types, b, base, 0);
    OctetStep(b, base, 0);
    types := Noted(types, b, base, 1);
    OctetStep(b, base, 1);
    types := Noted(types, b, base, 2);
    OctetStep(b, base, 2);
    types := Noted(types, b, base, 3);
    OctetStep(b, base, 3);
    types := Noted(types, b, base, 4);
    OctetStep(b, base, 4);
    types := Noted(types, b, base, 5);
    OctetStep(b, base, 5);
    types := Noted(types, b, base, 6);
    OctetStep(b, base, 6);
    types := Noted(types, b, base, 7);
    OctetStep(b, base, 7);
  }

  method UnpackWindow(msg: array<byte>, off: nat, length: nat, window: byte, nsec0: seq<nat>)
      returns (nsec: seq<nat>, err: Option<BitmapError>)
    requires off <= msg.Length
    ensures off + length <= msg.Length ==> err.None? && nsec == nsec0 + WindowTypes(msg[..], off, length, window)
    ensures off + length > msg.Length ==> err == Some(Overflow)
  {
    hide OctetTypes;
    nsec := nsec0;
    var j := 0;
    while j < length
      invariant j <= length && off + j <= msg.Length
      invariant nsec == nsec0 + WindowTypes(msg[..], off, j, window)
    {
      if off + j + 1 > msg.Length {
        return [], Some(Overflow);
      }
      var types := UnpackOctet(msg[off + j], window * 256 + j * 8);
      nsec := nsec + types;
      j := j + 1;
    }
    return nsec, None;
  }

  method UnpackTypes(msg: array<byte>, off0: nat, end: nat) returns (nsec: seq<nat>, off: nat, err: Option<BitmapError>)
    ensures var r := ReadBitmap(msg[..], off0, end);
            && (r.Bitmap? ==> err.None? && nsec == r.types && off == r.off)
            && (r.Malformed? ==> err == Some(r.error))
  {
    hide WindowTypes, ReadWindows;
    nsec, off, err := [], off0, None;
    if off == end {
      return;
    }
    if off + 2 > end || off + 2 > msg.Length {
      return [], msg.Length, Some(Overflow);
    }
    ghost var m := msg[..];
    ReadFromStart(m, off0, end);
    while off + 2 < end
      invariant off0 <= off && err.None?
      invariant ReadWindows(m, off0, end) == After(nsec, ReadWindows(m, off, end))
      decreases end - off
    {
      ReadStep(nsec, m, off, end);
      if off + 2 > msg.Length {
        return [], msg.Length, Some(IndexOutOfRange);
      }
      var window, length: nat := msg[off], msg[off + 1];
      if length == 0 {
        return [], msg.Length, Some(Overflow);
      }
      if length > 32 {
        return [], msg.Length, Some(Overflow);
      }
      off := off + 2;
      nsec, err := UnpackWindow(msg, off, length, window, nsec);
      if err.Some? {
        return [], msg.Length, err;
      }
      off := off + length;
    }
    ReadEnd(m, off, end);
  }

  lemma ReadFromStart(m: seq<byte>, off: nat, end: nat)
    ensures After([], ReadWindows(m, off, end)) == ReadWindows(m, off, end)
  {
    hide ReadWindows;
  }

  /** One window is read. */
  lemma ReadStep(types: seq<nat>, m: seq<byte>, off: nat, end: nat)
    requires off + 2 < end
    ensures After(types, ReadWindows(m, off, end)) ==
            if off + 2 > |m| then Malformed(IndexOutOfRange)
            else
              var length := m[off + 1];
              if length == 0 || length > 32 || off + 2 + length > |m| then Malformed(Overflow)
              else After(types + WindowTypes(m, off + 2, length, m[off]), ReadWindows(m, off + 2 + length, end))
  {
    hide WindowTypes;
    if off + 2 <= |m| && 0 < m[off + 1] <= 32 && off + 2 + m[off + 1] <= |m| {
      var length := m[off + 1];
      var rest, ts := ReadWindows(m, off + 2 + length, end), WindowTypes(m, off + 2, length, m[off]);
      if rest.Bitmap? {
        assert types + (ts + rest.types) == types + ts + rest.types;
      }
    }
  }

  lemma ReadEnd(m: seq<byte>, off: nat, end: nat)
    requires off + 2 >= end
    ensures ReadWindows(m, off, end) == Bitmap([], off)
  {
  }

  /** The outcome of reading when types have been read before. */
  function After(types: seq<nat>, r: Bitmap): Bitmap {
    if r.Malformed? then r else Bitmap(types + r.types, r.off)
  }
}
