/**
 The strings of a TXT record (RFC 1035 section 3.3.14): a length byte and up to 255 bytes on
 the wire, text with escapes outside of it.
 */
module CharStrings {
  import opened Bytes
  import opened DomainNames
  import opened NamePacker

  const TXT_BUFFER := 1025

  datatype StringError = BufferTooSmall | Over255

  // ---------------------------------------------------------------- text and bytes

  function EscapeTxt(b: byte): (r: Text)
    ensures 1 <= |r| <= 4
  {
    if b == 34 || b == BACKSLASH then [BACKSLASH, b]
    else if b == TAB then [BACKSLASH, 116]
    else if b == RETURN then [BACKSLASH, 114]
    else if b == NEWLINE then [BACKSLASH, 110]
    else if b < 32 || b > 127 then [BACKSLASH, 48 + b / 100, 48 + b / 10 % 10, 48 + b % 10]
    else [b]
  }

  function PrintString(bytes: seq<byte>): (r: Text)
    ensures |bytes| <= |r| <= 4 * |bytes|
  {
    if bytes == [] then [] else EscapeTxt(bytes[0]) + PrintString(bytes[1..])
  }

  /** The bytes that a text stands for; a backslash at the very end stands for nothing. */
  function StringBytes(s: Text): (r: seq<byte>)
    ensures |r| <= |s|
    decreases |s|
  {
    if s == [] || s == [BACKSLASH] then [] else [First(s).b] + StringBytes(s[FirstSize(s)..])
  }

  /** Whether the text ends in a backslash that escapes nothing. */
  predicate Dangling(s: Text)
    decreases |s|
  {
    s != [] && (s == [BACKSLASH] || Dangling(s[FirstSize(s)..]))
  }

  lemma EscapeTxtIsRead(b: byte, rest: Text)
    ensures var s := EscapeTxt(b) + rest;
            s != [BACKSLASH] && First(s).b == b && s[FirstSize(s)..] == rest
  {
    var s := EscapeTxt(b) + rest;
    assert s[|EscapeTxt(b)|..] == rest && s[0] == EscapeTxt(b)[0];
    DddOfDigits(b);
  }

  /** Printed bytes are read back. */
  lemma {:induction false} StringRoundTrip(bytes: seq<byte>)
    ensures StringBytes(PrintString(bytes)) == bytes && !Dangling(PrintString(bytes))
  {
    if bytes != [] {
      var rest := PrintString(bytes[1..]);
      EscapeTxtIsRead(bytes[0], rest);
      StringRoundTrip(bytes[1..]);
      hide EscapeTxt, First, FirstSize;
      assert bytes == [bytes[0]] + bytes[1..];
    }
  }

  // ---------------------------------------------------------------- packing

  datatype PackedString = StringPacked(out: seq<byte>) | StringFailed(error: StringError)

  function PackString(s: Text, size: nat, off: nat): PackedString {
    var bytes := StringBytes(s);
    if off + 1 + |bytes| + (if Dangling(s) then 1 else 0) > size then StringFailed(BufferTooSmall)
    else if |bytes| > 255 then StringFailed(Over255)
    else StringPacked(WireLabel(bytes))
  }

  lemma StringStep(s: Text, i: nat)
    requires i < |s|
    ensures var t := s[i..];
            && (t == [BACKSLASH] ==> StringBytes(t) == [] && Dangling(t))
            && (t != [BACKSLASH] ==>
                  && i + FirstSize(t) <= |s|
                  && StringBytes(t) == [First(t).b] + StringBytes(s[i + FirstSize(t)..])
                  && (Dangling(t) <==> Dangling(s[i + FirstSize(t)..])))
  {
    var t := s[i..];
    assert t[FirstSize(t)..] == s[i + FirstSize(t)..];
  }

  /** The byte at i of the text, or the one that the escape sequence there stands for. */
  method ReadByte(s: Text, i: nat) returns (b: byte, i1: nat)
    requires i < |s| && s[i..] != [BACKSLASH]
    ensures b == First(s[i..]).b && i1 == i + FirstSize(s[i..])
  {
    ghost var t := s[i..];
    i1 := i;
    if s[i] == BACKSLASH {
      assert t[1..] == s[i + 1..];
      i1 := i1 + 1;
      if i1 + 2 < |s| && IsDigit(s[i1]) && IsDigit(s[i1 + 1]) && IsDigit(s[i1 + 2]) {
        b := Ddd(s[i1], s[i1 + 1], s[i1 + 2]);
        i1 := i1 + 2;
      } else if s[i1] == 116 {
        b := TAB;
      } else if s[i1] == 114 {
        b := RETURN;
      } else if s[i1] == 110 {
        b := NEWLINE;
      } else {
        b := s[i1];
      }
    } else {
      b := s[i];
    }
    i1 := i1 + 1;
  }

  lemma OneMore(m0: seq<byte>, m1: seq<byte>, off0: nat, done: seq<byte>, b: byte)
    requires Written(m0, off0, done) && off0 + |done| < |m0| && m1 == m0[off0 + |done| := b]
    ensures Written(m1, off0, done + [b]) && Untouched(m0, m1, off0)
  {
  }

  lemma WithLength(m0: seq<byte>, m1: seq<byte>, off: nat, done: seq<byte>)
    requires Written(m0, off + 1, done) && |done| < 256 && off < |m0| && m1 == m0[off := |done|]
    ensures Written(m1, off, WireLabel(done)) && Untouched(m0, m1, off)
  {
    WrittenMore(m1, m1, off, [|done|], off + 1, done);
  }

  method PackTxtString(s: Text, msg: array<byte>, off: nat) returns (off1: nat, err: Option<StringError>)
    modifies msg
    ensures var p := PackString(s, msg.Length, off);
            && (p.StringPacked? ==> err.None? && off1 == off + |p.out| && Written(msg[..], off, p.out))
            && (p.StringFailed? ==> err == Some(p.error))
    ensures Untouched(old(msg[..]), msg[..], off)
  {
    hide StringBytes, Dangling, First, FirstSize, Written, Untouched;
    NothingWritten(msg[..]);
    if off >= msg.Length {
      return off, Some(BufferTooSmall);
    }
    off1 := off + 1;
    var i := 0;
    ghost var done: seq<byte> := [];
    assert s[0..] == s;
    while i < |s|
      invariant i <= |s| && off1 == off + 1 + |done| <= msg.Length
      invariant StringBytes(s) == done + StringBytes(s[i..]) && (Dangling(s) <==> Dangling(s[i..]))
      invariant Written(msg[..], off + 1, done) && Untouched(old(msg[..]), msg[..], off)
      decreases |s| - i
    {
      StringStep(s, i);
      if msg.Length <= off1 {
        return off1, Some(BufferTooSmall);
      }
      if s[i] == BACKSLASH && i + 1 == |s| {
        i := i + 1;
        break;
      }
      ghost var m := msg[..];
      var b;
      b, i := ReadByte(s, i);
      msg[off1] := b;
      OneMore(m, msg[..], off + 1, done, b);
      UntouchedMore(old(msg[..]), m, msg[..], off, off + 1);
      done := done + [b];
      off1 := off1 + 1;
    }
    NoString();
    assert done + [] == done && s[|s|..] == [];
    var l := off1 - off - 1;
    if l > 255 {
      return off1, Some(Over255);
    }
    ghost var m := msg[..];
    msg[off] := l;
    WithLength(m, msg[..], off, done);
    UntouchedMore(old(msg[..]), m, msg[..], off, off);
    return off1, None;
  }

  lemma NoString()
    ensures StringBytes([]) == [] && !Dangling([])
  {
  }

  /** Strings one after another, each no longer than the buffer that it is copied to. */
  function PackStrings(ss: seq<Text>, size: nat, off: nat): PackedString {
    if ss == [] then StringPacked([])
    else if |ss[0]| > TXT_BUFFER then StringFailed(BufferTooSmall)
    else match PackString(ss[0], size, off)
      case StringFailed(e) => StringFailed(e)
      case StringPacked(first) => Behind(first, PackStrings(ss[1..], size, off + |first|))
  }

  function Behind(done: seq<byte>, p: PackedString): PackedString {
    if p.StringPacked? then StringPacked(done + p.out) else p
  }

  /** A record without strings writes a zero that is not counted, and needs room for it. */
  function PackTxtSpec(ss: seq<Text>, size: nat, off: nat): PackedString {
    if ss == [] && off >= size then StringFailed(BufferTooSmall) else PackStrings(ss, size, off)
  }

  lemma PackStringsStep(ss: seq<Text>, i: nat, size: nat, off: nat, done: seq<byte>)
    requires i < |ss|
    requires PackStrings(ss, size, off) == Behind(done, PackStrings(ss[i..], size, off + |done|))
    ensures |ss[i]| > TXT_BUFFER ==> PackStrings(ss, size, off) == StringFailed(BufferTooSmall)
    ensures var p := PackString(ss[i], size, off + |done|);
            |ss[i]| <= TXT_BUFFER ==>
              if p.StringFailed? then PackStrings(ss, size, off) == p
              else
                PackStrings(ss, size, off) == Behind(done + p.out, PackStrings(ss[i + 1..], size, off + |done| + |p.out|))
  {
    hide PackString;
    assert ss[i..][0] == ss[i] && ss[i..][1..] == ss[i + 1..];
    var p := PackString(ss[i], size, off + |done|);
    if p.StringPacked? {
      var rest := PackStrings(ss[i + 1..], size, off + |done| + |p.out|);
      if rest.StringPacked? {
        assert done + (p.out + rest.out) == done + p.out + rest.out;
      }
    }
  }

  method PackTxt(txt: seq<Text>, msg: array<byte>, off: nat) returns (off1: nat, err: Option<StringError>)
    modifies msg
    ensures var p := PackTxtSpec(txt, msg.Length, off);
            && (p.StringPacked? ==> err.None? && off1 == off + |p.out| && Written(msg[..], off, p.out))
            && (p.StringFailed? ==> err == Some(p.error))
    ensures Untouched(old(msg[..]), msg[..], off)
  {
    hide PackString, PackStrings, Written, Untouched;
    NothingWritten(msg[..]);
    PackNoStrings(msg.Length, off);
    off1 := off;
    if |txt| == 0 {
      if off >= msg.Length {
        return off, Some(BufferTooSmall);
      }
      ghost var m := msg[..];
      msg[off] := 0;
      JustWritten(m, msg[..], off, 0);
      NothingWritten(msg[..]);
      return off, None;
    }
    ghost var done: seq<byte> := [];
    PackStringsStart(txt, msg.Length, off);
    for i := 0 to |txt|
      invariant off1 == off + |done| && Written(msg[..], off, done) && Untouched(old(msg[..]), msg[..], off)
      invariant PackStrings(txt, msg.Length, off) == Behind(done, PackStrings(txt[i..], msg.Length, off + |done|))
    {
      PackStringsStep(txt, i, msg.Length, off, done);
      if |txt[i]| > TXT_BUFFER {
        return off1, Some(BufferTooSmall);
      }
      ghost var m, p := msg[..], PackString(txt[i], msg.Length, off1);
      off1, err := PackTxtString(txt[i], msg, off1);
      UntouchedMore(old(msg[..]), m, msg[..], off, off + |done|);
      if err.Some? {
        return off1, err;
      }
      WrittenMore(m, msg[..], off, done, off + |done|, p.out);
      done := done + p.out;
    }
    PackNoStrings(msg.Length, off + |done|);
    assert txt[|txt|..] == [] && done + [] == done;
    err := None;
  }

  lemma PackNoStrings(size: nat, off: nat)
    ensures PackStrings([], size, off) == StringPacked([])
  {
  }

  lemma PackStringsStart(ss: seq<Text>, size: nat, off: nat)
    ensures PackStrings(ss, size, off) == Behind([], PackStrings(ss[0..], size, off))
  {
    assert ss[0..] == ss;
  }

  // ---------------------------------------------------------------- unpacking

  /** The strings between off and end; a string may reach beyond end. */
  datatype StringsRead = StringsRead(strings: seq<Text>, off: nat) | Overflow

  function ReadStrings(m: seq<byte>, off: nat, end: nat): StringsRead
    decreases end - off
  {
    if off >= end then StringsRead([], off)
    else if off + 1 > |m| || off + m[off] + 1 > |m| then Overflow
    else
      match ReadStrings(m, off + 1 + m[off], end)
      case StringsRead(ss, o) => StringsRead([PrintString(m[off + 1..off + 1 + m[off]])] + ss, o)
      case Overflow => Overflow
  }

  method UnpackTxtString(msg: array<byte>, off: nat) returns (s: Text, off1: nat, overflow: bool)
    ensures overflow <==> off + 1 > msg.Length || off + msg[off] + 1 > msg.Length
    ensures !overflow ==> off1 == off + 1 + msg[off] && s == PrintString(msg[off + 1..off1])
    ensures overflow ==> s == [] && off1 == off
  {
    hide PrintString;
    if off + 1 > msg.Length {
      return [], off, true;
    }
    var l: nat := msg[off];
    if off + l + 1 > msg.Length {
      return [], off, true;
    }
    s := [];
    var j := off + 1;
    NothingPrinted();
    ghost var all := PrintString(msg[off + 1..off + 1 + l]);
    while j < off + 1 + l
      invariant off + 1 <= j <= off + 1 + l
      invariant all == s + PrintString(msg[j..off + 1 + l])
    {
      assert msg[j..off + 1 + l] == [msg[j]] + msg[j + 1..off + 1 + l];
      PrintStringStep(s, msg[j], msg[j + 1..off + 1 + l]);
      s := AppendTxtByte(s, msg[j]);
      j := j + 1;
    }
    assert msg[j..off + 1 + l] == [] && s + [] == s;
    return s, off + 1 + l, false;
  }

  lemma NothingPrinted()
    ensures PrintString([]) == []
  {
  }

  lemma PrintStringStep(s: Text, b: byte, rest: seq<byte>)
    ensures s + PrintString([b] + rest) == s + EscapeTxt(b) + PrintString(rest)
  {
    hide EscapeTxt;
    assert ([b] + rest)[1..] == rest;
  }

  method AppendTxtByte(s: Text, b: byte) returns (r: Text)
    ensures r == s + EscapeTxt(b)
  {
    if b == 34 || b == BACKSLASH {
      r := s + [BACKSLASH, b];
    } else if b == TAB {
      r := s + [BACKSLASH, 116];
    } else if b == RETURN {
      r := s + [BACKSLASH, 114];
    } else if b == NEWLINE {
      r := s + [BACKSLASH, 110];
    } else if b < 32 || b > 127 {
      r := s + [BACKSLASH, 48 + b / 100, 48 + b / 10 % 10, 48 + b % 10];
    } else {
      r := s + [b];
    }
  }

  method UnpackTxt(msg: array<byte>, off: nat, end: nat) returns (ss: seq<Text>, off1: nat, overflow: bool)
    ensures match ReadStrings(msg[..], off, end)
            case StringsRead(all, o) => !overflow && ss == all && off1 == o
            case Overflow => overflow
  {
    hide PrintString;
    ss, off1, overflow := [], off, false;
    ghost var m := msg[..];
    while off1 < end
      invariant !overflow
      invariant ReadStrings(m, off, end) == Ahead(ss, ReadStrings(m, off1, end))
      decreases end - off1
    {
      var s, next;
      s, next, overflow := UnpackTxtString(msg, off1);
      if overflow {
        return;
      }
      assert msg[off1 + 1..next] == m[off1 + 1..next];
      AheadTwice(ss, s, ReadStrings(m, next, end));
      ss := ss + [s];
      off1 := next;
    }
  }

  function Ahead(ss: seq<Text>, r: StringsRead): StringsRead {
    if r.StringsRead? then StringsRead(ss + r.strings, r.off) else r
  }

  lemma AheadTwice(ss: seq<Text>, s: Text, r: StringsRead)
    ensures Ahead(ss, Ahead([s], r)) == Ahead(ss + [s], r)
    ensures r.StringsRead? && ss == [] ==> Ahead(ss, r) == r
  {
    if r.StringsRead? {
      assert ss + ([s] + r.strings) == ss + [s] + r.strings;
    }
  }

  // ---------------------------------------------------------------- there and back

  /** A string as it is unpacked, short enough to be packed. */
  ghost predicate CanonicalString(t: Text) {
    exists bytes: seq<byte> :: |bytes| <= 255 && t == PrintString(bytes)
  }

  ghost predicate CanonicalStrings(ss: seq<Text>) {
    forall i :: 0 <= i < |ss| ==> CanonicalString(ss[i])
  }

  /** The room that strings take on the wire. */
  function StringsSize(ss: seq<Text>): nat {
    if ss == [] then 0 else 1 + |ss[0]| + StringsSize(ss[1..])
  }

  lemma PackCanonical(t: Text, size: nat, off: nat)
    requires CanonicalString(t) && off + 1 + |t| <= size
    ensures var p := PackString(t, size, off);
            && |StringBytes(t)| <= 255
            && p.StringPacked? && p.out == WireLabel(StringBytes(t)) && |p.out| <= 1 + |t|
            && PrintString(StringBytes(t)) == t && |t| <= TXT_BUFFER
  {
    var bytes: seq<byte> :| |bytes| <= 255 && t == PrintString(bytes);
    StringRoundTrip(bytes);
  }

  function StringsWire(ss: seq<Text>): seq<byte>
    requires forall i :: 0 <= i < |ss| ==> |StringBytes(ss[i])| <= 255
  {
    if ss == [] then [] else WireLabel(StringBytes(ss[0])) + StringsWire(ss[1..])
  }

  /** The room that the bytes of the strings take. */
  function StringsWireSize(ss: seq<Text>): nat {
    if ss == [] then 0 else 1 + |StringBytes(ss[0])| + StringsWireSize(ss[1..])
  }

  lemma {:induction false} WireSizeIsLength(ss: seq<Text>)
    requires forall i :: 0 <= i < |ss| ==> |StringBytes(ss[i])| <= 255
    ensures |StringsWire(ss)| == StringsWireSize(ss)
  {
    hide StringBytes;
    if ss != [] {
      WireSizeIsLength(ss[1..]);
    }
  }

  lemma CanonicalBytes(ss: seq<Text>)
    requires CanonicalStrings(ss)
    ensures forall i :: 0 <= i < |ss| ==> |StringBytes(ss[i])| <= 255
  {
    forall i | 0 <= i < |ss| ensures |StringBytes(ss[i])| <= 255 {
      assert CanonicalString(ss[i]);
      PackCanonical(ss[i], 1 + |ss[i]|, 0);
    }
  }

  /** Canonical strings fit into the room that is counted for them. */
  lemma {:induction false} PackCanonicals(ss: seq<Text>, size: nat, off: nat)
    requires CanonicalStrings(ss) && off + StringsSize(ss) <= size
    ensures forall i :: 0 <= i < |ss| ==> |StringBytes(ss[i])| <= 255
    ensures PackStrings(ss, size, off) == StringPacked(StringsWire(ss)) && |StringsWire(ss)| <= StringsSize(ss)
    decreases |ss|
  {
    hide PackString, PrintString, StringBytes, CanonicalString;
    CanonicalBytes(ss);
    if ss != [] {
      PackCanonical(ss[0], size, off);
      PackCanonicals(ss[1..], size, off + 1 + |StringBytes(ss[0])|);
    }
  }

  /** Strings are read back from the wire. */
  lemma {:induction false} ReadCanonicals(ss: seq<Text>, m: seq<byte>, off: nat)
    requires CanonicalStrings(ss)
    requires forall i :: 0 <= i < |ss| ==> |StringBytes(ss[i])| <= 255
    requires Written(m, off, StringsWire(ss))
    ensures ReadStrings(m, off, off + |StringsWire(ss)|) == StringsRead(ss, off + |StringsWire(ss)|)
    decreases |ss|
  {
    hide PackString, PrintString, StringBytes, Written, CanonicalString;
    if ss != [] {
      PackCanonical(ss[0], 1 + |ss[0]|, 0);
      var bytes, rest := StringBytes(ss[0]), StringsWire(ss[1..]);
      ReadFirst(m, off, bytes, rest);
      ReadCanonicals(ss[1..], m, off + 1 + |bytes|);
      hide StringsWire, WireLabel, CanonicalStrings;
      assert [ss[0]] + ss[1..] == ss;
    }
  }

  lemma ReadFirst(m: seq<byte>, off: nat, bytes: seq<byte>, rest: seq<byte>)
    requires |bytes| <= 255 && Written(m, off, WireLabel(bytes) + rest)
    ensures off + 1 + |bytes| <= |m| && m[off] == |bytes| && m[off + 1..off + 1 + |bytes|] == bytes
    ensures Written(m, off + 1 + |bytes|, rest)
  {
    WrittenParts(m, off, WireLabel(bytes), rest);
    WrittenSlice(m, off, WireLabel(bytes));
    var w := m[off..off + 1 + |bytes|];
    assert m[off] == w[0] && m[off + 1..off + 1 + |bytes|] == w[1..];
  }
}
