/**
 Packing a domain name (miekg/dns, msg.go): the text is decoded in place while its labels go
 to the message, and a suffix that the message already has becomes a pointer.
 */
module NamePacker {
  import opened Bytes
  import opened DomainNames

  /** IndexOutOfRange stands for the run-time panic of a write past the end of the message. */
  datatype PackError = ErrFqdn | ErrRdata | ErrBuf | IndexOutOfRange

  /** From a text that starts in the message to the offset at which it does. */
  type Suffixes = map<Text, nat>

  const MAX_COMPRESSION_OFFSET := 0x4000

  // ---------------------------------------------------------------- decoding in place

  /** The text under way: the array, and how much of it is still text. */
  datatype Cursor = Cursor(bs: Text, ls: nat)

  predicate Decodable(c: Cursor) {
    1 <= c.ls <= |c.bs| && c.bs[c.ls - 1] == DOT
  }

  /** What begins gap places after position to, up to ls, moved down to position to. */
  function Down(bs: Text, to: nat, gap: nat, ls: nat): (r: Text)
    requires to + gap <= ls <= |bs|
    ensures |r| == |bs| && (to + gap < ls ==> r[ls - gap - 1] == bs[ls - 1])
    ensures r[..to] == bs[..to] && r[to..ls - gap] == bs[to + gap..ls] && r[ls - gap..] == bs[ls - gap..]
  {
    bs[..to] + bs[to + gap..ls] + bs[ls - gap..]
  }

  /** The array after the token at i has been decoded: what follows moves down, its end stays behind. */
  function Shift(c: Cursor, i: nat): (r: Cursor)
    requires Decodable(c) && i < c.ls
    ensures |r.bs| == |c.bs| && Decodable(r) && i < r.ls <= c.ls
  {
    if c.bs[i] != BACKSLASH then c else Unescape(Cursor(Down(c.bs, i, 1, c.ls), c.ls - 1), i)
  }

  /** The array after the backslash at i has gone. */
  function Unescape(c: Cursor, i: nat): (r: Cursor)
    requires Decodable(c) && i < c.ls
    ensures |r.bs| == |c.bs| && Decodable(r) && i < r.ls <= c.ls
  {
    if i + 2 < c.ls && IsDigit(c.bs[i]) && IsDigit(c.bs[i + 1]) && IsDigit(c.bs[i + 2]) then
      Cursor(Down(c.bs[i := Ddd(c.bs[i], c.bs[i + 1], c.bs[i + 2])], i + 1, 2, c.ls), c.ls - 2)
    else
      Cursor(c.bs[i := Control(c.bs[i])], c.ls)
  }

  /** The array after k tokens. */
  function Decoded(s: Text, k: nat): (r: Cursor)
    requires s != [] && s[|s| - 1] == DOT
    ensures |r.bs| == |s| && Decodable(r)
  {
    if k == 0 then Cursor(s, |s|)
    else
      var c := Decoded(s, k - 1);
      if k - 1 < c.ls then Shift(c, k - 1) else c
  }

  /** One step in place reads one token of what is left of the text. */
  lemma ShiftReads(c: Cursor, i: nat)
    requires Decodable(c) && i < c.ls
    ensures var t, r := c.bs[i..c.ls], Shift(c, i);
            && r.bs[..i] == c.bs[..i]
            && r.bs[i] == First(t).b
            && r.bs[i + 1..r.ls] == t[FirstSize(t)..]
  {
    hide Down, Unescape, First, FirstSize;
    var t := c.bs[i..c.ls];
    if c.bs[i] == BACKSLASH {
      var d := Cursor(Down(c.bs, i, 1, c.ls), c.ls - 1);
      assert t[|t| - 1] == DOT;
      assert d.bs[i..d.ls] == t[1..];
      UnescapeReads(d, i, t);
    } else {
      FirstUnescaped(c, i);
      assert t[1..] == c.bs[i + 1..c.ls];
    }
  }

  lemma FirstUnescaped(c: Cursor, i: nat)
    requires Decodable(c) && i < c.ls && c.bs[i] != BACKSLASH
    ensures First(c.bs[i..c.ls]).b == c.bs[i] && FirstSize(c.bs[i..c.ls]) == 1
  {
  }

  lemma UnescapeReads(c: Cursor, i: nat, t: Text)
    requires Decodable(c) && i < c.ls && |t| > 1 && t[0] == BACKSLASH && c.bs[i..c.ls] == t[1..]
    ensures var r := Unescape(c, i);
            && r.bs[..i] == c.bs[..i]
            && r.bs[i] == First(t).b
            && r.bs[i + 1..r.ls] == t[FirstSize(t)..]
  {
    hide Down, Ddd, Control;
    assert t[1] == c.bs[i];
    assert t[2..] == c.bs[i + 1..c.ls];
    if i + 2 < c.ls {
      assert t[2] == c.bs[i + 1] && t[3] == c.bs[i + 2];
      assert t[4..] == c.bs[i + 3..c.ls];
    }
  }

  function TokenBytes(ts: seq<Token>): (r: seq<byte>)
    ensures |r| == |ts|
  {
    seq(|ts|, i requires 0 <= i < |ts| => ts[i].b)
  }

  /** After k steps the array holds k decoded bytes, and then the text of the other tokens. */
  lemma {:induction false} DecodedReads(s: Text, k: nat)
    requires s != [] && s[|s| - 1] == DOT && k <= |Tokens(s)|
    ensures var c := Decoded(s, k);
            && k <= c.ls
            && c.bs[..k] == TokenBytes(Tokens(s)[..k])
            && Tokens(c.bs[k..c.ls]) == Tokens(s)[k..]
  {
    hide Shift, Tokens;
    if k == 0 {
      assert s[0..|s|] == s;
    } else {
      DecodedReads(s, k - 1);
      StepReads(Decoded(s, k - 1), k - 1, Tokens(s));
    }
  }

  lemma StepReads(c: Cursor, i: nat, ts: seq<Token>)
    requires Decodable(c) && i < |ts| && i <= c.ls
    requires c.bs[..i] == TokenBytes(ts[..i]) && Tokens(c.bs[i..c.ls]) == ts[i..]
    ensures i < c.ls
    ensures var r := Shift(c, i);
            i + 1 <= r.ls && r.bs[..i + 1] == TokenBytes(ts[..i + 1]) && Tokens(r.bs[i + 1..r.ls]) == ts[i + 1..]
  {
    hide Shift, TokenBytes, First, FirstSize;
    ReadOne(c.bs[i..c.ls], ts[i..]);
    ShiftReads(c, i);
    hide *;
    var r := Shift(c, i);
    assert r.bs[..i + 1] == r.bs[..i] + [r.bs[i]];
    TokenBytesSnoc(ts, i);
    assert ts[i..][1..] == ts[i + 1..];
  }

  lemma ReadOne(t: Text, ts: seq<Token>)
    requires Tokens(t) == ts && ts != []
    ensures t != [] && ts[0] == First(t) && ts[1..] == Tokens(t[FirstSize(t)..])
  {
  }

  lemma TokenBytesSnoc(ts: seq<Token>, k: nat)
    requires k < |ts|
    ensures TokenBytes(ts[..k + 1]) == TokenBytes(ts[..k]) + [ts[k].b]
  {
  }

  /** Text without a backslash is its own decoding. */
  lemma {:induction false} PlainDecoded(s: Text, k: nat)
    requires s != [] && s[|s| - 1] == DOT && BACKSLASH !in s
    ensures Decoded(s, k) == Cursor(s, |s|)
  {
    if k > 0 {
      PlainDecoded(s, k - 1);
    }
  }

  method MoveDown(bs: array<byte>, to: nat, gap: nat, ls: nat)
    requires to + gap <= ls <= bs.Length
    modifies bs
    ensures bs[..] == Down(old(bs[..]), to, gap, ls)
  {
    hide Down;
    var j := to;
    while j < ls - gap
      invariant to <= j <= ls - gap
      invariant forall k :: to <= k < j ==> bs[k] == old(bs[k + gap])
      invariant forall k :: 0 <= k < to || j <= k < bs.Length ==> bs[k] == old(bs[k])
    {
      bs[j] := bs[j + gap];
      j := j + 1;
    }
    IsDown(old(bs[..]), bs[..], to, gap, ls);
  }

  lemma IsDown(was: Text, bs: Text, to: nat, gap: nat, ls: nat)
    requires to + gap <= ls <= |was| == |bs|
    requires forall k :: to <= k < ls - gap ==> bs[k] == was[k + gap]
    requires forall k :: 0 <= k < to || ls - gap <= k < |bs| ==> bs[k] == was[k]
    ensures bs == Down(was, to, gap, ls)
  {
  }

  /** Decodes the escape sequence at i. */
  method DecodeEscape(bs: array<byte>, i: nat, ls: nat) returns (ls1: nat)
    requires Decodable(Cursor(bs[..], ls)) && i < ls && bs[i] == BACKSLASH
    modifies bs
    ensures Cursor(bs[..], ls1) == Shift(Cursor(old(bs[..]), ls), i)
  {
    hide Down, Ddd, Control;
    MoveDown(bs, i, 1, ls);
    ls1 := ls - 1;
    ghost var b1 := bs[..];
    if i + 2 < ls1 && IsDigit(bs[i]) && IsDigit(bs[i + 1]) && IsDigit(bs[i + 2]) {
      bs[i] := Ddd(bs[i], bs[i + 1], bs[i + 2]);
      assert bs[..] == b1[i := Ddd(b1[i], b1[i + 1], b1[i + 2])];
      MoveDown(bs, i + 1, 2, ls1);
      ls1 := ls1 - 2;
    } else {
      bs[i] := Control(bs[i]);
      assert bs[..] == b1[i := Control(b1[i])];
    }
  }

  // ---------------------------------------------------------------- what packing comes to

  /** The position of the dot that ends the label that begins at begin. */
  function NextDot(ts: seq<Token>, begin: nat): (d: nat)
    requires begin <= |ts|
    ensures begin <= d <= |ts|
    decreases |ts| - begin
  {
    if begin == |ts| || IsEnd(ts[begin]) then begin else NextDot(ts, begin + 1)
  }

  predicate HasEscape(ts: seq<Token>) {
    exists i :: 0 <= i < |ts| && ts[i].escaped
  }

  /** The bytes that go to the message, the suffixes known after that, and the labels counted. */
  datatype Packed = Packed(out: seq<byte>, known: Suffixes, labels: nat)
                  | Failed(error: PackError, known: Suffixes, labels: nat)
  {
    /** What this is when bytes and labels have gone before. */
    function After(before: seq<byte>, n: nat): Packed {
      match this
      case Packed(o, k, l) => Packed(before + o, k, l + n)
      case Failed(e, k, l) => Failed(e, k, l + n)
    }
  }

  /** The two bytes of a pointer; the exclusive or with 0xC000 flips the top two bits. */
  function Pointer(p: nat): (r: seq<byte>)
    ensures |r| == 2
  {
    BigEndian(p % 0x4000 + 0x4000 * (3 - p / 0x4000 % 4), 2)
  }

  /** The key for the suffix that begins at begin, when the dot at d has been reached: all of the array. */
  function Key(s: Text, begin: nat, d: nat): Text
    requires s != [] && s[|s| - 1] == DOT && begin <= |s|
  {
    Decoded(s, d).bs[begin..]
  }

  /** Whether the dot at d ends the packing: the label is refused, does not fit, or begins a known suffix. */
  function Settled(key: Text, begin: nat, d: nat, size: nat, off: nat, known: Suffixes, compress: bool): Option<Packed>
    requires begin <= d
  {
    if 0 < begin == d || d - begin >= MAX_LABEL then Some(Failed(ErrRdata, known, 0))
    else if off + 1 + d - begin > size then Some(Failed(ErrBuf, known, 0))
    else if compress && key != [DOT] && key in known then
      Some(Pointed(size, off, known[key], known))
    else None
  }

  /** The root label ends a name, except that the root alone has written it already. */
  function Ended(s: Text, size: nat, off: nat, known: Suffixes): Packed {
    if |s| == 1 then Packed([], known, 0)
    else if off >= size then Failed(IndexOutOfRange, known, 0)
    else Packed([0], known, 0)
  }

  function Pointed(size: nat, off: nat, p: nat, known: Suffixes): Packed {
    if off + 1 >= size then Failed(IndexOutOfRange, known, 0) else Packed(Pointer(p), known, 0)
  }

  /** The suffixes known after a label has been written out. */
  function Learned(key: Text, off: nat, known: Suffixes, compress: bool): Suffixes {
    if compress && key != [DOT] && off < MAX_COMPRESSION_OFFSET then known[key := off] else known
  }

  /** What remains to be done for the tokens from begin on, with off the next place in a message of size bytes. */
  function PackFrom(s: Text, begin: nat, size: nat, off: nat, known: Suffixes, compress: bool): Packed
    requires s != [] && s[|s| - 1] == DOT && begin <= |Tokens(s)|
    decreases |Tokens(s)| - begin
  {
    var ts := Tokens(s);
    var d := NextDot(ts, begin);
    if HasEscape(ts[begin..d]) && off >= size then Failed(ErrBuf, known, 0)
    else if d == |ts| then Ended(s, size, off, known)
    else
      var key := Key(s, begin, d);
      var settled := Settled(key, begin, d, size, off, known, compress);
      if settled.Some? then settled.value
      else
        PackFrom(s, d + 1, size, off + 1 + d - begin, Learned(key, off, known, compress), compress)
          .After(WireLabel(TokenBytes(ts[begin..d])), 1)
  }

  /** All of PackDomainName, for a message of size bytes. */
  function Pack(s: Text, size: nat, off: nat, known: Suffixes, compress: bool): Packed {
    if s == [] then Packed([], known, 0)
    else if s[|s| - 1] != DOT then Failed(ErrFqdn, known, 0)
    else PackFrom(s, 0, size, off, known, compress)
  }

  /** Packing that succeeds stays within the message. */
  lemma {:induction false} PackFromFits(s: Text, begin: nat, size: nat, off: nat, known: Suffixes, compress: bool)
    requires s != [] && s[|s| - 1] == DOT && begin <= |Tokens(s)| && off <= size
    requires PackFrom(s, begin, size, off, known, compress).Packed?
    ensures off + |PackFrom(s, begin, size, off, known, compress).out| <= size
    decreases |Tokens(s)| - begin
  {
    hide Tokens, Key, Pointer, Learned;
    var d := NextDot(Tokens(s), begin);
    if d < |Tokens(s)| {
      var key := Key(s, begin, d);
      if Settled(key, begin, d, size, off, known, compress).None? {
        PackFromFits(s, d + 1, size, off + 1 + d - begin, Learned(key, off, known, compress), compress);
      }
    }
  }

  lemma PackFits(s: Text, size: nat, off: nat, known: Suffixes, compress: bool)
    requires off <= size && Pack(s, size, off, known, compress).Packed?
    ensures off + |Pack(s, size, off, known, compress).out| <= size
  {
    hide PackFrom;
    if s != [] {
      PackFromFits(s, 0, size, off, known, compress);
    }
  }

  // ---------------------------------------------------------------- packing

  /** What a call of PackDomainName is given; size is the length of the message. */
  datatype Call = Call(s: Text, size: nat, off0: nat, known0: Suffixes, compress: bool) {
    ghost predicate Proper() {
      s != [] && s[|s| - 1] == DOT
    }

    ghost function Result(): Packed
      requires Proper()
    {
      PackFrom(s, 0, size, off0, known0, compress)
    }
  }

  /**
   Half way through: i tokens have been decoded, the label under way began at begin, and the
   labels before it are the bytes sent, which took the place in the message to off.
   */
  ghost predicate Midway(c: Call, i: nat, begin: nat, off: nat, known: Suffixes, sent: seq<byte>, labels: nat) {
    && c.Proper()
    && begin <= i <= |Tokens(c.s)|
    && NextDot(Tokens(c.s), begin) >= i
    && (begin > 0 ==> IsEnd(Tokens(c.s)[begin - 1]))
    && (HasEscape(Tokens(c.s)[begin..i]) ==> off < c.size)
    && c.Result() == PackFrom(c.s, begin, c.size, off, known, c.compress).After(sent, labels)
    && off == c.off0 + |sent|
  }

  lemma AtStart(c: Call)
    requires c.Proper()
    ensures Midway(c, 0, 0, c.off0, c.known0, [], 0)
    ensures Cursor(c.s, |c.s|) == Decoded(c.s, 0)
  {
    var p := c.Result();
    if p.Packed? {
      assert [] + p.out == p.out;
    }
  }

  lemma NotADot(c: Call, i: nat, begin: nat, off: nat, known: Suffixes, sent: seq<byte>, labels: nat)
    requires Midway(c, i, begin, off, known, sent, labels)
    requires i < |Tokens(c.s)| && !IsEnd(Tokens(c.s)[i]) && (Tokens(c.s)[i].escaped ==> off < c.size)
    ensures Midway(c, i + 1, begin, off, known, sent, labels)
  {
    hide PackFrom, Tokens;
    var ts := Tokens(c.s);
    NextDotAfter(ts, begin, i);
    assert ts[begin..i + 1] == ts[begin..i] + [ts[i]];
  }

  lemma {:induction false} NextDotAfter(ts: seq<Token>, begin: nat, i: nat)
    requires begin <= |ts| && begin <= i <= NextDot(ts, begin)
    ensures NextDot(ts, begin) == NextDot(ts, i)
    decreases i - begin
  {
    if begin < i {
      NextDotAfter(ts, begin + 1, i);
    }
  }

  /** At a dot the packing is settled, or the label is done. */
  lemma AtDot(c: Call, i: nat, begin: nat, off: nat, known: Suffixes, sent: seq<byte>, labels: nat)
    requires Midway(c, i, begin, off, known, sent, labels)
    requires i < |Tokens(c.s)| && IsEnd(Tokens(c.s)[i])
    ensures
      var key := Key(c.s, begin, i);
      var settled := Settled(key, begin, i, c.size, off, known, c.compress);
      if settled.Some? then c.Result() == settled.value.After(sent, labels)
      else
        && i - begin < MAX_LABEL
        && Midway(c, i + 1, i + 1, off + 1 + i - begin, Learned(key, off, known, c.compress),
                  sent + WireLabel(TokenBytes(Tokens(c.s)[begin..i])), labels + 1)
  {
    hide Tokens, PackFrom, Packed.After, Key, Learned, WireLabel, TokenBytes;
    var ts := Tokens(c.s);
    NextDotAfter(ts, begin, i);
    assert NextDot(ts, begin) == i;
    PackAtDot(c.s, i, begin, c.size, off, known, c.compress);
    assert !HasEscape(ts[i + 1..i + 1]);
    hide NextDot, HasEscape;
    var key := Key(c.s, begin, i);
    if Settled(key, begin, i, c.size, off, known, c.compress).None? {
      var rest := PackFrom(c.s, i + 1, c.size, off + 1 + i - begin, Learned(key, off, known, c.compress), c.compress);
      AfterTwice(rest, WireLabel(TokenBytes(ts[begin..i])), 1, sent, labels);
    }
  }

  lemma PackAtDot(s: Text, i: nat, begin: nat, size: nat, off: nat, known: Suffixes, compress: bool)
    requires s != [] && s[|s| - 1] == DOT
    requires begin <= i < |Tokens(s)| && NextDot(Tokens(s), begin) == i
    requires HasEscape(Tokens(s)[begin..i]) ==> off < size
    ensures
      var key := Key(s, begin, i);
      var settled := Settled(key, begin, i, size, off, known, compress);
      PackFrom(s, begin, size, off, known, compress) ==
        if settled.Some? then settled.value
        else
          PackFrom(s, i + 1, size, off + 1 + i - begin, Learned(key, off, known, compress), compress)
            .After(WireLabel(TokenBytes(Tokens(s)[begin..i])), 1)
  {
    hide Tokens, NextDot, HasEscape, Key, Settled, Learned, WireLabel, TokenBytes, Packed.After;
  }

  lemma AfterTwice(p: Packed, a: seq<byte>, m: nat, b: seq<byte>, n: nat)
    ensures p.After(a, m).After(b, n) == p.After(b + a, n + m)
  {
    if p.Packed? {
      assert b + (a + p.out) == b + a + p.out;
    }
  }

  /** After the last token. */
  lemma AtEnd(c: Call, begin: nat, off: nat, known: Suffixes, sent: seq<byte>, labels: nat)
    requires c.Proper() && Midway(c, |Tokens(c.s)|, begin, off, known, sent, labels)
    ensures c.Result() == Ended(c.s, c.size, off, known).After(sent, labels) && off == c.off0 + |sent|
  {
    assert NextDot(Tokens(c.s), begin) == |Tokens(c.s)|;
  }

  /** The dot check of the source sees whether the label is empty. */
  lemma DoubleDot(c: Call, i: nat, begin: nat, off: nat, known: Suffixes, sent: seq<byte>, labels: nat,
                  bs: Text, escapedDot: bool)
    requires Midway(c, i, begin, off, known, sent, labels)
    requires i <= |bs| && bs[..i] == TokenBytes(Tokens(c.s)[..i])
    requires escapedDot == (i > 0 && Tokens(c.s)[i - 1] == Token(DOT, true))
    ensures (i > 0 && bs[i - 1] == DOT && !escapedDot) <==> 0 < begin == i
    ensures bs[begin..i] == TokenBytes(Tokens(c.s)[begin..i])
  {
    hide Tokens, PackFrom, HasEscape;
    var ts := Tokens(c.s);
    if i > 0 {
      assert bs[i - 1] == bs[..i][i - 1] == ts[i - 1].b;
      if begin < i {
        NotYet(ts, begin, i - 1);
      }
    }
    assert forall k :: begin <= k < i ==> bs[k] == bs[..i][k] == ts[k].b;
  }

  lemma {:induction false} NotYet(ts: seq<Token>, begin: nat, k: nat)
    requires begin <= k < |ts| && k < NextDot(ts, begin)
    ensures !IsEnd(ts[k])
    decreases k - begin
  {
    if begin < k {
      NotYet(ts, begin + 1, k);
    }
  }

  lemma NoRoomForEscape(c: Call, i: nat, begin: nat, off: nat, known: Suffixes, sent: seq<byte>, labels: nat)
    requires Midway(c, i, begin, off, known, sent, labels)
    requires i < |Tokens(c.s)| && Tokens(c.s)[i].escaped && off >= c.size
    ensures c.Result() == Failed(ErrBuf, known, labels)
  {
    hide Tokens;
    var ts := Tokens(c.s);
    NextDotAfter(ts, begin, i);
    var d := NextDot(ts, begin);
    assert ts[begin..d][i - begin].escaped;
  }

  ghost predicate Written(m: seq<byte>, off: nat, out: seq<byte>) {
    out == [] || (off + |out| <= |m| && m[off..off + |out|] == out)
  }

  ghost predicate Untouched(was: seq<byte>, m: seq<byte>, off: nat) {
    |m| == |was| && forall k :: 0 <= k < off && k < |m| ==> m[k] == was[k]
  }

  /** Puts the label in bs from begin up to i at off, if it fits. */
  method WriteLabel(msg: array<byte>, off: nat, bs: array<byte>, begin: nat, i: nat) returns (off1: nat, fits: bool)
    requires msg != bs && begin <= i <= bs.Length && i - begin < MAX_LABEL
    modifies msg
    ensures fits <==> off + 1 + i - begin <= msg.Length
    ensures fits ==> off1 == off + 1 + i - begin && Written(msg[..], off, WireLabel(bs[begin..i]))
    ensures Untouched(old(msg[..]), msg[..], off)
  {
    off1 := off;
    if off1 + 1 > msg.Length {
      return off1, false;
    }
    msg[off1] := i - begin;
    off1 := off1 + 1;
    var j := begin;
    while j < i
      invariant begin <= j <= i && off1 == off + 1 + j - begin <= msg.Length
      invariant msg[off] == i - begin
      invariant forall k :: begin <= k < j ==> msg[off + 1 + k - begin] == bs[k]
      invariant forall k :: 0 <= k < off ==> msg[k] == old(msg[k])
    {
      if off1 + 1 > msg.Length {
        return off1, false;
      }
      msg[off1] := bs[j];
      off1 := off1 + 1;
      j := j + 1;
    }
    assert forall k {:trigger WireLabel(bs[begin..i])[k]} :: 1 <= k < off1 - off ==> msg[off + k] == bs[begin + k - 1];
    return off1, true;
  }

  /** What the array shows at position i. */
  lemma AtPosition(s: Text, i: nat, c: Cursor)
    requires s != [] && s[|s| - 1] == DOT && i <= |Tokens(s)| && c == Decoded(s, i)
    ensures var ts := Tokens(s);
            && i <= c.ls
            && (i == c.ls <==> i == |ts|)
            && Decodable(c) && |c.bs| == |s|
            && c.bs[..i] == TokenBytes(ts[..i])
            && (i < c.ls ==>
                  && Decoded(s, i + 1) == Shift(c, i)
                  && ts[i].b == Shift(c, i).bs[i]
                  && (IsEnd(ts[i]) <==> c.bs[i] == DOT)
                  && (ts[i].escaped <==> c.bs[i] == BACKSLASH)
                  && (!ts[i].escaped ==> Shift(c, i) == c))
  {
    hide Shift, TokenBytes, First, FirstSize;
    DecodedReads(s, i);
    if i < c.ls {
      var t := c.bs[i..c.ls];
      assert t[0] == c.bs[i] && t[|t| - 1] == DOT;
      assert Decoded(s, i + 1) == Shift(c, i);
      hide Tokens, Decoded;
      ShiftReads(c, i);
      ReadOne(t, Tokens(s)[i..]);
      FirstEscaped(t);
      ShiftPlain(c, i);
    }
  }

  lemma FirstEscaped(t: Text)
    requires t != [] && t[|t| - 1] == DOT
    ensures First(t).escaped <==> t[0] == BACKSLASH
  {
  }

  lemma ShiftPlain(c: Cursor, i: nat)
    requires Decodable(c) && i < c.ls
    ensures c.bs[i] != BACKSLASH ==> Shift(c, i) == c
  {
  }

  /** The branch for a dot at i: a pointer is found, or the label is written and its suffix learnt. */
  method EndLabel(msg: array<byte>, off: nat, bs: array<byte>, begin: nat, i: nat, escapedDot: bool,
                  compression: Suffixes, compress: bool)
      returns (off1: nat, known: Suffixes, pointer: Option<nat>, err: Option<PackError>)
    requires msg != bs && begin <= i < bs.Length
    requires (i > 0 && bs[i - 1] == DOT && !escapedDot) <==> 0 < begin == i
    modifies msg
    ensures var settled := Settled(bs[begin..], begin, i, msg.Length, off, compression, compress);
            && (settled == None <==> err.None? && pointer.None?)
            && (settled == None ==>
                  && off1 == off + 1 + i - begin && known == Learned(bs[begin..], off, compression, compress)
                  && i - begin < MAX_LABEL && Written(msg[..], off, WireLabel(bs[begin..i])))
            && (err.Some? ==> settled == Some(Failed(err.value, known, 0)))
            && (pointer.Some? ==> err.None? && bs[begin..] != [DOT] && settled == Some(Pointed(msg.Length, off, pointer.value, known)))
    ensures Untouched(old(msg[..]), msg[..], off)
  {
    hide Written, WireLabel;
    off1, known, pointer, err := off, compression, None, None;
    if i > 0 && bs[i - 1] == DOT && !escapedDot {
      return off1, known, None, Some(ErrRdata);
    }
    if i - begin >= MAX_LABEL {
      return off1, known, None, Some(ErrRdata);
    }
    var fits;
    off1, fits := WriteLabel(msg, off, bs, begin, i);
    if !fits {
      return off1, known, None, Some(ErrBuf);
    }
    var key := bs[begin..];
    if compress && key != [DOT] {
      if key !in known {
        if off < MAX_COMPRESSION_OFFSET {
          known := known[key := off];
        }
      } else {
        pointer := Some(known[key]);
      }
    }
  }

  lemma WrittenMore(m0: seq<byte>, m1: seq<byte>, off0: nat, sent: seq<byte>, off: nat, out: seq<byte>)
    requires Written(m0, off0, sent) && off == off0 + |sent| && Untouched(m0, m1, off) && Written(m1, off, out)
    ensures Written(m1, off0, sent + out)
  {
    forall k | 0 <= k < |sent + out| ensures off0 + k < |m1| && m1[off0 + k] == (sent + out)[k] {
      if k >= |sent| {
        assert m1[off + (k - |sent|)] == out[k - |sent|];
      } else {
        assert m0[off0 + k] == sent[k];
      }
    }
  }

  lemma WrittenStill(m0: seq<byte>, m1: seq<byte>, off0: nat, sent: seq<byte>, off: nat)
    requires Written(m0, off0, sent) && off == off0 + |sent| && Untouched(m0, m1, off)
    ensures Written(m1, off0, sent)
  {
  }

  lemma UntouchedMore(m0: seq<byte>, m1: seq<byte>, m2: seq<byte>, off0: nat, off: nat)
    requires Untouched(m0, m1, off0) && Untouched(m1, m2, off) && off0 <= off
    ensures Untouched(m0, m2, off0)
  {
  }

  lemma WrittenSlice(m: seq<byte>, off: nat, out: seq<byte>)
    requires Written(m, off, out) && out != []
    ensures off + |out| <= |m| && m[off..off + |out|] == out
  {
  }

  lemma SliceWritten(m: seq<byte>, off: nat, out: seq<byte>)
    requires off + |out| <= |m| && m[off..off + |out|] == out
    ensures Written(m, off, out)
  {
  }

  lemma WrittenParts(m: seq<byte>, off: nat, a: seq<byte>, b: seq<byte>)
    requires Written(m, off, a + b)
    ensures Written(m, off, a) && Written(m, off + |a|, b)
  {
    forall k | 0 <= k < |a| ensures off + k < |m| && m[off + k] == a[k] {
      assert (a + b)[k] == a[k];
    }
    forall k | 0 <= k < |b| ensures off + |a| + k < |m| && m[off + |a| + k] == b[k] {
      assert (a + b)[|a| + k] == b[k];
    }
  }

  lemma NothingWritten(m: seq<byte>)
    ensures forall off :: Written(m, off, []) && Untouched(m, m, off)
  {
  }

  /** The two bytes of a pointer go to the place where the name that is cut short begins. */
  method WritePointer(msg: array<byte>, nameOffset: nat, pointer: nat) returns (fits: bool)
    modifies msg
    ensures fits <==> nameOffset + 1 < msg.Length
    ensures fits ==> Written(msg[..], nameOffset, Pointer(pointer))
    ensures Untouched(old(msg[..]), msg[..], nameOffset)
  {
    if nameOffset + 1 >= msg.Length {
      return false;
    }
    var two := Pointer(pointer);
    msg[nameOffset], msg[nameOffset + 1] := two[0], two[1];
    return true;
  }

  /** The state of the loop before position i: the array and its text, and how far the call has come. */
  ghost predicate At(c: Call, i: nat, bs: Text, ls: nat, escapedDot: bool,
                     begin: nat, off: nat, known: Suffixes, sent: seq<byte>, labels: nat)
  {
    && Midway(c, i, begin, off, known, sent, labels)
    && Cursor(bs, ls) == Decoded(c.s, i)
    && escapedDot == (i > 0 && Tokens(c.s)[i - 1] == Token(DOT, true))
  }

  lemma AtFirst(c: Call)
    requires c.s != [] && c.s[|c.s| - 1] == DOT
    ensures c.Proper() && At(c, 0, c.s, |c.s|, false, 0, c.off0, c.known0, [], 0)
  {
    AtStart(c);
  }

  lemma AtFacts(c: Call, i: nat, bs: Text, ls: nat, escapedDot: bool,
                begin: nat, off: nat, known: Suffixes, sent: seq<byte>, labels: nat)
    requires At(c, i, bs, ls, escapedDot, begin, off, known, sent, labels)
    ensures begin <= i <= ls <= |bs| == |c.s| && off == c.off0 + |sent| && Decodable(Cursor(bs, ls))
    ensures i < ls && bs[i] == BACKSLASH && off >= c.size ==> c.Result() == Failed(ErrBuf, known, labels)
    ensures i < ls && bs[i] == DOT ==> ((i > 0 && bs[i - 1] == DOT && !escapedDot) <==> 0 < begin == i)
    ensures i == ls ==> c.Result() == Ended(c.s, c.size, off, known).After(sent, labels)
  {
    hide Midway, Decoded, Tokens, Call.Result;
    MidwayFacts(c, i, begin, off, known, sent, labels);
    AtPosition(c.s, i, Cursor(bs, ls));
    DoubleDot(c, i, begin, off, known, sent, labels, bs, escapedDot);
    if i == ls {
      AtEnd(c, begin, off, known, sent, labels);
    } else if bs[i] == BACKSLASH && off >= c.size {
      NoRoomForEscape(c, i, begin, off, known, sent, labels);
    }
  }

  lemma MidwayFacts(c: Call, i: nat, begin: nat, off: nat, known: Suffixes, sent: seq<byte>, labels: nat)
    requires Midway(c, i, begin, off, known, sent, labels)
    ensures c.Proper() && begin <= i <= |Tokens(c.s)| && off == c.off0 + |sent|
  {
  }

  /** A byte that is no dot joins the label, once it has been decoded. */
  lemma AtOther(c: Call, i: nat, bs: Text, ls: nat, escapedDot: bool,
                begin: nat, off: nat, known: Suffixes, sent: seq<byte>, labels: nat)
    requires At(c, i, bs, ls, escapedDot, begin, off, known, sent, labels)
    requires i < ls <= |bs| && Decodable(Cursor(bs, ls)) && (if bs[i] == BACKSLASH then off < c.size else bs[i] != DOT)
    ensures var r := Shift(Cursor(bs, ls), i);
            At(c, i + 1, r.bs, r.ls, bs[i] == BACKSLASH && r.bs[i] == DOT, begin, off, known, sent, labels)
    ensures bs[i] != BACKSLASH ==> Shift(Cursor(bs, ls), i) == Cursor(bs, ls)
  {
    hide Midway, Decoded, Tokens, Shift;
    MidwayFacts(c, i, begin, off, known, sent, labels);
    AtPosition(c.s, i, Cursor(bs, ls));
    NotADot(c, i, begin, off, known, sent, labels);
  }

  /** At a dot the call is settled, or the label is done. */
  lemma AtADot(c: Call, i: nat, bs: Text, ls: nat, escapedDot: bool,
               begin: nat, off: nat, known: Suffixes, sent: seq<byte>, labels: nat)
    requires At(c, i, bs, ls, escapedDot, begin, off, known, sent, labels)
    requires begin <= i < ls <= |bs| && bs[i] == DOT
    ensures var settled := Settled(bs[begin..], begin, i, c.size, off, known, c.compress);
            if settled.Some? then c.Result() == settled.value.After(sent, labels)
            else
              && |bs[begin..i]| < MAX_LABEL
              && At(c, i + 1, bs, ls, false, i + 1, off + 1 + i - begin, Learned(bs[begin..], off, known, c.compress),
                    sent + WireLabel(bs[begin..i]), labels + 1)
  {
    hide Midway, Decoded, Tokens, Settled, Learned, Shift, Call.Result, Packed.After, WireLabel, TokenBytes;
    MidwayFacts(c, i, begin, off, known, sent, labels);
    AtPosition(c.s, i, Cursor(bs, ls));
    DoubleDot(c, i, begin, off, known, sent, labels, bs, escapedDot);
    AtDot(c, i, begin, off, known, sent, labels);
    KeyInArray(c.s, begin, i);
  }

  lemma KeyInArray(s: Text, begin: nat, d: nat)
    requires s != [] && s[|s| - 1] == DOT && begin <= |s|
    ensures Key(s, begin, d) == Decoded(s, d).bs[begin..]
  {
  }

  /** Takes the dot at i of a call that is half way through. */
  method TakeDot(ghost c: Call, msg: array<byte>, off: nat, bs: array<byte>, ghost ls: nat, begin: nat, i: nat, escapedDot: bool,
                 compression: Suffixes, compress: bool, ghost sent: seq<byte>, ghost labels: nat)
      returns (off1: nat, known: Suffixes, pointer: Option<nat>, err: Option<PackError>, ghost sent1: seq<byte>)
    requires msg != bs && i < ls <= bs.Length && c.size == msg.Length && c.compress == compress
    requires At(c, i, bs[..], ls, escapedDot, begin, off, compression, sent, labels) && bs[i] == DOT
    requires Written(msg[..], c.off0, sent)
    modifies msg
    ensures Untouched(old(msg[..]), msg[..], c.off0)
    ensures err.Some? ==> c.Result() == Failed(err.value, known, labels)
    ensures err.None? ==> off1 == c.off0 + |sent1| && Written(msg[..], c.off0, sent1)
    ensures err.None? && pointer.Some? ==>
              |c.s| > 1 && c.Result() == Pointed(c.size, off1, pointer.value, known).After(sent1, labels)
    ensures err.None? && pointer.None? ==> At(c, i + 1, bs[..], ls, false, i + 1, off1, known, sent1, labels + 1)
  {
    hide At, Call.Result, Settled, Learned, Pointed, Written, Untouched, WireLabel;
    AtFacts(c, i, bs[..], ls, escapedDot, begin, off, compression, sent, labels);
    AtADot(c, i, bs[..], ls, escapedDot, begin, off, compression, sent, labels);
    assert bs[..][begin..] == bs[begin..] && bs[..][begin..i] == bs[begin..i];
    ghost var m := msg[..];
    NothingWritten(m);
    off1, known, pointer, err := EndLabel(msg, off, bs, begin, i, escapedDot, compression, compress);
    UntouchedMore(m, m, msg[..], c.off0, off);
    sent1 := sent;
    if err.None? {
      if pointer.Some? {
        off1 := off;
        WrittenStill(m, msg[..], c.off0, sent, off);
      } else {
        WrittenMore(m, msg[..], c.off0, sent, off, WireLabel(bs[begin..i]));
        sent1 := sent + WireLabel(bs[begin..i]);
      }
    }
  }

  /** The loop of packDomainName. */
  method PackLabels(s: Text, msg: array<byte>, off0: nat, compression: Suffixes, compress: bool)
      returns (off: nat, labels: nat, err: Option<PackError>, known: Suffixes, pointer: Option<nat>, ghost sent: seq<byte>)
    requires s != [] && s[|s| - 1] == DOT
    modifies msg
    ensures Untouched(old(msg[..]), msg[..], off0)
    ensures var c := Call(s, msg.Length, off0, compression, compress);
            if err.Some? then c.Result() == Failed(err.value, known, labels)
            else
              && off == off0 + |sent| && Written(msg[..], off0, sent)
              && (pointer.Some? ==> |s| > 1)
              && c.Result() == (if pointer.Some? then Pointed(c.size, off, pointer.value, known)
                                else Ended(s, c.size, off, known)).After(sent, labels)
  {
    hide *;
    var ls: nat := |s|;
    off, labels, err, known, pointer, sent := off0, 0, None, compression, None, [];
    var bs := new byte[|s|](k requires 0 <= k < |s| => s[k]);
    var i, begin, escapedDot := 0, 0, false;
    ghost var c := Call(s, msg.Length, off0, compression, compress);
    assert bs[..] == s;
    NothingWritten(msg[..]);
    AtFirst(c);
    while i < ls
      invariant i <= ls <= bs.Length
      invariant At(c, i, bs[..], ls, escapedDot, begin, off, known, sent, labels)
      invariant Written(msg[..], off0, sent) && Untouched(old(msg[..]), msg[..], off0)
      invariant pointer.None? && err.None?
      decreases ls - i
    {
      AtFacts(c, i, bs[..], ls, escapedDot, begin, off, known, sent, labels);
      if bs[i] == BACKSLASH {
        if off + 1 > msg.Length {
          err := Some(ErrBuf);
          return;
        }
        AtOther(c, i, bs[..], ls, escapedDot, begin, off, known, sent, labels);
        ls := DecodeEscape(bs, i, ls);
        escapedDot := bs[i] == DOT;
        i := i + 1;
        continue;
      }
      if bs[i] == DOT {
        ghost var m := msg[..];
        off, known, pointer, err, sent := TakeDot(c, msg, off, bs, ls, begin, i, escapedDot, known, compress, sent, labels);
        UntouchedMore(old(msg[..]), m, msg[..], off0, off0);
        if err.Some? || pointer.Some? {
          return;
        }
        labels := labels + 1;
        begin := i + 1;
      } else {
        AtOther(c, i, bs[..], ls, escapedDot, begin, off, known, sent, labels);
      }
      escapedDot := false;
      i := i + 1;
    }
    AtFacts(c, i, bs[..], ls, escapedDot, begin, off, known, sent, labels);
  }

  /** PackDomainName; after an IndexOutOfRange there is no result. */
  method PackDomainName(s: Text, msg: array<byte>, off0: nat, compression: Suffixes, compress: bool)
      returns (off: nat, labels: nat, err: Option<PackError>, known: Suffixes)
    modifies msg
    ensures var p := Pack(s, msg.Length, off0, compression, compress);
            && known == p.known && labels == p.labels
            && (p.Packed? ==> err.None? && off == off0 + |p.out| && Written(msg[..], off0, p.out))
            && (p.Failed? ==> err == Some(p.error) && off == msg.Length)
    ensures Untouched(old(msg[..]), msg[..], off0)
  {
    hide Written, Untouched, PackFrom, Pointer;
    NothingWritten(msg[..]);
    if |s| == 0 {
      return off0, 0, None, compression;
    }
    if s[|s| - 1] != DOT {
      return msg.Length, 0, Some(ErrFqdn), compression;
    }
    var pointer;
    ghost var sent;
    off, labels, err, known, pointer, sent := PackLabels(s, msg, off0, compression, compress);
    if err.Some? {
      return msg.Length, labels, err, known;
    }
    if |s| == 1 && s[0] == DOT {
      assert sent + [] == sent;
      return off, labels, None, known;
    }
    ghost var m := msg[..];
    if pointer.Some? {
      var fits := WritePointer(msg, off, pointer.value);
      UntouchedMore(old(msg[..]), m, msg[..], off0, off);
      if !fits {
        return msg.Length, labels, Some(IndexOutOfRange), known;
      }
      WrittenMore(m, msg[..], off0, sent, off, Pointer(pointer.value));
      off := off + 1;
    } else {
      if off >= msg.Length {
        return msg.Length, labels, Some(IndexOutOfRange), known;
      }
      msg[off] := 0;
      JustWritten(m, msg[..], off, 0);
      UntouchedMore(old(msg[..]), m, msg[..], off0, off);
      WrittenMore(m, msg[..], off0, sent, off, [0]);
    }
    off := off + 1;
  }

  lemma JustWritten(m0: seq<byte>, m1: seq<byte>, off: nat, b: byte)
    requires off < |m0| && m1 == m0[off := b]
    ensures Written(m1, off, [b]) && Untouched(m0, m1, off)
  {
  }
}