/**
 Names of printable bytes, such as host names, stand for themselves: they are unpacked as their labels
 with dots behind them, and so are the strings of TXT records. Byte values are written out here.
 */
module PlainNames {
  import opened Bytes
  import opened DomainNames
  import opened NamePacker
  import opened NameUnpacker
  import opened NameRoundTrip
  import opened Compression
  import opened CharStrings
  import opened FieldRoundTrip

  /** Printable, and none of " ( ) . ; @ \ and the space. */
  predicate Plain(b: byte) {
    33 <= b <= 126 && b !in {34, 40, 41, 46, 59, 64, 92}
  }

  predicate PlainName(labels: seq<Label>) {
    forall i :: 0 <= i < |labels| ==> 1 <= |labels[i]| <= 63 && forall j :: 0 <= j < |labels[i]| ==> Plain(labels[i][j])
  }

  /** How much text a byte of a name takes: one byte of it exactly for those that are plain. */
  lemma EscapeLengths(b: byte)
    ensures Plain(b) <==> |Escape(b)| == 1
    ensures Plain(b) ==> Escape(b) == [b]
    ensures |Escape(b)| == 2 <==> b in {9, 13, 32, 34, 40, 41, 46, 59, 64, 92}
    ensures |Escape(b)| == 2 ==> Escape(b) == [92, if b == 9 then 116 else if b == 13 then 114 else b]
    ensures |Escape(b)| != 1 && |Escape(b)| != 2 ==>
              Escape(b) == [92, 48 + b / 100, 48 + b / 10 % 10, 48 + b % 10] && (b < 32 || b > 126)
  {
  }

  lemma {:induction false} PlainLabel(l: Label)
    requires forall j :: 0 <= j < |l| ==> Plain(l[j])
    ensures PrintLabel(l) == l && DOT !in l && BACKSLASH !in l
  {
    if l != [] {
      EscapeLengths(l[0]);
      PlainLabel(l[1..]);
      assert l == [l[0]] + l[1..];
    }
  }

  lemma {:induction false} PlainText(labels: seq<Label>)
    requires PlainName(labels)
    ensures LabelsOk(labels) && BareName(labels) && Print(labels) == Join(labels)
  {
    if labels != [] {
      PlainLabel(labels[0]);
      PlainText(labels[1..]);
      forall i | 0 <= i < |labels| ensures Bare(labels[i]) {
        if i > 0 {
          assert labels[i] == labels[1..][i - 1];
        }
      }
    }
  }

  /** The text of labels, each with a dot behind it; the root is a dot. */
  function Dotted(labels: seq<Label>): Text {
    if labels == [] then [46] else DotsBehind(labels)
  }

  function DotsBehind(labels: seq<Label>): Text {
    if labels == [] then [] else labels[0] + [46] + DotsBehind(labels[1..])
  }

  lemma {:induction false} DottedIsJoin(labels: seq<Label>)
    ensures DotsBehind(labels) == Join(labels) && Dotted(labels) == JoinText(labels)
  {
    if labels != [] {
      DottedIsJoin(labels[1..]);
    }
  }

  lemma PlainNameText(labels: seq<Label>)
    requires PlainName(labels)
    ensures LabelsOk(labels) && BareName(labels) && NameText(labels) == Dotted(labels) == JoinText(labels)
  {
    PlainText(labels);
    DottedIsJoin(labels);
  }

  /** Length and bytes of each label, and a zero. */
  function Wire(labels: seq<Label>): seq<nat> {
    if labels == [] then [0] else [|labels[0]|] + labels[0] + Wire(labels[1..])
  }

  lemma {:induction false} WireIs(labels: seq<Label>)
    requires LabelsOk(labels)
    ensures WireName(labels) == Wire(labels)
  {
    if labels != [] {
      WireIs(labels[1..]);
    }
  }

  /** Such a name is unpacked as its labels and dots, wherever it stands. */
  lemma PlainIsUnpacked(labels: seq<Label>, msg: seq<byte>, off: nat)
    requires PlainName(labels) && off + |Wire(labels)| <= |msg| && msg[off..off + |Wire(labels)|] == Wire(labels)
    ensures Unpack(msg, off) == Unpacked(Dotted(labels), off + |Wire(labels)|)
  {
    PlainNameText(labels);
    WireIs(labels);
    hide WireName, NameText, Dotted, JoinText, BareName, PlainName;
    WalkWire(labels, msg, off, MAX_POINTERS);
    NotRoot(labels, msg, off);
  }

  lemma NotRoot(labels: seq<Label>, msg: seq<byte>, off: nat)
    requires LabelsOk(labels) && Walk(msg, off, MAX_POINTERS) == Name(labels, off + |WireName(labels)|, off + |WireName(labels)|)
    ensures Unpack(msg, off) == Unpacked(NameText(labels), off + |WireName(labels)|)
  {
  }

  /** Such a name that has been packed with compression is unpacked as its labels and dots, too. */
  lemma PlainIsCompressed(m: seq<byte>, off: nat, labels: seq<Label>, p: Packed, held: set<nat>)
    requires PlainName(labels) && |labels| <= 10 && NamePacked(m, off, labels, p, held)
    ensures Unpack(m, off) == Unpacked(Dotted(labels), off + |p.out|)
  {
    PlainNameText(labels);
    hide PlainName, BareName, NameText, Dotted, JoinText, Unpack;
    PackedIsUnpacked(m, off, labels, p, held);
  }

  /** With at most ten labels it can make the trip through a compressed message. */
  lemma PlainIsCompressible(labels: seq<Label>)
    requires PlainName(labels) && |labels| <= 10
    ensures CompressibleName(Dotted(labels)) && LabelsOf(Dotted(labels)) == labels
  {
    PlainNameText(labels);
    LabelsOfText(labels);
  }

  lemma LabelsOfText(labels: seq<Label>)
    requires LabelsOk(labels)
    ensures LabelsOf(NameText(labels)) == labels
  {
    if labels != [] {
      PrintEndsInDot(labels);
      NameIsRead(labels);
      NameTokensSpell(labels);
      CutSpelt(NameTokens(labels), labels);
    }
  }

  /** The text www. */
  lemma Www()
    ensures Unpack([3, 119, 119, 119, 0], 0) == Unpacked([119, 119, 119, 46], 5)
  {
    var labels: seq<Label> := [[119, 119, 119]];
    assert labels[1..] == [];
    assert Wire(labels) == [3] + [119, 119, 119] + [0] == [3, 119, 119, 119, 0];
    assert DotsBehind(labels) == [119, 119, 119, 46];
    PlainIsUnpacked(labels, [3, 119, 119, 119, 0], 0);
  }

  // ---------------------------------------------------------------- pointers

  /** A pointer has its two top bits set and the place in the others. */
  lemma PointerBytes(p: nat)
    requires p < 16384
    ensures Pointer(p) == [192 + p / 256, p % 256]
  {
    var n := p % 0x4000 + 0x4000 * (3 - p / 0x4000 % 4);
    assert n == p + 0xC000;
    assert BigEndian(n, 2) == BigEndian(n / 256, 1) + [n % 256];
    assert BigEndian(n / 256, 1) == BigEndian(n / 256 / 256, 0) + [n / 256 % 256];
  }

  lemma PointerTarget(msg: seq<byte>, off: nat, p: nat)
    requires off + 1 < |msg| && p < 16384 && msg[off] == 192 + p / 256 && msg[off + 1] == p % 256
    ensures Target(msg, off) == p
  {
  }

  // ---------------------------------------------------------------- strings

  /** Of a string, other bytes are printed as themselves: only quote and backslash are not, and what cannot be printed. */
  predicate PlainInString(b: byte) {
    32 <= b <= 127 && b != 34 && b != 92
  }

  lemma EscapeTxtLengths(b: byte)
    ensures PlainInString(b) <==> |EscapeTxt(b)| == 1
    ensures PlainInString(b) ==> EscapeTxt(b) == [b]
    ensures |EscapeTxt(b)| == 2 <==> b in {9, 10, 13, 34, 92}
    ensures |EscapeTxt(b)| == 2 ==> EscapeTxt(b) == [92, if b == 9 then 116 else if b == 10 then 110 else if b == 13 then 114 else b]
    ensures |EscapeTxt(b)| != 1 && |EscapeTxt(b)| != 2 ==>
              EscapeTxt(b) == [92, 48 + b / 100, 48 + b / 10 % 10, 48 + b % 10] && (b < 32 || b > 127)
  {
  }

  predicate PlainString(s: Text) {
    |s| <= 255 && forall j :: 0 <= j < |s| ==> PlainInString(s[j])
  }

  lemma {:induction false} PlainStringText(s: Text)
    requires forall j :: 0 <= j < |s| ==> PlainInString(s[j])
    ensures PrintString(s) == s
  {
    if s != [] {
      EscapeTxtLengths(s[0]);
      PlainStringText(s[1..]);
      assert s == [s[0]] + s[1..];
    }
  }

  lemma PlainStringIsCanonical(s: Text)
    requires PlainString(s)
    ensures CanonicalString(s) && StringBytes(s) == s
  {
    PlainStringText(s);
    StringRoundTrip(s);
  }
}
