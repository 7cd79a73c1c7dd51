/**
 Fields that have been packed are in the message, stay there while more is packed behind them,
 and are unpacked to themselves.
 */
module FieldRoundTrip {
  import opened Bytes
  import opened DomainNames
  import opened NamePacker
  import Up = NameUnpacker
  import opened NameRoundTrip
  import opened Compression
  import opened CharStrings
  import opened Fields

  // ---------------------------------------------------------------- fields that can make the trip

  /** The labels that a text spells. */
  function CutTokens(ts: seq<Token>): seq<Label>
    decreases |ts|
  {
    var d := NextDot(ts, 0);
    if d == |ts| then [] else [TokenBytes(ts[..d])] + CutTokens(ts[d + 1..])
  }

  function LabelsOf(t: Text): seq<Label> {
    if t == [DOT] then [] else CutTokens(Tokens(t))
  }

  lemma {:induction false} CutSpelt(ts: seq<Token>, labels: seq<Label>)
    requires Spelt(ts, labels)
    ensures CutTokens(ts) == labels
    decreases |labels|
  {
    if labels == [] {
      assert NextDot(ts, 0) == 0;
    } else {
      assert ts[0..] == ts;
      FirstLabel(ts, 0, labels);
      var d := |labels[0]|;
      assert ts[0..d] == ts[..d];
      CutSpelt(ts[d + 1..], labels[1..]);
      hide Spelt, NextDot, TokenBytes;
      assert [labels[0]] + labels[1..] == labels;
    }
  }

  /** The text of a name as it is unpacked. */
  ghost predicate CanonicalName(t: Text) {
    LabelsOk(LabelsOf(t)) && t == NameText(LabelsOf(t))
  }

  /** A name without escapes that is not too long to be compressed. */
  ghost predicate CompressibleName(t: Text) {
    CanonicalName(t) && BareName(LabelsOf(t)) && t == JoinText(LabelsOf(t)) && |LabelsOf(t)| <= Up.MAX_POINTERS
  }

  ghost predicate CanonicalField(f: Field, compress: bool) {
    match f
    case Uint16(v) => v < 0x1_0000
    case Uint32(v) => v < 0x1_0000_0000
    case Domain(t, share) => if share && compress then CompressibleName(t) else CanonicalName(t)
    case Strings(ss) => CanonicalStrings(ss)
    case Ip4(ip) => |ip| == 16 && ip[..12] == V4_PREFIX
    case Ip6(ip) => |ip| == 16
  }

  /** The room that a field is given, as the len methods count it. */
  function FieldLen(f: Field): nat {
    match f
    case Uint16(_) => 2
    case Uint32(_) => 4
    case Domain(t, _) => |t| + 1
    case Strings(ss) => StringsSize(ss)
    case Ip4(_) => 4
    case Ip6(_) => 16
  }

  /** The length of the wire form of labels. */
  function NameWireLen(labels: seq<Label>): nat {
    if labels == [] then 1 else 1 + |labels[0]| + NameWireLen(labels[1..])
  }

  /** The bytes of a field when nothing is compressed. */
  function WireLen(f: Field): nat {
    match f
    case Uint16(_) => 2
    case Uint32(_) => 4
    case Domain(t, _) => NameWireLen(LabelsOf(t))
    case Strings(ss) => StringsWireSize(ss)
    case Ip4(_) => 4
    case Ip6(_) => 16
  }

  // ---------------------------------------------------------------- fields in a message

  /** The bytes of a field other than a name. */
  function FieldBytes(f: Field): seq<byte>
    requires CanonicalField(f, false) && !f.Domain?
  {
    match f
    case Uint16(v) => BigEndian(v, 2)
    case Uint32(v) => BigEndian(v, 4)
    case Strings(ss) => CanonicalBytes(ss); StringsWire(ss)
    case Ip4(ip) => ip[12..]
    case Ip6(ip) => ip
  }

  /** The name of the labels is at off, with or without pointers, and its own bytes end at end. */
  ghost predicate NameAt(m: seq<byte>, off: nat, labels: seq<Label>, end: nat, held: set<nat>) {
    || (Spells(m, off, labels, held) && NameEnd(m, off, labels, held) == end && |labels| <= Up.MAX_POINTERS)
    || (LabelsOk(labels) && Written(m, off, WireName(labels)) && end == off + |WireName(labels)|
        && forall i :: off <= i < end ==> i in held)
  }

  /** A field is in the message from off to end, all of it in held. */
  ghost predicate FieldAt(m: seq<byte>, off: nat, f: Field, end: nat, held: set<nat>) {
    if f.Domain? then CanonicalName(f.text) && NameAt(m, off, LabelsOf(f.text), end, held)
    else
      CanonicalField(f, false) && Written(m, off, FieldBytes(f)) && end == off + |FieldBytes(f)|
      && forall i :: off <= i < end ==> i in held
  }

  /** m1 has all held bytes of m. */
  ghost predicate Agrees(m: seq<byte>, m1: seq<byte>, held: set<nat>) {
    forall i :: i in held && i < |m| ==> i < |m1| && m1[i] == m[i]
  }

  lemma NameStays(m: seq<byte>, m1: seq<byte>, off: nat, labels: seq<Label>, end: nat, held: set<nat>, more: set<nat>)
    requires NameAt(m, off, labels, end, held) && Agrees(m, m1, held) && held <= more
    ensures NameAt(m1, off, labels, end, more)
  {
    hide WireName, NameEnd;
    if Spells(m, off, labels, held) && NameEnd(m, off, labels, held) == end && |labels| <= Up.MAX_POINTERS {
      SpellsStill(m, m1, off, labels, held, more);
    } else {
      hide Spells;
      BytesStay(m, m1, off, WireName(labels), held);
    }
  }

  lemma BytesStay(m: seq<byte>, m1: seq<byte>, off: nat, out: seq<byte>, held: set<nat>)
    requires Written(m, off, out) && Agrees(m, m1, held) && forall i :: off <= i < off + |out| ==> i in held
    ensures Written(m1, off, out)
  {
    if out == [] {
      NothingWritten(m1);
    } else {
      WrittenSlice(m, off, out);
      assert off + |out| - 1 in held;
      assert m1[off..off + |out|] == m[off..off + |out|];
      SliceWritten(m1, off, out);
    }
  }

  lemma FieldStays(m: seq<byte>, m1: seq<byte>, off: nat, f: Field, end: nat, held: set<nat>, more: set<nat>)
    requires FieldAt(m, off, f, end, held) && Agrees(m, m1, held) && held <= more
    ensures FieldAt(m1, off, f, end, more)
  {
    hide NameAt, FieldBytes, CanonicalName, CanonicalField, LabelsOf, Written;
    if f.Domain? {
      NameStays(m, m1, off, LabelsOf(f.text), end, held, more);
    } else {
      BytesStay(m, m1, off, FieldBytes(f), held);
    }
  }

  lemma NameIsUnpacked(m: seq<byte>, off: nat, labels: seq<Label>, end: nat, held: set<nat>)
    requires NameAt(m, off, labels, end, held)
    ensures off < |m| && end <= |m| && Up.Unpack(m, off) == Up.Unpacked(NameText(labels), end)
  {
    hide NameText, WireName;
    if Spells(m, off, labels, held) && NameEnd(m, off, labels, held) == end && |labels| <= Up.MAX_POINTERS {
      HopsAtMost(m, off, labels, held);
      SpelledIsWalked(m, off, labels, held, Up.MAX_POINTERS);
    } else {
      hide Spells, NameEnd;
      WrittenSlice(m, off, WireName(labels));
      WalkWire(labels, m, off, Up.MAX_POINTERS);
    }
  }

  /** A field is read back; strings and addresses must not reach beyond the record. */
  lemma FieldIsRead(m: seq<byte>, off: nat, f: Field, end: nat, held: set<nat>, rdend: nat)
    requires FieldAt(m, off, f, end, held) && off <= |m|
    requires f.Strings? ==> end == rdend
    requires f.Ip4? || f.Ip6? ==> end <= rdend
    ensures ReadField(KindOf(f), m, off, rdend) == Got(f, end) && end <= |m|
  {
    hide NameAt, LabelsOf, CanonicalStrings, StringsWire, Written, BigEndian, Up.Unpack, ReadStrings;
    if f.Domain? {
      NameIsUnpacked(m, off, LabelsOf(f.text), end, held);
    } else if f.Strings? {
      StringsAreRead(m, off, f.ss);
    } else {
      NumberIsRead(m, off, f, rdend);
    }
  }

  lemma NumberIsRead(m: seq<byte>, off: nat, f: Field, rdend: nat)
    requires !f.Domain? && !f.Strings? && CanonicalField(f, false) && Written(m, off, FieldBytes(f))
    requires f.Ip4? || f.Ip6? ==> off + |FieldBytes(f)| <= rdend
    ensures var end := off + |FieldBytes(f)|; ReadField(KindOf(f), m, off, rdend) == Got(f, end) && end <= |m|
  {
    hide BigEndian, Value;
    WrittenSlice(m, off, FieldBytes(f));
    PowersOf256();
    if f.Uint16? {
      ValueOfBigEndian(f.v, 2);
    } else if f.Uint32? {
      ValueOfBigEndian(f.v, 4);
    } else if f.Ip4? {
      assert V4_PREFIX + f.ip[12..] == f.ip;
    }
  }

  lemma StringsAreRead(m: seq<byte>, off: nat, ss: seq<Text>)
    requires CanonicalStrings(ss) && off <= |m|
    requires Written(m, off, FieldBytes(Strings(ss)))
    ensures var end := off + |FieldBytes(Strings(ss))|;
            ReadField(KStrings, m, off, end) == Got(Strings(ss), end) && end <= |m|
  {
    hide CanonicalStrings, StringBytes, StringsWire, Written, ReadStrings;
    CanonicalBytes(ss);
    ReadCanonicals(ss, m, off);
    WireOfNothing(ss);
    if ss != [] {
      WrittenSlice(m, off, StringsWire(ss));
    }
  }

  lemma WireOfNothing(ss: seq<Text>)
    requires forall i :: 0 <= i < |ss| ==> |StringBytes(ss[i])| <= 255
    ensures StringsWire(ss) == [] <==> ss == []
  {
  }

  // ---------------------------------------------------------------- packing one field

  lemma {:induction false} WireIsShort(labels: seq<Label>)
    requires LabelsOk(labels)
    ensures |WireLabels(labels)| <= |Print(labels)| && |WireName(labels)| <= |NameText(labels)| + 1
    ensures |WireName(labels)| == NameWireLen(labels)
  {
    if labels != [] {
      WireIsShort(labels[1..]);
    }
  }

  /** A compressed name takes no more room than it would without compression. */
  lemma {:induction false} RoomForBare(s: Text, begin: nat, labels: seq<Label>, size: nat, off: nat, known: Suffixes)
    requires |s| > 1 && s[|s| - 1] == DOT && BACKSLASH !in s && begin <= |s| == |Tokens(s)|
    requires BareName(labels) && LabelsOk(labels) && s[begin..] == Join(labels) && off + |WireName(labels)| <= size
    ensures var p := PackFrom(s, begin, size, off, known, true); p.Packed? && |p.out| <= |WireName(labels)|
    decreases |labels|
  {
    hide *;
    BareRest(labels);
    if labels == [] {
      PackRest(s, begin, size, off, known);
      WireRoot();
    } else {
      JoinStep(labels);
      LabelIsOk(labels);
      WireNameStep(labels);
      PackOne(s, begin, labels, size, off, known);
      if Join(labels) !in known {
        var l := labels[0];
        var known1 := Learned(Join(labels), off, known, true);
        RoomForBare(s, begin + |l| + 1, labels[1..], size, off + 1 + |l|, known1);
        AfterOut(PackFrom(s, begin + |l| + 1, size, off + 1 + |l|, known1, true), WireLabel(l), 1);
      }
    }
  }

  lemma RoomForName(t: Text, size: nat, off: nat, known: Suffixes, share: bool)
    requires if share then CompressibleName(t) else CanonicalName(t)
    requires off + |t| + 1 <= size
    ensures var p := Pack(t, size, off, known, share);
            p.Packed? && |p.out| <= |t| + 1 && |p.out| <= NameWireLen(LabelsOf(t)) && (!share ==> p.out == WireName(LabelsOf(t)) && p.known == known)
  {
    hide PackFrom, LabelsOf, Print, Join, WireLabels;
    var labels := LabelsOf(t);
    WireIsShort(labels);
    if labels == [] {
      PackRoot(size, off, known, share);
      WireRoot();
    } else if share {
      JoinHasNoBackslash(labels);
      BareIsRead(t);
      assert t[0..] == t;
      RoomForBare(t, 0, labels, size, off, known);
    } else {
      PackPrinted(labels, size, off, known);
    }
  }

  /** A state of packing: the table, if there is one, is true, and everything held comes before off. */
  ghost predicate Ready(m: seq<byte>, off: nat, known: Suffixes, compress: bool, held: set<nat>) {
    Before(held, off) && (compress ==> TrueTable(m, known, held))
  }

  lemma TableMore(m: seq<byte>, known: Suffixes, held: set<nat>, more: set<nat>)
    requires TrueTable(m, known, held) && held <= more
    ensures TrueTable(m, known, more)
  {
    hide TrueEntry;
    forall k | k in known ensures TrueEntry(m, k, known[k], more) {
      EntryStill(m, k, known[k], held, more);
    }
  }

  /** Packing behind off keeps what is before it, and the new bytes may be held. */
  lemma ReadyMore(m0: seq<byte>, m: seq<byte>, off: nat, known: Suffixes, compress: bool, held: set<nat>, n: nat, more: set<nat>)
    requires Ready(m0, off, known, compress, held) && Untouched(m0, m, off)
    requires held <= more <= held + Range(off, n)
    ensures Ready(m, off + n, known, compress, more) && Agrees(m0, m, held)
  {
    hide TrueTable;
    if compress {
      TableMoves(m0, m, known, held, off);
      TableMore(m, known, held, more);
    }
  }

  /** What packing the field f at off has come to. */
  ghost predicate FieldPacked(m: seq<byte>, off: nat, f: Field, e: Emitted, compress: bool, held: set<nat>) {
    && e.Emitted?
    && var all := held + Range(off, |e.out|);
    FieldAt(m, off, f, off + |e.out|, all) && Ready(m, off + |e.out|, e.known, compress, all)
  }

  lemma NameIsPacked(t: Text, share: bool, size: nat, off: nat, known: Suffixes, compress: bool,
                     m0: seq<byte>, m: seq<byte>, held: set<nat>)
    requires CanonicalField(Domain(t, share), compress) && off + |t| + 1 <= size
    requires Ready(m0, off, known, compress, held) && Untouched(m0, m, off)
    requires var p := Pack(t, size, off, known, share && compress); p.Packed? && Written(m, off, p.out)
    ensures FieldPacked(m, off, Domain(t, share), EmitField(Domain(t, share), size, off, known, compress), compress, held)
  {
    hide Pack, Ready, CanonicalName, CompressibleName, FieldPacked, Written, Untouched, TrueTable, NamePacked, LabelsOf, JoinText, BareName;
    var p := Pack(t, size, off, known, share && compress);
    var labels := LabelsOf(t);
    RoomForName(t, size, off, known, share && compress);
    if share && compress {
      CompressibleParts(t);
      ReadyParts(m0, off, known, compress, held);
      CompressionKeeps(labels, size, off, known, m0, m, held);
      SharedIsPacked(m, off, t, share, p, compress, held);
    } else {
      ReadyMore(m0, m, off, known, compress, held, |p.out|, held + Range(off, |p.out|));
      PlainIsPacked(m, off, t, share, p, compress, held);
    }
  }

  lemma CompressibleParts(t: Text)
    requires CompressibleName(t)
    ensures CanonicalName(t) && BareName(LabelsOf(t)) && t == JoinText(LabelsOf(t))
  {
  }

  lemma ReadyParts(m: seq<byte>, off: nat, known: Suffixes, compress: bool, held: set<nat>)
    requires Ready(m, off, known, compress, held)
    ensures Before(held, off) && (compress ==> TrueTable(m, known, held))
  {
  }

  lemma SharedIsPacked(m: seq<byte>, off: nat, t: Text, share: bool, p: Packed, compress: bool, held: set<nat>)
    requires CompressibleName(t) && NamePacked(m, off, LabelsOf(t), p, held)
    ensures FieldPacked(m, off, Domain(t, share), Emitted(p.out, p.known), compress, held)
  {
    hide TrueTable, LabelsOf, NameText, JoinText, Spells, NameEnd, BareName, LabelsOk;
  }

  lemma PlainIsPacked(m: seq<byte>, off: nat, t: Text, share: bool, p: Packed, compress: bool, held: set<nat>)
    requires CanonicalName(t) && p.Packed? && p.out == WireName(LabelsOf(t)) && Written(m, off, p.out)
    requires Ready(m, off + |p.out|, p.known, compress, held + Range(off, |p.out|))
    ensures FieldPacked(m, off, Domain(t, share), Emitted(p.out, p.known), compress, held)
  {
    hide Ready, LabelsOf, NameText, Spells, NameEnd, WireName, Written, LabelsOk;
  }

  lemma FieldIsPacked(f: Field, size: nat, off: nat, known: Suffixes, compress: bool,
                      m0: seq<byte>, m: seq<byte>, held: set<nat>)
    requires CanonicalField(f, compress) && off + FieldLen(f) < size == |m|
    requires Ready(m0, off, known, compress, held)
    ensures var e := EmitField(f, size, off, known, compress);
            && e.Emitted? && |e.out| <= FieldLen(f)
            && (Untouched(m0, m, off) && Written(m, off, e.out) ==> FieldPacked(m, off, f, e, compress, held))
  {
    hide Pack, PackTxtSpec, CanonicalStrings, FieldPacked, Ready, Written, Untouched, CanonicalName, CompressibleName, BigEndian;
    var e := EmitField(f, size, off, known, compress);
    if f.Domain? {
      RoomForName(f.text, size, off, known, f.share && compress);
      if Untouched(m0, m, off) && Written(m, off, e.out) {
        NameIsPacked(f.text, f.share, size, off, known, compress, m0, m, held);
      }
    } else {
      BytesAreEmitted(f, size, off, known, compress);
      if Untouched(m0, m, off) && Written(m, off, e.out) {
        ReadyMore(m0, m, off, known, compress, held, |e.out|, held + Range(off, |e.out|));
        BytesArePacked(m, off, f, e, compress, held);
      }
    }
  }

  lemma BytesAreEmitted(f: Field, size: nat, off: nat, known: Suffixes, compress: bool)
    requires CanonicalField(f, compress) && !f.Domain? && off + FieldLen(f) < size
    ensures EmitField(f, size, off, known, compress) == Emitted(FieldBytes(f), known)
    ensures |FieldBytes(f)| <= FieldLen(f) && |FieldBytes(f)| == WireLen(f)
  {
    hide BigEndian;
    if f.Strings? {
      PackCanonicals(f.ss, size, off);
      CanonicalBytes(f.ss);
      WireSizeIsLength(f.ss);
    }
  }

  lemma BytesArePacked(m: seq<byte>, off: nat, f: Field, e: Emitted, compress: bool, held: set<nat>)
    requires CanonicalField(f, false) && !f.Domain? && e.Emitted? && e.out == FieldBytes(f)
    requires Written(m, off, e.out) && Ready(m, off + |e.out|, e.known, compress, held + Range(off, |e.out|))
    ensures FieldPacked(m, off, f, e, compress, held)
  {
  }

  // ---------------------------------------------------------------- packing fields one after another

  ghost predicate CanonicalFields(fs: seq<Field>, compress: bool) {
    forall i :: 0 <= i < |fs| ==> CanonicalField(fs[i], compress)
  }

  function FieldsLen(fs: seq<Field>): nat {
    if fs == [] then 0 else FieldLen(fs[0]) + FieldsLen(fs[1..])
  }

  function FieldsWireLen(fs: seq<Field>): nat {
    if fs == [] then 0 else WireLen(fs[0]) + FieldsWireLen(fs[1..])
  }

  /** Where a list of fields ends, given where each of them does. */
  function End(off: nat, ends: seq<nat>): nat {
    if ends == [] then off else ends[|ends| - 1]
  }

  ghost predicate FieldsAt(m: seq<byte>, off: nat, fs: seq<Field>, ends: seq<nat>, held: set<nat>) {
    && |ends| == |fs|
    && forall i :: 0 <= i < |fs| ==> FieldAt(m, End(off, ends[..i]), fs[i], ends[i], held)
  }

  lemma FieldsStay(m: seq<byte>, m1: seq<byte>, off: nat, fs: seq<Field>, ends: seq<nat>, held: set<nat>, more: set<nat>)
    requires FieldsAt(m, off, fs, ends, held) && Agrees(m, m1, held) && held <= more
    ensures FieldsAt(m1, off, fs, ends, more)
  {
    hide FieldAt, Agrees, End;
    forall i | 0 <= i < |fs| ensures FieldAt(m1, End(off, ends[..i]), fs[i], ends[i], more) {
      FieldStays(m, m1, End(off, ends[..i]), fs[i], ends[i], held, more);
    }
  }

  lemma FieldsCons(m: seq<byte>, off: nat, f: Field, end: nat, fs: seq<Field>, ends: seq<nat>, held: set<nat>)
    requires FieldAt(m, off, f, end, held) && FieldsAt(m, end, fs, ends, held)
    ensures FieldsAt(m, off, [f] + fs, [end] + ends, held) && End(off, [end] + ends) == End(end, ends)
  {
    hide FieldAt;
    var gs, es := [f] + fs, [end] + ends;
    forall i | 0 <= i < |gs| ensures FieldAt(m, End(off, es[..i]), gs[i], es[i], held) {
      if i > 0 {
        assert es[..i] == [end] + ends[..i - 1];
        assert End(off, es[..i]) == End(end, ends[..i - 1]);
      }
    }
  }

  lemma {:induction false} FieldsAreEmitted(fs: seq<Field>, size: nat, off: nat, known: Suffixes, compress: bool)
    requires CanonicalFields(fs, compress) && off + FieldsLen(fs) < size
    ensures var e := EmitFields(fs, size, off, known, compress); e.Emitted? && |e.out| <= FieldsLen(fs) && |e.out| <= FieldsWireLen(fs)
    decreases |fs|
  {
    hide EmitField, FieldLen, WireLen, CanonicalField;
    if fs != [] {
      OneIsEmitted(fs[0], size, off, known, compress);
      var e := EmitField(fs[0], size, off, known, compress);
      FieldsAreEmitted(fs[1..], size, off + |e.out|, e.known, compress);
    }
  }

  lemma OneIsEmitted(f: Field, size: nat, off: nat, known: Suffixes, compress: bool)
    requires CanonicalField(f, compress) && off + FieldLen(f) < size
    ensures var e := EmitField(f, size, off, known, compress); e.Emitted? && |e.out| <= FieldLen(f) && |e.out| <= WireLen(f)
  {
    hide Pack, PackTxtSpec, CanonicalStrings, CanonicalName, CompressibleName, BigEndian;
    if f.Domain? {
      RoomForName(f.text, size, off, known, f.share && compress);
    } else {
      BytesAreEmitted(f, size, off, known, compress);
    }
  }

  /** Fields packed at off are in the message, and the table is still true. */
  lemma {:induction false} FieldsArePacked(fs: seq<Field>, size: nat, off: nat, known: Suffixes, compress: bool,
                                           m0: seq<byte>, m: seq<byte>, held: set<nat>) returns (ends: seq<nat>)
    requires CanonicalFields(fs, compress) && off + FieldsLen(fs) < size == |m|
    requires Ready(m0, off, known, compress, held) && Untouched(m0, m, off)
    requires var e := EmitFields(fs, size, off, known, compress); e.Emitted? && Written(m, off, e.out)
    ensures var e := EmitFields(fs, size, off, known, compress);
            var all := held + Range(off, |e.out|);
            && FieldsAt(m, off, fs, ends, all) && End(off, ends) == off + |e.out|
            && Ready(m, off + |e.out|, e.known, compress, all)
    decreases |fs|
  {
    hide EmitField, EmitFields, FieldLen, WireLen, FieldsWireLen, CanonicalField, Ready, Untouched, Written, FieldAt, FieldsAt,
         FieldPacked, End, Range;
    var e := EmitFields(fs, size, off, known, compress);
    var all := held + Range(off, |e.out|);
    if fs == [] {
      NothingEmitted(size, off, known, compress);
      ends := [];
      ReadyMore(m0, m, off, known, compress, held, 0, held);
      assert all == held;
      NoFields(m, off, all);
    } else {
      var first := EmitField(fs[0], size, off, known, compress);
      OneIsEmitted(fs[0], size, off, known, compress);
      var off1 := off + |first.out|;
      FieldsAreEmitted(fs[1..], size, off1, first.known, compress);
      var rest := EmitFields(fs[1..], size, off1, first.known, compress);
      EmittedParts(fs, size, off, known, compress);
      WrittenParts(m, off, first.out, rest.out);
      FieldIsPacked(fs[0], size, off, known, compress, m0, m, held);
      var held1 := held + Range(off, |first.out|);
      PackedParts(m, off, fs[0], first, compress, held);
      NothingWritten(m);
      ends := FieldsArePacked(fs[1..], size, off1, first.known, compress, m, m, held1);
      RangesJoin(held, off, |first.out|, |rest.out|);
      SelfAgrees(m, held1);
      FieldStays(m, m, off, fs[0], off1, held1, all);
      FieldsCons(m, off, fs[0], off1, fs[1..], ends, all);
      assert [fs[0]] + fs[1..] == fs;
      ends := [off1] + ends;
    }
  }

  lemma EmittedParts(fs: seq<Field>, size: nat, off: nat, known: Suffixes, compress: bool)
    requires fs != [] && EmitFields(fs, size, off, known, compress).Emitted?
    ensures var e := EmitFields(fs, size, off, known, compress);
            var first := EmitField(fs[0], size, off, known, compress);
            && first.Emitted?
            && var rest := EmitFields(fs[1..], size, off + |first.out|, first.known, compress);
               rest.Emitted? && e.out == first.out + rest.out && e.known == rest.known
  {
    hide EmitField;
  }

  lemma NothingEmitted(size: nat, off: nat, known: Suffixes, compress: bool)
    ensures EmitFields([], size, off, known, compress) == Emitted([], known) && Range(off, 0) == {}
  {
  }

  lemma RangesJoin(held: set<nat>, off: nat, a: nat, b: nat)
    ensures held + Range(off, a) + Range(off + a, b) == held + Range(off, a + b)
  {
  }

  lemma NoFields(m: seq<byte>, off: nat, held: set<nat>)
    ensures FieldsAt(m, off, [], [], held) && End(off, []) == off
  {
  }

  lemma PackedParts(m: seq<byte>, off: nat, f: Field, e: Emitted, compress: bool, held: set<nat>)
    requires FieldPacked(m, off, f, e, compress, held)
    ensures e.Emitted? && FieldAt(m, off, f, off + |e.out|, held + Range(off, |e.out|))
    ensures Ready(m, off + |e.out|, e.known, compress, held + Range(off, |e.out|))
  {
  }

  lemma SelfAgrees(m: seq<byte>, held: set<nat>)
    ensures Agrees(m, m, held)
  {
  }

  // ---------------------------------------------------------------- unpacking fields one after another

  /** Strings and addresses are only in records of one field. */
  ghost predicate Loners(fs: seq<Field>) {
    (exists i :: 0 <= i < |fs| && (fs[i].Strings? || fs[i].Ip4? || fs[i].Ip6?)) ==> |fs| == 1
  }

  lemma {:induction false} FieldsAreRead(m: seq<byte>, off: nat, fs: seq<Field>, ends: seq<nat>, held: set<nat>, rdend: nat)
    requires FieldsAt(m, off, fs, ends, held) && Loners(fs) && off <= |m|
    requires (exists i :: 0 <= i < |fs| && (fs[i].Strings? || fs[i].Ip4? || fs[i].Ip6?)) ==> End(off, ends) == rdend
    ensures ReadFields(KindsOf(fs), m, off, rdend) == GotAll(fs, End(off, ends)) && End(off, ends) <= |m|
    decreases |fs|
  {
    hide FieldAt, ReadField, KindOf;
    var ks := KindsOf(fs);
    if fs != [] {
      assert ends[..0] == [] && End(off, ends[..0]) == off;
      FieldIsRead(m, off, fs[0], ends[0], held, rdend);
      assert ks[0] == KindOf(fs[0]) && ks[1..] == KindsOf(fs[1..]);
      TailAt(m, off, fs, ends, held);
      FieldsAreRead(m, ends[0], fs[1..], ends[1..], held, rdend);
      assert [fs[0]] + fs[1..] == fs;
    }
  }

  lemma TailAt(m: seq<byte>, off: nat, fs: seq<Field>, ends: seq<nat>, held: set<nat>)
    requires FieldsAt(m, off, fs, ends, held) && fs != []
    ensures FieldsAt(m, ends[0], fs[1..], ends[1..], held) && End(ends[0], ends[1..]) == End(off, ends)
  {
    hide FieldAt;
    forall i | 0 <= i < |fs| - 1 ensures FieldAt(m, End(ends[0], ends[1..][..i]), fs[1..][i], ends[1..][i], held) {
      assert End(ends[0], ends[1..][..i]) == End(off, ends[..i + 1]);
    }
  }
}
