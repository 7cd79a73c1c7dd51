/**
 Resource records: a header with the length of what follows, which is filled in afterwards
 (miekg/dns, rawmsg.go), and the data, laid out by type.
 */
module Records {
  import opened Bytes
  import opened DomainNames
  import opened NamePacker
  import Up = NameUnpacker
  import opened NameRoundTrip
  import opened Compression
  import opened Fields
  import opened FieldRoundTrip

  datatype RR = RR(name: Text, rrtype: nat, cls: nat, ttl: nat, rdlength: nat, rdata: seq<Field>)

  function HeadFields(r: RR): seq<Field> {
    [Domain(r.name, true), Uint16(r.rrtype), Uint16(r.cls), Uint32(r.ttl)]
  }

  const HEAD_KINDS: seq<Kind> := [KDomain(true), KUint16, KUint16, KUint32]

  function RecordFields(r: RR): seq<Field> {
    HeadFields(r) + [Uint16(r.rdlength)] + r.rdata
  }

  /** The data of the types that are modelled: A, NS, CNAME, PTR, MX, TXT, AAAA, SRV. */
  function Layout(rrtype: nat): Option<seq<Kind>> {
    if rrtype == 1 then Some([KIp4])
    else if rrtype == 2 || rrtype == 5 || rrtype == 12 then Some([KDomain(true)])
    else if rrtype == 15 then Some([KUint16, KDomain(true)])
    else if rrtype == 16 then Some([KStrings])
    else if rrtype == 28 then Some([KIp6])
    else if rrtype == 33 then Some([KUint16, KUint16, KUint16, KDomain(false)])
    else None
  }

  /** The len methods of the record kinds. */
  function RecordLen(r: RR): nat {
    FieldsLen(RecordFields(r))
  }

  // ---------------------------------------------------------------- the length field

  /** The place after the name at off, without following pointers. */
  function SkipName(m: seq<byte>, off: nat): Option<nat>
    decreases |m| - off
  {
    if off + 1 > |m| then None
    else
      var c := m[off];
      if c == 0 then Some(off + 1)
      else if c < 64 then if off + 1 + c > |m| then None else SkipName(m, off + 1 + c)
      else if c >= 192 then Some(off + 2)
      else SkipName(m, off + 1)
  }

  /** The message with the length of the record from off to end filled in; a length below zero wraps around. */
  function SetRdlength(m: seq<byte>, off: nat, end: nat): Option<seq<byte>> {
    match SkipName(m, off)
    case None => None
    case Some(name) =>
      var p := name + 8;
      var n := end - (p + 2);
      if p + 2 > |m| || n > 0xFFFF then None
      else Some(m[p := n / 256 % 256][p + 1 := n % 256])
  }

  method RawSetRdlength(msg: array<byte>, off: nat, end: nat) returns (ok: bool)
    modifies msg
    ensures var r := SetRdlength(old(msg[..]), off, end);
            && (ok <==> r.Some?)
            && msg[..] == if ok then r.value else old(msg[..])
  {
    var l := msg.Length;
    var o := off;
    ghost var m := msg[..];
    while true
      invariant SkipName(m, off) == SkipName(m, o) && msg[..] == m
      decreases l - o
    {
      if o + 1 > l {
        return false;
      }
      var c: int := msg[o];
      o := o + 1;
      if c < 64 {
        if c == 0 {
          break;
        }
        if o + c > l {
          return false;
        }
        o := o + c;
      } else if c >= 192 {
        o := o + 1;
        break;
      }
    }
    o := o + 2 + 2 + 4;
    if o + 2 > l {
      return false;
    }
    var rdatalen := end - (o + 2);
    if rdatalen > 0xFFFF {
      return false;
    }
    msg[o], msg[o + 1] := rdatalen / 256 % 256, rdatalen % 256;
    return true;
  }

  // ---------------------------------------------------------------- packing and unpacking a record

  datatype RecordError = BadField(field: FieldError) | BadRdlength

  /** PackRR; mid is the message before the length was filled in. */
  method PackRR(rr: RR, msg: array<byte>, off: nat, compression: Suffixes, compress: bool)
      returns (off1: nat, err: Option<RecordError>, known: Suffixes, ghost mid: seq<byte>)
    modifies msg
    ensures Untouched(old(msg[..]), mid, off)
    ensures var e := EmitFields(RecordFields(rr), msg.Length, off, compression, compress);
            && (e.Faulty? ==> err == Some(BadField(e.error)) && off1 == msg.Length && msg[..] == mid)
            && (e.Emitted? ==>
                  && Written(mid, off, e.out) && known == e.known
                  && var r := SetRdlength(mid, off, off + |e.out|);
                     && (r.Some? ==> err.None? && off1 == off + |e.out| && msg[..] == r.value)
                     && (r.None? ==> err == Some(BadRdlength) && off1 == off && msg[..] == mid))
  {
    hide EmitFields, SetRdlength, Written, Untouched, RecordFields;
    var e;
    off1, e, known := PackStruct(RecordFields(rr), msg, off, compression, compress);
    mid := msg[..];
    if e.Some? {
      return msg.Length, Some(BadField(e.value)), known, mid;
    }
    var ok := RawSetRdlength(msg, off, off1);
    if ok {
      return off1, None, known, mid;
    }
    return off, Some(BadRdlength), known, mid;
  }

  datatype RecordRead = RecordRead(rr: RR, off: nat) | BadRecord | UnknownType

  /** The record at off. Its header is read first, for the type and the end, and then all of it. */
  function ReadRecord(m: seq<byte>, off: nat): RecordRead {
    match ReadFields(HEAD_KINDS + [KUint16], m, off, 0)
    case LostAll => BadRecord
    case GotAll(h, o) =>
      HeadShape(m, off);
      var end := o + h[4].v;
      match Layout(h[1].v)
      case None => UnknownType
      case Some(kinds) =>
        match ReadFields(kinds, m, o, end)
        case LostAll => BadRecord
        case GotAll(rdata, o2) =>
          if o2 != end then BadRecord
          else RecordRead(RR(h[0].text, h[1].v, h[2].v, h[3].v, h[4].v, rdata), o2)
  }

  /** The kinds of the fields that have been read are those that were asked for. */
  lemma {:induction false} ReadShape(ks: seq<Kind>, m: seq<byte>, off: nat, end: nat)
    requires ReadFields(ks, m, off, end).GotAll?
    ensures KindsOf(ReadFields(ks, m, off, end).fields) == ks
  {
    if ks != [] {
      var g := ReadField(ks[0], m, off, end);
      ReadShape(ks[1..], m, g.off, end);
      var rest := ReadFields(ks[1..], m, g.off, end).fields;
      assert KindsOf([g.field] + rest) == [KindOf(g.field)] + KindsOf(rest);
    }
  }

  lemma HeadShape(m: seq<byte>, off: nat)
    ensures var g := ReadFields(HEAD_KINDS + [KUint16], m, off, 0);
            g.GotAll? ==>
              && |g.fields| == 5 && g.fields[0].Domain? && g.fields[1].Uint16? && g.fields[2].Uint16?
              && g.fields[3].Uint32? && g.fields[4].Uint16?
  {
    var ks := HEAD_KINDS + [KUint16];
    var g := ReadFields(ks, m, off, 0);
    if g.GotAll? {
      ReadShape(ks, m, off, 0);
      hide ReadFields;
      assert KindsOf(g.fields)[0] == KDomain(true) && KindsOf(g.fields)[1] == KUint16 && KindsOf(g.fields)[2] == KUint16;
      assert KindsOf(g.fields)[3] == KUint32 && KindsOf(g.fields)[4] == KUint16;
    }
  }

  method UnpackRR(msg: array<byte>, off: nat) returns (r: RecordRead)
    ensures r == ReadRecord(msg[..], off)
  {
    hide ReadFields;
    var h, o, lost := UnpackStruct(HEAD_KINDS + [KUint16], msg, off, 0);
    if lost {
      return BadRecord;
    }
    HeadShape(msg[..], off);
    var end := o + h[4].v;
    var layout := Layout(h[1].v);
    if layout.None? {
      return UnknownType;
    }
    // the source reads the header once more on its way to the data
    var rdata, o2;
    h, o, lost := UnpackStruct(HEAD_KINDS + [KUint16], msg, off, 0);
    rdata, o2, lost := UnpackStruct(layout.value, msg, o, end);
    if lost || o2 != end {
      return BadRecord;
    }
    return RecordRead(RR(h[0].text, h[1].v, h[2].v, h[3].v, h[4].v, rdata), o2);
  }

  // ---------------------------------------------------------------- records in a message

  ghost predicate CanonicalRecord(r: RR, compress: bool) {
    && CanonicalFields(HeadFields(r), compress) && CanonicalFields(r.rdata, compress)
    && Layout(r.rrtype) == Some(KindsOf(r.rdata))
    && FieldsWireLen(r.rdata) <= 0xFFFF
  }

  /** Where a record begins, where its length is, where it ends, and where its fields end. */
  datatype Spot = Spot(off: nat, len: nat, end: nat, heads: seq<nat>, ends: seq<nat>)

  /** A record is in the message, with its length filled in, all of it in held. */
  ghost predicate RecordAt(m: seq<byte>, r: RR, s: Spot, held: set<nat>) {
    && s.off < s.len && s.len + 2 <= s.end && s.len + 2 <= |m| && s.end - (s.len + 2) <= 0xFFFF
    && FieldsAt(m, s.off, HeadFields(r), s.heads, held) && End(s.off, s.heads) == s.len
    && m[s.len..s.len + 2] == BigEndian(s.end - (s.len + 2), 2) && s.len in held && s.len + 1 in held
    && FieldsAt(m, s.len + 2, r.rdata, s.ends, held) && End(s.len + 2, s.ends) == s.end
  }

  lemma RecordStays(m: seq<byte>, m1: seq<byte>, r: RR, s: Spot, held: set<nat>, more: set<nat>)
    requires RecordAt(m, r, s, held) && Agrees(m, m1, held) && held <= more
    ensures RecordAt(m1, r, s, more)
  {
    hide FieldsAt, HeadFields;
    FieldsStay(m, m1, s.off, HeadFields(r), s.heads, held, more);
    FieldsStay(m, m1, s.len + 2, r.rdata, s.ends, held, more);
    assert s.len + 1 < |m1|;
    assert m1[s.len..s.len + 2] == m[s.len..s.len + 2];
  }

  /** Of the modelled types, only those of one field hold strings or addresses. */
  lemma LayoutLoners(rrtype: nat, fs: seq<Field>)
    requires Layout(rrtype) == Some(KindsOf(fs))
    ensures Loners(fs)
  {
    forall i | 0 <= i < |fs| && (fs[i].Strings? || fs[i].Ip4? || fs[i].Ip6?) ensures |fs| == 1 {
      assert KindsOf(fs)[i] == KindOf(fs[i]);
    }
  }

  lemma HeadLoners(r: RR)
    ensures var fs := HeadFields(r);
            Loners(fs) && !exists i :: 0 <= i < 4 && (fs[i].Strings? || fs[i].Ip4? || fs[i].Ip6?)
    ensures KindsOf(HeadFields(r)) == HEAD_KINDS
  {
  }

  lemma {:induction false} ReadConcat(a: seq<Kind>, b: seq<Kind>, m: seq<byte>, off: nat, end: nat)
    ensures var g := ReadFields(a, m, off, end);
            ReadFields(a + b, m, off, end) == if g.GotAll? then Following(g.fields, ReadFields(b, m, g.off, end)) else LostAll
    decreases |a|
  {
    hide ReadField;
    if a == [] {
      assert a + b == b;
      var g := ReadFields(b, m, off, end);
      assert g.GotAll? ==> [] + g.fields == g.fields;
    } else {
      assert (a + b)[0] == a[0] && (a + b)[1..] == a[1..] + b;
      var g := ReadField(a[0], m, off, end);
      if g.Got? {
        ReadConcat(a[1..], b, m, g.off, end);
        ReadTwice(g.field, a[1..], b, m, g.off, end);
      }
    }
  }

  lemma ReadTwice(f: Field, a: seq<Kind>, b: seq<Kind>, m: seq<byte>, off: nat, end: nat)
    ensures var g := ReadFields(a, m, off, end);
            g.GotAll? ==>
              Following([f], Following(g.fields, ReadFields(b, m, g.off, end)))
              == Following([f] + g.fields, ReadFields(b, m, g.off, end))
  {
    var g := ReadFields(a, m, off, end);
    if g.GotAll? {
      var h := ReadFields(b, m, g.off, end);
      if h.GotAll? {
        assert [f] + (g.fields + h.fields) == [f] + g.fields + h.fields;
      }
    }
  }

  /** The length that was filled in is exactly the one that is checked. */
  lemma RecordIsRead(m: seq<byte>, r: RR, s: Spot, held: set<nat>)
    requires RecordAt(m, r, s, held) && CanonicalRecord(r, false)
    ensures ReadRecord(m, s.off) == RecordRead(r.(rdlength := s.end - (s.len + 2)), s.end) && s.end <= |m|
  {
    hide FieldsAt, ReadFields, CanonicalFields, KindsOf, Loners, End, Layout, FieldsLen, Value;
    HeadLoners(r);
    FieldsAreRead(m, s.off, HeadFields(r), s.heads, held, 0);
    LengthIsRead(m, s.len, s.end - (s.len + 2));
    ReadConcat(HEAD_KINDS, [KUint16], m, s.off, 0);
    LayoutLoners(r.rrtype, r.rdata);
    FieldsAreRead(m, s.len + 2, r.rdata, s.ends, held, s.end);
    var h := HeadFields(r) + [Uint16(s.end - (s.len + 2))];
    assert ReadFields(HEAD_KINDS + [KUint16], m, s.off, 0) == GotAll(h, s.len + 2);
  }

  lemma LengthIsRead(m: seq<byte>, p: nat, n: nat)
    requires p + 2 <= |m| && n <= 0xFFFF && m[p..p + 2] == BigEndian(n, 2)
    ensures ReadFields([KUint16], m, p, 0) == GotAll([Uint16(n)], p + 2)
  {
    PowersOf256();
    ValueOfBigEndian(n, 2);
    hide Value, BigEndian;
    assert ReadField(KUint16, m, p, 0) == Got(Uint16(n), p + 2);
    assert ReadFields([KUint16][1..], m, p + 2, 0) == GotAll([], p + 2);
    assert [Uint16(n)] + [] == [Uint16(n)];
  }

  // ---------------------------------------------------------------- packing a record

  lemma {:induction false} EmitConcat(a: seq<Field>, b: seq<Field>, size: nat, off: nat, known: Suffixes, compress: bool)
    ensures var e := EmitFields(a, size, off, known, compress);
            EmitFields(a + b, size, off, known, compress) ==
              if e.Emitted? then Next(e.out, EmitFields(b, size, off + |e.out|, e.known, compress)) else e
    decreases |a|
  {
    hide EmitField;
    if a == [] {
      assert a + b == b;
      EmitFirst(b, size, off, known, compress);
      assert b[0..] == b;
    } else {
      assert (a + b)[0] == a[0] && (a + b)[1..] == a[1..] + b;
      var e := EmitField(a[0], size, off, known, compress);
      if e.Emitted? {
        EmitConcat(a[1..], b, size, off + |e.out|, e.known, compress);
        var more := EmitFields(a[1..], size, off + |e.out|, e.known, compress);
        if more.Emitted? {
          EmitTwice(e.out, more, b, size, off + |e.out|, compress);
        }
      }
    }
  }

  lemma EmitTwice(out: seq<byte>, e: Emitted, b: seq<Field>, size: nat, off: nat, compress: bool)
    requires e.Emitted?
    ensures var rest := EmitFields(b, size, off + |e.out|, e.known, compress);
            Next(out, Next(e.out, rest)) == Next(out + e.out, rest)
  {
    var rest := EmitFields(b, size, off + |e.out|, e.known, compress);
    if rest.Emitted? {
      assert out + (e.out + rest.out) == out + e.out + rest.out;
    }
  }

  lemma {:induction false} LenConcat(a: seq<Field>, b: seq<Field>)
    ensures FieldsLen(a + b) == FieldsLen(a) + FieldsLen(b)
  {
    if a == [] {
      assert a + b == b;
    } else {
      assert (a + b)[1..] == a[1..] + b;
      LenConcat(a[1..], b);
    }
  }

  /** The walk over the name that was just written stops where the name ends. */
  lemma {:induction false} SkipSpelled(m: seq<byte>, off: nat, labels: seq<Label>, held: set<nat>)
    requires Spells(m, off, labels, held)
    ensures SkipName(m, off) == Some(NameEnd(m, off, labels, held))
    decreases |labels|
  {
    if labels != [] && m[off] < 192 {
      SkipSpelled(m, off + 1 + m[off], labels[1..], held);
    }
  }

  lemma {:induction false} SkipWire(m: seq<byte>, off: nat, labels: seq<Label>)
    requires LabelsOk(labels) && Written(m, off, WireName(labels))
    ensures SkipName(m, off) == Some(off + |WireName(labels)|)
    decreases |labels|
  {
    hide Written;
    if labels == [] {
      WireRoot();
      WrittenSlice(m, off, [0]);
      assert m[off] == m[off..off + 1][0];
    } else {
      WireNameStep(labels);
      hide WireName;
      var l := labels[0];
      WrittenParts(m, off, WireLabel(l), WireName(labels[1..]));
      WrittenSlice(m, off, WireLabel(l));
      assert m[off] == m[off..off + 1 + |l|][0];
      SkipWire(m, off + 1 + |l|, labels[1..]);
    }
  }

  lemma SkipHead(m: seq<byte>, off: nat, r: RR, heads: seq<nat>, held: set<nat>)
    requires FieldsAt(m, off, HeadFields(r), heads, held)
    ensures SkipName(m, off).Some? && End(off, heads) == SkipName(m, off).value + 8
    ensures off < SkipName(m, off).value
  {
    hide LabelsOf, CanonicalName, BigEndian, Written, Spells, NameEnd;
    assert heads[..0] == [] && heads[..1] == [heads[0]] && heads[..2] == heads[..1] + [heads[1]]
           && heads[..3] == heads[..2] + [heads[2]];
    var labels := LabelsOf(r.name);
    assert FieldAt(m, off, HeadFields(r)[0], heads[0], held);
    assert NameAt(m, off, labels, heads[0], held);
    SkipNameAt(m, off, labels, heads[0], held);
    assert FieldAt(m, heads[0], HeadFields(r)[1], heads[1], held);
    assert FieldAt(m, heads[1], HeadFields(r)[2], heads[2], held);
    assert FieldAt(m, heads[2], HeadFields(r)[3], heads[3], held);
  }

  lemma SkipNameAt(m: seq<byte>, off: nat, labels: seq<Label>, end: nat, held: set<nat>)
    requires NameAt(m, off, labels, end, held)
    ensures SkipName(m, off) == Some(end) && off < end
  {
    hide WireName, Written;
    if Spells(m, off, labels, held) && NameEnd(m, off, labels, held) == end && |labels| <= Up.MAX_POINTERS {
      SkipSpelled(m, off, labels, held);
      EndIsLater(m, off, labels, held);
    } else {
      SkipWire(m, off, labels);
    }
  }

  lemma {:induction false} EndIsLater(m: seq<byte>, off: nat, labels: seq<Label>, held: set<nat>)
    requires Spells(m, off, labels, held)
    ensures off < NameEnd(m, off, labels, held)
    decreases |labels|
  {
    if labels != [] && m[off] < 192 {
      EndIsLater(m, off + 1 + m[off], labels[1..], held);
    }
  }

  /** The parts of a packed record: what is before its length, and what is behind. */
  lemma RecordIsEmitted(r: RR, size: nat, off: nat, known: Suffixes, compress: bool) returns (heads: Emitted, data: Emitted)
    requires CanonicalRecord(r, compress) && off + RecordLen(r) < size
    ensures heads == EmitFields(HeadFields(r), size, off, known, compress) && heads.Emitted?
    ensures data == EmitFields(r.rdata, size, off + |heads.out| + 2, heads.known, compress) && data.Emitted?
    ensures |heads.out| <= FieldsLen(HeadFields(r)) && |data.out| <= FieldsLen(r.rdata) && |data.out| <= FieldsWireLen(r.rdata)
    ensures EmitFields(RecordFields(r), size, off, known, compress)
            == Emitted(heads.out + (BigEndian(r.rdlength, 2) + data.out), data.known)
  {
    hide EmitFields, CanonicalFields, BigEndian, HeadFields, FieldsLen, FieldsWireLen, Layout, RecordLen;
    var hs, len := HeadFields(r), [Uint16(r.rdlength)];
    RecordLenIs(r);
    FieldsAreEmitted(hs, size, off, known, compress);
    heads := EmitFields(hs, size, off, known, compress);
    var p := off + |heads.out|;
    FieldsAreEmitted(r.rdata, size, p + 2, heads.known, compress);
    data := EmitFields(r.rdata, size, p + 2, heads.known, compress);
    assert RecordFields(r) == hs + (len + r.rdata);
    EmitConcat(hs, len + r.rdata, size, off, known, compress);
    EmitConcat(len, r.rdata, size, p, heads.known, compress);
    LengthIsEmitted(r.rdlength, size, p, heads.known, compress);
  }

  lemma OneLen(f: Field)
    ensures FieldsLen([f]) == FieldLen(f) && (f.Uint16? ==> FieldLen(f) == 2)
  {
    assert [f][1..] == [];
  }

  lemma LengthIsEmitted(n: nat, size: nat, off: nat, known: Suffixes, compress: bool)
    requires off + 2 <= size
    ensures EmitFields([Uint16(n)], size, off, known, compress) == Emitted(BigEndian(n, 2), known)
  {
    hide BigEndian;
    assert [Uint16(n)][1..] == [];
    assert BigEndian(n, 2) + [] == BigEndian(n, 2);
  }

  /** Filling in the length of a record that has just been packed. */
  lemma LengthIsSet(mid: seq<byte>, off: nat, r: RR, heads: seq<nat>, p: nat, end: nat, held: set<nat>)
    requires FieldsAt(mid, off, HeadFields(r), heads, held) && End(off, heads) == p
    requires p + 2 <= end <= |mid| && end - (p + 2) <= 0xFFFF && p !in held && p + 1 !in held
    ensures var s := SetRdlength(mid, off, end);
            && s.Some? && |s.value| == |mid| && Agrees(mid, s.value, held) && off < p
            && s.value[p..p + 2] == BigEndian(end - (p + 2), 2)
            && Untouched(mid, s.value, p)
  {
    SkipHead(mid, off, r, heads, held);
    hide FieldsAt, HeadFields, SkipName;
    var n := end - (p + 2);
    assert BigEndian(n / 256, 1) == BigEndian(n / 256 / 256, 0) + [n / 256 % 256];
    assert BigEndian(n, 2) == [n / 256 % 256, n % 256];
    var m := SetRdlength(mid, off, end).value;
    assert m[p..p + 2] == [n / 256 % 256, n % 256];
  }

  lemma TableAgrees(m: seq<byte>, m1: seq<byte>, known: Suffixes, held: set<nat>, more: set<nat>)
    requires TrueTable(m, known, held) && Agrees(m, m1, held) && held <= more
    ensures TrueTable(m1, known, more)
  {
    hide Spells, Cut;
    forall k | k in known ensures TrueEntry(m1, k, known[k], more) {
      EntryAt(m, k, known[k], held);
      SpellsStill(m, m1, known[k], Cut(k), held, more);
    }
  }

  /** A record that has been packed at off, and its length filled in. */
  lemma RecordIsPacked(r: RR, size: nat, off: nat, known: Suffixes, compress: bool,
                       m0: seq<byte>, mid: seq<byte>, held: set<nat>) returns (e: Emitted, s: Spot, m: seq<byte>)
    requires CanonicalRecord(r, compress) && off + RecordLen(r) < size == |mid|
    requires Ready(m0, off, known, compress, held) && Untouched(m0, mid, off)
    requires var e := EmitFields(RecordFields(r), size, off, known, compress); e.Emitted? && Written(mid, off, e.out)
    ensures e == EmitFields(RecordFields(r), size, off, known, compress) && e.Emitted? && |e.out| <= RecordLen(r)
    ensures SetRdlength(mid, off, s.end) == Some(m) && |m| == size
    ensures s.off == off && s.end == off + |e.out| && RecordAt(m, r, s, held + Range(off, |e.out|))
    ensures Ready(m, s.end, e.known, compress, held + Range(off, |e.out|)) && Agrees(m0, m, held)
  {
    hide EmitFields, CanonicalFields, Ready, Untouched, Written, FieldsAt, HeadFields, End, SetRdlength, FieldsLen, FieldsWireLen, BigEndian,
         RecordLen, RecordFields, Layout, Agrees;
    RecordLenIs(r);
    ReadyHeld(m0, off, known, compress, held);
    var heads, data := RecordIsEmitted(r, size, off, known, compress);
    var p := off + |heads.out|;
    var end := p + 2 + |data.out|;
    WrittenParts(mid, off, heads.out, BigEndian(r.rdlength, 2) + data.out);
    WrittenParts(mid, p, BigEndian(r.rdlength, 2), data.out);
    var hends := FieldsArePacked(HeadFields(r), size, off, known, compress, m0, mid, held);
    var held1 := held + Range(off, |heads.out|);
    NothingWritten(mid);
    ReadyMore(mid, mid, p, heads.known, compress, held1, 2, held1);
    var ends := FieldsArePacked(r.rdata, size, p + 2, heads.known, compress, mid, mid, held1);
    var held2 := held1 + Range(p + 2, |data.out|);
    ReadyHeld(mid, p, heads.known, compress, held1);
    SelfAgrees(mid, held1);
    FieldsStay(mid, mid, off, HeadFields(r), hends, held1, held2);
    LengthIsSet(mid, off, r, hends, p, end, held2);
    e, s, m := EmitFields(RecordFields(r), size, off, known, compress), Spot(off, p, end, hends, ends), SetRdlength(mid, off, end).value;
    RecordSettles(r, s, compress, data.known, mid, m, held, held2);
    AgreeTwice(m0, mid, m, off, known, compress, held, held2);
  }

  lemma RecordLenIs(r: RR)
    ensures RecordLen(r) == FieldsLen(HeadFields(r)) + 2 + FieldsLen(r.rdata)
  {
    hide FieldLen, FieldsLen;
    LenConcat(HeadFields(r) + [Uint16(r.rdlength)], r.rdata);
    LenConcat(HeadFields(r), [Uint16(r.rdlength)]);
    OneLen(Uint16(r.rdlength));
  }

  lemma ReadyHeld(m: seq<byte>, off: nat, known: Suffixes, compress: bool, held: set<nat>)
    requires Ready(m, off, known, compress, held)
    ensures Before(held, off)
  {
  }

  /** With its length filled in, the record is complete and all of it may be held. */
  lemma RecordSettles(r: RR, s: Spot, compress: bool, known: Suffixes, mid: seq<byte>, m: seq<byte>, held: set<nat>, held2: set<nat>)
    requires s.off < s.len && s.len + 2 <= s.end <= |mid| == |m| && s.end - (s.len + 2) <= 0xFFFF
    requires held2 == held + Range(s.off, s.len - s.off) + Range(s.len + 2, s.end - (s.len + 2))
    requires FieldsAt(mid, s.off, HeadFields(r), s.heads, held2) && End(s.off, s.heads) == s.len
    requires FieldsAt(mid, s.len + 2, r.rdata, s.ends, held2) && End(s.len + 2, s.ends) == s.end
    requires Agrees(mid, m, held2) && m[s.len..s.len + 2] == BigEndian(s.end - (s.len + 2), 2)
    requires Ready(mid, s.end, known, compress, held2) && Before(held, s.off)
    ensures var all := held + Range(s.off, s.end - s.off);
            RecordAt(m, r, s, all) && Ready(m, s.end, known, compress, all)
  {
    hide FieldsAt, HeadFields, End, Agrees, TrueTable, BigEndian;
    var all := held + Range(s.off, s.end - s.off);
    assert held2 <= all;
    FieldsStay(mid, m, s.off, HeadFields(r), s.heads, held2, all);
    FieldsStay(mid, m, s.len + 2, r.rdata, s.ends, held2, all);
    if compress {
      TableAgrees(mid, m, known, held2, all);
    }
  }

  lemma AgreeTwice(m0: seq<byte>, mid: seq<byte>, m: seq<byte>, off: nat, known: Suffixes, compress: bool, held: set<nat>, held2: set<nat>)
    requires Ready(m0, off, known, compress, held) && Untouched(m0, mid, off) && Agrees(mid, m, held2) && held <= held2
    ensures Agrees(m0, m, held)
  {
  }
}