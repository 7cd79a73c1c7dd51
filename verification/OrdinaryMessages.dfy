/**
 Records and messages in the terms of the standards: types by their numbers (RFC 1035 section 3.2.2,
 RFC 3596, RFC 2782), data by their fields, names that stand for themselves. They are packed and read back.
 */
module OrdinaryMessages {
  import opened Bytes
  import opened DomainNames
  import opened NamePacker
  import opened Compression
  import opened CharStrings
  import opened Fields
  import opened FieldRoundTrip
  import opened Records
  import opened MsgHeader
  import opened Messages
  import opened PlainNames

  /** A name of at most ten labels of plain bytes. */
  ghost predicate HostName(t: Text) {
    exists labels: seq<Label> :: PlainName(labels) && |labels| <= 10 && t == Dotted(labels)
  }

  ghost predicate Address4(fs: seq<Field>) {
    |fs| == 1 && fs[0].Ip4? && |fs[0].ip| == 16 && fs[0].ip[..12] == [0, 0, 0, 0, 0, 0, 0, 0, 0, 0, 255, 255]
  }

  ghost predicate Address6(fs: seq<Field>) {
    |fs| == 1 && fs[0].Ip6? && |fs[0].ip| == 16
  }

  ghost predicate OneName(fs: seq<Field>) {
    |fs| == 1 && fs[0].Domain? && fs[0].share && HostName(fs[0].text)
  }

  ghost predicate Exchange(fs: seq<Field>) {
    |fs| == 2 && fs[0].Uint16? && fs[0].v < 65536 && fs[1].Domain? && fs[1].share && HostName(fs[1].text)
  }

  ghost predicate Service(fs: seq<Field>) {
    && |fs| == 4 && fs[0].Uint16? && fs[0].v < 65536 && fs[1].Uint16? && fs[1].v < 65536 && fs[2].Uint16? && fs[2].v < 65536
    && fs[3].Domain? && !fs[3].share && HostName(fs[3].text)
  }

  ghost predicate Texts(fs: seq<Field>) {
    |fs| == 1 && fs[0].Strings? && (forall i :: 0 <= i < |fs[0].ss| ==> PlainString(fs[0].ss[i])) && Room(fs[0].ss) <= 65535
  }

  /** Each string takes its bytes and one more. */
  function Room(ss: seq<Text>): nat {
    if ss == [] then 0 else 1 + |ss[0]| + Room(ss[1..])
  }

  /** A, NS, CNAME, PTR, MX, TXT, AAAA and SRV records. */
  ghost predicate Ordinary(r: RR) {
    && HostName(r.name) && r.cls < 65536 && r.ttl < 0x1_0000_0000
    && ((r.rrtype == 1 && Address4(r.rdata))
        || (r.rrtype == 2 && OneName(r.rdata))
        || (r.rrtype == 5 && OneName(r.rdata))
        || (r.rrtype == 12 && OneName(r.rdata))
        || (r.rrtype == 15 && Exchange(r.rdata))
        || (r.rrtype == 16 && Texts(r.rdata))
        || (r.rrtype == 28 && Address6(r.rdata))
        || (r.rrtype == 33 && Service(r.rdata)))
  }

  lemma HostNameFits(t: Text)
    requires HostName(t)
    ensures CompressibleName(t) && CanonicalName(t) && NameWireLen(LabelsOf(t)) <= 641
  {
    var labels: seq<Label> :| PlainName(labels) && |labels| <= 10 && t == Dotted(labels);
    PlainIsCompressible(labels);
    WireBound(labels);
  }

  lemma {:induction false} WireBound(labels: seq<Label>)
    requires PlainName(labels)
    ensures NameWireLen(labels) <= 64 * |labels| + 1
  {
    if labels != [] {
      WireBound(labels[1..]);
    }
  }

  lemma {:induction false} RoomIsWire(ss: seq<Text>)
    requires forall i :: 0 <= i < |ss| ==> PlainString(ss[i])
    ensures CanonicalStrings(ss) && StringsWireSize(ss) == Room(ss)
  {
    if ss != [] {
      PlainStringIsCanonical(ss[0]);
      RoomIsWire(ss[1..]);
      forall i | 0 <= i < |ss| ensures CanonicalString(ss[i]) {
        PlainStringIsCanonical(ss[i]);
      }
    }
  }

  lemma OrdinaryFields(fs: seq<Field>, compress: bool)
    ensures Address4(fs) || Address6(fs) || OneName(fs) || Exchange(fs) || Service(fs) || Texts(fs) ==>
              CanonicalFields(fs, compress) && FieldsWireLen(fs) <= 65535
  {
    hide CanonicalName, CompressibleName, HostName, CanonicalStrings, PlainString;
    if OneName(fs) || Exchange(fs) || Service(fs) {
      HostNameFits(fs[|fs| - 1].text);
      WireOf(fs);
    } else if Texts(fs) {
      RoomIsWire(fs[0].ss);
      WireOf(fs);
    } else if Address4(fs) || Address6(fs) {
      WireOf(fs);
    }
  }

  lemma WireOf(fs: seq<Field>)
    ensures |fs| == 1 ==> FieldsWireLen(fs) == WireLen(fs[0])
    ensures |fs| == 2 ==> FieldsWireLen(fs) == WireLen(fs[0]) + WireLen(fs[1])
    ensures |fs| == 4 ==> FieldsWireLen(fs) == WireLen(fs[0]) + WireLen(fs[1]) + WireLen(fs[2]) + WireLen(fs[3])
  {
    hide WireLen;
    if |fs| >= 2 {
      WireOf(fs[2..]);
      assert FieldsWireLen(fs) == WireLen(fs[0]) + (WireLen(fs[1]) + FieldsWireLen(fs[1..][1..]));
      assert fs[1..][1..] == fs[2..];
    }
  }

  lemma OrdinaryKinds(r: RR)
    requires Ordinary(r)
    ensures Layout(r.rrtype) == Some(KindsOf(r.rdata))
  {
    hide HostName;
    var ks := KindsOf(r.rdata);
    assert |ks| == |r.rdata| && forall i :: 0 <= i < |ks| ==> ks[i] == KindOf(r.rdata[i]);
    assert |ks| == 1 ==> ks == [ks[0]];
    assert |ks| == 2 ==> ks == [ks[0], ks[1]];
    assert |ks| == 4 ==> ks == [ks[0], ks[1], ks[2], ks[3]];
  }

  lemma OrdinaryIsCanonical(r: RR, compress: bool)
    requires Ordinary(r)
    ensures CanonicalRecord(r, compress)
  {
    OrdinaryKinds(r);
    OrdinaryFields(r.rdata, compress);
    HostNameFits(r.name);
    hide CanonicalName, CompressibleName, HostName, Layout, KindsOf, CanonicalFields;
    HeadIsCanonical(r, compress);
  }

  lemma HeadIsCanonical(r: RR, compress: bool)
    requires CompressibleName(r.name) && CanonicalName(r.name) && r.cls < 65536 && r.ttl < 0x1_0000_0000 && r.rrtype < 65536
    ensures CanonicalFields(HeadFields(r), compress)
  {
    hide CanonicalName, CompressibleName;
  }

  /** A record is packed, and what has been packed is read: it is the same but for the length, which is that of the data. */
  method RecordTrip(r: RR, compress: bool) returns (back: RR, end: nat)
    requires Ordinary(r)
    ensures back == r.(rdlength := back.rdlength)
  {
    hide *;
    OrdinaryIsCanonical(r, compress);
    OrdinaryIsCanonical(r, false);
    var msg := new byte[RecordLen(r) + 1](_ => 0);
    ghost var m0 := msg[..];
    NothingYet(m0, compress);
    var _, _ := RecordIsEmitted(r, |m0|, 0, map[], compress);
    var err, known;
    ghost var mid;
    end, err, known, mid := PackRR(r, msg, 0, map[], compress);
    StaysUntouched(m0, mid);
    var e, s, m := RecordIsPacked(r, |m0|, 0, map[], compress, m0, mid, {});
    RecordIsRead(m, r, s, {} + Range(0, |e.out|));
    var read := UnpackRR(msg, 0);
    back := read.rr;
  }

  lemma NothingYet(m: seq<byte>, compress: bool)
    ensures Ready(m, 0, map[], compress, {})
  {
  }

  lemma StaysUntouched(m0: seq<byte>, mid: seq<byte>)
    requires Untouched(m0, mid, 0)
    ensures |mid| == |m0|
  {
  }

  // ---------------------------------------------------------------- messages

  ghost predicate AllOrdinary(rrs: seq<RR>) {
    |rrs| < 65536 && forall i :: 0 <= i < |rrs| ==> Ordinary(rrs[i])
  }

  ghost predicate OrdinaryMsg(d: Msg) {
    && d.hdr.id < 65536 && 0 <= d.hdr.opcode < 16 && 0 <= d.hdr.rcode < 16 && !d.hdr.truncated
    && |d.question| < 65536
    && (forall i :: 0 <= i < |d.question| ==>
          HostName(d.question[i].name) && d.question[i].qtype < 65536 && d.question[i].qclass < 65536)
    && AllOrdinary(d.answer) && AllOrdinary(d.ns) && AllOrdinary(d.extra)
  }

  lemma QuestionIsCanonical(q: Question, compress: bool)
    requires HostName(q.name) && q.qtype < 65536 && q.qclass < 65536
    ensures CanonicalFields(QuestionFields(q), compress)
  {
    HostNameFits(q.name);
    hide CanonicalName, CompressibleName, HostName;
  }

  lemma AllCanonical(rrs: seq<RR>, compress: bool)
    requires AllOrdinary(rrs)
    ensures CanonicalRecords(rrs, compress)
  {
    hide Ordinary, CanonicalRecord;
    forall i | 0 <= i < |rrs| ensures CanonicalRecord(rrs[i], compress) {
      OrdinaryIsCanonical(rrs[i], compress);
    }
  }

  lemma OrdinaryMsgIsCanonical(d: Msg)
    requires OrdinaryMsg(d)
    ensures CanonicalMsg(d)
  {
    hide HostName, CanonicalFields, CanonicalRecords;
    forall i | 0 <= i < |d.question| ensures CanonicalFields(QuestionFields(d.question[i]), d.compress) {
      QuestionIsCanonical(d.question[i], d.compress);
    }
    AllCanonical(d.answer, d.compress);
    AllCanonical(d.ns, d.compress);
    AllCanonical(d.extra, d.compress);
  }

  /** A message of ordinary records is packed, with compression or without, and read back as itself. */
  method MsgTrip(d: Msg) returns (back: Msg)
    requires OrdinaryMsg(d)
    ensures back.hdr == d.hdr && back.question == d.question
    ensures SameButLengths(d.answer, back.answer) && SameButLengths(d.ns, back.ns) && SameButLengths(d.extra, back.extra)
  {
    hide *;
    OrdinaryMsgIsCanonical(d);
    var buf := new byte[0];
    var packed, err := PackBuffer(d, buf);
    var msg := new byte[|packed|](i requires 0 <= i < |packed| => packed[i]);
    assert msg[..] == packed;
    var read := Unpack(msg);
    back := read.msg;
    SameParts(d, back);
  }

  lemma SameParts(d: Msg, e: Msg)
    requires SameMsg(d, e)
    ensures e.hdr == d.hdr && e.question == d.question
    ensures SameButLengths(d.answer, e.answer) && SameButLengths(d.ns, e.ns) && SameButLengths(d.extra, e.extra)
  {
  }

  // ---------------------------------------------------------------- the header word and numbers

  function Bit(on: bool, weight: nat): nat {
    if on then weight else 0
  }

  /** Section 4.1.1 of RFC 1035: where the flags stand in the second word. */
  lemma HeaderWord(h: MsgHdr)
    requires 0 <= h.opcode < 16 && 0 <= h.rcode < 16
    ensures Bits(h) ==
            Bit(h.response, 32768) + 2048 * h.opcode + Bit(h.authoritative, 1024) + Bit(h.truncated, 512)
            + Bit(h.recursionDesired, 256) + Bit(h.recursionAvailable, 128) + Bit(h.zero, 64)
            + Bit(h.authenticatedData, 32) + Bit(h.checkingDisabled, 16) + h.rcode
  {
    hide Bits, Left, Middle, Right, Flag, Bit;
    BitsAre(h);
    LeftWord(h);
    MiddleWord(h);
    RightWord(h);
  }

  lemma LeftWord(h: MsgHdr)
    requires 0 <= h.opcode < 16
    ensures 512 * Left(h) == Bit(h.response, 32768) + 2048 * h.opcode + Bit(h.authoritative, 1024) + Bit(h.truncated, 512)
  {
  }

  lemma MiddleWord(h: MsgHdr)
    requires 0 <= h.opcode < 16
    ensures 64 * Middle(h) ==
            512 * Left(h) + Bit(h.recursionDesired, 256) + Bit(h.recursionAvailable, 128) + Bit(h.zero, 64)
  {
    hide Left;
  }

  lemma RightWord(h: MsgHdr)
    requires 0 <= h.opcode < 16
    ensures 16 * Right(h) == 64 * Middle(h) + Bit(h.authenticatedData, 32) + Bit(h.checkingDisabled, 16)
  {
    hide Middle;
  }

  /** Numbers go with their highest byte first. */
  lemma NumberBytes(n: nat)
    ensures BigEndian(n, 2) == [n / 256 % 256, n % 256]
    ensures BigEndian(n, 4) == [n / 256 / 256 / 256 % 256, n / 256 / 256 % 256, n / 256 % 256, n % 256]
  {
    assert BigEndian(n, 4) == BigEndian(n / 256, 3) + [n % 256];
    assert BigEndian(n / 256, 3) == BigEndian(n / 256 / 256, 2) + [n / 256 % 256];
    TwoBytes(n / 256 / 256);
    TwoBytes(n);
  }

  lemma TwoBytes(n: nat)
    ensures BigEndian(n, 2) == [n / 256 % 256, n % 256]
  {
    assert BigEndian(n, 2) == BigEndian(n / 256, 1) + [n % 256];
    assert BigEndian(n / 256, 1) == BigEndian(n / 256 / 256, 0) + [n / 256 % 256];
  }

  function Bytes2(n: nat): seq<nat> {
    [n / 256 % 256, n % 256]
  }

  function Bytes4(n: nat): seq<nat> {
    [n / 256 / 256 / 256 % 256, n / 256 / 256 % 256, n / 256 % 256, n % 256]
  }

  /** Numbers one behind the other. */
  lemma {:induction false} NumbersOnWire(fs: seq<Field>, size: nat, off: nat, known: Suffixes, compress: bool)
    requires forall i :: 0 <= i < |fs| ==> fs[i].Uint16? || fs[i].Uint32?
    ensures var e := EmitFields(fs, size, off, known, compress);
            e.Emitted? ==> e.known == known && e.out == Numbers(fs)
    decreases |fs|
  {
    hide BigEndian;
    if fs != [] {
      NumberBytes(fs[0].v);
      NumbersOnWire(fs[1..], size, off + |BigEndian(fs[0].v, if fs[0].Uint16? then 2 else 4)|, known, compress);
    }
  }

  function Numbers(fs: seq<Field>): seq<nat>
    requires forall i :: 0 <= i < |fs| ==> fs[i].Uint16? || fs[i].Uint32?
  {
    if fs == [] then [] else (if fs[0].Uint16? then Bytes2(fs[0].v) else Bytes4(fs[0].v)) + Numbers(fs[1..])
  }

  /** Section 4.1.1: the six words of the header. */
  lemma HeaderOnWire(d: Msg, size: nat)
    ensures var e := EmitFields(HeaderFields(d), size, 0, map[], d.compress);
            e.Emitted? ==>
              e.out == Bytes2(d.hdr.id) + Bytes2(Bits(d.hdr)) + Bytes2(|d.question| % 65536) + Bytes2(|d.answer| % 65536)
                       + Bytes2(|d.ns| % 65536) + Bytes2(|d.extra| % 65536)
  {
    hide Bits, EmitFields;
    var fs := HeaderFields(d);
    NumbersOnWire(fs, size, 0, map[], d.compress);
    SixNumbers(fs);
  }

  lemma SixNumbers(fs: seq<Field>)
    requires |fs| == 6 && forall i :: 0 <= i < 6 ==> fs[i].Uint16?
    ensures Numbers(fs) == Bytes2(fs[0].v) + Bytes2(fs[1].v) + Bytes2(fs[2].v) + Bytes2(fs[3].v) + Bytes2(fs[4].v) + Bytes2(fs[5].v)
  {
    hide Bytes2, Numbers;
    NumbersFrom(fs, 0);
    NumbersFrom(fs, 1);
    NumbersFrom(fs, 2);
    NumbersFrom(fs, 3);
    NumbersFrom(fs, 4);
    NumbersFrom(fs, 5);
    assert fs[0..] == fs;
  }

  lemma NumbersFrom(fs: seq<Field>, i: nat)
    requires i < |fs| && forall i :: 0 <= i < |fs| ==> fs[i].Uint16?
    ensures Numbers(fs[i..]) == Bytes2(fs[i].v) + Numbers(fs[i + 1..]) && (i + 1 == |fs| ==> Numbers(fs[i + 1..]) == [])
  {
    assert fs[i..][1..] == fs[i + 1..];
  }

  /** Section 4.1.2: the name, the type and the class. */
  lemma QuestionOnWire(q: Question, size: nat, off: nat, known: Suffixes, compress: bool) returns (name: Packed)
    requires EmitFields(QuestionFields(q), size, off, known, compress).Emitted?
    ensures name.Packed?
    ensures EmitFields(QuestionFields(q), size, off, known, compress).out == name.out + (Bytes2(q.qtype) + Bytes2(q.qclass))
    ensures name == Pack(q.name, size, off, known, compress)
  {
    hide Pack, EmitFields, Bytes2, BigEndian;
    var f, ns := Domain(q.name, true), [Uint16(q.qtype), Uint16(q.qclass)];
    assert QuestionFields(q) == [f] + ns;
    EmitConcat([f], ns, size, off, known, compress);
    OneOnWire(f, size, off, known, compress);
    name := Pack(q.name, size, off, known, compress);
    NumbersOnWire(ns, size, off + |name.out|, name.known, compress);
    NumbersFrom(ns, 0);
    NumbersFrom(ns, 1);
    assert ns[0..] == ns && Bytes2(q.qclass) + [] == Bytes2(q.qclass);
  }

  /** Section 4.1.3: the name, the type, the class, four bytes for how long it may be kept, the length, and the data. */
  lemma RecordOnWire(r: RR, size: nat, off: nat, known: Suffixes, compress: bool) returns (name: Packed, data: Emitted)
    requires EmitFields(RecordFields(r), size, off, known, compress).Emitted?
    ensures name.Packed? && data.Emitted?
    ensures EmitFields(RecordFields(r), size, off, known, compress).out ==
            name.out + (Bytes2(r.rrtype) + Bytes2(r.cls) + Bytes4(r.ttl) + Bytes2(r.rdlength) + data.out)
    ensures data == EmitFields(r.rdata, size, off + |name.out| + 10, name.known, compress)
    ensures name == Pack(r.name, size, off, known, compress)
  {
    hide Pack, EmitFields, Bytes2, Bytes4, BigEndian;
    var f, ns := Domain(r.name, true), [Uint16(r.rrtype), Uint16(r.cls), Uint32(r.ttl), Uint16(r.rdlength)];
    assert RecordFields(r) == [f] + (ns + r.rdata);
    EmitConcat([f], ns + r.rdata, size, off, known, compress);
    OneOnWire(f, size, off, known, compress);
    name := Pack(r.name, size, off, known, compress);
    EmitConcat(ns, r.rdata, size, off + |name.out|, name.known, compress);
    NumbersOnWire(ns, size, off + |name.out|, name.known, compress);
    FourNumbers(ns);
    data := EmitFields(r.rdata, size, off + |name.out| + 10, name.known, compress);
  }

  lemma OneOnWire(f: Field, size: nat, off: nat, known: Suffixes, compress: bool)
    ensures EmitFields([f], size, off, known, compress) ==
            match EmitField(f, size, off, known, compress)
            case Emitted(out, more) => Emitted(out, more)
            case Faulty(e) => Faulty(e)
  {
    hide EmitField;
    assert [f][1..] == [];
    var e := EmitField(f, size, off, known, compress);
    if e.Emitted? {
      assert e.out + [] == e.out;
    }
  }

  lemma FourNumbers(fs: seq<Field>)
    requires |fs| == 4 && fs[0].Uint16? && fs[1].Uint16? && fs[2].Uint32? && fs[3].Uint16?
    ensures Numbers(fs) == Bytes2(fs[0].v) + Bytes2(fs[1].v) + Bytes4(fs[2].v) + Bytes2(fs[3].v)
    ensures |Numbers(fs)| == 10
  {
    assert Numbers(fs[1..][1..]) == Bytes4(fs[2].v) + Numbers(fs[1..][1..][1..]);
    assert Numbers(fs[1..][1..][1..]) == Bytes2(fs[3].v) + [];
  }
}
