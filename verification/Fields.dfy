/**
 The fields of questions and resource records, each with the tag that says how it goes on the
 wire, and the walk over them that packs and unpacks a struct (miekg/dns, msg.go).
 */
module Fields {
  import opened Bytes
  import opened DomainNames
  import opened NamePacker
  import Up = NameUnpacker
  import opened CharStrings

  /** share says whether the name may be compressed ("cdomain-name") or not ("domain-name"). */
  datatype Field =
    | Uint16(v: nat)
    | Uint32(v: nat)
    | Domain(text: Text, share: bool)
    | Strings(ss: seq<Text>)
    | Ip4(ip: seq<byte>)
    | Ip6(ip: seq<byte>)

  datatype Kind = KUint16 | KUint32 | KDomain(share: bool) | KStrings | KIp4 | KIp6

  function KindOf(f: Field): Kind {
    match f
    case Uint16(_) => KUint16
    case Uint32(_) => KUint32
    case Domain(_, share) => KDomain(share)
    case Strings(_) => KStrings
    case Ip4(_) => KIp4
    case Ip6(_) => KIp6
  }

  function KindsOf(fs: seq<Field>): (r: seq<Kind>)
    ensures |r| == |fs|
  {
    seq(|fs|, i requires 0 <= i < |fs| => KindOf(fs[i]))
  }

  datatype FieldError = BadName(name: PackError) | BadString(str: StringError) | NoRoom | OutOfRange

  // ---------------------------------------------------------------- packing

  datatype Emitted = Emitted(out: seq<byte>, known: Suffixes) | Faulty(error: FieldError)

  /** What packing a field at off of a message of size bytes comes to. */
  function EmitField(f: Field, size: nat, off: nat, known: Suffixes, compress: bool): Emitted {
    match f
    case Uint16(v) => if off + 2 > size then Faulty(NoRoom) else Emitted(BigEndian(v, 2), known)
    case Uint32(v) => if off + 4 > size then Faulty(NoRoom) else Emitted(BigEndian(v, 4), known)
    case Domain(t, share) =>
      (match Pack(t, size, off, known, share && compress)
       case Packed(out, more, _) => Emitted(out, more)
       case Failed(e, _, _) => Faulty(BadName(e)))
    case Strings(ss) =>
      (match PackTxtSpec(ss, size, off)
       case StringPacked(out) => Emitted(out, known)
       case StringFailed(e) => Faulty(BadString(e)))
    case Ip4(ip) =>
      if off + 4 > size || (|ip| != 16 && |ip| != 4 && |ip| != 0) then Faulty(NoRoom)
      else Emitted(if |ip| == 16 then ip[12..] else ip, known)
    case Ip6(ip) =>
      if |ip| == 0 then Emitted([], known)
      else if |ip| > 16 || off + |ip| > size then Faulty(NoRoom)
      else if |ip| < 16 then Faulty(OutOfRange)
      else Emitted(ip, known)
  }

  function EmitFields(fs: seq<Field>, size: nat, off: nat, known: Suffixes, compress: bool): Emitted {
    if fs == [] then Emitted([], known)
    else
      match EmitField(fs[0], size, off, known, compress)
      case Faulty(e) => Faulty(e)
      case Emitted(out, more) => Next(out, EmitFields(fs[1..], size, off + |out|, more, compress))
  }

  function Next(before: seq<byte>, e: Emitted): Emitted {
    if e.Emitted? then Emitted(before + e.out, e.known) else e
  }

  lemma {:induction false} StringsFit(ss: seq<Text>, size: nat, off: nat)
    requires off <= size && PackStrings(ss, size, off).StringPacked?
    ensures off + |PackStrings(ss, size, off).out| <= size
    decreases |ss|
  {
    hide StringBytes, Dangling;
    if ss != [] {
      StringsFit(ss[1..], size, off + |PackString(ss[0], size, off).out|);
    }
  }

  lemma FieldFits(f: Field, size: nat, off: nat, known: Suffixes, compress: bool)
    requires off <= size && EmitField(f, size, off, known, compress).Emitted?
    ensures off + |EmitField(f, size, off, known, compress).out| <= size
  {
    hide Pack, PackStrings, BigEndian;
    match f
    case Domain(t, share) => PackFits(t, size, off, known, share && compress);
    case Strings(ss) => StringsFit(ss, size, off);
    case _ =>
  }

  /** Fields that are packed stay within the message. */
  lemma {:induction false} FieldsFit(fs: seq<Field>, size: nat, off: nat, known: Suffixes, compress: bool)
    requires off <= size && EmitFields(fs, size, off, known, compress).Emitted?
    ensures off + |EmitFields(fs, size, off, known, compress).out| <= size
    decreases |fs|
  {
    hide EmitField;
    if fs != [] {
      var e := EmitField(fs[0], size, off, known, compress);
      FieldFits(fs[0], size, off, known, compress);
      FieldsFit(fs[1..], size, off + |e.out|, e.known, compress);
    }
  }

  method PutBytes(msg: array<byte>, off: nat, bytes: seq<byte>)
    requires off + |bytes| <= msg.Length
    modifies msg
    ensures Written(msg[..], off, bytes) && Untouched(old(msg[..]), msg[..], off)
  {
    for i := 0 to |bytes|
      invariant forall k :: 0 <= k < i ==> msg[off + k] == bytes[k]
      invariant forall k :: 0 <= k < off ==> msg[k] == old(msg[k])
    {
      msg[off + i] := bytes[i];
    }
  }

  method PackField(f: Field, msg: array<byte>, off: nat, compression: Suffixes, compress: bool)
      returns (off1: nat, err: Option<FieldError>, known: Suffixes)
    modifies msg
    ensures var e := EmitField(f, msg.Length, off, compression, compress);
            && (e.Emitted? ==> err.None? && off1 == off + |e.out| && known == e.known && Written(msg[..], off, e.out))
            && (e.Faulty? ==> err == Some(e.error))
    ensures Untouched(old(msg[..]), msg[..], off)
  {
    hide Pack, PackTxtSpec, Written, Untouched, BigEndian;
    NothingWritten(msg[..]);
    off1, err, known := off, None, compression;
    match f
    case Uint16(v) =>
      if off + 2 > msg.Length {
        err := Some(NoRoom);
      } else {
        PutBytes(msg, off, BigEndian(v, 2));
        off1 := off + 2;
      }
    case Uint32(v) =>
      if off + 4 > msg.Length {
        err := Some(NoRoom);
      } else {
        PutBytes(msg, off, BigEndian(v, 4));
        off1 := off + 4;
      }
    case Domain(t, share) =>
      var labels, e;
      off1, labels, e, known := PackDomainName(t, msg, off, compression, share && compress);
      if e.Some? {
        err := Some(BadName(e.value));
      }
    case Strings(ss) =>
      var e;
      off1, e := PackTxt(ss, msg, off);
      if e.Some? {
        err := Some(BadString(e.value));
      }
    case Ip4(ip) =>
      if off + 4 > msg.Length || (|ip| != 16 && |ip| != 4 && |ip| != 0) {
        err := Some(NoRoom);
      } else {
        var bytes := if |ip| == 16 then ip[12..] else ip;
        PutBytes(msg, off, bytes);
        off1 := off + |bytes|;
      }
    case Ip6(ip) =>
      if |ip| == 0 {
        return;
      }
      if |ip| > 16 || off + |ip| > msg.Length {
        err := Some(NoRoom);
      } else if |ip| < 16 {
        err := Some(OutOfRange);
      } else {
        PutBytes(msg, off, ip);
        off1 := off + 16;
      }
  }

  method PackStruct(fs: seq<Field>, msg: array<byte>, off: nat, compression: Suffixes, compress: bool)
      returns (off1: nat, err: Option<FieldError>, known: Suffixes)
    modifies msg
    ensures var e := EmitFields(fs, msg.Length, off, compression, compress);
            && (e.Emitted? ==> err.None? && off1 == off + |e.out| && known == e.known && Written(msg[..], off, e.out))
            && (e.Faulty? ==> err == Some(e.error))
    ensures Untouched(old(msg[..]), msg[..], off)
  {
    hide EmitField, EmitFields, Written, Untouched;
    NothingWritten(msg[..]);
    EmitFirst(fs, msg.Length, off, compression, compress);
    off1, err, known := off, None, compression;
    ghost var done: seq<byte> := [];
    for i := 0 to |fs|
      invariant err.None? && off1 == off + |done|
      invariant Written(msg[..], off, done) && Untouched(old(msg[..]), msg[..], off)
      invariant EmitFields(fs, msg.Length, off, compression, compress)
                == Next(done, EmitFields(fs[i..], msg.Length, off1, known, compress))
    {
      EmitStep(fs, i, msg.Length, off1, known, compress, done);
      ghost var m, e := msg[..], EmitField(fs[i], msg.Length, off1, known, compress);
      off1, err, known := PackField(fs[i], msg, off1, known, compress);
      UntouchedMore(old(msg[..]), m, msg[..], off, off + |done|);
      if err.Some? {
        return;
      }
      WrittenMore(m, msg[..], off, done, off + |done|, e.out);
      done := done + e.out;
    }
    EmitNone(fs, msg.Length, off1, known, compress, done);
  }

  lemma EmitFirst(fs: seq<Field>, size: nat, off: nat, known: Suffixes, compress: bool)
    ensures EmitFields(fs, size, off, known, compress) == Next([], EmitFields(fs[0..], size, off, known, compress))
  {
    assert fs[0..] == fs;
    var e := EmitFields(fs, size, off, known, compress);
    assert e.Emitted? ==> [] + e.out == e.out;
  }

  lemma EmitStep(fs: seq<Field>, i: nat, size: nat, off: nat, known: Suffixes, compress: bool, done: seq<byte>)
    requires i < |fs|
    ensures var e := EmitField(fs[i], size, off, known, compress);
            Next(done, EmitFields(fs[i..], size, off, known, compress)) ==
              if e.Faulty? then e
              else Next(done + e.out, EmitFields(fs[i + 1..], size, off + |e.out|, e.known, compress))
  {
    hide EmitField;
    assert fs[i..][0] == fs[i] && fs[i..][1..] == fs[i + 1..];
    var e := EmitField(fs[i], size, off, known, compress);
    if e.Emitted? {
      var rest := EmitFields(fs[i + 1..], size, off + |e.out|, e.known, compress);
      if rest.Emitted? {
        assert done + (e.out + rest.out) == done + e.out + rest.out;
      }
    }
  }

  lemma EmitNone(fs: seq<Field>, size: nat, off: nat, known: Suffixes, compress: bool, done: seq<byte>)
    ensures Next(done, EmitFields(fs[|fs|..], size, off, known, compress)) == Emitted(done, known)
  {
    assert fs[|fs|..] == [] && done + [] == done;
  }

  // ---------------------------------------------------------------- unpacking

  datatype Got = Got(field: Field, off: nat) | Lost

  /** An IPv4 address as net.IPv4 makes it: sixteen bytes, the last four are the address. */
  const V4_PREFIX: seq<byte> := [0, 0, 0, 0, 0, 0, 0, 0, 0, 0, 255, 255]

  /** The field of the given kind at off; the record ends at end. A message that stops early leaves fields empty. */
  function ReadField(k: Kind, m: seq<byte>, off: nat, end: nat): Got {
    if off > |m| then Lost
    else match k
      case KUint16 =>
        if off == |m| then Got(Uint16(0), off)
        else if off + 2 > |m| then Lost
        else Got(Uint16(Value(m[off..off + 2])), off + 2)
      case KUint32 =>
        if off == |m| then Got(Uint32(0), off)
        else if off + 4 > |m| then Lost
        else Got(Uint32(Value(m[off..off + 4])), off + 4)
      case KDomain(share) =>
        if off == |m| then Got(Domain([], share), off)
        else (match Up.Unpack(m, off)
          case Unpacked(t, o) => Got(Domain(t, share), o)
          case Refused(_) => Lost)
      case KStrings =>
        if off == |m| || off == end then Got(Strings([]), off)
        else (match ReadStrings(m, off, end)
          case StringsRead(ss, o) => Got(Strings(ss), o)
          case Overflow => Lost)
      case KIp4 =>
        if off == |m| then Got(Ip4([]), off)
        else if off + 4 > end || off + 4 > |m| then Lost
        else Got(Ip4(V4_PREFIX + m[off..off + 4]), off + 4)
      case KIp6 =>
        if off == end then Got(Ip6([]), off)
        else if off + 16 > end || off + 16 > |m| then Lost
        else Got(Ip6(m[off..off + 16]), off + 16)
  }

  datatype GotAll = GotAll(fields: seq<Field>, off: nat) | LostAll

  function ReadFields(ks: seq<Kind>, m: seq<byte>, off: nat, end: nat): GotAll {
    if ks == [] then GotAll([], off)
    else
      match ReadField(ks[0], m, off, end)
      case Lost => LostAll
      case Got(f, o) => Following([f], ReadFields(ks[1..], m, o, end))
  }

  function Following(fs: seq<Field>, g: GotAll): GotAll {
    if g.GotAll? then GotAll(fs + g.fields, g.off) else g
  }

  method UnpackField(k: Kind, msg: array<byte>, off: nat, end: nat) returns (f: Field, off1: nat, lost: bool)
    ensures match ReadField(k, msg[..], off, end)
            case Got(g, o) => !lost && f == g && off1 == o
            case Lost => lost
  {
    hide Value;
    var n := msg.Length;
    f, off1, lost := Uint16(0), off, false;
    if off > n {
      return f, off1, true;
    }
    match k
    case KUint16 =>
      if off == n {
      } else if off + 2 > n {
        lost := true;
      } else {
        f, off1 := Uint16(Value(msg[off..off + 2])), off + 2;
        assert msg[off..off + 2] == msg[..][off..off + 2];
      }
    case KUint32 =>
      f := Uint32(0);
      if off == n {
      } else if off + 4 > n {
        lost := true;
      } else {
        f, off1 := Uint32(Value(msg[off..off + 4])), off + 4;
        assert msg[off..off + 4] == msg[..][off..off + 4];
      }
    case KDomain(share) =>
      f := Domain([], share);
      if off != n {
        var t, o, err := Up.UnpackDomainName(msg, off);
        f, off1, lost := Domain(t, share), o, err.Some?;
      }
    case KStrings =>
      f := Strings([]);
      if off != n && off != end {
        var ss, o, overflow := UnpackTxt(msg, off, end);
        f, off1, lost := Strings(ss), o, overflow;
      }
    case KIp4 =>
      f := Ip4([]);
      if off == n {
      } else if off + 4 > end || off + 4 > n {
        lost := true;
      } else {
        f, off1 := Ip4(V4_PREFIX + msg[off..off + 4]), off + 4;
        assert msg[off..off + 4] == msg[..][off..off + 4];
      }
    case KIp6 =>
      f := Ip6([]);
      if off == end {
      } else if off + 16 > end || off + 16 > n {
        lost := true;
      } else {
        f, off1 := Ip6(msg[off..off + 16]), off + 16;
        assert msg[off..off + 16] == msg[..][off..off + 16];
      }
  }

  method UnpackStruct(ks: seq<Kind>, msg: array<byte>, off: nat, end: nat) returns (fs: seq<Field>, off1: nat, lost: bool)
    ensures match ReadFields(ks, msg[..], off, end)
            case GotAll(all, o) => !lost && fs == all && off1 == o
            case LostAll => lost
  {
    hide ReadField, ReadFields;
    fs, off1, lost := [], off, false;
    ghost var m := msg[..];
    ReadAll(ks, m, off, end);
    for i := 0 to |ks|
      invariant !lost && ReadFields(ks, m, off, end) == Following(fs, ReadFields(ks[i..], m, off1, end))
    {
      ReadStep(ks, i, m, off1, end, fs);
      var f;
      f, off1, lost := UnpackField(ks[i], msg, off1, end);
      if lost {
        return;
      }
      fs := fs + [f];
    }
    ReadNone(ks, m, off1, end, fs);
  }

  lemma ReadAll(ks: seq<Kind>, m: seq<byte>, off: nat, end: nat)
    ensures ReadFields(ks, m, off, end) == Following([], ReadFields(ks[0..], m, off, end))
  {
    assert ks[0..] == ks;
    var g := ReadFields(ks, m, off, end);
    assert g.GotAll? ==> [] + g.fields == g.fields;
  }

  lemma ReadStep(ks: seq<Kind>, i: nat, m: seq<byte>, off: nat, end: nat, fs: seq<Field>)
    requires i < |ks|
    ensures Following(fs, ReadFields(ks[i..], m, off, end)) ==
            match ReadField(ks[i], m, off, end)
            case Lost => LostAll
            case Got(f, o) => Following(fs + [f], ReadFields(ks[i + 1..], m, o, end))
  {
    hide ReadField;
    assert ks[i..][0] == ks[i] && ks[i..][1..] == ks[i + 1..];
    var g := ReadField(ks[i], m, off, end);
    if g.Got? {
      var rest := ReadFields(ks[i + 1..], m, g.off, end);
      if rest.GotAll? {
        assert fs + ([g.field] + rest.fields) == fs + [g.field] + rest.fields;
      }
    }
  }

  lemma ReadNone(ks: seq<Kind>, m: seq<byte>, off: nat, end: nat, fs: seq<Field>)
    ensures Following(fs, ReadFields(ks[|ks|..], m, off, end)) == GotAll(fs, off)
  {
    assert ks[|ks|..] == [] && fs + [] == fs;
  }
}
