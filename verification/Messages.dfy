/**
 Whole messages (miekg/dns, msg.go): a header, questions, and three sections of records that
 share one table of suffixes. What PackBuffer makes of a message is unpacked to it again.
 */
module Messages {
  import opened Bytes
  import opened DomainNames
  import opened NamePacker
  import opened Compression
  import opened Fields
  import opened FieldRoundTrip
  import opened Records
  import opened MsgHeader

  datatype Question = Question(name: Text, qtype: nat, qclass: nat)

  datatype Msg = Msg(hdr: MsgHdr, compress: bool, question: seq<Question>, answer: seq<RR>, ns: seq<RR>, extra: seq<RR>)

  function QuestionFields(q: Question): seq<Field> {
    [Domain(q.name, true), Uint16(q.qtype), Uint16(q.qclass)]
  }

  const QUESTION_KINDS: seq<Kind> := [KDomain(true), KUint16, KUint16]

  /** The six words of the header; counts are cut to sixteen bits. */
  function HeaderFields(d: Msg): seq<Field> {
    [Uint16(d.hdr.id), Uint16(Bits(d.hdr)), Uint16(|d.question| % 0x1_0000), Uint16(|d.answer| % 0x1_0000),
     Uint16(|d.ns| % 0x1_0000), Uint16(|d.extra| % 0x1_0000)]
  }

  const HEADER_KINDS: seq<Kind> := [KUint16, KUint16, KUint16, KUint16, KUint16, KUint16]

  // ---------------------------------------------------------------- lengths

  function QuestionsLen(qs: seq<Question>): nat {
    if qs == [] then 0 else FieldsLen(QuestionFields(qs[0])) + QuestionsLen(qs[1..])
  }

  function RecordsLen(rrs: seq<RR>): nat {
    if rrs == [] then 0 else RecordLen(rrs[0]) + RecordsLen(rrs[1..])
  }

  /** Len without compression. */
  function PlainLen(d: Msg): nat {
    12 + QuestionsLen(d.question) + RecordsLen(d.answer) + RecordsLen(d.ns) + RecordsLen(d.extra)
  }

  // ---------------------------------------------------------------- what can make the trip

  ghost predicate CanonicalQuestions(qs: seq<Question>, compress: bool) {
    forall i :: 0 <= i < |qs| ==> CanonicalFields(QuestionFields(qs[i]), compress)
  }

  ghost predicate CanonicalRecords(rrs: seq<RR>, compress: bool) {
    forall i :: 0 <= i < |rrs| ==> CanonicalRecord(rrs[i], compress)
  }

  ghost predicate CanonicalMsg(d: Msg) {
    && d.hdr.id < 0x1_0000 && 0 <= d.hdr.opcode < 16 && 0 <= d.hdr.rcode < 16 && !d.hdr.truncated
    && |d.question| < 0x1_0000 && |d.answer| < 0x1_0000 && |d.ns| < 0x1_0000 && |d.extra| < 0x1_0000
    && CanonicalQuestions(d.question, d.compress) && CanonicalRecords(d.answer, d.compress)
    && CanonicalRecords(d.ns, d.compress) && CanonicalRecords(d.extra, d.compress)
  }

  // ---------------------------------------------------------------- questions and records in a message

  datatype Asked = Asked(off: nat, ends: seq<nat>)

  function AskedEnd(off: nat, spots: seq<Asked>): nat {
    if spots == [] then off else End(spots[|spots| - 1].off, spots[|spots| - 1].ends)
  }

  ghost predicate QuestionsAt(m: seq<byte>, off: nat, qs: seq<Question>, spots: seq<Asked>, held: set<nat>) {
    && |spots| == |qs|
    && forall i :: 0 <= i < |qs| ==>
         spots[i].off == AskedEnd(off, spots[..i]) && FieldsAt(m, spots[i].off, QuestionFields(qs[i]), spots[i].ends, held)
  }

  function SpotsEnd(off: nat, spots: seq<Spot>): nat {
    if spots == [] then off else spots[|spots| - 1].end
  }

  ghost predicate RecordsAt(m: seq<byte>, off: nat, rrs: seq<RR>, spots: seq<Spot>, held: set<nat>) {
    && |spots| == |rrs|
    && forall i :: 0 <= i < |rrs| ==> spots[i].off == SpotsEnd(off, spots[..i]) && RecordAt(m, rrs[i], spots[i], held)
  }

  lemma QuestionsStay(m: seq<byte>, m1: seq<byte>, off: nat, qs: seq<Question>, spots: seq<Asked>, held: set<nat>, more: set<nat>)
    requires QuestionsAt(m, off, qs, spots, held) && Agrees(m, m1, held) && held <= more
    ensures QuestionsAt(m1, off, qs, spots, more)
  {
    hide FieldsAt, QuestionFields, Agrees, AskedEnd;
    forall i | 0 <= i < |qs| ensures FieldsAt(m1, spots[i].off, QuestionFields(qs[i]), spots[i].ends, more) {
      FieldsStay(m, m1, spots[i].off, QuestionFields(qs[i]), spots[i].ends, held, more);
    }
  }

  lemma RecordsStay(m: seq<byte>, m1: seq<byte>, off: nat, rrs: seq<RR>, spots: seq<Spot>, held: set<nat>, more: set<nat>)
    requires RecordsAt(m, off, rrs, spots, held) && Agrees(m, m1, held) && held <= more
    ensures RecordsAt(m1, off, rrs, spots, more)
  {
    hide RecordAt, Agrees, SpotsEnd;
    forall i | 0 <= i < |rrs| ensures RecordAt(m1, rrs[i], spots[i], more) {
      RecordStays(m, m1, rrs[i], spots[i], held, more);
    }
  }

  lemma QuestionsSnoc(m: seq<byte>, off: nat, qs: seq<Question>, spots: seq<Asked>, q: Question, ends: seq<nat>, held: set<nat>)
    requires QuestionsAt(m, off, qs, spots, held)
    requires FieldsAt(m, AskedEnd(off, spots), QuestionFields(q), ends, held)
    ensures QuestionsAt(m, off, qs + [q], spots + [Asked(AskedEnd(off, spots), ends)], held)
    ensures AskedEnd(off, spots + [Asked(AskedEnd(off, spots), ends)]) == End(AskedEnd(off, spots), ends)
  {
    hide FieldsAt, QuestionFields, End;
    var more := spots + [Asked(AskedEnd(off, spots), ends)];
    assert forall i :: 0 <= i <= |spots| ==> more[..i] == spots[..i];
    assert spots[..|spots|] == spots;
  }

  lemma RecordsSnoc(m: seq<byte>, off: nat, rrs: seq<RR>, spots: seq<Spot>, r: RR, s: Spot, held: set<nat>)
    requires RecordsAt(m, off, rrs, spots, held) && RecordAt(m, r, s, held) && s.off == SpotsEnd(off, spots)
    ensures RecordsAt(m, off, rrs + [r], spots + [s], held) && SpotsEnd(off, spots + [s]) == s.end
  {
    hide RecordAt;
    var more := spots + [s];
    assert forall i :: 0 <= i <= |spots| ==> more[..i] == spots[..i];
    assert spots[..|spots|] == spots;
  }

  // ---------------------------------------------------------------- all fields of a message

  function QuestionsFields(qs: seq<Question>): seq<Field> {
    if qs == [] then [] else QuestionsFields(qs[..|qs| - 1]) + QuestionFields(qs[|qs| - 1])
  }

  function SectionFields(rrs: seq<RR>): seq<Field> {
    if rrs == [] then [] else SectionFields(rrs[..|rrs| - 1]) + RecordFields(rrs[|rrs| - 1])
  }

  function RecordsFields(d: Msg): seq<Field> {
    SectionFields(d.answer) + (SectionFields(d.ns) + SectionFields(d.extra))
  }

  /** A message as one long struct. */
  function MsgFields(d: Msg): seq<Field> {
    HeaderFields(d) + (QuestionsFields(d.question) + RecordsFields(d))
  }

  lemma {:induction false} QuestionsSplit(qs: seq<Question>, i: nat)
    requires i <= |qs|
    ensures exists rest :: QuestionsFields(qs) == QuestionsFields(qs[..i]) + rest
    decreases |qs|
  {
    hide QuestionFields;
    if i == |qs| {
      assert qs[..i] == qs;
      assert QuestionsFields(qs) == QuestionsFields(qs) + [];
    } else {
      var front := qs[..|qs| - 1];
      QuestionsSplit(front, i);
      var rest :| QuestionsFields(front) == QuestionsFields(front[..i]) + rest;
      assert front[..i] == qs[..i];
      assert QuestionsFields(qs) == QuestionsFields(qs[..i]) + (rest + QuestionFields(qs[|qs| - 1]));
    }
  }

  lemma {:induction false} SectionSplit(rrs: seq<RR>, i: nat)
    requires i <= |rrs|
    ensures exists rest :: SectionFields(rrs) == SectionFields(rrs[..i]) + rest
    decreases |rrs|
  {
    hide RecordFields;
    if i == |rrs| {
      assert rrs[..i] == rrs;
      assert SectionFields(rrs) == SectionFields(rrs) + [];
    } else {
      var front := rrs[..|rrs| - 1];
      SectionSplit(front, i);
      var rest :| SectionFields(front) == SectionFields(front[..i]) + rest;
      assert front[..i] == rrs[..i];
      assert SectionFields(rrs) == SectionFields(rrs[..i]) + (rest + RecordFields(rrs[|rrs| - 1]));
    }
  }

  /** One more question: the outcome for those up to it, and what an error of it means for all of them. */
  lemma QuestionsStep(qs: seq<Question>, i: nat, size: nat, off: nat, known: Suffixes, compress: bool)
    requires i < |qs| && EmitFields(QuestionsFields(qs[..i]), size, off, known, compress).Emitted?
    ensures var e := EmitFields(QuestionsFields(qs[..i]), size, off, known, compress);
            var f := EmitFields(QuestionFields(qs[i]), size, off + |e.out|, e.known, compress);
            && EmitFields(QuestionsFields(qs[..i + 1]), size, off, known, compress) == Next(e.out, f)
            && (f.Faulty? ==> EmitFields(QuestionsFields(qs), size, off, known, compress) == f)
  {
    hide EmitFields, QuestionFields;
    assert qs[..i + 1][..i] == qs[..i];
    EmitConcat(QuestionsFields(qs[..i]), QuestionFields(qs[i]), size, off, known, compress);
    QuestionsSplit(qs, i + 1);
    var rest :| QuestionsFields(qs) == QuestionsFields(qs[..i + 1]) + rest;
    EmitConcat(QuestionsFields(qs[..i + 1]), rest, size, off, known, compress);
  }

  lemma SectionStep(rrs: seq<RR>, i: nat, size: nat, off: nat, known: Suffixes, compress: bool)
    requires i < |rrs| && EmitFields(SectionFields(rrs[..i]), size, off, known, compress).Emitted?
    ensures var e := EmitFields(SectionFields(rrs[..i]), size, off, known, compress);
            var f := EmitFields(RecordFields(rrs[i]), size, off + |e.out|, e.known, compress);
            && EmitFields(SectionFields(rrs[..i + 1]), size, off, known, compress) == Next(e.out, f)
            && (f.Faulty? ==> EmitFields(SectionFields(rrs), size, off, known, compress) == f)
  {
    hide EmitFields, RecordFields;
    assert rrs[..i + 1][..i] == rrs[..i];
    EmitConcat(SectionFields(rrs[..i]), RecordFields(rrs[i]), size, off, known, compress);
    SectionSplit(rrs, i + 1);
    var rest :| SectionFields(rrs) == SectionFields(rrs[..i + 1]) + rest;
    EmitConcat(SectionFields(rrs[..i + 1]), rest, size, off, known, compress);
  }

  lemma NothingEmittedYet(size: nat, off: nat, known: Suffixes, compress: bool)
    ensures EmitFields(QuestionsFields([]), size, off, known, compress) == Emitted([], known)
    ensures EmitFields(SectionFields([]), size, off, known, compress) == Emitted([], known)
  {
  }

  // ---------------------------------------------------------------- packing

  datatype PackMsgError = ErrRcode | ErrExtendedRcode | BadHeader(f: FieldError) | BadQuestion(q: FieldError) | BadRR(r: RecordError)

  /** The room for what comes next, and a state in which to pack it. */
  ghost predicate CanPack(m: seq<byte>, off: nat, len: nat, known: Suffixes, compress: bool, held: set<nat>) {
    off + len < |m| && Ready(m, off, known, compress, held)
  }

  lemma {:induction false} QuestionsLenSplit(qs: seq<Question>, i: nat)
    requires i < |qs|
    ensures QuestionsLen(qs[i..]) == FieldsLen(QuestionFields(qs[i])) + QuestionsLen(qs[i + 1..])
  {
    assert qs[i..][0] == qs[i] && qs[i..][1..] == qs[i + 1..];
  }

  lemma {:induction false} RecordsLenSplit(rrs: seq<RR>, i: nat)
    requires i < |rrs|
    ensures RecordsLen(rrs[i..]) == RecordLen(rrs[i]) + RecordsLen(rrs[i + 1..])
  {
    assert rrs[i..][0] == rrs[i] && rrs[i..][1..] == rrs[i + 1..];
  }

  /** One question of a loop over them. */
  method PackQuestion(q: Question, msg: array<byte>, off: nat, compression: Suffixes, compress: bool, ghost held: set<nat>, ghost more: nat)
      returns (off1: nat, err: Option<FieldError>, known: Suffixes, ghost ends: seq<nat>, ghost held1: set<nat>)
    modifies msg
    ensures var e := EmitFields(QuestionFields(q), msg.Length, off, compression, compress);
            && (e.Emitted? ==> err.None? && off1 == off + |e.out| && known == e.known)
            && (e.Faulty? ==> err == Some(e.error))
    ensures CanonicalFields(QuestionFields(q), compress)
            && CanPack(old(msg[..]), off, FieldsLen(QuestionFields(q)) + more, compression, compress, held) ==>
              && err.None? && CanPack(msg[..], off1, more, known, compress, held1)
              && FieldsAt(msg[..], off, QuestionFields(q), ends, held1) && End(off, ends) == off1
              && Agrees(old(msg[..]), msg[..], held) && held <= held1
  {
    hide EmitFields, CanonicalFields, FieldsLen, Ready, Written, Untouched, FieldsAt, End, QuestionFields, Agrees;
    ghost var m := msg[..];
    off1, err, known := PackStruct(QuestionFields(q), msg, off, compression, compress);
    ends, held1 := [], held;
    if CanonicalFields(QuestionFields(q), compress) && CanPack(m, off, FieldsLen(QuestionFields(q)) + more, compression, compress, held) {
      FieldsAreEmitted(QuestionFields(q), msg.Length, off, compression, compress);
      ends := FieldsArePacked(QuestionFields(q), msg.Length, off, compression, compress, m, msg[..], held);
      held1 := held + Range(off, off1 - off);
      UntouchedAgrees(m, msg[..], off, compression, compress, held);
    }
  }

  lemma UntouchedAgrees(m0: seq<byte>, m: seq<byte>, off: nat, known: Suffixes, compress: bool, held: set<nat>)
    requires Untouched(m0, m, off) && Ready(m0, off, known, compress, held)
    ensures Agrees(m0, m, held)
  {
  }

  method PackQuestions(qs: seq<Question>, msg: array<byte>, off: nat, compression: Suffixes, compress: bool,
                       ghost held: set<nat>, ghost more: nat)
      returns (off1: nat, err: Option<FieldError>, known: Suffixes, ghost spots: seq<Asked>, ghost held1: set<nat>)
    modifies msg
    ensures var e := EmitFields(QuestionsFields(qs), msg.Length, off, compression, compress);
            && (e.Emitted? ==> err.None? && off1 == off + |e.out| && known == e.known)
            && (e.Faulty? ==> err == Some(e.error))
    ensures CanonicalQuestions(qs, compress) && CanPack(old(msg[..]), off, QuestionsLen(qs) + more, compression, compress, held) ==>
              && err.None? && CanPack(msg[..], off1, more, known, compress, held1)
              && QuestionsAt(msg[..], off, qs, spots, held1) && AskedEnd(off, spots) == off1
              && Agrees(old(msg[..]), msg[..], held) && held <= held1
  {
    hide CanonicalFields, QuestionFields, CanPack, FieldsAt, QuestionsAt, AskedEnd, End, Agrees, FieldsLen, QuestionsLen,
         EmitFields, QuestionsFields;
    ghost var m := msg[..];
    ghost var ok := CanonicalQuestions(qs, compress) && CanPack(m, off, QuestionsLen(qs) + more, compression, compress, held);
    off1, err, known, spots, held1 := off, None, compression, [], held;
    NoQuestions(m, off, held);
    SelfAgrees(m, held);
    assert qs[0..] == qs && qs[..0] == [];
    NothingEmittedYet(msg.Length, off, compression, compress);
    for i := 0 to |qs|
      invariant err.None?
      invariant var e := EmitFields(QuestionsFields(qs[..i]), msg.Length, off, compression, compress);
                e.Emitted? && off1 == off + |e.out| && known == e.known
      invariant ok ==> err.None? && CanPack(msg[..], off1, QuestionsLen(qs[i..]) + more, known, compress, held1)
      invariant ok ==> QuestionsAt(msg[..], off, qs[..i], spots, held1) && AskedEnd(off, spots) == off1
      invariant ok ==> Agrees(m, msg[..], held) && held <= held1
    {
      QuestionsLenSplit(qs, i);
      QuestionsStep(qs, i, msg.Length, off, compression, compress);
      ghost var before, was := msg[..], held1;
      ghost var ends;
      off1, err, known, ends, held1 := PackQuestion(qs[i], msg, off1, known, compress, held1, QuestionsLen(qs[i + 1..]) + more);
      if err.Some? {
        return;
      }
      if ok {
        AgreesTwice(m, before, msg[..], held, was);
        QuestionsStay(before, msg[..], off, qs[..i], spots, was, held1);
        QuestionsSnoc(msg[..], off, qs[..i], spots, qs[i], ends, held1);
        spots := spots + [Asked(AskedEnd(off, spots), ends)];
        assert qs[..i + 1] == qs[..i] + [qs[i]];
      }
    }
    assert qs[..|qs|] == qs && qs[|qs|..] == [];
    NoLen();
  }

  lemma NoQuestions(m: seq<byte>, off: nat, held: set<nat>)
    ensures QuestionsAt(m, off, [], [], held) && AskedEnd(off, []) == off
    ensures RecordsAt(m, off, [], [], held) && SpotsEnd(off, []) == off
  {
  }

  lemma NoLen()
    ensures QuestionsLen([]) == 0 && RecordsLen([]) == 0
  {
  }

  lemma AgreesTwice(m0: seq<byte>, m1: seq<byte>, m2: seq<byte>, held: set<nat>, more: set<nat>)
    requires Agrees(m0, m1, held) && Agrees(m1, m2, more) && held <= more
    ensures Agrees(m0, m2, held)
  {
  }

  /** One record of a loop over them. */
  method PackRecord(r: RR, msg: array<byte>, off: nat, compression: Suffixes, compress: bool, ghost held: set<nat>, ghost more: nat)
      returns (off1: nat, err: Option<RecordError>, known: Suffixes, ghost s: Spot, ghost held1: set<nat>)
    modifies msg
    ensures var e := EmitFields(RecordFields(r), msg.Length, off, compression, compress);
            && (e.Faulty? ==> err == Some(BadField(e.error)))
            && (e.Emitted? ==> err == Some(BadRdlength) || (err.None? && off1 == off + |e.out| && known == e.known))
    ensures CanonicalRecord(r, compress) && CanPack(old(msg[..]), off, RecordLen(r) + more, compression, compress, held) ==>
              && err.None? && CanPack(msg[..], off1, more, known, compress, held1)
              && RecordAt(msg[..], r, s, held1) && s.off == off && s.end == off1
              && Agrees(old(msg[..]), msg[..], held) && held <= held1
  {
    hide EmitFields, CanonicalRecord, RecordLen, RecordFields, Ready, Written, Untouched, RecordAt, SetRdlength, Agrees;
    ghost var m := msg[..];
    ghost var mid;
    off1, err, known, mid := PackRR(r, msg, off, compression, compress);
    s, held1 := Spot(0, 0, 0, [], []), held;
    if CanonicalRecord(r, compress) && CanPack(m, off, RecordLen(r) + more, compression, compress, held) {
      RecordEmits(r, msg.Length, off, compression, compress);
      SizeStays(m, mid, off);
      ghost var e, m1;
      e, s, m1 := RecordIsPacked(r, msg.Length, off, compression, compress, m, mid, held);
      held1 := held + Range(off, |e.out|);
    }
  }

  lemma RecordEmits(r: RR, size: nat, off: nat, known: Suffixes, compress: bool)
    requires CanonicalRecord(r, compress) && off + RecordLen(r) < size
    ensures EmitFields(RecordFields(r), size, off, known, compress).Emitted?
  {
    var _, _ := RecordIsEmitted(r, size, off, known, compress);
  }

  lemma SizeStays(m0: seq<byte>, m: seq<byte>, off: nat)
    requires Untouched(m0, m, off)
    ensures |m| == |m0|
  {
  }

  method PackSection(rrs: seq<RR>, msg: array<byte>, off: nat, compression: Suffixes, compress: bool, ghost held: set<nat>, ghost more: nat)
      returns (off1: nat, err: Option<RecordError>, known: Suffixes, ghost spots: seq<Spot>, ghost held1: set<nat>)
    modifies msg
    ensures var e := EmitFields(SectionFields(rrs), msg.Length, off, compression, compress);
            && (e.Faulty? ==> err == Some(BadField(e.error)) || err == Some(BadRdlength))
            && (e.Emitted? ==> err == Some(BadRdlength) || (err.None? && off1 == off + |e.out| && known == e.known))
    ensures CanonicalRecords(rrs, compress) && CanPack(old(msg[..]), off, RecordsLen(rrs) + more, compression, compress, held) ==>
              && err.None? && CanPack(msg[..], off1, more, known, compress, held1)
              && RecordsAt(msg[..], off, rrs, spots, held1) && SpotsEnd(off, spots) == off1
              && Agrees(old(msg[..]), msg[..], held) && held <= held1
  {
    hide CanonicalRecord, CanPack, RecordAt, RecordsAt, SpotsEnd, Agrees, RecordLen, RecordsLen, EmitFields, SectionFields,
         RecordFields;
    ghost var m := msg[..];
    ghost var ok := CanonicalRecords(rrs, compress) && CanPack(m, off, RecordsLen(rrs) + more, compression, compress, held);
    off1, err, known, spots, held1 := off, None, compression, [], held;
    NoQuestions(m, off, held);
    SelfAgrees(m, held);
    assert rrs[0..] == rrs && rrs[..0] == [];
    NothingEmittedYet(msg.Length, off, compression, compress);
    for i := 0 to |rrs|
      invariant err.None?
      invariant var e := EmitFields(SectionFields(rrs[..i]), msg.Length, off, compression, compress);
                e.Emitted? && off1 == off + |e.out| && known == e.known
      invariant ok ==> err.None? && CanPack(msg[..], off1, RecordsLen(rrs[i..]) + more, known, compress, held1)
      invariant ok ==> RecordsAt(msg[..], off, rrs[..i], spots, held1) && SpotsEnd(off, spots) == off1
      invariant ok ==> Agrees(m, msg[..], held) && held <= held1
    {
      RecordsLenSplit(rrs, i);
      SectionStep(rrs, i, msg.Length, off, compression, compress);
      ghost var before, was := msg[..], held1;
      ghost var s;
      off1, err, known, s, held1 := PackRecord(rrs[i], msg, off1, known, compress, held1, RecordsLen(rrs[i + 1..]) + more);
      if err.Some? {
        return;
      }
      if ok {
        AgreesTwice(m, before, msg[..], held, was);
        RecordsStay(before, msg[..], off, rrs[..i], spots, was, held1);
        RecordsSnoc(msg[..], off, rrs[..i], spots, rrs[i], s, held1);
        spots := spots + [s];
        assert rrs[..i + 1] == rrs[..i] + [rrs[i]];
      }
    }
    assert rrs[..|rrs|] == rrs && rrs[|rrs|..] == [];
    NoLen();
  }

  // ---------------------------------------------------------------- unpacking

  datatype QuestionsRead = QuestionsRead(qs: seq<Question>, off: nat) | BadQuestions

  function ReadQuestions(n: nat, m: seq<byte>, off: nat): QuestionsRead {
    if n == 0 then QuestionsRead([], off)
    else
      match ReadFields(QUESTION_KINDS, m, off, 0)
      case LostAll => BadQuestions
      case GotAll(fs, o) =>
        QuestionShape(m, off);
        match ReadQuestions(n - 1, m, o)
        case BadQuestions => BadQuestions
        case QuestionsRead(qs, o2) => QuestionsRead([Question(fs[0].text, fs[1].v, fs[2].v)] + qs, o2)
  }

  lemma QuestionShape(m: seq<byte>, off: nat)
    ensures var g := ReadFields(QUESTION_KINDS, m, off, 0);
            g.GotAll? ==> |g.fields| == 3 && g.fields[0].Domain? && g.fields[1].Uint16? && g.fields[2].Uint16?
  {
    var g := ReadFields(QUESTION_KINDS, m, off, 0);
    if g.GotAll? {
      ReadShape(QUESTION_KINDS, m, off, 0);
      hide ReadFields;
      assert KindsOf(g.fields)[0] == KDomain(true) && KindsOf(g.fields)[1] == KUint16 && KindsOf(g.fields)[2] == KUint16;
    }
  }

  datatype RecordsRead = RecordsRead(rrs: seq<RR>, off: nat) | BadRecords

  function ReadRecords(n: nat, m: seq<byte>, off: nat): RecordsRead {
    if n == 0 then RecordsRead([], off)
    else
      match ReadRecord(m, off)
      case BadRecord => BadRecords
      case UnknownType => BadRecords
      case RecordRead(r, o) =>
        match ReadRecords(n - 1, m, o)
        case BadRecords => BadRecords
        case RecordsRead(rrs, o2) => RecordsRead([r] + rrs, o2)
  }

  datatype MsgRead = MsgRead(msg: Msg) | BadMsg

  lemma HeaderShape(m: seq<byte>)
    ensures var g := ReadFields(HEADER_KINDS, m, 0, 0);
            g.GotAll? ==> |g.fields| == 6 && forall i :: 0 <= i < 6 ==> g.fields[i].Uint16?
  {
    var g := ReadFields(HEADER_KINDS, m, 0, 0);
    if g.GotAll? {
      ReadShape(HEADER_KINDS, m, 0, 0);
      hide ReadFields;
      forall i | 0 <= i < 6 ensures g.fields[i].Uint16? {
        assert KindsOf(g.fields)[i] == HEADER_KINDS[i];
      }
    }
  }

  /** What Unpack makes of a message; a truncated one ends after its questions. */
  function ReadMsg(m: seq<byte>): MsgRead {
    match ReadFields(HEADER_KINDS, m, 0, 0)
    case LostAll => BadMsg
    case GotAll(h, o) =>
      HeaderShape(m);
      var hdr := HdrOf(h[0].v, h[1].v);
      match ReadQuestions(h[2].v, m, o)
      case BadQuestions => BadMsg
      case QuestionsRead(qs, o1) =>
        if hdr.truncated then MsgRead(Msg(hdr, false, qs, [], [], []))
        else
          match ReadRecords(h[3].v, m, o1)
          case BadRecords => BadMsg
          case RecordsRead(answer, o2) =>
            match ReadRecords(h[4].v, m, o2)
            case BadRecords => BadMsg
            case RecordsRead(ns, o3) =>
              match ReadRecords(h[5].v, m, o3)
              case BadRecords => BadMsg
              case RecordsRead(extra, _) => MsgRead(Msg(hdr, false, qs, answer, ns, extra))
  }

  method UnpackQuestions(n: nat, msg: array<byte>, off: nat) returns (qs: seq<Question>, off1: nat, bad: bool)
    ensures match ReadQuestions(n, msg[..], off)
            case QuestionsRead(all, o) => !bad && qs == all && off1 == o
            case BadQuestions => bad
  {
    hide ReadFields;
    qs, off1, bad := [], off, false;
    ghost var m := msg[..];
    AskedSoFar([], ReadQuestions(n, m, off));
    for i := 0 to n
      invariant !bad && ReadQuestions(n, m, off) == AfterQuestions(qs, ReadQuestions(n - i, m, off1))
    {
      var fs, lost;
      ghost var was := off1;
      QuestionShape(m, off1);
      fs, off1, lost := UnpackStruct(QUESTION_KINDS, msg, off1, 0);
      if lost {
        return qs, off1, true;
      }
      var q := Question(fs[0].text, fs[1].v, fs[2].v);
      AskedOneMore(qs, q, ReadQuestions(n - i - 1, m, off1));
      qs := qs + [q];
    }
    AskedSoFar(qs, ReadQuestions(0, m, off1));
  }

  function AfterQuestions(qs: seq<Question>, r: QuestionsRead): QuestionsRead {
    if r.QuestionsRead? then QuestionsRead(qs + r.qs, r.off) else r
  }

  lemma AskedSoFar(qs: seq<Question>, r: QuestionsRead)
    ensures qs == [] ==> AfterQuestions(qs, r) == r
    ensures r.QuestionsRead? && r.qs == [] ==> AfterQuestions(qs, r) == QuestionsRead(qs, r.off)
  {
    if r.QuestionsRead? {
      assert [] + r.qs == r.qs && qs + [] == qs;
    }
  }

  lemma AskedOneMore(qs: seq<Question>, q: Question, r: QuestionsRead)
    ensures AfterQuestions(qs, AfterQuestions([q], r)) == AfterQuestions(qs + [q], r)
  {
    if r.QuestionsRead? {
      assert qs + ([q] + r.qs) == qs + [q] + r.qs;
    }
  }

  method UnpackSection(n: nat, msg: array<byte>, off: nat) returns (rrs: seq<RR>, off1: nat, bad: bool)
    ensures match ReadRecords(n, msg[..], off)
            case RecordsRead(all, o) => !bad && rrs == all && off1 == o
            case BadRecords => bad
  {
    hide ReadRecord;
    rrs, off1, bad := [], off, false;
    ghost var m := msg[..];
    ReadSoFar([], ReadRecords(n, m, off));
    for i := 0 to n
      invariant !bad && ReadRecords(n, m, off) == AfterRecords(rrs, ReadRecords(n - i, m, off1))
    {
      var r := UnpackRR(msg, off1);
      if !r.RecordRead? {
        return rrs, off1, true;
      }
      ReadOneMore(rrs, r.rr, ReadRecords(n - i - 1, m, r.off));
      rrs, off1 := rrs + [r.rr], r.off;
    }
    ReadSoFar(rrs, ReadRecords(0, m, off1));
  }

  function AfterRecords(rrs: seq<RR>, r: RecordsRead): RecordsRead {
    if r.RecordsRead? then RecordsRead(rrs + r.rrs, r.off) else r
  }

  lemma ReadSoFar(rrs: seq<RR>, r: RecordsRead)
    ensures rrs == [] ==> AfterRecords(rrs, r) == r
    ensures r.RecordsRead? && r.rrs == [] ==> AfterRecords(rrs, r) == RecordsRead(rrs, r.off)
  {
    if r.RecordsRead? {
      assert [] + r.rrs == r.rrs && rrs + [] == rrs;
    }
  }

  lemma ReadOneMore(rrs: seq<RR>, rr: RR, r: RecordsRead)
    ensures AfterRecords(rrs, AfterRecords([rr], r)) == AfterRecords(rrs + [rr], r)
  {
    if r.RecordsRead? {
      assert rrs + ([rr] + r.rrs) == rrs + [rr] + r.rrs;
    }
  }

  method Unpack(msg: array<byte>) returns (d: MsgRead)
    ensures d == ReadMsg(msg[..])
  {
    hide ReadFields, ReadQuestions, ReadRecords;
    var h, off, lost := UnpackStruct(HEADER_KINDS, msg, 0, 0);
    if lost {
      return BadMsg;
    }
    HeaderShape(msg[..]);
    var hdr := HdrOf(h[0].v, h[1].v);
    var qs, answer, ns, extra, bad;
    qs, off, bad := UnpackQuestions(h[2].v, msg, off);
    if bad {
      return BadMsg;
    }
    if hdr.truncated {
      return MsgRead(Msg(hdr, false, qs, [], [], []));
    }
    answer, off, bad := UnpackSection(h[3].v, msg, off);
    if bad {
      return BadMsg;
    }
    ns, off, bad := UnpackSection(h[4].v, msg, off);
    if bad {
      return BadMsg;
    }
    extra, off, bad := UnpackSection(h[5].v, msg, off);
    if bad {
      return BadMsg;
    }
    return MsgRead(Msg(hdr, false, qs, answer, ns, extra));
  }

  // ---------------------------------------------------------------- reading what has been packed

  lemma QuestionIsRead(m: seq<byte>, q: Question, s: Asked, held: set<nat>)
    requires FieldsAt(m, s.off, QuestionFields(q), s.ends, held) && s.off <= |m|
    ensures ReadFields(QUESTION_KINDS, m, s.off, 0) == GotAll(QuestionFields(q), End(s.off, s.ends))
    ensures End(s.off, s.ends) <= |m|
  {
    hide FieldsAt, ReadFields, End;
    assert KindsOf(QuestionFields(q)) == QUESTION_KINDS;
    FieldsAreRead(m, s.off, QuestionFields(q), s.ends, held, 0);
  }

  lemma {:induction false} QuestionsAreRead(m: seq<byte>, off: nat, qs: seq<Question>, spots: seq<Asked>, held: set<nat>)
    requires QuestionsAt(m, off, qs, spots, held) && off <= |m|
    ensures ReadQuestions(|qs|, m, off) == QuestionsRead(qs, AskedEnd(off, spots)) && AskedEnd(off, spots) <= |m|
    decreases |qs|
  {
    if qs != [] {
      hide FieldsAt, ReadFields, End, QuestionFields;
      assert spots[..0] == [];
      QuestionIsRead(m, qs[0], spots[0], held);
      QuestionsTail(m, off, qs, spots, held);
      QuestionsAreRead(m, AskedEnd(off, spots[..1]), qs[1..], spots[1..], held);
      QuestionShape(m, off);
      FieldsOfQuestion(qs[0]);
      assert [qs[0]] + qs[1..] == qs;
    }
  }

  lemma FieldsOfQuestion(q: Question)
    ensures var fs := QuestionFields(q);
            |fs| == 3 && fs[0] == Domain(q.name, true) && fs[1] == Uint16(q.qtype) && fs[2] == Uint16(q.qclass)
  {
  }

  lemma QuestionsTail(m: seq<byte>, off: nat, qs: seq<Question>, spots: seq<Asked>, held: set<nat>)
    requires QuestionsAt(m, off, qs, spots, held) && qs != []
    ensures var next := AskedEnd(off, spots[..1]);
            && next == End(spots[0].off, spots[0].ends)
            && QuestionsAt(m, next, qs[1..], spots[1..], held) && AskedEnd(next, spots[1..]) == AskedEnd(off, spots)
  {
    hide FieldsAt, End, QuestionFields;
    var next := AskedEnd(off, spots[..1]);
    forall i | 0 <= i < |qs| - 1 ensures spots[1..][i].off == AskedEnd(next, spots[1..][..i]) {
      assert spots[1..][..i] == spots[1..i + 1] && spots[..i + 1][1..] == spots[1..i + 1];
      assert AskedEnd(next, spots[1..][..i]) == AskedEnd(off, spots[..i + 1]);
    }
  }

  /** The records with the lengths that they have in the message. */
  function Measured(rrs: seq<RR>, spots: seq<Spot>): (r: seq<RR>)
    requires |spots| == |rrs| && forall i :: 0 <= i < |rrs| ==> spots[i].len + 2 <= spots[i].end
    ensures |r| == |rrs|
  {
    seq(|rrs|, i requires 0 <= i < |rrs| => rrs[i].(rdlength := spots[i].end - (spots[i].len + 2)))
  }

  lemma CanonicalPlain(r: RR, compress: bool)
    requires CanonicalRecord(r, compress)
    ensures CanonicalRecord(r, false)
  {
    hide Layout, HeadFields, FieldsLen;
    PlainFields(HeadFields(r), compress);
    PlainFields(r.rdata, compress);
  }

  lemma PlainFields(fs: seq<Field>, compress: bool)
    requires CanonicalFields(fs, compress)
    ensures CanonicalFields(fs, false)
  {
    forall i | 0 <= i < |fs| ensures CanonicalField(fs[i], false) {
      assert CanonicalField(fs[i], compress);
    }
  }

  lemma {:induction false} RecordsAreRead(m: seq<byte>, off: nat, rrs: seq<RR>, spots: seq<Spot>, held: set<nat>, compress: bool)
    requires RecordsAt(m, off, rrs, spots, held) && CanonicalRecords(rrs, compress)
    ensures |spots| == |rrs| && forall i :: 0 <= i < |rrs| ==> spots[i].len + 2 <= spots[i].end
    ensures ReadRecords(|rrs|, m, off) == RecordsRead(Measured(rrs, spots), SpotsEnd(off, spots))
    decreases |rrs|
  {
    hide RecordAt, RecordsAt, ReadRecord, CanonicalRecord, Measured, SpotsEnd;
    MeasuredOk(m, off, rrs, spots, held);
    if rrs == [] {
      assert spots == [];
      NothingMeasured(off);
    } else {
      FirstRecordIsRead(m, off, rrs, spots, held, compress);
      RecordsTail(m, off, rrs, spots, held);
      RecordsAreRead(m, spots[0].end, rrs[1..], spots[1..], held, compress);
    }
  }

  lemma NothingMeasured(off: nat)
    ensures Measured([], []) == [] && SpotsEnd(off, []) == off
  {
  }

  lemma FirstRecordIsRead(m: seq<byte>, off: nat, rrs: seq<RR>, spots: seq<Spot>, held: set<nat>, compress: bool)
    requires RecordsAt(m, off, rrs, spots, held) && CanonicalRecords(rrs, compress) && rrs != []
    requires forall i :: 0 <= i < |rrs| ==> spots[i].len + 2 <= spots[i].end
    ensures ReadRecord(m, off) == RecordRead(Measured(rrs, spots)[0], spots[0].end)
    ensures Measured(rrs, spots) == [Measured(rrs, spots)[0]] + Measured(rrs[1..], spots[1..])
  {
    hide RecordAt, ReadRecord, CanonicalRecord;
    assert spots[..0] == [];
    CanonicalPlain(rrs[0], compress);
    RecordIsRead(m, rrs[0], spots[0], held);
  }

  lemma MeasuredOk(m: seq<byte>, off: nat, rrs: seq<RR>, spots: seq<Spot>, held: set<nat>)
    requires RecordsAt(m, off, rrs, spots, held)
    ensures |spots| == |rrs| && forall i :: 0 <= i < |rrs| ==> spots[i].len + 2 <= spots[i].end
  {
  }

  lemma RecordsTail(m: seq<byte>, off: nat, rrs: seq<RR>, spots: seq<Spot>, held: set<nat>)
    requires RecordsAt(m, off, rrs, spots, held) && rrs != []
    ensures RecordsAt(m, spots[0].end, rrs[1..], spots[1..], held) && SpotsEnd(spots[0].end, spots[1..]) == SpotsEnd(off, spots)
  {
    hide RecordAt;
    forall i | 0 <= i < |rrs| - 1 ensures spots[1..][i].off == SpotsEnd(spots[0].end, spots[1..][..i]) {
      assert SpotsEnd(spots[0].end, spots[1..][..i]) == SpotsEnd(off, spots[..i + 1]);
    }
  }

  /** All of a message, laid out. */
  ghost predicate MsgAt(m: seq<byte>, d: Msg, heads: seq<nat>, asked: seq<Asked>,
                        answer: seq<Spot>, ns: seq<Spot>, extra: seq<Spot>, held: set<nat>) {
    var o1 := End(0, heads);
    var o2 := AskedEnd(o1, asked);
    var o3 := SpotsEnd(o2, answer);
    var o4 := SpotsEnd(o3, ns);
    && FieldsAt(m, 0, HeaderFields(d), heads, held)
    && QuestionsAt(m, o1, d.question, asked, held)
    && RecordsAt(m, o2, d.answer, answer, held) && RecordsAt(m, o3, d.ns, ns, held) && RecordsAt(m, o4, d.extra, extra, held)
  }

  /** The same records, but for the lengths of their data. */
  ghost predicate SameButLengths(a: seq<RR>, b: seq<RR>) {
    |b| == |a| && forall i :: 0 <= i < |a| ==> b[i] == a[i].(rdlength := b[i].rdlength)
  }

  /** The same message, but for the lengths and the wish to compress it, which are not sent. */
  ghost predicate SameMsg(d: Msg, e: Msg) {
    && e.hdr == d.hdr && e.question == d.question && !e.compress
    && SameButLengths(d.answer, e.answer) && SameButLengths(d.ns, e.ns) && SameButLengths(d.extra, e.extra)
  }

  lemma MsgIsRead(m: seq<byte>, d: Msg, heads: seq<nat>, asked: seq<Asked>,
                  answer: seq<Spot>, ns: seq<Spot>, extra: seq<Spot>, held: set<nat>)
    requires CanonicalMsg(d) && MsgAt(m, d, heads, asked, answer, ns, extra, held)
    ensures ReadMsg(m).MsgRead? && SameMsg(d, ReadMsg(m).msg)
  {
    hide FieldsAt, QuestionsAt, RecordsAt, ReadFields, ReadQuestions, ReadRecords, End, AskedEnd, SpotsEnd, CanonicalQuestions,
         CanonicalRecords, Bits, HdrOf, HeaderFields;
    var o1 := End(0, heads);
    var o2 := AskedEnd(o1, asked);
    var o3 := SpotsEnd(o2, answer);
    var o4 := SpotsEnd(o3, ns);
    HeaderIsRead(m, d, heads, held);
    QuestionsAreRead(m, o1, d.question, asked, held);
    RecordsAreRead(m, o2, d.answer, answer, held, d.compress);
    RecordsAreRead(m, o3, d.ns, ns, held, d.compress);
    RecordsAreRead(m, o4, d.extra, extra, held, d.compress);
  }

  lemma HeaderIsRead(m: seq<byte>, d: Msg, heads: seq<nat>, held: set<nat>)
    requires CanonicalMsg(d) && FieldsAt(m, 0, HeaderFields(d), heads, held)
    ensures ReadFields(HEADER_KINDS, m, 0, 0) == GotAll(HeaderFields(d), End(0, heads)) && End(0, heads) <= |m|
    ensures var h := HeaderFields(d);
            && |h| == 6 && (forall i :: 0 <= i < 6 ==> h[i].Uint16?)
            && HdrOf(h[0].v, h[1].v) == d.hdr
            && h[2].v == |d.question| && h[3].v == |d.answer| && h[4].v == |d.ns| && h[5].v == |d.extra|
  {
    hide FieldsAt, ReadFields, End, Bits, HdrOf, CanonicalQuestions, CanonicalRecords;
    assert KindsOf(HeaderFields(d)) == HEADER_KINDS;
    FieldsAreRead(m, 0, HeaderFields(d), heads, held, 0);
    BitsRoundTrip(d.hdr);
  }

  // ---------------------------------------------------------------- a message packed and unpacked

  lemma StartReady(m: seq<byte>, compress: bool, n: nat)
    requires n < |m|
    ensures CanPack(m, 0, n, map[], compress, {})
  {
  }

  lemma HeaderLen(d: Msg)
    ensures FieldsLen(HeaderFields(d)) == 12
    ensures CanonicalMsg(d) ==> CanonicalFields(HeaderFields(d), d.compress)
  {
    hide Bits, CanonicalQuestions, CanonicalRecords;
    var fs := HeaderFields(d);
    OneLen(fs[5]);
    assert fs[5..] == [fs[5]] && fs[4..][1..] == fs[5..] && fs[3..][1..] == fs[4..] && fs[2..][1..] == fs[3..]
           && fs[1..][1..] == fs[2..];
    assert FieldsLen(fs[4..]) == 4 && FieldsLen(fs[3..]) == 6 && FieldsLen(fs[2..]) == 8 && FieldsLen(fs[1..]) == 10;
    if CanonicalMsg(d) {
      BitsRoundTrip(d.hdr);
    }
  }

  /** The header of a message goes first. */
  method PackHeader(d: Msg, msg: array<byte>, ghost more: nat)
      returns (off: nat, err: Option<FieldError>, known: Suffixes, ghost heads: seq<nat>, ghost held: set<nat>)
    modifies msg
    ensures var e := EmitFields(HeaderFields(d), msg.Length, 0, map[], d.compress);
            && (e.Emitted? ==> err.None? && off == |e.out| && known == e.known)
            && (e.Faulty? ==> err == Some(e.error))
    ensures CanonicalMsg(d) && 12 + more < msg.Length ==>
              && err.None? && CanPack(msg[..], off, more, known, d.compress, held)
              && FieldsAt(msg[..], 0, HeaderFields(d), heads, held) && End(0, heads) == off
  {
    hide EmitFields, CanonicalMsg, CanonicalFields, FieldsLen, Written, Untouched, FieldsAt, End, HeaderFields, TrueTable;
    ghost var m := msg[..];
    off, err, known := PackStruct(HeaderFields(d), msg, 0, map[], d.compress);
    heads, held := [], {};
    if CanonicalMsg(d) && 12 + more < msg.Length {
      HeaderLen(d);
      StartReady(m, d.compress, 12 + more);
      FieldsAreEmitted(HeaderFields(d), msg.Length, 0, map[], d.compress);
      heads := FieldsArePacked(HeaderFields(d), msg.Length, 0, map[], d.compress, m, msg[..], {});
      held := {} + Range(0, off);
    }
  }

  lemma CanonicalParts(d: Msg)
    requires CanonicalMsg(d)
    ensures CanonicalQuestions(d.question, d.compress) && CanonicalRecords(d.answer, d.compress)
    ensures CanonicalRecords(d.ns, d.compress) && CanonicalRecords(d.extra, d.compress)
  {
  }

  /** The three sections, from off on. */
  method PackSections(d: Msg, msg: array<byte>, off: nat, compression: Suffixes, ghost held: set<nat>)
      returns (off1: nat, err: Option<RecordError>, ghost answer: seq<Spot>, ghost ns: seq<Spot>, ghost extra: seq<Spot>,
               ghost held1: set<nat>)
    modifies msg
    ensures var e := EmitFields(RecordsFields(d), msg.Length, off, compression, d.compress);
            && (err.None? ==> e.Emitted? && off1 == off + |e.out|)
            && (err.Some? ==> e.Faulty? || err == Some(BadRdlength))
    ensures CanonicalMsg(d)
            && CanPack(old(msg[..]), off, RecordsLen(d.answer) + RecordsLen(d.ns) + RecordsLen(d.extra), compression, d.compress, held) ==>
              && err.None? && off1 <= msg.Length && Agrees(msg[..], msg[..off1], held1)
              && RecordsAt(msg[..], off, d.answer, answer, held1)
              && RecordsAt(msg[..], SpotsEnd(off, answer), d.ns, ns, held1)
              && RecordsAt(msg[..], SpotsEnd(SpotsEnd(off, answer), ns), d.extra, extra, held1)
              && Agrees(old(msg[..]), msg[..], held) && held <= held1
  {
    hide RecordsLen, CanonicalRecords, CanPack, RecordsAt, Agrees, SpotsEnd, EmitFields, SectionFields, CanonicalMsg, Next;
    ghost var ok := CanonicalMsg(d)
      && CanPack(msg[..], off, RecordsLen(d.answer) + RecordsLen(d.ns) + RecordsLen(d.extra), compression, d.compress, held);
    if ok {
      CanonicalParts(d);
    }
    ghost var n4 := RecordsLen(d.extra);
    ghost var n3 := RecordsLen(d.ns) + n4;
    ghost var m1 := msg[..];
    answer, ns, extra, held1 := [], [], [], held;
    SectionsEmit(d, msg.Length, off, compression);
    var known;
    ghost var held2;
    off1, err, known, answer, held2 := PackSection(d.answer, msg, off, compression, d.compress, held, n3);
    if err.Some? {
      return;
    }
    ghost var m2 := msg[..];
    ghost var held3;
    off1, err, known, ns, held3 := PackSection(d.ns, msg, off1, known, d.compress, held2, n4);
    if err.Some? {
      return;
    }
    ghost var m3 := msg[..];
    off1, err, known, extra, held1 := PackSection(d.extra, msg, off1, known, d.compress, held3, 0);
    if err.Some? {
      return;
    }
    if ok {
      CutOff(msg[..], off1, known, d.compress, held1);
      SectionPieces(d, off, m1, m2, m3, msg[..], answer, ns, extra, held, held2, held3, held1);
    }
  }

  /** The outcome for all records is that for the sections, one after another. */
  lemma SectionsEmit(d: Msg, size: nat, off: nat, known: Suffixes)
    ensures var all, e2 := EmitFields(RecordsFields(d), size, off, known, d.compress),
                           EmitFields(SectionFields(d.answer), size, off, known, d.compress);
            if e2.Faulty? then all.Faulty?
            else
              var e3 := EmitFields(SectionFields(d.ns), size, off + |e2.out|, e2.known, d.compress);
              if e3.Faulty? then all.Faulty?
              else
                var e4 := EmitFields(SectionFields(d.extra), size, off + |e2.out| + |e3.out|, e3.known, d.compress);
                (e4.Faulty? <==> all.Faulty?) && (e4.Emitted? ==> |all.out| == |e2.out| + |e3.out| + |e4.out|)
  {
    hide EmitFields, SectionFields;
    var s2, s3, s4 := SectionFields(d.answer), SectionFields(d.ns), SectionFields(d.extra);
    var e2 := EmitFields(s2, size, off, known, d.compress);
    EmitConcat(s2, s3 + s4, size, off, known, d.compress);
    if e2.Emitted? {
      EmitConcat(s3, s4, size, off + |e2.out|, e2.known, d.compress);
    }
  }

  lemma MsgEmits(d: Msg, size: nat)
    ensures var all, e0 := EmitFields(MsgFields(d), size, 0, map[], d.compress), EmitFields(HeaderFields(d), size, 0, map[], d.compress);
            if e0.Faulty? then all.Faulty?
            else
              var e1 := EmitFields(QuestionsFields(d.question), size, |e0.out|, e0.known, d.compress);
              if e1.Faulty? then all.Faulty?
              else
                var e2 := EmitFields(RecordsFields(d), size, |e0.out| + |e1.out|, e1.known, d.compress);
                (e2.Faulty? <==> all.Faulty?) && (e2.Emitted? ==> |all.out| == |e0.out| + |e1.out| + |e2.out|)
  {
    hide EmitFields, HeaderFields, QuestionsFields, RecordsFields;
    var e0 := EmitFields(HeaderFields(d), size, 0, map[], d.compress);
    EmitConcat(HeaderFields(d), QuestionsFields(d.question) + RecordsFields(d), size, 0, map[], d.compress);
    if e0.Emitted? {
      EmitConcat(QuestionsFields(d.question), RecordsFields(d), size, |e0.out|, e0.known, d.compress);
    }
  }

  /** The part of PackBuffer that fills the message. */
  method PackAll(d: Msg, msg: array<byte>) returns (off: nat, err: Option<PackMsgError>)
    modifies msg
    ensures err != Some(ErrRcode) && err != Some(ErrExtendedRcode)
    ensures var e := EmitFields(MsgFields(d), msg.Length, 0, map[], d.compress);
            && (err.None? ==> e.Emitted? && off == |e.out| <= msg.Length)
            && (err.Some? ==> e.Faulty? || err == Some(BadRR(BadRdlength)))
    ensures CanonicalMsg(d) && PlainLen(d) < msg.Length ==>
              && err.None? && off <= msg.Length
              && ReadMsg(msg[..off]).MsgRead? && SameMsg(d, ReadMsg(msg[..off]).msg)
  {
    hide QuestionsLen, RecordsLen, CanonicalQuestions, CanonicalRecords, CanPack, FieldsAt, QuestionsAt, RecordsAt, ReadMsg,
         SameMsg, HeaderFields, Agrees, End, AskedEnd, SpotsEnd, MsgAt, EmitFields, QuestionsFields, RecordsFields, MsgFields,
         CanonicalMsg;
    ghost var ok := CanonicalMsg(d) && PlainLen(d) < msg.Length;
    if ok {
      CanonicalParts(d);
    }
    MsgEmits(d, msg.Length);
    ghost var n2 := RecordsLen(d.answer) + RecordsLen(d.ns) + RecordsLen(d.extra);
    var known, e;
    ghost var heads, held0;
    off, e, known, heads, held0 := PackHeader(d, msg, QuestionsLen(d.question) + n2);
    if e.Some? {
      return off, Some(BadHeader(e.value));
    }
    ghost var m0 := msg[..];
    ghost var asked, held1;
    off, e, known, asked, held1 := PackQuestions(d.question, msg, off, known, d.compress, held0, n2);
    if e.Some? {
      return off, Some(BadQuestion(e.value));
    }
    ghost var m1 := msg[..];
    var r;
    ghost var answer, ns, extra, held2;
    off, r, answer, ns, extra, held2 := PackSections(d, msg, off, known, held1);
    if r.Some? {
      return off, Some(BadRR(r.value));
    }
    err := None;
    FieldsFit(MsgFields(d), msg.Length, 0, map[], d.compress);
    if ok {
      Pieces(d, m0, m1, msg[..], heads, asked, answer, ns, extra, held0, held1, held2);
      MsgStays(msg[..], msg[..off], d, heads, asked, answer, ns, extra, held2);
      MsgIsRead(msg[..off], d, heads, asked, answer, ns, extra, held2);
    }
  }

  lemma SectionPieces(d: Msg, off: nat, m1: seq<byte>, m2: seq<byte>, m3: seq<byte>, m4: seq<byte>,
                      answer: seq<Spot>, ns: seq<Spot>, extra: seq<Spot>,
                      held1: set<nat>, held2: set<nat>, held3: set<nat>, held4: set<nat>)
    requires held1 <= held2 <= held3 <= held4
    requires Agrees(m1, m2, held1) && Agrees(m2, m3, held2) && Agrees(m3, m4, held3)
    requires var o3 := SpotsEnd(off, answer);
             && RecordsAt(m2, off, d.answer, answer, held2) && RecordsAt(m3, o3, d.ns, ns, held3)
             && RecordsAt(m4, SpotsEnd(o3, ns), d.extra, extra, held4)
    ensures var o3 := SpotsEnd(off, answer);
            && RecordsAt(m4, off, d.answer, answer, held4) && RecordsAt(m4, o3, d.ns, ns, held4)
            && Agrees(m1, m4, held1)
  {
    AgreesTwice(m2, m3, m4, held2, held3);
    AgreesTwice(m1, m2, m4, held1, held2);
    hide RecordsAt, SpotsEnd, Agrees;
    RecordsStay(m2, m4, off, d.answer, answer, held2, held4);
    RecordsStay(m3, m4, SpotsEnd(off, answer), d.ns, ns, held3, held4);
  }

  /** What has been packed piece by piece is there at the end. */
  lemma Pieces(d: Msg, m0: seq<byte>, m1: seq<byte>, m4: seq<byte>,
               heads: seq<nat>, asked: seq<Asked>, answer: seq<Spot>, ns: seq<Spot>, extra: seq<Spot>,
               held0: set<nat>, held1: set<nat>, held4: set<nat>)
    requires held0 <= held1 <= held4 && Agrees(m0, m1, held0) && Agrees(m1, m4, held1)
    requires FieldsAt(m0, 0, HeaderFields(d), heads, held0)
    requires QuestionsAt(m1, End(0, heads), d.question, asked, held1)
    requires var o2 := AskedEnd(End(0, heads), asked);
             var o3 := SpotsEnd(o2, answer);
             && RecordsAt(m4, o2, d.answer, answer, held4) && RecordsAt(m4, o3, d.ns, ns, held4)
             && RecordsAt(m4, SpotsEnd(o3, ns), d.extra, extra, held4)
    ensures MsgAt(m4, d, heads, asked, answer, ns, extra, held4)
  {
    AgreesTwice(m0, m1, m4, held0, held1);
    hide FieldsAt, QuestionsAt, RecordsAt, HeaderFields, End, AskedEnd, SpotsEnd, Agrees;
    FieldsStay(m0, m4, 0, HeaderFields(d), heads, held0, held4);
    QuestionsStay(m1, m4, End(0, heads), d.question, asked, held1, held4);
  }

  /** Nothing behind off is needed. */
  lemma CutOff(m: seq<byte>, off: nat, known: Suffixes, compress: bool, held: set<nat>)
    requires CanPack(m, off, 0, known, compress, held)
    ensures off <= |m| && Agrees(m, m[..off], held)
  {
    hide TrueTable;
  }

  lemma MsgStays(m: seq<byte>, m1: seq<byte>, d: Msg, heads: seq<nat>, asked: seq<Asked>,
                 answer: seq<Spot>, ns: seq<Spot>, extra: seq<Spot>, held: set<nat>)
    requires MsgAt(m, d, heads, asked, answer, ns, extra, held) && Agrees(m, m1, held)
    ensures MsgAt(m1, d, heads, asked, answer, ns, extra, held)
  {
    hide FieldsAt, QuestionsAt, RecordsAt, HeaderFields, End, AskedEnd, SpotsEnd, Agrees;
    var o2 := AskedEnd(End(0, heads), asked);
    var o3 := SpotsEnd(o2, answer);
    FieldsStay(m, m1, 0, HeaderFields(d), heads, held, held);
    QuestionsStay(m, m1, End(0, heads), d.question, asked, held, held);
    RecordsStay(m, m1, o2, d.answer, answer, held, held);
    RecordsStay(m, m1, o3, d.ns, ns, held, held);
    RecordsStay(m, m1, SpotsEnd(o3, ns), d.extra, extra, held, held);
  }

  /**
   PackBuffer. A message that can make the trip never runs out of room in a buffer of Len() + 1
   bytes, and what comes out of it is unpacked to the same message.
   */
  method PackBuffer(d: Msg, buf: array<byte>) returns (packed: seq<byte>, err: Option<PackMsgError>)
    modifies buf
    ensures err == Some(ErrRcode) <==> d.hdr.rcode < 0 || d.hdr.rcode > 0xFFF
    ensures err == Some(ErrExtendedRcode) <==> 0xF < d.hdr.rcode <= 0xFFF
    ensures CanonicalMsg(d) ==> err.None? && ReadMsg(packed).MsgRead? && SameMsg(d, ReadMsg(packed).msg)
    ensures 0 <= d.hdr.rcode <= 0xF ==>
              var e := EmitFields(MsgFields(d), if buf.Length < PlainLen(d) + 1 then PlainLen(d) + 1 else buf.Length, 0, map[], d.compress);
              && (err.None? ==> e.Emitted? && |packed| == |e.out|)
              && (err.Some? ==> e.Faulty? || err == Some(BadRR(BadRdlength)))
  {
    hide PlainLen, ReadMsg, SameMsg, CanonicalQuestions, CanonicalRecords, EmitFields, MsgFields;
    packed := [];
    if d.hdr.rcode < 0 || d.hdr.rcode > 0xFFF {
      return [], Some(ErrRcode);
    }
    if d.hdr.rcode > 0xF {
      // none of the modelled records carries an extended rcode
      return [], Some(ErrExtendedRcode);
    }
    var msg := buf;
    // what Len gives with compression off (PackedLength.RoomIsLen)
    var packLen := PlainLen(d) + 1;
    if msg.Length < packLen {
      msg := new byte[packLen](_ => 0);
    }
    var off;
    off, err := PackAll(d, msg);
    if err.Some? {
      return [], err;
    }
    packed := msg[..off];
  }
}
