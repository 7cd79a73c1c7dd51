/**
 The length of a message without packing it (Msg.Len and its helpers, miekg/dns msg.go). With
 compression it keeps its own table of suffixes; this shows when it tells the truth.
 */
module PackedLength {
  import opened Bytes
  import opened DomainNames
  import opened NamePacker
  import opened Compression
  import opened CharStrings
  import opened Fields
  import opened FieldRoundTrip
  import opened Records
  import opened Messages
  import opened MsgHeader
  import opened PackedSize
  import L = Labels

  /** From a suffix to its length; what counts is which suffixes are there. */
  type Lengths = map<Text, nat>

  // ---------------------------------------------------------------- looking up and adding names

  /** What is left of s from label i on. */
  function Suffix(s: Text, i: nat): Text
    requires i < |L.Parts(L.Stem(s))|
  {
    L.PartAt(L.Stem(s), i);
    s[L.At(L.Parts(L.Stem(s)), i)..]
  }

  /** The length of the first suffix from label i on that is known; the empty text is tried last. */
  function FirstKnown(s: Text, i: nat, keys: Keys): Option<nat>
    requires i <= |L.Parts(L.Stem(s))|
    decreases |L.Parts(L.Stem(s))| - i
  {
    if i == |L.Parts(L.Stem(s))| then if [] in keys then Some(0) else None
    else if Suffix(s, i) in keys then Some(|Suffix(s, i)|)
    else FirstKnown(s, i + 1, keys)
  }

  /** All suffixes from label i on. */
  function SuffixesFrom(s: Text, i: nat): Keys
    requires i <= |L.Parts(L.Stem(s))|
    decreases |L.Parts(L.Stem(s))| - i
  {
    if i == |L.Parts(L.Stem(s))| then {} else {Suffix(s, i)} + SuffixesFrom(s, i + 1)
  }

  /** The root has no suffixes. */
  function AllSuffixes(s: Text): Keys {
    if L.IsRoot(s) then {} else SuffixesFrom(s, 0)
  }

  lemma SuffixAt(s: Text, i: nat)
    requires i < |L.Parts(L.Stem(s))|
    ensures L.At(L.Parts(L.Stem(s)), i) <= |s| && Suffix(s, i) == s[L.At(L.Parts(L.Stem(s)), i)..]
    ensures SuffixesFrom(s, i) == {Suffix(s, i)} + SuffixesFrom(s, i + 1)
  {
    hide L.Parts, L.FirstEnd;
    L.PartAt(L.Stem(s), i);
  }

  lemma LabelsThere(s: Text)
    ensures if L.IsRoot(s) then L.LabelsOf(s) == [] else L.LabelsOf(s) == L.Parts(L.Stem(s))
    ensures SuffixesFrom(s, |L.Parts(L.Stem(s))|) == {}
  {
  }

  method CompressionLenHelper(c: Lengths, s: Text) returns (c1: Lengths)
    ensures c1.Keys == c.Keys + AllSuffixes(s)
    ensures forall k :: k in c ==> c1[k] == c[k]
    ensures forall k :: k in c1 && k !in c ==> c1[k] == |k|
  {
    c1 := c;
    var lbs := L.Split(s);
    var j := |lbs| - 1;
    hide L.Parts, L.LabelsOf, L.Stem, L.At, Suffix, SuffixesFrom;
    LabelsThere(s);
    while j >= 0
      invariant -1 <= j < |lbs|
      invariant c1.Keys == c.Keys + if L.IsRoot(s) then {} else SuffixesFrom(s, j + 1)
      invariant forall k :: k in c ==> k in c1 && c1[k] == c[k]
      invariant forall k :: k in c1 && k !in c ==> c1[k] == |k|
    {
      SuffixAt(s, j);
      var pref := s[lbs[j]..];
      if pref !in c1 {
        c1 := c1[pref := |pref|];
      }
      j := j - 1;
    }
  }

  method CompressionLenSearch(c: Lengths, s: Text) returns (k: nat, ok: bool)
    ensures var r := if s == [] then None else FirstKnown(s, 0, c.Keys);
            ok == r.Some? && k == if ok then r.value else 0
  {
    if s == [] {
      return 0, false;
    }
    var off, end := 0, false;
    ghost var ps, i := L.Parts(L.Stem(s)), 0;
    hide L.Parts, L.FirstEnd, L.Stem, Suffix, SuffixesFrom, L.At;
    L.AtStart(ps);
    while true
      invariant i <= |ps| && (end <==> i == |ps|) && off == if end then |s| else L.At(ps, i)
      invariant FirstKnown(s, 0, c.Keys) == FirstKnown(s, i, c.Keys)
      decreases |ps| - i
    {
      if !end {
        SuffixAt(s, i);
      } else {
        assert s[off..] == [];
      }
      if s[off..] in c {
        return |s[off..]|, true;
      }
      if end {
        break;
      }
      NextPlace(s, i);
      off, end := L.NextLabel(s, off);
      i := i + 1;
    }
    return 0, false;
  }

  /** What NextLabel gives for where label i begins. */
  lemma NextPlace(s: Text, i: nat)
    requires s != [] && i < |L.Parts(L.Stem(s))|
    ensures var ps := L.Parts(L.Stem(s));
            var off := L.At(ps, i);
            && off <= |s| - 1
            && (off == |s| - 1 ==> i + 1 == |ps|)
            && (off < |s| - 1 ==>
                 var d := L.FirstEnd(s[off..|s| - 1], false);
                 if i + 1 == |ps| then off + d == |s| - 1 else off + d < |s| - 1 && off + d + 1 == L.At(ps, i + 1))
  {
    hide L.Parts, L.FirstEnd;
    PartEndsInside(s, i);
    L.PartAt(L.Stem(s), i);
    L.NextIsEnd(s, L.At(L.Parts(L.Stem(s)), i));
  }

  /** The last label of a name begins before its last byte, or is empty. */
  lemma PartEndsInside(s: Text, i: nat)
    requires s != [] && i < |L.Parts(L.Stem(s))|
    ensures L.At(L.Parts(L.Stem(s)), i) <= |s| - 1
  {
    hide L.Parts, L.FirstEnd;
    var ps, stem := L.Parts(L.Stem(s)), L.Stem(s);
    L.PartAt(stem, i);
    if L.At(ps, i) == |s| {
      L.PartAt(stem, i - 1);
    }
  }

  // ---------------------------------------------------------------- Len

  /** The name in the data of NS, CNAME and PTR records and of MX records, which may be compressed. */
  function SharedName(r: RR): Option<Text> {
    if |r.rdata| == 1 && r.rdata[0].Domain? && r.rdata[0].share then Some(r.rdata[0].text)
    else if |r.rdata| == 2 && r.rdata[1].Domain? && r.rdata[1].share then Some(r.rdata[1].text)
    else None
  }

  /** What a known suffix changes: its length goes, and of the pointer one byte more than the root label comes. */
  function Saving(s: Text, keys: Keys): int {
    var r := if s == [] then None else FirstKnown(s, 0, keys);
    if r.Some? then 1 - r.value as int else 0
  }

  function NameKeys(r: RR, keys: Keys): Keys {
    keys + AllSuffixes(r.name)
  }

  function RecordKeys(r: RR, keys: Keys): Keys {
    if SharedName(r).Some? then NameKeys(r, keys) + AllSuffixes(SharedName(r).value) else NameKeys(r, keys)
  }

  function RecordFast(r: RR, keys: Keys): int {
    RecordLen(r) + Saving(r.name, keys)
    + if SharedName(r).Some? then Saving(SharedName(r).value, NameKeys(r, keys)) else 0
  }

  function SectionKeys(rrs: seq<RR>, keys: Keys): Keys {
    if rrs == [] then keys else RecordKeys(rrs[|rrs| - 1], SectionKeys(rrs[..|rrs| - 1], keys))
  }

  function SectionFast(rrs: seq<RR>, keys: Keys): int {
    if rrs == [] then 0
    else SectionFast(rrs[..|rrs| - 1], keys) + RecordFast(rrs[|rrs| - 1], SectionKeys(rrs[..|rrs| - 1], keys))
  }

  function QuestionsKeys(qs: seq<Question>): Keys {
    if qs == [] then {} else QuestionsKeys(qs[..|qs| - 1]) + AllSuffixes(qs[|qs| - 1].name)
  }

  /** Msg.Len: names in questions are counted in full. */
  function FastLen(d: Msg): int {
    if !d.compress then PlainLen(d)
    else
      var k1 := QuestionsKeys(d.question);
      var k2 := SectionKeys(d.answer, k1);
      var k3 := SectionKeys(d.ns, k2);
      12 + QuestionsLen(d.question) + SectionFast(d.answer, k1) + SectionFast(d.ns, k2) + SectionFast(d.extra, k3)
  }

  /** The len method of a TXT record, whose header takes head bytes. */
  method TxtLen(head: nat, txt: seq<Text>) returns (l: nat)
    ensures l == head + FieldLen(Strings(txt))
  {
    l := head;
    assert txt[0..] == txt;
    for i := 0 to |txt|
      invariant l + StringsSize(txt[i..]) == head + StringsSize(txt)
    {
      assert txt[i..][0] == txt[i] && txt[i..][1..] == txt[i + 1..];
      l := l + |txt[i]| + 1;
    }
    assert txt[|txt|..] == [];
  }

  /** The data are those of one of the kinds of records, whatever type the header says. */
  ghost predicate HasKind(r: RR) {
    exists rrtype: nat :: Layout(rrtype) == Some(KindsOf(r.rdata))
  }

  ghost predicate HaveKinds(rrs: seq<RR>) {
    forall i :: 0 <= i < |rrs| ==> HasKind(rrs[i])
  }

  /** A and AAAA; NS, CNAME and PTR; TXT; MX; SRV. */
  lemma WhichKind(r: RR)
    requires HasKind(r)
    ensures var fs := r.rdata;
            || (|fs| == 1 && !fs[0].Uint16? && !fs[0].Uint32?)
            || (|fs| == 2 && fs[0].Uint16? && fs[1].Domain?)
            || (|fs| == 4 && fs[0].Uint16? && fs[1].Uint16? && fs[2].Uint16? && fs[3].Domain?)
  {
    var rrtype: nat :| Layout(rrtype) == Some(KindsOf(r.rdata));
    var fs, ks := r.rdata, KindsOf(r.rdata);
    assert |ks| == |fs| && forall i :: 0 <= i < |fs| ==> ks[i] == KindOf(fs[i]);
  }

  /** The len methods of records: the header, and the data by its kind. */
  method RRLen(r: RR) returns (l: nat)
    requires HasKind(r)
    ensures l == RecordLen(r)
  {
    hide HasKind, KindsOf, Layout, RecordLen;
    HeadTakes(r);
    WhichKind(r);
    DataTakes(r.rdata);
    l := |r.name| + 1;
    l := l + 10;
    if |r.rdata| == 1 {
      match r.rdata[0] {
        case Ip4(_) => l := l + 4;
        case Ip6(_) => l := l + 16;
        case Domain(t, _) => l := l + |t| + 1;
        case Strings(ss) => l := TxtLen(l, ss);
      }
    } else if |r.rdata| == 2 {
      l := l + (|r.rdata[1].text| + 1) + 2;
    } else {
      l := l + (|r.rdata[3].text| + 1) + 6;
    }
  }

  lemma DataTakes(fs: seq<Field>)
    ensures |fs| == 1 ==> FieldsLen(fs) == FieldLen(fs[0])
    ensures |fs| == 2 ==> FieldsLen(fs) == FieldLen(fs[0]) + FieldLen(fs[1])
    ensures |fs| == 3 ==> FieldsLen(fs) == FieldLen(fs[0]) + FieldLen(fs[1]) + FieldLen(fs[2])
    ensures |fs| == 4 ==> FieldsLen(fs) == FieldLen(fs[0]) + FieldLen(fs[1]) + FieldLen(fs[2]) + FieldLen(fs[3])
  {
    hide FieldLen;
    if |fs| >= 2 {
      DataTakes(fs[2..]);
      assert FieldsLen(fs) == FieldLen(fs[0]) + (FieldLen(fs[1]) + FieldsLen(fs[1..][1..]));
      assert fs[1..][1..] == fs[2..];
    }
  }

  lemma HeadTakes(r: RR)
    ensures RecordLen(r) == |r.name| + 11 + FieldsLen(r.rdata)
  {
    hide FieldsLen;
    RecordLenIs(r);
    var f := Domain(r.name, true);
    assert HeadFields(r) == [f] + ([Uint16(r.rrtype)] + ([Uint16(r.cls)] + [Uint32(r.ttl)]));
    LenConcat([f], [Uint16(r.rrtype)] + ([Uint16(r.cls)] + [Uint32(r.ttl)]));
    LenConcat([Uint16(r.rrtype)], [Uint16(r.cls)] + [Uint32(r.ttl)]);
    LenConcat([Uint16(r.cls)], [Uint32(r.ttl)]);
    OneLen(f);
    OneLen(Uint16(r.rrtype));
    OneLen(Uint16(r.cls));
    OneLen(Uint32(r.ttl));
  }

  /** A name of a record, looked up and then added. */
  method LenName(s: Text, l0: int, c0: Lengths) returns (l: int, c: Lengths)
    ensures l == l0 + Saving(s, c0.Keys) && c.Keys == c0.Keys + AllSuffixes(s)
  {
    hide FirstKnown, AllSuffixes;
    l := l0;
    var k, ok := CompressionLenSearch(c0, s);
    if ok {
      l := l + (1 - k as int);
    }
    c := CompressionLenHelper(c0, s);
  }

  /** One of the three loops over records. */
  method LenSection(rrs: seq<RR>, l0: int, c0: Lengths, compress: bool) returns (l: int, c: Lengths)
    requires HaveKinds(rrs)
    ensures compress ==> l == l0 + SectionFast(rrs, c0.Keys) && c.Keys == SectionKeys(rrs, c0.Keys)
    ensures !compress ==> l == l0 + RecordsLen(rrs)
  {
    hide RecordLen, Saving, AllSuffixes, HasKind;
    l, c := l0, c0;
    assert rrs[..0] == [] && rrs[0..] == rrs;
    for i := 0 to |rrs|
      invariant compress ==> l == l0 + SectionFast(rrs[..i], c0.Keys) && c.Keys == SectionKeys(rrs[..i], c0.Keys)
      invariant !compress ==> l + RecordsLen(rrs[i..]) == l0 + RecordsLen(rrs)
    {
      RecordsLenSplit(rrs, i);
      assert rrs[..i + 1][..i] == rrs[..i];
      var len := RRLen(rrs[i]);
      l := l + len;
      if compress {
        l, c := LenName(rrs[i].name, l, c);
        if SharedName(rrs[i]).Some? {
          l, c := LenName(SharedName(rrs[i]).value, l, c);
        }
      }
    }
    assert rrs[..|rrs|] == rrs && rrs[|rrs|..] == [];
  }

  /** The len method of questions: the name, the type and the class. */
  method QuestionLen(q: Question) returns (l: nat)
    ensures l == FieldsLen(QuestionFields(q))
  {
    l := |q.name| + 1;
    l := l + 2 + 2;
    DataTakes(QuestionFields(q));
  }

  method Len(d: Msg) returns (l: int)
    requires HaveKinds(d.answer) && HaveKinds(d.ns) && HaveKinds(d.extra)
    ensures l == FastLen(d)
  {
    hide RecordLen, FirstKnown, AllSuffixes, FieldsLen, HaveKinds;
    l := 12;
    var compression: Lengths := map[];
    var qs := d.question;
    assert qs[..0] == [] && qs[0..] == qs;
    for i := 0 to |qs|
      invariant l + QuestionsLen(qs[i..]) == 12 + QuestionsLen(qs)
      invariant d.compress ==> compression.Keys == QuestionsKeys(qs[..i])
    {
      QuestionsLenSplit(qs, i);
      assert qs[..i + 1][..i] == qs[..i];
      var len := QuestionLen(qs[i]);
      l := l + len;
      if d.compress {
        compression := CompressionLenHelper(compression, qs[i].name);
      }
    }
    assert qs[..|qs|] == qs && qs[|qs|..] == [];
    l, compression := LenSection(d.answer, l, compression, d.compress);
    l, compression := LenSection(d.ns, l, compression, d.compress);
    l, compression := LenSection(d.extra, l, compression, d.compress);
  }

  // ---------------------------------------------------------------- the length is that of the packed message

  /** The label algebra sees the labels of a name without escapes. */
  lemma {:induction false} BareIsWhole(l: Label, quote: bool)
    requires DOT !in l && BACKSLASH !in l && (quote ==> l != [])
    ensures L.FirstEnd(l + [DOT], quote) == |l|
  {
    if l != [] {
      assert (l + [DOT])[1..] == l[1..] + [DOT];
      BareIsWhole(l[1..], false);
    }
  }

  lemma ExactParts(t: Text)
    requires ExactName(t)
    ensures L.Parts(L.Stem(t)) == Cut(t) && L.IsFqdn(t) && !L.IsRoot(t)
  {
    hide Cut, L.Parts;
    var labels := Cut(t);
    forall i | 0 <= i < |labels| ensures L.Whole(labels[i]) {
      BareIsWhole(labels[i], false);
    }
    L.JoinHasLabels(labels);
    JoinHasNoBackslash(labels);
  }

  /** The suffix from label i on is those labels joined. */
  lemma {:induction false} SuffixIsJoin(t: Text, i: nat)
    requires ExactName(t) && i <= |Cut(t)|
    ensures L.Parts(L.Stem(t)) == Cut(t)
    ensures i < |Cut(t)| ==> Suffix(t, i) == Join(Cut(t)[i..])
  {
    hide ExactName, Cut, L.Parts, L.FirstEnd;
    ExactParts(t);
    if 0 < i < |Cut(t)| {
      SuffixIsJoin(t, i - 1);
      SuffixStep(t, i);
      assert Cut(t)[i - 1..][1..] == Cut(t)[i..];
    } else if i == 0 {
      assert Cut(t)[0..] == Cut(t) && t[0..] == t;
      ExactJoin(t);
    }
  }

  lemma ExactJoin(t: Text)
    requires ExactName(t)
    ensures Join(Cut(t)) == t && Cut(t) != [] && BareName(Cut(t))
  {
  }

  lemma SuffixStep(t: Text, i: nat)
    requires 0 < i < |L.Parts(L.Stem(t))|
    ensures var l := |L.Parts(L.Stem(t))[i - 1]|; l < |Suffix(t, i - 1)| && Suffix(t, i) == Suffix(t, i - 1)[l + 1..]
  {
    hide L.Parts, L.FirstEnd;
    L.PartAt(L.Stem(t), i - 1);
    L.PartAt(L.Stem(t), i);
  }

  lemma {:induction false} SuffixesAreTails(t: Text, i: nat)
    requires ExactName(t) && i <= |L.Parts(L.Stem(t))| == |Cut(t)|
    ensures SuffixesFrom(t, i) == Tails(Cut(t)[i..])
    decreases |Cut(t)| - i
  {
    hide ExactName, Cut, L.Parts, L.Stem, Join, Suffix;
    if i < |Cut(t)| {
      SuffixIsJoin(t, i);
      SuffixesAreTails(t, i + 1);
      assert Cut(t)[i..][1..] == Cut(t)[i + 1..];
    }
  }

  /** What the search finds from label i on tells how the packer cuts the name short. */
  lemma {:induction false} SearchTells(t: Text, i: nat, keys: Keys)
    requires ExactName(t) && [] !in keys && i <= |L.Parts(L.Stem(t))| == |Cut(t)|
    ensures var n, r := |Join(Cut(t)[i..])|, FirstKnown(t, i, keys);
            NameSize(Cut(t)[i..], keys) == n + 1 + (if r.Some? then 1 - r.value as int else 0)
    decreases |Cut(t)| - i
  {
    hide ExactName, Cut, L.Parts, L.Stem, Suffix;
    if i < |Cut(t)| {
      SuffixIsJoin(t, i);
      SearchTells(t, i + 1, keys);
      assert Cut(t)[i..][1..] == Cut(t)[i + 1..];
    }
  }

  lemma SavingTells(t: Text, keys: Keys)
    requires ExactName(t) && [] !in keys
    ensures NameSize(Cut(t), keys) == |t| + 1 + Saving(t, keys) && AllSuffixes(t) == Tails(Cut(t))
  {
    ExactParts(t);
    ExactJoin(t);
    JoinHasNoBackslash(Cut(t));
    hide ExactName, Cut, L.Parts, L.Stem, FirstKnown, SuffixesFrom, Join, Tails, NameSize;
    assert Cut(t)[0..] == Cut(t);
    SearchTells(t, 0, keys);
    SuffixesAreTails(t, 0);
  }

  lemma {:induction false} TailsAreNames(labels: seq<Label>)
    ensures [] !in Tails(labels)
  {
    if labels != [] {
      TailsAreNames(labels[1..]);
    }
  }

  /** A record of a kind that is modelled, with exact fields. */
  ghost predicate ExactRecord(r: RR) {
    ExactName(r.name) && ExactFields(r.rdata) && Layout(r.rrtype) == Some(KindsOf(r.rdata))
  }

  /** Data of one record: at most one name is shared. */
  lemma DataSize(r: RR, keys: Keys)
    requires ExactRecord(r) && [] !in keys
    ensures var t := SharedName(r);
            && (t.Some? ==> ExactName(t.value))
            && FieldsSize(r.rdata, keys, true) == FieldsLen(r.rdata) + (if t.Some? then Saving(t.value, keys) else 0)
            && FieldsKeys(r.rdata, keys, true) == keys + (if t.Some? then AllSuffixes(t.value) else {})
  {
    hide ExactName, Cut, Saving, AllSuffixes, NameSize, Tails;
    var fs := r.rdata;
    DataShape(r);
    if SharedName(r).Some? {
      var i := |fs| - 1;
      SavingTells(fs[i].text, keys);
      OneSize(fs[i], keys);
      if i == 1 {
        assert fs == [fs[0]] + [fs[1]];
        OneSize(fs[0], keys);
        SizeConcat([fs[0]], [fs[1]], keys, true);
        LenConcat([fs[0]], [fs[1]]);
      } else {
        assert fs == [fs[0]];
      }
    } else {
      NoneShared(fs, keys, true);
    }
  }

  lemma OneSize(f: Field, keys: Keys)
    ensures FieldsSize([f], keys, true) == FieldSize(f, keys, true) && FieldsKeys([f], keys, true) == FieldKeys(f, keys, true)
    ensures FieldsLen([f]) == FieldLen(f)
  {
    assert [f][1..] == [];
  }

  lemma DataShape(r: RR)
    requires ExactRecord(r)
    ensures var fs, t := r.rdata, SharedName(r);
            && (t.Some? ==> (|fs| == 1 || (|fs| == 2 && !fs[0].Domain?)) && Shared(fs[|fs| - 1], true)
                            && t.value == fs[|fs| - 1].text && ExactName(t.value))
            && (t.None? ==> forall i :: 0 <= i < |fs| ==> !Shared(fs[i], true))
  {
    hide ExactName;
    var fs, ks := r.rdata, KindsOf(r.rdata);
    assert |ks| == |fs| && forall i :: 0 <= i < |fs| ==> ks[i] == KindOf(fs[i]);
    assert |fs| == 1 || |fs| == 2 || |fs| == 4;
    if |fs| == 2 {
      assert ks == [ks[0], ks[1]] && ks[0] == KUint16;
    }
    if SharedName(r).Some? {
      assert ExactField(fs[|fs| - 1]);
    }
  }

  lemma {:induction false} NoneShared(fs: seq<Field>, keys: Keys, compress: bool)
    requires forall i :: 0 <= i < |fs| ==> !Shared(fs[i], compress)
    ensures FieldsSize(fs, keys, compress) == FieldsLen(fs) && FieldsKeys(fs, keys, compress) == keys
  {
    if fs != [] {
      NoneShared(fs[1..], keys, compress);
    }
  }

  /** A name and then fields that are not names. */
  lemma NameThenPlain(t: Text, plain: seq<Field>, keys: Keys)
    requires ExactName(t) && [] !in keys && forall i :: 0 <= i < |plain| ==> !Shared(plain[i], true)
    ensures var fs := [Domain(t, true)] + plain;
            && FieldsSize(fs, keys, true) == FieldsLen(fs) + Saving(t, keys)
            && FieldsKeys(fs, keys, true) == keys + AllSuffixes(t) && [] !in keys + AllSuffixes(t)
  {
    hide ExactName, Cut, Saving, AllSuffixes, NameSize, Tails;
    var f := Domain(t, true);
    SavingTells(t, keys);
    TailsAreNames(Cut(t));
    OneSize(f, keys);
    SizeConcat([f], plain, keys, true);
    LenConcat([f], plain);
    NoneShared(plain, keys + AllSuffixes(t), true);
  }

  lemma RecordSize(r: RR, keys: Keys)
    requires ExactRecord(r) && [] !in keys
    ensures FieldsSize(RecordFields(r), keys, true) == RecordFast(r, keys)
    ensures FieldsKeys(RecordFields(r), keys, true) == RecordKeys(r, keys) && [] !in RecordKeys(r, keys)
  {
    hide ExactName, Cut, Saving, AllSuffixes, FieldsSize, FieldsKeys, FieldsLen, Layout, KindsOf, SharedName;
    var plain := [Uint16(r.rrtype), Uint16(r.cls), Uint32(r.ttl), Uint16(r.rdlength)];
    var head := [Domain(r.name, true)] + plain;
    assert RecordFields(r) == head + r.rdata;
    NameThenPlain(r.name, plain, keys);
    DataSize(r, NameKeys(r, keys));
    SizeConcat(head, r.rdata, keys, true);
    LenConcat(head, r.rdata);
    if SharedName(r).Some? {
      NameThenPlain(SharedName(r).value, [], NameKeys(r, keys));
    }
  }

  ghost predicate ExactRecords(rrs: seq<RR>) {
    forall i :: 0 <= i < |rrs| ==> ExactRecord(rrs[i])
  }

  ghost predicate ExactQuestions(qs: seq<Question>) {
    forall i :: 0 <= i < |qs| ==> ExactName(qs[i].name)
  }

  ghost predicate ExactMsg(d: Msg) {
    ExactQuestions(d.question) && ExactRecords(d.answer) && ExactRecords(d.ns) && ExactRecords(d.extra)
  }

  lemma {:induction false} SectionSize(rrs: seq<RR>, keys: Keys)
    requires ExactRecords(rrs) && [] !in keys
    ensures FieldsSize(SectionFields(rrs), keys, true) == SectionFast(rrs, keys)
    ensures FieldsKeys(SectionFields(rrs), keys, true) == SectionKeys(rrs, keys) && [] !in SectionKeys(rrs, keys)
  {
    if rrs != [] {
      hide ExactRecord, RecordFields, RecordFast, RecordKeys, FieldSize, FieldKeys;
      var front, last := rrs[..|rrs| - 1], rrs[|rrs| - 1];
      SectionSize(front, keys);
      RecordSize(last, SectionKeys(front, keys));
      SizeConcat(SectionFields(front), RecordFields(last), keys, true);
    }
  }

  lemma {:induction false} QuestionsLenSnoc(qs: seq<Question>)
    requires qs != []
    ensures QuestionsLen(qs) == QuestionsLen(qs[..|qs| - 1]) + FieldsLen(QuestionFields(qs[|qs| - 1]))
  {
    hide QuestionFields, FieldsLen;
    if |qs| == 1 {
      assert qs[1..] == [] && qs[..0] == [];
    } else {
      QuestionsLenSnoc(qs[1..]);
      assert qs[1..][..|qs| - 2] == qs[..|qs| - 1][1..];
    }
  }

  /** Questions take at most what is counted for them, and exactly that if there is just one. */
  lemma {:induction false} QuestionsSize(qs: seq<Question>)
    requires ExactQuestions(qs)
    ensures FieldsSize(QuestionsFields(qs), {}, true) <= QuestionsLen(qs)
    ensures |qs| <= 1 ==> FieldsSize(QuestionsFields(qs), {}, true) == QuestionsLen(qs)
    ensures FieldsKeys(QuestionsFields(qs), {}, true) == QuestionsKeys(qs) && [] !in QuestionsKeys(qs)
  {
    if qs != [] {
      hide ExactName, QuestionFields, FieldSize, FieldKeys, Saving, AllSuffixes;
      var front, q := qs[..|qs| - 1], qs[|qs| - 1];
      QuestionsSize(front);
      QuestionSize(q, QuestionsKeys(front));
      QuestionsLenSnoc(qs);
      SizeConcat(QuestionsFields(front), QuestionFields(q), {}, true);
      if |qs| == 1 {
        NothingKnown(q.name);
      }
    }
  }

  lemma QuestionSize(q: Question, keys: Keys)
    requires ExactName(q.name) && [] !in keys
    ensures FieldsSize(QuestionFields(q), keys, true) == FieldsLen(QuestionFields(q)) + Saving(q.name, keys)
    ensures Saving(q.name, keys) <= 0
    ensures FieldsKeys(QuestionFields(q), keys, true) == keys + AllSuffixes(q.name) && [] !in keys + AllSuffixes(q.name)
  {
    hide ExactName, Cut, Saving, AllSuffixes, FieldsSize, FieldsKeys, FieldsLen;
    var plain := [Uint16(q.qtype), Uint16(q.qclass)];
    assert QuestionFields(q) == [Domain(q.name, true)] + plain;
    NameThenPlain(q.name, plain, keys);
    SavingTells(q.name, keys);
    ExactJoin(q.name);
    SizeAtMost(Cut(q.name), keys);
  }

  lemma {:induction false} SizeAtMost(labels: seq<Label>, keys: Keys)
    requires BareName(labels)
    ensures NameSize(labels, keys) <= |Join(labels)| + 1
  {
    if labels != [] {
      SizeAtMost(labels[1..], keys);
    }
  }

  lemma {:induction false} NothingFound(s: Text, i: nat)
    requires i <= |L.Parts(L.Stem(s))|
    ensures FirstKnown(s, i, {}) == None
    decreases |L.Parts(L.Stem(s))| - i
  {
    hide L.Parts;
    if i < |L.Parts(L.Stem(s))| {
      NothingFound(s, i + 1);
    }
  }

  lemma NothingKnown(s: Text)
    ensures Saving(s, {}) == 0
  {
    NothingFound(s, 0);
  }

  // ---------------------------------------------------------------- the main result

  lemma HeaderTakes(d: Msg, compress: bool)
    ensures FieldsSize(HeaderFields(d), {}, compress) == 12 && FieldsKeys(HeaderFields(d), {}, compress) == {}
  {
    HeaderLen(d);
    hide Bits;
    NoneShared(HeaderFields(d), {}, compress);
  }

  /** The size of the whole message, told in advance. */
  lemma MsgSize(d: Msg)
    requires ExactMsg(d) && d.compress
    ensures FieldsSize(MsgFields(d), {}, true)
            == FastLen(d) - (QuestionsLen(d.question) - FieldsSize(QuestionsFields(d.question), {}, true))
  {
    hide HeaderFields, QuestionsFields, SectionFields, FieldsSize, FieldsKeys, SectionFast, SectionKeys, QuestionsKeys, QuestionsLen,
         ExactRecords, ExactQuestions;
    var k1 := QuestionsKeys(d.question);
    var k2 := SectionKeys(d.answer, k1);
    var k3 := SectionKeys(d.ns, k2);
    HeaderTakes(d, true);
    QuestionsSize(d.question);
    SectionSize(d.answer, k1);
    SectionSize(d.ns, k2);
    SectionSize(d.extra, k3);
    var s2, s3, s4 := SectionFields(d.answer), SectionFields(d.ns), SectionFields(d.extra);
    SizeConcat(HeaderFields(d), QuestionsFields(d.question) + RecordsFields(d), {}, true);
    SizeConcat(QuestionsFields(d.question), RecordsFields(d), {}, true);
    SizeConcat(s2, s3 + s4, k1, true);
    SizeConcat(s3, s4, k2, true);
  }

  lemma {:induction false} SectionExact(rrs: seq<RR>)
    requires ExactRecords(rrs)
    ensures ExactFields(SectionFields(rrs))
  {
    if rrs != [] {
      hide ExactName, Layout, KindsOf;
      SectionExact(rrs[..|rrs| - 1]);
    }
  }

  lemma {:induction false} QuestionsExact(qs: seq<Question>)
    requires ExactQuestions(qs)
    ensures ExactFields(QuestionsFields(qs))
  {
    if qs != [] {
      hide ExactName;
      QuestionsExact(qs[..|qs| - 1]);
    }
  }

  lemma MsgExact(d: Msg)
    requires ExactMsg(d)
    ensures ExactFields(MsgFields(d))
  {
    hide ExactName, SectionFields, QuestionsFields, Bits, ExactRecord;
    QuestionsExact(d.question);
    SectionExact(d.answer);
    SectionExact(d.ns);
    SectionExact(d.extra);
    assert ExactFields(HeaderFields(d));
  }

  lemma {:induction false} SectionLen(rrs: seq<RR>)
    ensures FieldsLen(SectionFields(rrs)) == RecordsLen(rrs)
  {
    hide RecordFields;
    if rrs != [] {
      var front := rrs[..|rrs| - 1];
      SectionLen(front);
      LenConcat(SectionFields(front), RecordFields(rrs[|rrs| - 1]));
      RecordsLenSnoc(rrs);
    }
  }

  lemma {:induction false} RecordsLenSnoc(rrs: seq<RR>)
    requires rrs != []
    ensures RecordsLen(rrs) == RecordsLen(rrs[..|rrs| - 1]) + RecordLen(rrs[|rrs| - 1])
  {
    hide RecordLen;
    if |rrs| == 1 {
      assert rrs[1..] == [] && rrs[..0] == [];
    } else {
      RecordsLenSnoc(rrs[1..]);
      assert rrs[1..][..|rrs| - 2] == rrs[..|rrs| - 1][1..];
    }
  }

  lemma {:induction false} QuestionsFieldsLen(qs: seq<Question>)
    ensures FieldsLen(QuestionsFields(qs)) == QuestionsLen(qs)
  {
    hide QuestionFields;
    if qs != [] {
      var front := qs[..|qs| - 1];
      QuestionsFieldsLen(front);
      LenConcat(QuestionsFields(front), QuestionFields(qs[|qs| - 1]));
      QuestionsLenSnoc(qs);
    }
  }

  lemma MsgLen(d: Msg)
    ensures FieldsLen(MsgFields(d)) == PlainLen(d)
  {
    hide HeaderFields, QuestionsFields, SectionFields, FieldsLen, QuestionsLen, RecordsLen;
    HeaderLen(d);
    QuestionsFieldsLen(d.question);
    SectionLen(d.answer);
    SectionLen(d.ns);
    SectionLen(d.extra);
    var s2, s3, s4 := SectionFields(d.answer), SectionFields(d.ns), SectionFields(d.extra);
    LenConcat(HeaderFields(d), QuestionsFields(d.question) + RecordsFields(d));
    LenConcat(QuestionsFields(d.question), RecordsFields(d));
    LenConcat(s2, s3 + s4);
    LenConcat(s3, s4);
  }

  /**
   Len is at least the length of the packed message, and exactly that without compression or when
   there is at most one question. This is for messages of exact fields; with compression, for
   those that take no more than the 16384 bytes that pointers reach.
   */
  lemma LenIsPackedLength(d: Msg, size: nat)
    requires ExactMsg(d) && EmitFields(MsgFields(d), size, 0, map[], d.compress).Emitted?
    requires d.compress ==> |EmitFields(MsgFields(d), size, 0, map[], d.compress).out| <= MAX_COMPRESSION_OFFSET
    ensures var n := |EmitFields(MsgFields(d), size, 0, map[], d.compress).out|;
            n <= FastLen(d) && (!d.compress || |d.question| <= 1 ==> n == FastLen(d))
  {
    hide EmitFields, MsgFields, FastLen, PlainLen, ExactFields, FieldsSize, FieldsKeys, FieldsLen, QuestionsFields, QuestionsLen, ExactName;
    var known: Suffixes := map[];
    assert known.Keys == {};
    MsgExact(d);
    FieldsFit(MsgFields(d), size, 0, known, d.compress);
    FieldsTake(MsgFields(d), size, 0, known, d.compress);
    if d.compress {
      MsgSize(d);
      QuestionsSize(d.question);
    } else {
      NoneShared(MsgFields(d), {}, false);
      MsgLen(d);
      FastIsPlain(d);
    }
  }

  lemma FastIsPlain(d: Msg)
    requires !d.compress
    ensures FastLen(d) == PlainLen(d)
  {
  }

  /** The room that PackBuffer makes, and one byte: Len of the message with compression off. */
  lemma RoomIsLen(d: Msg)
    ensures FastLen(d.(compress := false)) == PlainLen(d)
  {
    FastIsPlain(d.(compress := false));
  }
}
