/**
 How many bytes names without escapes take when they are packed with compression. What matters of
 the table of suffixes is only which suffixes it has.
 */
module PackedSize {
  import opened Bytes
  import opened DomainNames
  import opened NamePacker
  import opened NameRoundTrip
  import opened Compression
  import opened CharStrings
  import opened Fields
  import opened FieldRoundTrip

  type Keys = set<Text>

  /** The bytes of a name: its labels up to the first suffix that is known, and a pointer to that. */
  function NameSize(labels: seq<Label>, keys: Keys): nat {
    if labels == [] then 1
    else if Join(labels) in keys then 2
    else 1 + |labels[0]| + NameSize(labels[1..], keys)
  }

  /** All suffixes of a name but the root. */
  function Tails(labels: seq<Label>): Keys {
    if labels == [] then {} else {Join(labels)} + Tails(labels[1..])
  }

  /** With every suffix of at most n bytes, the table has the suffixes of that. */
  ghost predicate ClosedUpTo(keys: Keys, n: nat) {
    forall k :: k in keys && |k| <= n ==> Cut(k) != [] && BareName(Cut(k)) && k == Join(Cut(k)) && Tails(Cut(k)) <= keys
  }

  ghost predicate Closed(keys: Keys) {
    forall k :: k in keys ==> Cut(k) != [] && BareName(Cut(k)) && k == Join(Cut(k)) && Tails(Cut(k)) <= keys
  }

  lemma {:induction false} TailsAreShort(labels: seq<Label>)
    ensures forall k :: k in Tails(labels) ==> |k| <= |Join(labels)|
  {
    if labels != [] {
      TailsAreShort(labels[1..]);
    }
  }

  /** A longer suffix does not matter. */
  lemma {:induction false} SizeWithLonger(labels: seq<Label>, keys: Keys, key: Text)
    requires |key| > |Join(labels)|
    ensures NameSize(labels, keys + {key}) == NameSize(labels, keys)
  {
    if labels != [] {
      SizeWithLonger(labels[1..], keys, key);
    }
  }

  lemma ClosedWithLonger(keys: Keys, key: Text, n: nat, n1: nat)
    requires ClosedUpTo(keys, n) && n1 <= n && n1 < |key|
    ensures ClosedUpTo(keys + {key}, n1)
  {
    hide Cut, Tails, BareName, Join;
  }

  lemma {:induction false} BareSizes(s: Text, begin: nat, labels: seq<Label>, size: nat, off: nat, known: Suffixes)
    requires |s| > 1 && s[|s| - 1] == DOT && BACKSLASH !in s && begin <= |s| == |Tokens(s)|
    requires BareName(labels) && s[begin..] == Join(labels)
    requires var p := PackFrom(s, begin, size, off, known, true); p.Packed? && off + |p.out| <= MAX_COMPRESSION_OFFSET
    requires ClosedUpTo(known.Keys, |Join(labels)|)
    ensures var p := PackFrom(s, begin, size, off, known, true);
            |p.out| == NameSize(labels, known.Keys) && p.known.Keys == known.Keys + Tails(labels)
    decreases |labels|
  {
    hide Tokens, PackFrom, Join, BareName, Cut, ClosedUpTo, Pointer, Learned;
    if labels == [] {
      BareRest(labels);
      PackRest(s, begin, size, off, known);
    } else {
      var key := Join(labels);
      JoinStep(labels);
      PackOne(s, begin, labels, size, off, known);
      if key in known {
        KeyIsClosed(known.Keys, labels);
      } else {
        var l, off1, known1 := labels[0], off + 1 + |labels[0]|, Learned(key, off, known, true);
        var rest := PackFrom(s, begin + |l| + 1, size, off1, known1, true);
        AfterOut(rest, WireLabel(l), 1);
        LearnedKeys(key, off, known);
        ClosedWithLonger(known.Keys, key, |key|, |Join(labels[1..])|);
        SizeWithLonger(labels[1..], known.Keys, key);
        BareSizes(s, begin + |l| + 1, labels[1..], size, off1, known1);
      }
    }
  }

  lemma LearnedKeys(key: Text, off: nat, known: Suffixes)
    requires key != [DOT] && off < MAX_COMPRESSION_OFFSET
    ensures Learned(key, off, known, true).Keys == known.Keys + {key}
  {
  }

  lemma KeyIsClosed(keys: Keys, labels: seq<Label>)
    requires labels != [] && BareName(labels) && Join(labels) in keys && ClosedUpTo(keys, |Join(labels)|)
    ensures keys == keys + Tails(labels)
  {
    CutJoin(labels);
  }

  lemma {:induction false} TailsAreClosed(labels: seq<Label>)
    requires BareName(labels)
    ensures Closed(Tails(labels))
  {
    if labels != [] {
      TailsAreClosed(labels[1..]);
      CutJoin(labels);
    }
  }

  lemma ClosedMore(keys: Keys, labels: seq<Label>)
    requires Closed(keys) && BareName(labels)
    ensures Closed(keys + Tails(labels))
  {
    hide Cut, BareName, Join, Tails;
    TailsAreClosed(labels);
  }

  // ---------------------------------------------------------------- fields

  /** Fields that take as many bytes as the len methods count, but for pointers. */
  ghost predicate ExactField(f: Field) {
    match f
    case Uint16(_) => true
    case Uint32(_) => true
    case Domain(t, _) => ExactName(t)
    case Strings(ss) => forall i :: 0 <= i < |ss| ==> BACKSLASH !in ss[i]
    case Ip4(ip) => ip != []
    case Ip6(ip) => ip != []
  }

  /** A fully qualified name other than the root, without escapes. */
  ghost predicate ExactName(t: Text) {
    Cut(t) != [] && BareName(Cut(t)) && t == Join(Cut(t))
  }

  ghost predicate ExactFields(fs: seq<Field>) {
    forall i :: 0 <= i < |fs| ==> ExactField(fs[i])
  }

  predicate Shared(f: Field, compress: bool) {
    f.Domain? && f.share && compress
  }

  function FieldSize(f: Field, keys: Keys, compress: bool): nat {
    if Shared(f, compress) then NameSize(Cut(f.text), keys) else FieldLen(f)
  }

  function FieldKeys(f: Field, keys: Keys, compress: bool): Keys {
    if Shared(f, compress) then keys + Tails(Cut(f.text)) else keys
  }

  function FieldsSize(fs: seq<Field>, keys: Keys, compress: bool): nat {
    if fs == [] then 0 else FieldSize(fs[0], keys, compress) + FieldsSize(fs[1..], FieldKeys(fs[0], keys, compress), compress)
  }

  function FieldsKeys(fs: seq<Field>, keys: Keys, compress: bool): Keys {
    if fs == [] then keys else FieldsKeys(fs[1..], FieldKeys(fs[0], keys, compress), compress)
  }

  /** A state in which sizes can be told: with compression, the message is short so far. */
  ghost predicate Tellable(off: nat, n: nat, size: nat, known: Suffixes, compress: bool) {
    off + n <= size && (compress ==> Closed(known.Keys) && off + n <= MAX_COMPRESSION_OFFSET)
  }

  lemma SharedSize(t: Text, size: nat, off: nat, known: Suffixes)
    requires ExactName(t) && Closed(known.Keys)
    requires var p := Pack(t, size, off, known, true); p.Packed? && off + |p.out| <= MAX_COMPRESSION_OFFSET
    ensures var p := Pack(t, size, off, known, true);
            && |p.out| == NameSize(Cut(t), known.Keys)
            && p.known.Keys == known.Keys + Tails(Cut(t)) && Closed(p.known.Keys)
  {
    hide PackFrom, Join, Cut, BareName, Tokens, NameSize, Tails;
    var labels := Cut(t);
    JoinHasNoBackslash(labels);
    BareIsRead(t);
    assert t[0..] == t;
    BareSizes(t, 0, labels, size, off, known);
    ClosedMore(known.Keys, labels);
  }

  lemma {:induction false} WireAsLong(labels: seq<Label>)
    requires BareName(labels)
    ensures LabelsOk(labels) && |WireName(labels)| == |Join(labels)| + 1
  {
    if labels != [] {
      WireAsLong(labels[1..]);
      WireNameStep(labels);
    }
  }

  lemma PlainSize(t: Text, size: nat, off: nat, known: Suffixes)
    requires ExactName(t) && off <= size && Pack(t, size, off, known, false).Packed?
    ensures var p := Pack(t, size, off, known, false); |p.out| == |t| + 1 && p.known == known
  {
    hide PackFrom, Join, Cut, BareName, Tokens, Spelt, WireLabels;
    var labels := Cut(t);
    JoinHasNoBackslash(labels);
    BareIsRead(t);
    JoinSpells(labels);
    WireAsLong(labels);
    assert Tokens(t)[0..] == Tokens(t);
    PackSpelt(t, 0, labels, size, off, known);
  }

  lemma {:induction false} NoEscapes(s: Text)
    requires BACKSLASH !in s
    ensures |StringBytes(s)| == |s|
  {
    if s != [] {
      NoEscapes(s[1..]);
    }
  }

  lemma {:induction false} StringsExact(ss: seq<Text>, size: nat, off: nat)
    requires PackStrings(ss, size, off).StringPacked? && forall i :: 0 <= i < |ss| ==> BACKSLASH !in ss[i]
    ensures |PackStrings(ss, size, off).out| == StringsSize(ss)
    decreases |ss|
  {
    hide StringBytes, Dangling;
    if ss != [] {
      NoEscapes(ss[0]);
      StringsExact(ss[1..], size, off + 1 + |ss[0]|);
    }
  }

  lemma FieldTakes(f: Field, size: nat, off: nat, known: Suffixes, compress: bool)
    requires ExactField(f) && EmitField(f, size, off, known, compress).Emitted?
    requires Tellable(off, |EmitField(f, size, off, known, compress).out|, size, known, compress)
    ensures var e := EmitField(f, size, off, known, compress);
            && |e.out| == FieldSize(f, known.Keys, compress) && e.known.Keys == FieldKeys(f, known.Keys, compress)
            && (compress ==> Closed(e.known.Keys))
  {
    hide Pack, BigEndian, Closed, NameSize, Tails, Cut, ExactName, PackStrings, StringsSize;
    match f
    case Domain(t, share) =>
      if share && compress {
        SharedSize(t, size, off, known);
      } else {
        PlainSize(t, size, off, known);
      }
    case Strings(ss) => StringsExact(ss, size, off);
    case _ =>
  }

  /** Packed fields take exactly the size told, and the table has exactly the suffixes told. */
  lemma {:induction false} FieldsTake(fs: seq<Field>, size: nat, off: nat, known: Suffixes, compress: bool)
    requires ExactFields(fs) && EmitFields(fs, size, off, known, compress).Emitted?
    requires Tellable(off, |EmitFields(fs, size, off, known, compress).out|, size, known, compress)
    ensures var e := EmitFields(fs, size, off, known, compress);
            && |e.out| == FieldsSize(fs, known.Keys, compress) && e.known.Keys == FieldsKeys(fs, known.Keys, compress)
            && (compress ==> Closed(e.known.Keys))
    decreases |fs|
  {
    hide EmitField, ExactField, FieldSize, FieldKeys, Closed;
    if fs != [] {
      var first := EmitField(fs[0], size, off, known, compress);
      FieldTakes(fs[0], size, off, known, compress);
      FieldsTake(fs[1..], size, off + |first.out|, first.known, compress);
    }
  }

  lemma {:induction false} SizeConcat(a: seq<Field>, b: seq<Field>, keys: Keys, compress: bool)
    ensures FieldsSize(a + b, keys, compress) == FieldsSize(a, keys, compress) + FieldsSize(b, FieldsKeys(a, keys, compress), compress)
    ensures FieldsKeys(a + b, keys, compress) == FieldsKeys(b, FieldsKeys(a, keys, compress), compress)
    decreases |a|
  {
    hide FieldSize, FieldKeys;
    if a == [] {
      assert a + b == b;
    } else {
      assert (a + b)[0] == a[0] && (a + b)[1..] == a[1..] + b;
      SizeConcat(a[1..], b, FieldKeys(a[0], keys, compress), compress);
    }
  }
}
