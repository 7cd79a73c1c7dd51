/**
 Compression keeps the meaning of names (RFC 1035 section 4.1.4). The names here have no
 backslash in their text: the labels hold any bytes other than dots and backslashes.
 */
module Compression {
  import opened Bytes
  import opened DomainNames
  import opened NamePacker
  import opened NameUnpacker
  import opened NameRoundTrip

  predicate Bare(l: Label) {
    LabelOk(l) && DOT !in l && BACKSLASH !in l
  }

  predicate BareName(labels: seq<Label>) {
    forall i :: 0 <= i < |labels| ==> Bare(labels[i])
  }

  /** The text of labels that need no escapes. */
  function Join(labels: seq<Label>): (r: Text)
    ensures r == [] <==> labels == []
  {
    if labels == [] then [] else labels[0] + [DOT] + Join(labels[1..])
  }

  function JoinText(labels: seq<Label>): Text {
    if labels == [] then [DOT] else Join(labels)
  }

  function FirstDot(t: Text): (d: nat)
    ensures d <= |t|
    ensures forall i :: 0 <= i < d ==> t[i] != DOT
    ensures d < |t| ==> t[d] == DOT
  {
    if t == [] || t[0] == DOT then 0 else 1 + FirstDot(t[1..])
  }

  /** The labels of a text without escapes. */
  function Cut(t: Text): seq<Label>
    decreases |t|
  {
    var d := FirstDot(t);
    if d == |t| then [] else [t[..d]] + Cut(t[d + 1..])
  }

  lemma FirstDotIs(t: Text, n: nat)
    requires n < |t| && t[n] == DOT && forall i :: 0 <= i < n ==> t[i] != DOT
    ensures FirstDot(t) == n
  {
    var d := FirstDot(t);
    assert d <= n;
    assert t[d] == DOT;
  }

  lemma CutStep(l: Label, rest: Text)
    requires DOT !in l
    ensures Cut(l + [DOT] + rest) == [l] + Cut(rest)
  {
    hide FirstDot;
    var t := l + [DOT] + rest;
    FirstDotIs(t, |l|);
    assert t[..|l|] == l && t[|l| + 1..] == rest;
  }

  lemma {:induction false} CutJoin(labels: seq<Label>)
    requires BareName(labels)
    ensures Cut(Join(labels)) == labels
  {
    if labels == [] {
      assert FirstDot(Join(labels)) == 0;
    } else {
      hide Cut;
      CutStep(labels[0], Join(labels[1..]));
      CutJoin(labels[1..]);
    }
  }

  lemma {:induction false} JoinHasNoBackslash(labels: seq<Label>)
    requires BareName(labels)
    ensures BACKSLASH !in Join(labels)
    ensures labels != [] ==> |Join(labels)| > 1 && Join(labels)[|Join(labels)| - 1] == DOT
  {
    if labels != [] {
      JoinHasNoBackslash(labels[1..]);
    }
  }

  function BareTokens(t: Text): (r: seq<Token>)
    ensures |r| == |t|
  {
    seq(|t|, i requires 0 <= i < |t| => Token(t[i], false))
  }

  lemma {:induction false} BareIsRead(t: Text)
    requires BACKSLASH !in t
    ensures Tokens(t) == BareTokens(t)
  {
    if t != [] {
      BareIsRead(t[1..]);
      assert BareTokens(t) == [Token(t[0], false)] + BareTokens(t[1..]);
    }
  }

  lemma {:induction false} JoinSpells(labels: seq<Label>)
    requires BareName(labels)
    ensures Spelt(BareTokens(Join(labels)), labels)
  {
    if labels != [] {
      var t, l := Join(labels), labels[0];
      assert BareTokens(t)[|l| + 1..] == BareTokens(Join(labels[1..]));
      JoinSpells(labels[1..]);
    }
  }

  // ---------------------------------------------------------------- names within a message

  /**
   The bytes at p spell the labels. All bytes of the name are in held, each pointer goes
   strictly backward, and to a label.
   */
  ghost predicate Spells(m: seq<byte>, p: nat, labels: seq<Label>, held: set<nat>)
    decreases |labels|, p
  {
    && p < |m| && p in held
    && if labels == [] then m[p] == 0
       else if m[p] >= 192 then
         && p + 1 < |m| && p + 1 in held
         && Target(m, p) < p && m[Target(m, p)] < 64
         && Spells(m, Target(m, p), labels, held)
       else
         && m[p] == |labels[0]| && LabelOk(labels[0]) && p + 1 + m[p] <= |m|
         && (forall i :: p < i <= p + m[p] ==> i in held)
         && m[p + 1..p + 1 + m[p]] == labels[0]
         && Spells(m, p + 1 + m[p], labels[1..], held)
  }

  /** Where the name's own bytes end. */
  ghost function NameEnd(m: seq<byte>, p: nat, labels: seq<Label>, held: set<nat>): nat
    requires Spells(m, p, labels, held)
    decreases |labels|
  {
    if labels == [] then p + 1
    else if m[p] >= 192 then p + 2
    else NameEnd(m, p + 1 + m[p], labels[1..], held)
  }

  /** How many pointers are followed to read the name. */
  ghost function Hops(m: seq<byte>, p: nat, labels: seq<Label>, held: set<nat>): nat
    requires Spells(m, p, labels, held)
    decreases |labels|, p
  {
    if labels == [] then 0
    else if m[p] >= 192 then 1 + Hops(m, Target(m, p), labels, held)
    else Hops(m, p + 1 + m[p], labels[1..], held)
  }

  /** There are at most as many pointers as labels, and one less if the name begins with a label of its own. */
  lemma {:induction false} HopsAtMost(m: seq<byte>, p: nat, labels: seq<Label>, held: set<nat>)
    requires Spells(m, p, labels, held)
    ensures Hops(m, p, labels, held) <= if labels != [] && m[p] < 64 then |labels| - 1 else |labels|
    decreases |labels|, p
  {
    if labels != [] {
      if m[p] >= 192 {
        HopsAtMost(m, Target(m, p), labels, held);
      } else {
        HopsAtMost(m, p + 1 + m[p], labels[1..], held);
      }
    }
  }

  /** A name is decoded to its labels if and only if its pointers are within the budget. */
  lemma {:induction false} SpelledIsWalked(m: seq<byte>, p: nat, labels: seq<Label>, held: set<nat>, budget: nat)
    requires Spells(m, p, labels, held)
    ensures Hops(m, p, labels, held) <= budget ==>
              && Walk(m, p, budget).Name? && Walk(m, p, budget).labels == labels
              && Walk(m, p, budget).next == NameEnd(m, p, labels, held)
    ensures Hops(m, p, labels, held) > budget ==> Walk(m, p, budget) == Bad(ErrTooManyPointers)
    decreases |labels|, p
  {
    if labels != [] {
      if m[p] >= 192 {
        if budget > 0 {
          SpelledIsWalked(m, Target(m, p), labels, held, budget - 1);
        }
      } else {
        SpelledIsWalked(m, p + 1 + m[p], labels[1..], held, budget);
        assert labels == [labels[0]] + labels[1..];
      }
    }
  }

  /** Only the held bytes matter. */
  lemma {:induction false} SpellsStill(m: seq<byte>, m1: seq<byte>, p: nat, labels: seq<Label>, held: set<nat>, more: set<nat>)
    requires Spells(m, p, labels, held) && held <= more
    requires forall i :: i in held && i < |m| ==> i < |m1| && m1[i] == m[i]
    ensures Spells(m1, p, labels, more) && NameEnd(m1, p, labels, more) == NameEnd(m, p, labels, held)
    decreases |labels|, p
  {
    if labels != [] {
      if m[p] >= 192 {
        assert m1[p + 1] == m[p + 1] && m1[p] == m[p];
        var q := Target(m, p);
        assert q in held;
        SpellsStill(m, m1, q, labels, held, more);
      } else {
        assert p + m[p] in held;
        assert m1[p + 1..p + 1 + m[p]] == m[p + 1..p + 1 + m[p]];
        SpellsStill(m, m1, p + 1 + m[p], labels[1..], held, more);
      }
    }
  }

  // ---------------------------------------------------------------- the table of suffixes

  /** An entry of the table is true: the suffix is spelled at p, by a label, within 14 bits. */
  ghost predicate TrueEntry(m: seq<byte>, k: Text, p: nat, held: set<nat>) {
    && p < MAX_COMPRESSION_OFFSET
    && Cut(k) != [] && BareName(Cut(k))
    && Spells(m, p, Cut(k), held)
    && m[p] < 64
  }

  /** All entries for suffixes of at most n bytes are true. */
  ghost predicate TrueUpTo(m: seq<byte>, known: Suffixes, n: nat, held: set<nat>) {
    forall k :: k in known && |k| <= n ==> TrueEntry(m, k, known[k], held)
  }

  ghost predicate TrueTable(m: seq<byte>, known: Suffixes, held: set<nat>) {
    forall k :: k in known ==> TrueEntry(m, k, known[k], held)
  }

  function Range(off: nat, n: nat): (r: set<nat>)
    ensures forall i :: i in r <==> off <= i < off + n
    decreases n
  {
    if n == 0 then {} else {off} + Range(off + 1, n - 1)
  }

  /** known has grown by suffixes of at most n bytes. */
  ghost predicate Grown(was: Suffixes, known: Suffixes, n: nat) {
    && (forall k :: k in was ==> k in known && known[k] == was[k])
    && (forall k :: k in known && k !in was ==> |k| <= n)
  }

  lemma EntryStill(m: seq<byte>, k: Text, p: nat, held: set<nat>, more: set<nat>)
    requires TrueEntry(m, k, p, held) && held <= more
    ensures TrueEntry(m, k, p, more)
  {
    SpellsStill(m, m, p, Cut(k), held, more);
  }

  lemma JoinStep(labels: seq<Label>)
    requires labels != [] && BareName(labels)
    ensures BareName(labels[1..]) && LabelsOk(labels)
    ensures Join(labels) == labels[0] + [DOT] + Join(labels[1..]) && Join(labels) != [DOT]
    ensures Cut(Join(labels)) == labels
  {
    CutJoin(labels);
    assert labels[0][0] != DOT;
    assert Join(labels)[0] == labels[0][0];
  }

  /** Unfolds the packing of one label of a bare name. */
  lemma PackOne(s: Text, begin: nat, labels: seq<Label>, size: nat, off: nat, known: Suffixes)
    requires |s| > 1 && s[|s| - 1] == DOT && BACKSLASH !in s && begin <= |s|
    requires labels != [] && BareName(labels) && s[begin..] == Join(labels)
    ensures var d, key := begin + |labels[0]|, Join(labels);
            && d < |s| == |Tokens(s)|
            && s[d + 1..] == Join(labels[1..])
            && PackFrom(s, begin, size, off, known, true) ==
               if off + 1 + |labels[0]| > size then Failed(PackError.ErrBuf, known, 0)
               else if key in known then
                 if off + 1 >= size then Failed(IndexOutOfRange, known, 0) else Packed(Pointer(known[key]), known, 0)
               else PackFrom(s, d + 1, size, off + 1 + |labels[0]|, Learned(key, off, known, true), true)
                      .After(WireLabel(labels[0]), 1)
  {
    hide Tokens, Key, Join, HasEscape, TokenBytes, PackFrom, NextDot, WireLabel, Learned, BareName;
    OneLabel(s, begin, labels);
    JoinStep(labels);
    PackAtDot(s, begin + |labels[0]|, begin, size, off, known, true);
  }

  /** What the packing loop sees of one label. */
  lemma OneLabel(s: Text, begin: nat, labels: seq<Label>)
    requires |s| > 1 && s[|s| - 1] == DOT && BACKSLASH !in s && begin <= |s|
    requires labels != [] && BareName(labels) && s[begin..] == Join(labels)
    ensures var d, ts := begin + |labels[0]|, Tokens(s);
            && d < |s| == |ts| && begin < d < begin + MAX_LABEL
            && NextDot(ts, begin) == d && !HasEscape(ts[begin..d]) && TokenBytes(ts[begin..d]) == labels[0]
            && Key(s, begin, d) == Join(labels) && s[d + 1..] == Join(labels[1..])
  {
    hide *;
    JoinStep(labels);
    FirstIsBare(labels);
    BareIsRead(s);
    JoinSpells(labels);
    BareSlices(s, begin);
    FirstLabel(BareTokens(s), begin, labels);
    var d := begin + |labels[0]|;
    DropDrop(s, begin, labels[0], Join(labels[1..]));
    PlainDecoded(s, d);
    KeyIsArray(s, begin, d);
  }

  lemma FirstIsBare(labels: seq<Label>)
    requires labels != [] && BareName(labels)
    ensures 0 < |labels[0]| < MAX_LABEL
  {
  }

  lemma BareSlices(s: Text, begin: nat)
    requires begin <= |s|
    ensures BareTokens(s)[begin..] == BareTokens(s[begin..])
    ensures forall d :: begin <= d <= |s| ==> !HasEscape(BareTokens(s)[begin..d])
  {
  }

  lemma DropDrop(s: Text, begin: nat, l: Label, rest: Text)
    requires begin <= |s| && s[begin..] == l + [DOT] + rest
    ensures begin + |l| < |s| && s[begin + |l| + 1..] == rest
  {
    assert s[begin..][|l| + 1..] == rest;
  }

  lemma KeyIsArray(s: Text, begin: nat, d: nat)
    requires s != [] && s[|s| - 1] == DOT && begin <= |s|
    ensures Key(s, begin, d) == Decoded(s, d).bs[begin..]
  {
  }

  /** The bytes of a pointer are read as its target. */
  lemma PointerIsRead(m: seq<byte>, off: nat, p: nat)
    requires p < MAX_COMPRESSION_OFFSET && Written(m, off, Pointer(p))
    ensures off + 1 < |m| && m[off] >= 192 && Target(m, off) == p
  {
    var n := p % 0x4000 + 0x4000 * (3 - p / 0x4000 % 4);
    assert n == p + 0xC000;
    assert BigEndian(n / 256, 1) == BigEndian(n / 256 / 256, 0) + [n / 256 % 256];
    assert Pointer(p) == [n / 256 % 256, n % 256];
    WrittenSlice(m, off, Pointer(p));
    assert m[off] == m[off..off + 2][0] && m[off + 1] == m[off..off + 2][1];
  }

  /** A name cut short by a pointer. */
  lemma SpellsByPointer(m: seq<byte>, off: nat, labels: seq<Label>, q: nat, held: set<nat>, all: set<nat>)
    requires BareName(labels) && labels != [] && TrueEntry(m, Join(labels), q, held)
    requires (forall i :: i in held ==> i < off) && all == held + Range(off, 2)
    requires Written(m, off, Pointer(q))
    ensures Spells(m, off, labels, all) && NameEnd(m, off, labels, all) == off + 2
  {
    CutJoin(labels);
    PointerIsRead(m, off, q);
    hide Pointer, Written;
    SpellsStill(m, m, q, labels, held, all);
  }

  /** A label of its own and a name behind it. */
  lemma SpellsByLabel(m: seq<byte>, off: nat, labels: seq<Label>, all: set<nat>)
    requires labels != [] && LabelOk(labels[0]) && Written(m, off, WireLabel(labels[0]))
    requires forall i :: off <= i <= off + |labels[0]| ==> i in all
    requires Spells(m, off + 1 + |labels[0]|, labels[1..], all)
    ensures Spells(m, off, labels, all) && m[off] < 64
    ensures NameEnd(m, off, labels, all) == NameEnd(m, off + 1 + |labels[0]|, labels[1..], all)
  {
    var l, w := labels[0], WireLabel(labels[0]);
    WrittenSlice(m, off, w);
    assert m[off] == m[off..off + |w|][0];
    assert m[off + 1..off + 1 + |l|] == m[off..off + |w|][1..] == l;
  }

  lemma TableStill(m: seq<byte>, known: Suffixes, n: nat, held: set<nat>, n1: nat, more: set<nat>)
    requires TrueUpTo(m, known, n, held) && n1 <= n && held <= more
    ensures TrueUpTo(m, known, n1, more)
  {
    hide TrueEntry;
    forall k | k in known && |k| <= n1 ensures TrueEntry(m, k, known[k], more) {
      EntryStill(m, k, known[k], held, more);
    }
  }

  /** Learning a suffix does not touch the entries for shorter ones. */
  lemma LearnedLonger(m: seq<byte>, known: Suffixes, key: Text, off: nat, n: nat, held: set<nat>)
    requires TrueUpTo(m, known, n, held) && n < |key|
    ensures TrueUpTo(m, Learned(key, off, known, true), n, held)
  {
  }

  /**
   What packing the labels at off has come to: their bytes spell them, and the table has only
   grown by true entries for suffixes of this name.
   */
  ghost predicate Kept(m: seq<byte>, off: nat, labels: seq<Label>, p: Packed, known: Suffixes, held: set<nat>) {
    && p.Packed?
    && var all := held + Range(off, |p.out|);
    && Spells(m, off, labels, all) && NameEnd(m, off, labels, all) == off + |p.out|
    && TrueUpTo(m, p.known, |Join(labels)|, all)
    && Grown(known, p.known, |Join(labels)|)
  }

  lemma KeptEnd(m: seq<byte>, off: nat, known: Suffixes, held: set<nat>)
    requires Written(m, off, [0]) && TrueUpTo(m, known, 0, held)
    ensures Kept(m, off, [], Packed([0], known, 0), known, held)
  {
    hide TrueUpTo;
    var all := held + Range(off, 1);
    SpellsRoot(m, off, all);
    TableStill(m, known, 0, held, 0, all);
  }

  lemma KeptPointer(m: seq<byte>, off: nat, labels: seq<Label>, q: nat, known: Suffixes, held: set<nat>)
    requires labels != [] && BareName(labels) && TrueEntry(m, Join(labels), q, held)
    requires TrueUpTo(m, known, |Join(labels)|, held) && forall i :: i in held ==> i < off
    requires Written(m, off, Pointer(q))
    ensures Kept(m, off, labels, Packed(Pointer(q), known, 0), known, held)
  {
    hide TrueUpTo, TrueEntry, Join, Spells, NameEnd, Written, BareName;
    var all := held + Range(off, 2);
    SpellsByPointer(m, off, labels, q, held, all);
    TableStill(m, known, |Join(labels)|, held, |Join(labels)|, all);
  }

  lemma KeptLabel(m: seq<byte>, off: nat, labels: seq<Label>, rest: Packed, known: Suffixes, held: set<nat>)
    requires labels != [] && BareName(labels) && Join(labels) !in known
    requires TrueUpTo(m, known, |Join(labels)|, held)
    requires LabelOk(labels[0]) && Written(m, off, WireLabel(labels[0]))
    requires var off1 := off + 1 + |labels[0]|;
             Kept(m, off1, labels[1..], rest, Learned(Join(labels), off, known, true), held + Range(off, 1 + |labels[0]|))
    ensures Kept(m, off, labels, rest.After(WireLabel(labels[0]), 1), known, held)
  {
    hide TrueUpTo, TrueEntry, Join, Spells, NameEnd, Written, BareName, Learned, Grown;
    var off1 := off + 1 + |labels[0]|;
    var all := held + Range(off, 1 + |labels[0]|) + Range(off1, |rest.out|);
    assert all == held + Range(off, 1 + |labels[0]| + |rest.out|);
    SpellsByLabel(m, off, labels, all);
    NewEntry(m, labels, off, all);
    JoinStep(labels);
    TableGrows(m, known, Learned(Join(labels), off, known, true), rest.known, Join(labels), |Join(labels[1..])|, off, held, all);
  }

  lemma {:induction false} PackBare(s: Text, begin: nat, labels: seq<Label>, size: nat, off: nat, known: Suffixes,
                                    m: seq<byte>, held: set<nat>)
    requires |s| > 1 && s[|s| - 1] == DOT && BACKSLASH !in s && begin <= |s| == |Tokens(s)|
    requires BareName(labels) && s[begin..] == Join(labels)
    requires var p := PackFrom(s, begin, size, off, known, true); p.Packed? && Written(m, off, p.out)
    requires TrueUpTo(m, known, |Join(labels)|, held) && forall i :: i in held ==> i < off
    ensures Kept(m, off, labels, PackFrom(s, begin, size, off, known, true), known, held)
    decreases |labels|
  {
    hide *;
    var key := Join(labels);
    BareRest(labels);
    if labels == [] {
      PackRest(s, begin, size, off, known);
      KeptEnd(m, off, known, held);
    } else {
      JoinStep(labels);
      LabelIsOk(labels);
      PackOne(s, begin, labels, size, off, known);
      if key in known {
        Lookup(m, known, |key|, held, key);
        KeptPointer(m, off, labels, known[key], known, held);
      } else {
        var l, off1 := labels[0], off + 1 + |labels[0]|;
        var known1, held1 := Learned(key, off, known, true), held + Range(off, 1 + |l|);
        var rest := PackFrom(s, begin + |l| + 1, size, off1, known1, true);
        AfterOut(rest, WireLabel(l), 1);
        WrittenParts(m, off, WireLabel(l), rest.out);
        TableStill(m, known, |key|, held, |Join(labels[1..])|, held1);
        LearnedLonger(m, known, key, off, |Join(labels[1..])|, held1);
        PackBare(s, begin + |l| + 1, labels[1..], size, off1, known1, m, held1);
        KeptLabel(m, off, labels, rest, known, held);
      }
    }
  }

  lemma AfterOut(p: Packed, before: seq<byte>, n: nat)
    ensures p.After(before, n).Packed? <==> p.Packed?
    ensures p.Packed? ==> p.After(before, n).out == before + p.out
  {
  }

  lemma BareRest(labels: seq<Label>)
    requires BareName(labels)
    ensures labels == [] ==> |Join(labels)| == 0
  {
  }

  lemma LabelIsOk(labels: seq<Label>)
    requires BareName(labels) && labels != []
    ensures LabelOk(labels[0]) && 0 < |labels[0]| < 256
  {
  }

  lemma PackRest(s: Text, begin: nat, size: nat, off: nat, known: Suffixes)
    requires |s| > 1 && s[|s| - 1] == DOT && begin == |s| == |Tokens(s)|
    ensures PackFrom(s, begin, size, off, known, true) ==
            if off >= size then Failed(IndexOutOfRange, known, 0) else Packed([0], known, 0)
  {
    hide Tokens;
    assert NextDot(Tokens(s), begin) == begin && !HasEscape(Tokens(s)[begin..begin]);
  }

  lemma SpellsRoot(m: seq<byte>, off: nat, all: set<nat>)
    requires Written(m, off, [0]) && off in all
    ensures Spells(m, off, [], all) && NameEnd(m, off, [], all) == off + 1
  {
    WrittenSlice(m, off, [0]);
    assert m[off] == m[off..off + 1][0];
  }

  lemma GrownNot(known: Suffixes, n: nat)
    ensures Grown(known, known, n)
  {
  }

  lemma Lookup(m: seq<byte>, known: Suffixes, n: nat, held: set<nat>, key: Text)
    requires TrueUpTo(m, known, n, held) && key in known && |key| <= n
    ensures TrueEntry(m, key, known[key], held)
  {
  }

  /** After the rest of the name has been packed, the entry for this suffix is true as well. */
  lemma TableGrows(m: seq<byte>, known: Suffixes, known1: Suffixes, known2: Suffixes, key: Text, n: nat,
                   off: nat, held: set<nat>, all: set<nat>)
    requires known1 == Learned(key, off, known, true) && n < |key|
    requires key !in known && held <= all
    requires TrueUpTo(m, known, |key|, held)
    requires TrueUpTo(m, known2, n, all) && Grown(known1, known2, n)
    requires off < MAX_COMPRESSION_OFFSET ==> TrueEntry(m, key, off, all)
    ensures TrueUpTo(m, known2, |key|, all) && Grown(known, known2, |key|)
  {
    hide TrueEntry;
    forall k | k in known2 && |k| <= |key| ensures TrueEntry(m, k, known2[k], all) {
      if k in known {
        EntryStill(m, k, known[k], held, all);
      }
    }
  }

  lemma NewEntry(m: seq<byte>, labels: seq<Label>, off: nat, all: set<nat>)
    requires labels != [] && BareName(labels) && Spells(m, off, labels, all) && m[off] < 64
    ensures off < MAX_COMPRESSION_OFFSET ==> TrueEntry(m, Join(labels), off, all)
  {
    CutJoin(labels);
  }

  // ---------------------------------------------------------------- one call

  /** Everything in held comes before off. */
  ghost predicate Before(held: set<nat>, off: nat) {
    forall i :: i in held ==> i < off
  }

  lemma TableMoves(m0: seq<byte>, m: seq<byte>, known: Suffixes, held: set<nat>, off: nat)
    requires TrueTable(m0, known, held) && Before(held, off) && Untouched(m0, m, off)
    ensures TrueTable(m, known, held)
  {
    hide Spells, Cut;
    forall k | k in known ensures TrueEntry(m, k, known[k], held) {
      EntryAt(m0, k, known[k], held);
      SpellsStill(m0, m, known[k], Cut(k), held, held);
    }
  }

  lemma EntryAt(m: seq<byte>, k: Text, p: nat, held: set<nat>)
    requires TrueEntry(m, k, p, held)
    ensures p < |m| && p in held && Spells(m, p, Cut(k), held)
  {
  }

  /** Entries for long suffixes are old ones, entries for short ones have been shown to be true. */
  lemma TableWhole(m: seq<byte>, was: Suffixes, known: Suffixes, n: nat, held: set<nat>, all: set<nat>)
    requires TrueTable(m, was, held) && Grown(was, known, n) && TrueUpTo(m, known, n, all) && held <= all
    ensures TrueTable(m, known, all)
  {
    hide TrueEntry;
    forall k | k in known ensures TrueEntry(m, k, known[k], all) {
      if k in was {
        EntryStill(m, k, was[k], held, all);
      }
    }
  }

  /** What is known of a message and its table after a name has been packed at off. */
  ghost predicate NamePacked(m: seq<byte>, off: nat, labels: seq<Label>, p: Packed, held: set<nat>) {
    && p.Packed?
    && var all := held + Range(off, |p.out|);
    && TrueTable(m, p.known, all) && Before(all, off + |p.out|)
    && Spells(m, off, labels, all) && NameEnd(m, off, labels, all) == off + |p.out|
  }

  /** Packing a name with compression keeps the table true, and the name is spelled where it was put. */
  lemma CompressionKeeps(labels: seq<Label>, size: nat, off: nat, known: Suffixes,
                         m0: seq<byte>, m: seq<byte>, held: set<nat>)
    requires BareName(labels) && TrueTable(m0, known, held) && Before(held, off)
    requires var p := Pack(JoinText(labels), size, off, known, true);
             p.Packed? && Untouched(m0, m, off) && Written(m, off, p.out)
    ensures NamePacked(m, off, labels, Pack(JoinText(labels), size, off, known, true), held)
  {
    hide Join, PackFrom, TrueTable, Written, Untouched, BareName, Spells, NameEnd, Kept, Tokens;
    TableMoves(m0, m, known, held, off);
    if labels == [] {
      PackRoot(size, off, known, true);
      RootPacked(m, off, known, held);
    } else {
      var s := Join(labels);
      JoinHasNoBackslash(labels);
      BareIsRead(s);
      assert s[0..] == s;
      TableUpTo(m, known, |s|, held);
      PackBare(s, 0, labels, size, off, known, m, held);
      KeptIsPacked(m, off, labels, PackFrom(s, 0, size, off, known, true), known, held);
    }
  }

  lemma TableUpTo(m: seq<byte>, known: Suffixes, n: nat, held: set<nat>)
    requires TrueTable(m, known, held)
    ensures TrueUpTo(m, known, n, held)
  {
  }

  lemma RootPacked(m: seq<byte>, off: nat, known: Suffixes, held: set<nat>)
    requires TrueTable(m, known, held) && Before(held, off) && Written(m, off, WireName([]))
    ensures NamePacked(m, off, [], Packed(WireName([]), known, 1), held)
  {
    WireRoot();
    var all := held + Range(off, 1);
    hide TrueTable;
    SpellsRoot(m, off, all);
    TableUpTo(m, known, 0, held);
    TableStill(m, known, 0, held, 0, all);
    GrownNot(known, 0);
    TableWhole(m, known, known, 0, held, all);
  }

  lemma KeptIsPacked(m: seq<byte>, off: nat, labels: seq<Label>, p: Packed, known: Suffixes, held: set<nat>)
    requires Kept(m, off, labels, p, known, held) && TrueTable(m, known, held) && Before(held, off)
    ensures NamePacked(m, off, labels, p, held)
  {
    hide TrueTable, TrueUpTo, Grown, Spells, NameEnd, Join;
    TableWhole(m, known, p.known, |Join(labels)|, held, held + Range(off, |p.out|));
  }

  /** A spelled name is unpacked if and only if at most ten pointers lead through it. */
  lemma SpelledIsUnpacked(m: seq<byte>, off: nat, labels: seq<Label>, held: set<nat>)
    requires Spells(m, off, labels, held)
    ensures var hops := Hops(m, off, labels, held);
            && hops <= |labels|
            && Unpack(m, off) == if hops <= MAX_POINTERS then Unpacked(NameText(labels), NameEnd(m, off, labels, held))
                                 else Refused(ErrTooManyPointers)
  {
    hide NameText;
    HopsAtMost(m, off, labels, held);
    SpelledIsWalked(m, off, labels, held, MAX_POINTERS);
    if labels == [] {
      assert m[off] == 0;
    }
  }

  /**
   A packed name is unpacked to itself if and only if at most ten pointers lead through it; that is
   so for every name of at most ten labels.
   */
  lemma PackedIsUnpacked(m: seq<byte>, off: nat, labels: seq<Label>, p: Packed, held: set<nat>)
    requires NamePacked(m, off, labels, p, held)
    ensures var hops := Hops(m, off, labels, held + Range(off, |p.out|));
            && hops <= |labels|
            && Unpack(m, off) == if hops <= MAX_POINTERS then Unpacked(NameText(labels), off + |p.out|)
                                 else Refused(ErrTooManyPointers)
  {
    hide TrueTable, NameText;
    SpelledIsUnpacked(m, off, labels, held + Range(off, |p.out|));
  }

  // ---------------------------------------------------------------- many names, one table

  /** Names are packed one behind the other, with one table. */
  function PackNames(names: seq<seq<Label>>, size: nat, off: nat, known: Suffixes): Packed {
    if names == [] then Packed([], known, 0)
    else
      var p := Pack(JoinText(names[0]), size, off, known, true);
      if p.Failed? then p
      else PackNames(names[1..], size, off + |p.out|, p.known).After(p.out, p.labels)
  }

  /** Where the name at i begins, and the one before it ends. */
  function PlaceOf(names: seq<seq<Label>>, i: nat, size: nat, off: nat, known: Suffixes): nat {
    if names == [] || i == 0 then off
    else
      match Pack(JoinText(names[0]), size, off, known, true)
      case Packed(out, known1, _) => PlaceOf(names[1..], i - 1, size, off + |out|, known1)
      case Failed(_, _, _) => off
  }

  lemma FirstOfNames(names: seq<seq<Label>>, size: nat, off: nat, known: Suffixes)
    requires names != []
    ensures PackNames(names, size, off, known) ==
            match Pack(JoinText(names[0]), size, off, known, true)
            case Packed(out, known1, n) => PackNames(names[1..], size, off + |out|, known1).After(out, n)
            case Failed(error, known1, n) => Failed(error, known1, n)
  {
    hide Pack, JoinText;
  }

  /**
   What is known after many names: the table is true, and the name at i is spelled from where it begins
   to where the next one does.
   */
  ghost predicate NamesPacked(m: seq<byte>, off: nat, names: seq<seq<Label>>, i: nat, size: nat, known: Suffixes,
                              held: set<nat>) {
    var p := PackNames(names, size, off, known);
    && p.Packed?
    && var all := held + Range(off, |p.out|);
    && TrueTable(m, p.known, all) && Before(all, off + |p.out|)
    && PlaceOf(names, |names|, size, off, known) == off + |p.out|
    && (i < |names| ==>
          var place := PlaceOf(names, i, size, off, known);
          Spells(m, place, names[i], all) && NameEnd(m, place, names[i], all) == PlaceOf(names, i + 1, size, off, known))
  }

  lemma OneMoreName(m: seq<byte>, off: nat, names: seq<seq<Label>>, i: nat, size: nat, known: Suffixes, p: Packed,
                    held: set<nat>)
    requires names != [] && p == Pack(JoinText(names[0]), size, off, known, true)
    requires NamePacked(m, off, names[0], p, held)
    requires NamesPacked(m, off + |p.out|, names[1..], if i > 0 then i - 1 else 0, size, p.known, held + Range(off, |p.out|))
    ensures NamesPacked(m, off, names, i, size, known, held)
  {
    hide Pack, JoinText, TrueTable, Spells, NameEnd, PackNames;
    FirstOfNames(names, size, off, known);
    var q, held1 := PackNames(names[1..], size, off + |p.out|, p.known), held + Range(off, |p.out|);
    var all := held1 + Range(off + |p.out|, |q.out|);
    assert all == held + Range(off, |p.out| + |q.out|);
    if i == 0 {
      SpellsStill(m, m, off, names[0], held1, all);
      FirstPlaces(names, size, off, known);
    }
  }

  lemma FirstPlaces(names: seq<seq<Label>>, size: nat, off: nat, known: Suffixes)
    requires names != [] && Pack(JoinText(names[0]), size, off, known, true).Packed?
    ensures PlaceOf(names, 0, size, off, known) == off
    ensures PlaceOf(names, 1, size, off, known) == off + |Pack(JoinText(names[0]), size, off, known, true).out|
  {
    hide Pack, JoinText;
  }

  lemma {:induction false} NoNames(m: seq<byte>, off: nat, i: nat, size: nat, known: Suffixes, held: set<nat>)
    requires TrueTable(m, known, held) && Before(held, off)
    ensures NamesPacked(m, off, [], i, size, known, held)
  {
    hide TrueTable;
    assert held + Range(off, 0) == held;
  }

  /** Any sequence of names, packed one behind the other with one table: all of them are there, and the table stays true. */
  lemma {:induction false} NamesAreKept(names: seq<seq<Label>>, i: nat, size: nat, off: nat, known: Suffixes,
                                        m0: seq<byte>, m: seq<byte>, held: set<nat>)
    requires (forall j :: 0 <= j < |names| ==> BareName(names[j])) && TrueTable(m0, known, held) && Before(held, off)
    requires var p := PackNames(names, size, off, known); p.Packed? && Untouched(m0, m, off) && Written(m, off, p.out)
    ensures NamesPacked(m, off, names, i, size, known, held)
    decreases |names|
  {
    hide Pack, JoinText, BareName, TrueTable, Written, Untouched, NamesPacked, Spells, NameEnd, PackNames;
    if names == [] {
      TableMoves(m0, m, known, held, off);
      NoNames(m, off, i, size, known, held);
    } else {
      FirstOfNames(names, size, off, known);
      var p := Pack(JoinText(names[0]), size, off, known, true);
      WrittenParts(m, off, p.out, PackNames(names[1..], size, off + |p.out|, p.known).out);
      CompressionKeeps(names[0], size, off, known, m0, m, held);
      UntouchedSelf(m, off + |p.out|);
      NamesAreKept(names[1..], if i > 0 then i - 1 else 0, size, off + |p.out|, p.known, m, m, held + Range(off, |p.out|));
      OneMoreName(m, off, names, i, size, known, p, held);
    }
  }

  lemma UntouchedSelf(m: seq<byte>, off: nat)
    ensures Untouched(m, m, off)
  {
  }

  /** So each of them is unpacked to itself, up to where the next one begins, if and only if at most ten pointers lead through it. */
  lemma NamesAreUnpacked(m: seq<byte>, off: nat, names: seq<seq<Label>>, i: nat, size: nat, known: Suffixes, held: set<nat>)
    requires NamesPacked(m, off, names, i, size, known, held) && i < |names|
    ensures var place := PlaceOf(names, i, size, off, known);
            var hops := Hops(m, place, names[i], held + Range(off, |PackNames(names, size, off, known).out|));
            && hops <= |names[i]|
            && Unpack(m, place) == if hops <= MAX_POINTERS then Unpacked(NameText(names[i]), PlaceOf(names, i + 1, size, off, known))
                                   else Refused(ErrTooManyPointers)
  {
    hide TrueTable, PackNames, PlaceOf, Unpack;
    SpelledIsUnpacked(m, PlaceOf(names, i, size, off, known), names[i],
                      held + Range(off, |PackNames(names, size, off, known).out|));
  }
}
