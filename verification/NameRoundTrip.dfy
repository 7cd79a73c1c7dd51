/**
 Names without compression: what is packed is unpacked to the same labels, and any text that
 comes out of a message can be packed again.
 */
module NameRoundTrip {
  import opened Bytes
  import opened DomainNames
  import opened NamePacker
  import opened NameUnpacker

  // ---------------------------------------------------------------- tokens that spell labels

  /** ts spells the labels, each with a dot that is no part of it. */
  ghost predicate Spelt(ts: seq<Token>, labels: seq<Label>) {
    if labels == [] then ts == []
    else
      var n := |labels[0]|;
      && n < |ts| && IsEnd(ts[n])
      && (forall i :: 0 <= i < n ==> ts[i].b == labels[0][i] && !IsEnd(ts[i]))
      && Spelt(ts[n + 1..], labels[1..])
  }

  lemma {:induction false} NameTokensSpell(labels: seq<Label>)
    ensures Spelt(NameTokens(labels), labels)
  {
    if labels != [] {
      NameTokensSpell(labels[1..]);
      var ts := NameTokens(labels);
      assert ts[|labels[0]| + 1..] == NameTokens(labels[1..]);
    }
  }

  lemma {:induction false} NoDotBefore(ts: seq<Token>, begin: nat, d: nat)
    requires begin <= d < |ts| && IsEnd(ts[d])
    requires forall i :: begin <= i < d ==> !IsEnd(ts[i])
    ensures NextDot(ts, begin) == d
    decreases d - begin
  {
    if begin < d {
      NoDotBefore(ts, begin + 1, d);
    }
  }

  lemma FirstLabel(ts: seq<Token>, begin: nat, labels: seq<Label>)
    requires begin <= |ts| && labels != [] && Spelt(ts[begin..], labels)
    ensures var d := begin + |labels[0]|;
            && d < |ts| && NextDot(ts, begin) == d && TokenBytes(ts[begin..d]) == labels[0]
            && Spelt(ts[d + 1..], labels[1..])
  {
    var d := begin + |labels[0]|;
    assert forall i :: begin <= i < d ==> ts[begin..][i - begin] == ts[i];
    assert ts[begin..][|labels[0]|] == ts[d];
    NoDotBefore(ts, begin, d);
    assert ts[begin..][|labels[0]| + 1..] == ts[d + 1..];
  }

  // ---------------------------------------------------------------- packing without compression

  /**
   The labels go out if there is room for all of them and the root label. When there is room
   for all but the root label, the write of that one is out of range.
   */
  ghost predicate PlainOutcome(p: Packed, labels: seq<Label>, size: nat, off: nat, known: Suffixes)
    requires LabelsOk(labels)
  {
    && p.known == known
    && (off + |WireName(labels)| <= size ==> p == Packed(WireName(labels), known, |labels|))
    && (off + |WireName(labels)| == size + 1 ==> p == Failed(IndexOutOfRange, known, |labels|))
    && (off + |WireName(labels)| > size + 1 ==> p.Failed? && p.error == PackError.ErrBuf)
  }

  lemma {:induction false} PackSpelt(s: Text, begin: nat, labels: seq<Label>, size: nat, off: nat, known: Suffixes)
    requires |s| > 1 && s[|s| - 1] == DOT && begin <= |Tokens(s)|
    requires Spelt(Tokens(s)[begin..], labels) && LabelsOk(labels) && off <= size
    ensures PlainOutcome(PackFrom(s, begin, size, off, known, false), labels, size, off, known)
    decreases |labels|
  {
    hide Tokens, NextDot, Spelt, TokenBytes, PackFrom, PlainOutcome, WireLabels, WireLabel;
    var ts := Tokens(s);
    if labels == [] {
      NothingSpelt(ts[begin..]);
      PackEnd(s, size, off, known);
    } else {
      FirstLabel(ts, begin, labels);
      var d := begin + |labels[0]|;
      PackNext(s, begin, d, size, off, known);
      if off + 1 + |labels[0]| <= size {
        PackSpelt(s, d + 1, labels[1..], size, off + 1 + |labels[0]|, known);
        OutcomeAfter(PackFrom(s, d + 1, size, off + 1 + |labels[0]|, known, false), labels, size, off, known);
      } else {
        NoRoom(labels, size, off, known);
      }
    }
  }

  lemma PackEnd(s: Text, size: nat, off: nat, known: Suffixes)
    requires |s| > 1 && s[|s| - 1] == DOT && off <= size
    ensures PlainOutcome(PackFrom(s, |Tokens(s)|, size, off, known, false), [], size, off, known)
  {
    hide Tokens;
    var n := |Tokens(s)|;
    assert NextDot(Tokens(s), n) == n && !HasEscape(Tokens(s)[n..n]);
  }

  lemma NoRoom(labels: seq<Label>, size: nat, off: nat, known: Suffixes)
    requires labels != [] && LabelsOk(labels) && off + 1 + |labels[0]| > size
    ensures PlainOutcome(Failed(PackError.ErrBuf, known, 0), labels, size, off, known)
  {
    WireNameStep(labels);
  }

  lemma NothingSpelt(ts: seq<Token>)
    ensures Spelt(ts, []) <==> ts == []
  {
  }

  /** One label of a name that is not compressed. */
  lemma PackNext(s: Text, begin: nat, d: nat, size: nat, off: nat, known: Suffixes)
    requires s != [] && s[|s| - 1] == DOT && begin < d < |Tokens(s)| && NextDot(Tokens(s), begin) == d
    requires d - begin < MAX_LABEL && off <= size
    ensures var p := PackFrom(s, begin, size, off, known, false);
            if off + 1 + d - begin > size then p == Failed(PackError.ErrBuf, known, 0)
            else p == PackFrom(s, d + 1, size, off + 1 + d - begin, known, false)
                        .After(WireLabel(TokenBytes(Tokens(s)[begin..d])), 1)
  {
    if !(HasEscape(Tokens(s)[begin..d]) && off >= size) {
      PackAtDot(s, d, begin, size, off, known, false);
    } else {
      hide Tokens, NextDot, HasEscape, Packed.After;
    }
  }

  lemma OutcomeAfter(p: Packed, labels: seq<Label>, size: nat, off: nat, known: Suffixes)
    requires labels != [] && LabelsOk(labels)
    requires PlainOutcome(p, labels[1..], size, off + 1 + |labels[0]|, known)
    ensures PlainOutcome(p.After(WireLabel(labels[0]), 1), labels, size, off, known)
  {
    WireNameStep(labels);
  }

  lemma WireNameStep(labels: seq<Label>)
    requires labels != [] && LabelsOk(labels)
    ensures LabelsOk(labels[1..]) && WireName(labels) == WireLabel(labels[0]) + WireName(labels[1..])
  {
  }

  /** Packing the text of a name: exactly how much room it takes, and what goes wrong without. */
  lemma PackPrinted(labels: seq<Label>, size: nat, off: nat, known: Suffixes)
    requires LabelsOk(labels) && labels != [] && off <= size
    ensures PlainOutcome(Pack(NameText(labels), size, off, known, false), labels, size, off, known)
  {
    PrintEndsInDot(labels);
    NameIsRead(labels);
    NameTokensSpell(labels);
    hide Print, Tokens, NameTokens, Spelt, PlainOutcome, PackFrom;
    var s := Print(labels);
    assert Tokens(s)[0..] == Tokens(s);
    PackSpelt(s, 0, labels, size, off, known);
  }

  lemma {:induction false} PrintEndsInDot(labels: seq<Label>)
    requires LabelsOk(labels) && labels != []
    ensures |Print(labels)| > 1 && Print(labels)[|Print(labels)| - 1] == DOT
  {
    if |labels| > 1 {
      PrintEndsInDot(labels[1..]);
    }
  }

  lemma PackRoot(size: nat, off: nat, known: Suffixes, compress: bool)
    ensures Pack(NameText([]), size, off, known, compress) ==
            if off < size then Packed(WireName([]), known, 1) else Failed(PackError.ErrBuf, known, 0)
  {
    var s := [DOT];
    assert Tokens(s) == [Token(DOT, false)] by {
      assert s[1..] == [];
    }
    assert NextDot(Tokens(s), 0) == 0;
    assert !HasEscape(Tokens(s)[0..0]);
    assert Key(s, 0, 0) == [DOT];
    assert NextDot(Tokens(s), 1) == 1;
    assert !HasEscape(Tokens(s)[1..1]);
    assert TokenBytes(Tokens(s)[0..0]) == [];
  }

  // ---------------------------------------------------------------- and back

  lemma LabelThenRest(msg: seq<byte>, off: nat, l: Label, rest: seq<byte>)
    requires |l| < 256 && off + 1 + |l| + |rest| <= |msg|
    requires msg[off..off + 1 + |l| + |rest|] == [|l|] + l + rest
    ensures msg[off] == |l| && msg[off + 1..off + 1 + |l|] == l
    ensures msg[off + 1 + |l|..off + 1 + |l| + |rest|] == rest
  {
    hide *;
    var part := msg[off..off + 1 + |l| + |rest|];
    assert msg[off] == part[0];
    forall k | 0 <= k < |l| ensures msg[off + 1..off + 1 + |l|][k] == l[k] {
      assert msg[off + (1 + k)] == part[1 + k];
    }
    forall k | 0 <= k < |rest| ensures msg[off + 1 + |l|..off + 1 + |l| + |rest|][k] == rest[k] {
      assert msg[off + (1 + |l| + k)] == part[1 + |l| + k];
    }
  }

  /** Wire form is unpacked to the labels, wherever it stands and whatever follows it. */
  lemma {:induction false} WalkWire(labels: seq<Label>, msg: seq<byte>, off: nat, budget: nat)
    requires LabelsOk(labels) && off + |WireName(labels)| <= |msg|
    requires msg[off..off + |WireName(labels)|] == WireName(labels)
    ensures var n := off + |WireName(labels)|; Walk(msg, off, budget) == Name(labels, n, n)
    decreases |labels|
  {
    var w := WireName(labels);
    if labels == [] {
      assert msg[off] == w[0];
    } else {
      WireNameStep(labels);
      hide WireName, WireLabels;
      var l, rest := labels[0], WireName(labels[1..]);
      assert w == [|l|] + l + rest;
      LabelThenRest(msg, off, l, rest);
      WalkWire(labels[1..], msg, off + 1 + |l|, budget);
      assert labels == [l] + labels[1..];
    }
  }

  /**
   The round trip of section 5.1 text: labels of any bytes, printed, packed and unpacked, give
   the same text and the same labels, and exactly the bytes of the wire form are used.
   */
  lemma EscapedRoundTrip(labels: seq<Label>, msg: seq<byte>, size: nat, off: nat, known: Suffixes)
    requires LabelsOk(labels) && off <= size == |msg|
    requires var p := Pack(NameText(labels), size, off, known, false); p.Packed? ==> Written(msg, off, p.out)
    ensures var p := Pack(NameText(labels), size, off, known, false);
            && (p.Packed? <==> off + |WireName(labels)| <= size)
            && (p.Packed? ==> p.out == WireName(labels) && Unpack(msg, off) == Unpacked(NameText(labels), off + |p.out|))
  {
    hide Pack, Walk, WireName, NameText;
    if labels == [] {
      PackRoot(size, off, known, false);
    } else {
      PackPrinted(labels, size, off, known);
    }
    WireRoot();
    hide PlainOutcome;
    var p := Pack(NameText(labels), size, off, known, false);
    if off + |WireName(labels)| <= size {
      assert p.out == WireName(labels);
      assert msg[off..off + |p.out|] == p.out;
      WalkWire(labels, msg, off, MAX_POINTERS);
    }
  }

  lemma WireRoot()
    ensures WireName([]) == [0]
  {
  }

  // ---------------------------------------------------------------- arbitrary messages

  /** Whatever UnpackDomainName makes of a message can be packed again, with the same labels. */
  lemma UnpackedPacksAgain(msg: seq<byte>, at0: nat, size: nat, off: nat, known: Suffixes)
    requires Unpack(msg, at0).Unpacked? && off <= size
    ensures var w := Walk(msg, at0, MAX_POINTERS);
            var p := Pack(Unpack(msg, at0).text, size, off, known, false);
            && w.Name?
            && (p.Packed? <==> off + |WireName(w.labels)| <= size)
            && (p.Packed? ==> p.out == WireName(w.labels))
  {
    hide Pack, Walk, WireName, NameText;
    var labels := Walk(msg, at0, MAX_POINTERS).labels;
    WireRoot();
    if labels == [] {
      PackRoot(size, off, known, false);
    } else {
      PackPrinted(labels, size, off, known);
    }
  }

  function WireSize(labels: seq<Label>): nat {
    if labels == [] then 0 else |labels[0]| + 1 + WireSize(labels[1..])
  }

  /** The walk moves forward between pointers, so each of its stretches is no longer than the message. */
  lemma {:induction false} WalkIsBounded(msg: seq<byte>, off: nat, budget: nat)
    requires Walk(msg, off, budget).Name?
    ensures WireSize(Walk(msg, off, budget).labels) < budget * |msg| + |msg| - off
    decreases budget, |msg| - off
  {
    var c := msg[off];
    if c == 0 {
    } else if c < 64 {
      WalkIsBounded(msg, off + 1 + c, budget);
      var l := msg[off + 1..off + 1 + c];
      assert ([l] + Walk(msg, off + 1 + c, budget).labels)[1..] == Walk(msg, off + 1 + c, budget).labels;
    } else {
      WalkIsBounded(msg, Target(msg, off), budget - 1);
      assert budget * |msg| == (budget - 1) * |msg| + |msg|;
    }
  }

  lemma {:induction false} PrintIsBounded(labels: seq<Label>)
    ensures |Print(labels)| <= 4 * WireSize(labels)
  {
    if labels != [] {
      PrintIsBounded(labels[1..]);
    }
  }

  /** The text of any name is at most 44 times as long as the message. */
  lemma TextIsBounded(msg: seq<byte>, off: nat)
    requires Unpack(msg, off).Unpacked?
    ensures |Unpack(msg, off).text| <= 44 * |msg|
  {
    WalkIsBounded(msg, off, MAX_POINTERS);
    PrintIsBounded(Walk(msg, off, MAX_POINTERS).labels);
  }

  /** If nothing but pointers leads from off to a root label: the place after that label. */
  function RootBehindPointers(msg: seq<byte>, off: nat, budget: nat): Option<nat>
    decreases budget
  {
    if off >= |msg| then None
    else if msg[off] == 0 then Some(off + 1)
    else if msg[off] >= 192 && off + 1 < |msg| && budget > 0 then RootBehindPointers(msg, Target(msg, off), budget - 1)
    else None
  }

  lemma {:induction false} RootIsWalked(msg: seq<byte>, off: nat, budget: nat)
    requires Walk(msg, off, budget).Name?
    ensures var w := Walk(msg, off, budget);
            RootBehindPointers(msg, off, budget) == if w.labels == [] then Some(w.end) else None
    decreases budget, |msg| - off
  {
    if msg[off] >= 192 {
      RootIsWalked(msg, Target(msg, off), budget - 1);
    }
  }

  /**
   The offset that UnpackDomainName returns is the one after the name's own bytes, unless
   only pointers lead to a root label; then it is the one after that label, wherever it is.
   */
  lemma OffsetReturned(msg: seq<byte>, off: nat)
    requires Unpack(msg, off).Unpacked?
    ensures var o, root := Unpack(msg, off).off, RootBehindPointers(msg, off, MAX_POINTERS);
            && o == (if root.Some? then root.value else Walk(msg, off, MAX_POINTERS).next)
            && o <= |msg|
            && (o > off <==> !(root.Some? && root.value <= off))
  {
    hide Walk, NameText, RootBehindPointers;
    RootIsWalked(msg, off, MAX_POINTERS);
  }

  /** A pointer back to a root label: the offset returned is not past the start. */
  lemma OffsetMayNotAdvance()
    ensures Unpack([0, 192, 0], 1) == Unpacked([DOT], 1)
  {
    var msg: seq<byte> := [0, 192, 0];
    assert Walk(msg, 0, 9) == Name([], 1, 1);
    assert Target(msg, 1) == 0;
    assert Walk(msg, 1, MAX_POINTERS) == Name([], 3, 1);
  }
}
