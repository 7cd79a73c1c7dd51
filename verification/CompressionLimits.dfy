/**
 Where compression stops working: names with escapes, and names of more labels than pointers may
 be followed.
 */
module CompressionLimits {
  import opened Bytes
  import opened DomainNames
  import opened NamePacker
  import opened NameUnpacker
  import opened Compression

  // ---------------------------------------------------------------- escapes

  /** a\.b.c. has the labels a.b and c; \a.b.c. has the labels a, b and c. */
  const ONE: Text := [97, BACKSLASH, DOT, 98, DOT, 99, DOT]
  const OTHER: Text := [BACKSLASH, 97, DOT, 98, DOT, 99, DOT]

  /** The array under both texts when the first dot is reached, with the byte left behind at its end. */
  const STALE: Text := [97, DOT, 98, DOT, 99, DOT, DOT]

  lemma TokensOfOne()
    ensures Tokens(ONE) == [Token(97, false), Token(DOT, true), Token(98, false), Token(DOT, false), Token(99, false), Token(DOT, false)]
  {
    assert ONE[1..] == [BACKSLASH, DOT, 98, DOT, 99, DOT];
    assert ONE[1..][2..] == [98, DOT, 99, DOT];
    TailTokens();
  }

  lemma TailTokens()
    ensures Tokens([98, DOT, 99, DOT]) == [Token(98, false), Token(DOT, false), Token(99, false), Token(DOT, false)]
  {
    assert [DOT][1..] == [] && [99, DOT][1..] == [DOT] && [DOT, 99, DOT][1..] == [99, DOT];
    assert [98, DOT, 99, DOT][1..] == [DOT, 99, DOT];
    assert Tokens([DOT]) == [Token(DOT, false)];
    assert Tokens([99, DOT]) == [Token(99, false), Token(DOT, false)];
    assert Tokens([DOT, 99, DOT]) == [Token(DOT, false), Token(99, false), Token(DOT, false)];
  }

  lemma TokensOfOther()
    ensures Tokens(OTHER) == [Token(97, true), Token(DOT, false), Token(98, false), Token(DOT, false), Token(99, false), Token(DOT, false)]
  {
    assert OTHER[2..] == [DOT, 98, DOT, 99, DOT] && [DOT, 98, DOT, 99, DOT][1..] == [98, DOT, 99, DOT];
    TailTokens();
  }

  lemma ArrayOfOne()
    ensures Decoded(ONE, 3) == Cursor(STALE, 6) && Decoded(ONE, 5) == Cursor(STALE, 6)
  {
    assert Decoded(ONE, 0) == Cursor(ONE, 7);
    assert Decoded(ONE, 1) == Cursor(ONE, 7);
    assert Down(ONE, 1, 1, 7) == STALE;
    assert Decoded(ONE, 2) == Cursor(STALE, 6);
    assert Decoded(ONE, 3) == Cursor(STALE, 6);
    assert Decoded(ONE, 4) == Cursor(STALE, 6);
  }

  lemma ArrayOfOther()
    ensures Decoded(OTHER, 1) == Cursor(STALE, 6)
  {
    assert Decoded(OTHER, 0) == Cursor(OTHER, 7);
    assert Shift(Cursor(OTHER, 7), 0) == Cursor(STALE, 6) by { FirstShift(); }
  }

  lemma FirstShift()
    ensures Shift(Cursor(OTHER, 7), 0) == Cursor(STALE, 6)
  {
    hide Down, Ddd, Unescape;
    DownIs(OTHER, 0);
    assert Down(OTHER, 0, 1, 7) == STALE;
    assert Unescape(Cursor(STALE, 6), 0) == Cursor(STALE, 6) by {
      StaleStays();
    }
  }

  lemma StaleStays()
    ensures Unescape(Cursor(STALE, 6), 0) == Cursor(STALE, 6)
  {
    hide Down, Ddd;
    assert STALE[0 := 97] == STALE;
  }

  lemma DownIs(s: Text, to: nat)
    requires to < 6 && |s| == 7
    ensures Down(s, to, 1, 7) == s[..to] + s[to + 1..] + [s[6]]
  {
    assert s[6..] == [s[6]];
  }

  lemma OtherByItself(size: nat)
    requires size >= 9
    ensures Pack(OTHER, size, 0, map[], false) == Packed(WireName([[97], [98], [99]]), map[], 3)
  {
    TokensOfOther();
    hide Tokens, Decoded, Key;
    var us := Tokens(OTHER);
    assert NextDot(us, 1) == 1 && NextDot(us, 0) == 1;
    assert NextDot(us, 3) == 3 && NextDot(us, 2) == 3 && NextDot(us, 5) == 5 && NextDot(us, 4) == 5 && NextDot(us, 6) == 6;
    assert TokenBytes(us[0..1]) == [97] && TokenBytes(us[2..3]) == [98] && TokenBytes(us[4..5]) == [99];
    assert PackFrom(OTHER, 6, size, 6, map[], false) == Packed([0], map[], 0);
    assert PackFrom(OTHER, 4, size, 4, map[], false) == Packed([1, 99] + [0], map[], 1);
    assert PackFrom(OTHER, 2, size, 2, map[], false) == Packed([1, 98] + ([1, 99] + [0]), map[], 2);
    assert PackFrom(OTHER, 0, size, 0, map[], false) == Packed([1, 97] + ([1, 98] + ([1, 99] + [0])), map[], 3);
    WireOfThree();
  }

  lemma WireOfThree()
    ensures WireName([[97], [98], [99]]) == [1, 97] + ([1, 98] + ([1, 99] + [0]))
  {
    assert [[97], [98], [99]][1..] == [[98], [99]] && [[98], [99]][1..] == [[99]];
    assert WireLabels([[99]]) == [1, 99];
    assert WireLabels([[98], [99]]) == [1, 98] + [1, 99];
  }

  const KNOWN: Suffixes := map[STALE := 0, [99, DOT, DOT] := 4]

  lemma OneByItself(size: nat)
    requires size >= 9
    ensures Pack(ONE, size, 0, map[], true) == Packed(WireName([[97, DOT, 98], [99]]), KNOWN, 2)
  {
    TokensOfOne();
    ArrayOfOne();
    hide Tokens, Decoded, Pointer;
    var ts := Tokens(ONE);
    assert NextDot(ts, 3) == 3 && NextDot(ts, 2) == 3 && NextDot(ts, 1) == 3 && NextDot(ts, 0) == 3;
    assert NextDot(ts, 5) == 5 && NextDot(ts, 4) == 5 && NextDot(ts, 6) == 6;
    assert TokenBytes(ts[0..3]) == [97, DOT, 98] && TokenBytes(ts[4..5]) == [99];
    assert Key(ONE, 0, 3) == STALE && Key(ONE, 4, 5) == [99, DOT, DOT];
    assert PackFrom(ONE, 6, size, 6, KNOWN, true) == Packed([0], KNOWN, 0);
    assert PackFrom(ONE, 4, size, 4, map[STALE := 0], true) == Packed([1, 99] + [0], KNOWN, 1);
    assert WireLabels([[99]]) == [1, 99];
    assert [[97, DOT, 98], [99]][1..] == [[99]];
  }

  lemma OtherAfterOne(size: nat, off: nat)
    requires off + 2 <= size
    ensures Pack(OTHER, size, off, KNOWN, true) == Packed(Pointer(0), KNOWN, 0)
  {
    TokensOfOther();
    ArrayOfOther();
    hide Tokens, Decoded, Pointer;
    var us := Tokens(OTHER);
    assert NextDot(us, 1) == 1 && NextDot(us, 0) == 1;
    assert Key(OTHER, 0, 1) == STALE;
  }

  /**
   Two names with escapes have one key, because the key is the decoded array with what is left
   behind at its end. By itself the second is packed as the labels a, b and c; after the first, whose
   labels are a.b and c, it becomes a pointer to that one.
   */
  lemma EscapedNamesCollide(size: nat)
    requires size >= 9
    ensures Pack(OTHER, size, 0, map[], false) == Packed(WireName([[97], [98], [99]]), map[], 3)
    ensures var p := Pack(ONE, size, 0, map[], true);
            && p.Packed? && p.out == WireName([[97, DOT, 98], [99]])
            && Pack(OTHER, size, |p.out|, p.known, true) == Packed(Pointer(0), p.known, 0)
  {
    hide Pack, Pointer;
    OtherByItself(size);
    OneByItself(size);
    WireOfTwo();
    OtherAfterOne(size, 7);
  }

  lemma WireOfTwo()
    ensures |WireName([[97, DOT, 98], [99]])| == 7
  {
    assert [[97, DOT, 98], [99]][1..] == [[99]];
    assert WireLabels([[99]]) == [1, 99];
  }

  // ---------------------------------------------------------------- long names

  /** A name of k labels, each of them a single a. */
  function Name(k: nat): (r: seq<Label>)
    ensures |r| == k && BareName(r)
  {
    if k == 0 then [] else [[97]] + Name(k - 1)
  }

  /** Where the name of k labels goes when those of 1, 2, 3 and so on are packed. */
  function Place(k: nat): nat {
    if k <= 1 then 0 else 4 * k - 5
  }

  function Table(k: nat): (r: Suffixes)
    ensures forall t :: t in r ==> |t| <= 2 * k
  {
    if k == 0 then map[]
    else
      NameFacts(k);
      Table(k - 1)[Join(Name(k)) := Place(k)]
  }

  lemma {:induction false} NameFacts(k: nat)
    ensures |Join(Name(k))| == 2 * k
    ensures k > 0 ==> Name(k)[0] == [97] && Name(k)[1..] == Name(k - 1)
    ensures k > 0 ==> Join(Name(k))[2 * k - 1] == DOT && BACKSLASH !in Join(Name(k))
  {
    if k > 0 {
      NameFacts(k - 1);
      assert Name(k)[1..] == Name(k - 1);
      JoinHasNoBackslash(Name(k));
    }
  }

  lemma TableFacts(k: nat)
    requires k > 0
    ensures Join(Name(k)) !in Table(k - 1) && Table(k) == Table(k - 1)[Join(Name(k)) := Place(k)]
  {
    NameFacts(k);
  }

  /** The bytes of the name of k labels: one label, and a pointer to the name before. */
  function Out(k: nat): (r: seq<byte>)
    requires k > 0
    ensures |r| == if k == 1 then 3 else 4
  {
    if k == 1 then [1, 97, 0] else [1, 97] + Pointer(Place(k - 1))
  }

  /** Packing the name of k labels after the shorter ones. */
  lemma NextInChain(k: nat, size: nat)
    requires 0 < k <= 4096 && size >= 4 * k
    ensures var p := Pack(JoinText(Name(k)), size, Place(k), Table(k - 1), true);
            p.Packed? && p.out == Out(k) && p.known == Table(k)
  {
    hide *;
    NameFacts(k);
    TableFacts(k);
    PackIsFrom(k, size, Place(k), Table(k - 1));
    OutIs(k);
    PlaceFacts(k);
    var s := Join(Name(k));
    assert s[0..] == s;
    PackOne(s, 0, Name(k), size, Place(k), Table(k - 1));
    LearnedTable(s, Place(k), Table(k - 1));
    if k == 1 {
      NoName();
      PackRest(s, 2, size, 2, Table(1));
      AfterOne([0], WireLabel([97]), Table(1));
    } else {
      NameFacts(k - 1);
      TableFacts(k - 1);
      PackOne(s, 2, Name(k - 1), size, Place(k) + 2, Table(k));
      AfterOne(Pointer(Place(k - 1)), WireLabel([97]), Table(k));
    }
  }

  lemma AfterOne(out: seq<byte>, before: seq<byte>, known: Suffixes)
    ensures Packed(out, known, 0).After(before, 1) == Packed(before + out, known, 1)
  {
  }

  lemma PlaceFacts(k: nat)
    requires 0 < k <= 4096
    ensures Place(k) + 4 <= 4 * k && Place(k) < MAX_COMPRESSION_OFFSET && (k > 1 ==> Place(k) + 5 == 4 * k) && Place(1) == 0
  {
  }

  lemma OutIs(k: nat)
    requires k > 0
    ensures WireLabel([97]) + (if k == 1 then [0] else Pointer(Place(k - 1))) == Out(k)
  {
  }

  lemma NoName()
    ensures Join(Name(0)) == []
  {
  }

  lemma LearnedTable(key: Text, off: nat, known: Suffixes)
    requires key != [DOT] && off < MAX_COMPRESSION_OFFSET
    ensures Learned(key, off, known, true) == known[key := off]
  {
  }

  lemma PackIsFrom(k: nat, size: nat, off: nat, known: Suffixes)
    requires k > 0
    ensures Join(Name(k)) != [] && Join(Name(k))[|Join(Name(k))| - 1] == DOT
    ensures Pack(JoinText(Name(k)), size, off, known, true) == PackFrom(Join(Name(k)), 0, size, off, known, true)
  {
    hide PackFrom;
    NameFacts(k);
    assert Join(Name(k))[|Join(Name(k))| - 1] == DOT;
  }

  /** Packing the last name once more. */
  lemma LastInChain(k: nat, size: nat)
    requires 0 < k <= 4096 && size >= 4 * k + 1
    ensures Pack(JoinText(Name(k)), size, 4 * k - 1, Table(k), true) == Packed(Pointer(Place(k)), Table(k), 0)
  {
    hide *;
    NameFacts(k);
    TableFacts(k);
    PackIsFrom(k, size, 4 * k - 1, Table(k));
    var s := Join(Name(k));
    assert s[0..] == s;
    PackOne(s, 0, Name(k), size, 4 * k - 1, Table(k));
  }

  /** The message of the names of 1 to k labels. */
  function Chain(k: nat): (m: seq<byte>)
    ensures |m| == if k == 0 then 0 else 4 * k - 1
  {
    if k == 0 then [] else Chain(k - 1) + Out(k)
  }

  lemma ChainBytes(k: nat, m: seq<byte>)
    requires 0 < k <= 4096 && Chain(k) <= m
    ensures var off := Place(k);
            && off + 3 <= |m| && m[off] == 1
            && (k == 1 ==> m[off + 2] == 0)
            && (k > 1 ==> off + 4 <= |m| && m[off + 2] >= 192 && Target(m, off + 2) == Place(k - 1) && Chain(k - 1) <= m)
  {
    hide Pointer;
    var off := Place(k);
    assert |Chain(k - 1)| == off;
    assert m[off..off + |Out(k)|] == Out(k);
    assert m[off] == Out(k)[0] && m[off + 2] == Out(k)[2];
    if k > 1 {
      assert m[off + 2..off + 4] == Out(k)[2..] == Pointer(Place(k - 1));
      PointerIsRead(m, off + 2, Place(k - 1));
      assert Chain(k - 1) <= Chain(k);
    }
  }

  /** Reading the name of k labels takes k - 1 pointers. */
  lemma {:induction false} ChainIsWalked(k: nat, m: seq<byte>, budget: nat)
    requires 0 < k <= 4096 && Chain(k) <= m
    ensures Walk(m, Place(k), budget).Name? <==> k - 1 <= budget
    decreases k
  {
    hide Chain, Place, Walk, Target;
    ChainBytes(k, m);
    LabelStep(m, Place(k), budget);
    if k == 1 {
      RootStep(m, Place(k) + 2, budget);
      assert Place(1) == 0 by { PlaceFacts(1); }
    } else {
      PointerStep(m, Place(k) + 2, budget);
      if budget > 0 {
        ChainIsWalked(k - 1, m, budget - 1);
      }
    }
  }

  lemma LabelStep(m: seq<byte>, off: nat, budget: nat)
    requires off + 3 <= |m| && m[off] == 1
    ensures Walk(m, off, budget).Name? <==> Walk(m, off + 2, budget).Name?
  {
  }

  lemma RootStep(m: seq<byte>, off: nat, budget: nat)
    requires off < |m| && m[off] == 0
    ensures Walk(m, off, budget).Name?
  {
  }

  lemma PointerStep(m: seq<byte>, off: nat, budget: nat)
    requires off + 1 < |m| && m[off] >= 192
    ensures Walk(m, off, budget).Name? <==> budget > 0 && Walk(m, Target(m, off), budget - 1).Name?
  {
  }

  /** Once more, the last name is refused if and only if it has more than ten labels. */
  lemma ChainIsRefused(n: nat)
    requires 0 < n <= 4096
    ensures Unpack(Chain(n) + Pointer(Place(n)), 4 * n - 1).Refused? <==> n > MAX_POINTERS
  {
    hide Pointer, Chain, Place;
    var m := Chain(n) + Pointer(Place(n));
    assert m[4 * n - 1..] == Pointer(Place(n));
    assert m[4 * n - 1..4 * n + 1] == Pointer(Place(n));
    PlaceIsLow(n);
    PointerIsRead(m, 4 * n - 1, Place(n));
    ChainIsWalked(n, m, MAX_POINTERS - 1);
  }

  /** The names of 1 to k labels. */
  function Names(k: nat): (r: seq<seq<Label>>)
    ensures |r| == k
  {
    if k == 0 then [] else Names(k - 1) + [Name(k)]
  }

  /** One more name is packed behind the others, with their table. */
  lemma {:induction false} PackNamesSnoc(names: seq<seq<Label>>, x: seq<Label>, size: nat, off: nat, known: Suffixes)
    requires PackNames(names, size, off, known).Packed?
    ensures var p := PackNames(names, size, off, known);
            PackNames(names + [x], size, off, known) ==
            Pack(JoinText(x), size, off + |p.out|, p.known, true).After(p.out, p.labels)
    decreases |names|
  {
    hide Pack, JoinText, PackNames;
    FirstOfNames(names + [x], size, off, known);
    if names == [] {
      NoneOrFirst(names, x, size, off, known);
    } else {
      FirstOfNames(names, size, off, known);
      assert (names + [x])[1..] == names[1..] + [x];
      var p := Pack(JoinText(names[0]), size, off, known, true);
      PackNamesSnoc(names[1..], x, size, off + |p.out|, p.known);
      AfterAfter(names[1..], x, p, size, off + |p.out|);
    }
  }

  lemma NoneOrFirst(names: seq<seq<Label>>, x: seq<Label>, size: nat, off: nat, known: Suffixes)
    ensures PackNames([], size, off, known) == Packed([], known, 0)
    ensures names == [] ==> (names + [x])[1..] == []
    ensures var p := Pack(JoinText(x), size, off, known, true);
            p.After([], 0) == p && (p.Packed? ==> PackNames([], size, off + |p.out|, p.known).After(p.out, p.labels) == p)
  {
    hide Pack, JoinText;
    var p := Pack(JoinText(x), size, off, known, true);
    if p.Packed? {
      assert [] + p.out == p.out && p.out + [] == p.out;
    }
  }

  lemma AfterAfter(names: seq<seq<Label>>, x: seq<Label>, p: Packed, size: nat, off: nat)
    requires p.Packed? && PackNames(names, size, off, p.known).Packed?
    ensures var q := PackNames(names, size, off, p.known);
            var r := Pack(JoinText(x), size, off + |q.out|, q.known, true);
            r.After(q.out, q.labels).After(p.out, p.labels) == r.After(p.out + q.out, p.labels + q.labels)
  {
    hide Pack, JoinText, PackNames;
  }

  lemma ChainStarts(size: nat)
    ensures PackNames(Names(0), size, 0, map[]) == Packed([], map[], 0) && Chain(0) == [] && Table(0) == map[]
  {
  }

  lemma ChainStep(k: nat)
    requires k > 0
    ensures Names(k) == Names(k - 1) + [Name(k)] && Chain(k) == Chain(k - 1) + Out(k) && |Chain(k - 1)| == Place(k)
  {
  }

  /** Packing all of them, one behind the other, writes the chain. */
  lemma {:induction false} ChainIsPacked(k: nat, size: nat)
    requires k <= 4096 && size >= 4 * k
    ensures var p := PackNames(Names(k), size, 0, map[]); p.Packed? && p.out == Chain(k) && p.known == Table(k)
  {
    hide Pack, JoinText, PackNames, Name, Names, Chain, Table, Place, Out;
    if k == 0 {
      ChainStarts(size);
    } else {
      ChainIsPacked(k - 1, size);
      ChainStep(k);
      PackNamesSnoc(Names(k - 1), Name(k), size, 0, map[]);
      NextInChain(k, size);
    }
  }

  /**
   The names of 1 to n labels are packed by PackDomainName with one table, and then the last one once more:
   for that one UnpackDomainName refuses what PackDomainName has written if and only if it has more than ten labels.
   */
  lemma LongNamesAreRefused(n: nat, size: nat)
    requires 0 < n <= 4096 && size > 4 * n
    ensures var names := Names(n) + [Name(n)];
            var p := PackNames(names, size, 0, map[]);
            && p.Packed? && PlaceOf(names, n, size, 0, map[]) == 4 * n - 1
            && p.out == Chain(n) + Pointer(Place(n))
            && (Unpack(p.out, 4 * n - 1).Refused? <==> n > 10)
  {
    hide Pack, JoinText, PackNames, Name, Names, PlaceOf, Unpack, Table, Place, Pointer;
    ChainIsPacked(n, size);
    PackNamesSnoc(Names(n), Name(n), size, 0, map[]);
    LastInChain(n, size);
    ChainIsRefused(n);
    LastPlace(Names(n), Name(n), size, 0, map[]);
  }

  /** The name behind the others begins where they end. */
  lemma {:induction false} LastPlace(names: seq<seq<Label>>, x: seq<Label>, size: nat, off: nat, known: Suffixes)
    requires PackNames(names, size, off, known).Packed?
    ensures PlaceOf(names + [x], |names|, size, off, known) == off + |PackNames(names, size, off, known).out|
    decreases |names|
  {
    hide Pack, JoinText;
    if names != [] {
      assert (names + [x])[1..] == names[1..] + [x];
      var p := Pack(JoinText(names[0]), size, off, known, true);
      LastPlace(names[1..], x, size, off + |p.out|, p.known);
    }
  }

  lemma PlaceIsLow(n: nat)
    requires n <= 4096
    ensures Place(n) < MAX_COMPRESSION_OFFSET
  {
  }
}
