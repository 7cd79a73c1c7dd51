/**
 Labels of a name in text form (miekg/dns labels.go and defaults.go). Here a dot ends a label
 unless a backslash stands before it that is not itself behind a backslash.
 */
module Labels {
  import opened DomainNames
  import Compression

  predicate IsFqdn(s: Text) {
    s != [] && s[|s| - 1] == DOT
  }

  function Fqdn(s: Text): Text {
    if IsFqdn(s) then s else s + [DOT]
  }

  // ---------------------------------------------------------------- the labels of a name

  /** The first dot of b that ends a label, or the length of b; quote if a backslash stands in front of b. */
  function FirstEnd(b: Text, quote: bool): (d: nat)
    ensures d <= |b| && (d < |b| ==> b[d] == DOT)
  {
    if b == [] || (b[0] == DOT && !quote) then 0
    else 1 + FirstEnd(b[1..], b[0] == BACKSLASH && !quote)
  }

  /** b taken apart at every dot that ends a label. */
  function Parts(b: Text): (r: seq<Text>)
    ensures r != []
    decreases |b|
  {
    var d := FirstEnd(b, false);
    if d == |b| then [b] else [b[..d]] + Parts(b[d + 1..])
  }

  /** The name without the dot at its end. */
  function Stem(s: Text): Text {
    if IsFqdn(s) then s[..|s| - 1] else s
  }

  predicate IsRoot(s: Text) {
    s == [DOT]
  }

  function LabelsOf(s: Text): seq<Text> {
    if IsRoot(s) then [] else Parts(Stem(s))
  }

  /** Where part i begins: each part before it takes one dot more. */
  function At(parts: seq<Text>, i: nat): nat
    requires i <= |parts|
  {
    if i == 0 then 0 else At(parts, i - 1) + |parts[i - 1]| + 1
  }

  /** What is left of b from part i on has the parts that are left. */
  lemma {:induction false} PartsFrom(b: Text, i: nat)
    requires i < |Parts(b)|
    ensures At(Parts(b), i) <= |b| && Parts(b[At(Parts(b), i)..]) == Parts(b)[i..]
  {
    hide FirstEnd;
    var ps := Parts(b);
    if i > 0 {
      PartsFrom(b, i - 1);
      var rest := b[At(ps, i - 1)..];
      var d := FirstEnd(rest, false);
      assert Parts(rest)[0] == ps[i - 1];
      assert rest[d + 1..] == b[At(ps, i)..];
      assert Parts(rest)[1..] == ps[i..];
    } else {
      assert b[0..] == b && ps[0..] == ps;
    }
  }

  lemma PartAt(b: Text, i: nat)
    requires i < |Parts(b)|
    ensures var ps := Parts(b);
            var lo := At(ps, i);
            && lo + |ps[i]| <= |b| && ps[i] == b[lo..lo + |ps[i]|] && |ps[i]| == FirstEnd(b[lo..], false)
            && (i + 1 == |ps| <==> lo + |ps[i]| == |b|)
            && (i + 1 < |ps| ==> b[lo + |ps[i]|] == DOT)
  {
    hide FirstEnd, Parts, At;
    PartsFrom(b, i);
    var ps, lo := Parts(b), At(Parts(b), i);
    var rest := b[lo..];
    FirstPart(rest);
    assert ps[i..][0] == ps[i];
    assert rest[..FirstEnd(rest, false)] == b[lo..lo + FirstEnd(rest, false)];
  }

  lemma FirstPart(b: Text)
    ensures var d := FirstEnd(b, false);
            Parts(b)[0] == b[..d] && (|Parts(b)| == 1 <==> d == |b|) && (d < |b| ==> b[d] == DOT)
  {
    hide FirstEnd;
    assert b[..|b|] == b;
  }

  // ---------------------------------------------------------------- finding them

  method NextLabel(s: Text, offset: nat) returns (i: nat, end: bool)
    ensures offset >= |s| - 1 ==> end && i == offset + 1
    ensures offset < |s| - 1 ==>
              var d := FirstEnd(s[offset..|s| - 1], false);
              i == offset + d + 1 && (end <==> offset + d == |s| - 1)
  {
    var quote := false;
    i := offset;
    while i < |s| - 1
      invariant offset <= i && (offset < |s| - 1 ==> i <= |s| - 1) && (offset >= |s| - 1 ==> i == offset)
      invariant offset < |s| - 1 ==> FirstEnd(s[offset..|s| - 1], false) == i - offset + FirstEnd(s[i..|s| - 1], quote)
      decreases |s| - i
    {
      assert s[i..|s| - 1][1..] == s[i + 1..|s| - 1];
      if s[i] == BACKSLASH {
        quote := !quote;
      } else if s[i] == DOT {
        if quote {
          quote := !quote;
        } else {
          return i + 1, false;
        }
      } else {
        quote := false;
      }
      i := i + 1;
    }
    return i + 1, true;
  }

  lemma {:induction false} NoEndAtTheEnd(b: Text, quote: bool)
    requires b != [] && b[|b| - 1] != DOT
    ensures var d := FirstEnd(b[..|b| - 1], quote); FirstEnd(b, quote) == if d < |b| - 1 then d else |b|
  {
    if |b| > 1 && !(b[0] == DOT && !quote) {
      NoEndAtTheEnd(b[1..], b[0] == BACKSLASH && !quote);
      assert b[..|b| - 1][1..] == b[1..][..|b| - 2];
    }
  }

  /** What NextLabel finds is the end of the part that begins at offset. */
  lemma NextIsEnd(s: Text, offset: nat)
    requires offset <= |Stem(s)|
    ensures var stem := Stem(s);
            var e := FirstEnd(stem[offset..], false);
            if offset >= |s| - 1 then offset + e == |stem|
            else
              var d := FirstEnd(s[offset..|s| - 1], false);
              && (offset + d == |s| - 1 <==> offset + e == |stem|)
              && (offset + e < |stem| ==> d == e)
  {
    if offset < |s| - 1 {
      if IsFqdn(s) {
        assert Stem(s)[offset..] == s[offset..|s| - 1];
      } else {
        NoEndAtTheEnd(s[offset..], false);
        assert s[offset..][..|s| - offset - 1] == s[offset..|s| - 1];
      }
    } else if offset == |s| - 1 && !IsFqdn(s) {
      assert s[offset..] == [s[offset]];
    }
  }

  predicate AreStarts(idx: seq<nat>, parts: seq<Text>) {
    |idx| <= |parts| && forall i :: 0 <= i < |idx| ==> idx[i] == At(parts, i)
  }

  method Split(s: Text) returns (idx: seq<nat>)
    ensures |idx| == |LabelsOf(s)| && AreStarts(idx, LabelsOf(s))
  {
    if s == [DOT] {
      return [];
    }
    idx := [0];
    var off, end := 0, false;
    ghost var ps := Parts(Stem(s));
    hide FirstEnd, Parts;
    while true
      invariant 1 <= |idx| <= |ps| && AreStarts(idx, ps) && off == At(ps, |idx| - 1)
      decreases |ps| - |idx|
    {
      PartAt(Stem(s), |idx| - 1);
      NextIsEnd(s, off);
      off, end := NextLabel(s, off);
      if end {
        return;
      }
      idx := idx + [off];
    }
  }

  method CountLabel(s: Text) returns (labels: nat)
    ensures labels == |LabelsOf(s)|
  {
    labels := 0;
    if s == [DOT] {
      return;
    }
    var off, end := 0, false;
    ghost var ps := Parts(Stem(s));
    hide FirstEnd, Parts;
    while true
      invariant labels < |ps| && off == At(ps, labels)
      decreases |ps| - labels
    {
      PartAt(Stem(s), labels);
      NextIsEnd(s, off);
      off, end := NextLabel(s, off);
      labels := labels + 1;
      if end {
        return;
      }
    }
  }

  /** Part i of a name, cut out by where it and the next part begin. */
  lemma PartOfName(s: Text, i: nat)
    requires i < |LabelsOf(s)|
    ensures var ps, stem := LabelsOf(s), |Stem(s)|;
            && stem == (if s != [] && s[|s| - 1] == DOT then |s| - 1 else |s|)
            && (i + 1 < |ps| ==> At(ps, i) < At(ps, i + 1) <= stem && s[At(ps, i)..At(ps, i + 1) - 1] == ps[i])
            && (i + 1 == |ps| ==> At(ps, i) <= stem && s[At(ps, i)..stem] == ps[i])
  {
    hide FirstEnd, Parts;
    var ps, stem := LabelsOf(s), Stem(s);
    PartAt(stem, i);
    SliceOfStart(s, stem, At(ps, i), At(ps, i) + |ps[i]|);
  }

  lemma SliceOfStart(s: Text, stem: Text, lo: nat, hi: nat)
    requires stem <= s && lo <= hi <= |stem|
    ensures s[lo..hi] == stem[lo..hi]
  {
  }

  method SplitDomainName(s: Text) returns (labels: seq<Text>)
    ensures labels == if s == [] then [] else LabelsOf(s)
  {
    hide LabelsOf, At, Stem;
    labels := [];
    if |s| == 0 {
      return;
    }
    var idx := Split(s);
    var begin := 0;
    ghost var ps := LabelsOf(s);
    var fqdnEnd := if s[|s| - 1] == DOT then |s| - 1 else |s|;
    if |idx| == 0 {
      return;
    }
    AtStart(ps);
    assert AreStarts(idx, ps) && idx[0] == At(ps, 0) == 0;
    if |idx| > 1 {
      var i := 1;
      while i < |idx|
        invariant 1 <= i <= |idx| && begin == idx[i - 1] && labels == ps[..i - 1]
      {
        var end := idx[i];
        PartOfName(s, i - 1);
        labels := labels + [s[begin..end - 1]];
        begin := end;
        i := i + 1;
      }
    }
    PartOfName(s, |idx| - 1);
    labels := labels + [s[begin..fqdnEnd]];
  }

  lemma AtStart(ps: seq<Text>)
    ensures At(ps, 0) == 0
  {
  }

  // ---------------------------------------------------------------- and back

  lemma {:induction false} JoinParts(b: Text)
    ensures Compression.Join(Parts(b)) == b + [DOT]
    decreases |b|
  {
    hide FirstEnd;
    var d := FirstEnd(b, false);
    if d < |b| {
      JoinParts(b[d + 1..]);
      assert b == b[..d] + [DOT] + b[d + 1..];
    } else {
      assert [b][1..] == [];
    }
  }

  /** Joining the labels of a name gives the name, fully qualified. */
  lemma LabelsJoin(s: Text)
    requires s != [] && !IsRoot(s)
    ensures Compression.Join(LabelsOf(s)) == Fqdn(s)
  {
    hide Parts;
    JoinParts(Stem(s));
  }

  /** A label that ends at the first dot put behind it, and not before. */
  predicate Whole(l: Text) {
    FirstEnd(l + [DOT], false) == |l|
  }

  lemma {:induction false} FirstEndOf(l: Text, rest: Text, quote: bool)
    requires FirstEnd(l + [DOT], quote) == |l|
    ensures FirstEnd(l + [DOT] + rest, quote) == |l| && FirstEnd(l, quote) == |l|
  {
    var t := l + [DOT];
    if l == [] {
      assert (t + rest)[0] == DOT && t[0] == DOT;
    } else {
      assert t[1..] == l[1..] + [DOT] && (t + rest)[1..] == l[1..] + [DOT] + rest;
      assert t[0] == l[0] == (t + rest)[0];
      FirstEndOf(l[1..], rest, l[0] == BACKSLASH && !quote);
    }
  }

  /** Any list of whole labels is the labels of the name that they make. */
  lemma {:induction false} JoinHasLabels(labels: seq<Text>)
    requires labels != [] && forall i :: 0 <= i < |labels| ==> Whole(labels[i])
    ensures var t := Compression.Join(labels); IsFqdn(t) && Parts(Stem(t)) == labels
  {
    hide FirstEnd;
    var l, t := labels[0], Compression.Join(labels);
    if |labels| == 1 {
      assert t == l + [DOT] && Stem(t) == l;
      FirstEndOf(l, [], false);
    } else {
      var rest := Compression.Join(labels[1..]);
      JoinHasLabels(labels[1..]);
      assert Stem(t) == l + [DOT] + Stem(rest);
      FirstEndOf(l, Stem(rest), false);
      assert Stem(t)[..|l|] == l && Stem(t)[|l| + 1..] == Stem(rest);
    }
  }

  // ---------------------------------------------------------------- comparing

  /** How many labels two lists have in common, from the right. */
  function Common(a: seq<Text>, b: seq<Text>): (n: nat)
    ensures n <= |a| && n <= |b|
  {
    if a == [] || b == [] || a[|a| - 1] != b[|b| - 1] then 0 else 1 + Common(a[..|a| - 1], b[..|b| - 1])
  }

  /** Common is the length of the longest list that ends both. */
  lemma {:induction false} CommonIsLongest(a: seq<Text>, b: seq<Text>, k: nat)
    requires k <= |a| && k <= |b|
    ensures a[|a| - k..] == b[|b| - k..] <==> k <= Common(a, b)
  {
    if k > 0 {
      var a1, b1 := a[..|a| - 1], b[..|b| - 1];
      assert a[|a| - k..] == a1[|a| - k..] + [a[|a| - 1]];
      assert b[|b| - k..] == b1[|b| - k..] + [b[|b| - 1]];
      if a[|a| - 1] == b[|b| - 1] {
        CommonIsLongest(a1, b1, k - 1);
        assert a1[|a1| - (k - 1)..] == a1[|a| - k..] && b1[|b1| - (k - 1)..] == b1[|b| - k..];
      } else {
        assert a[|a| - k..][k - 1] != b[|b| - k..][k - 1];
      }
    }
  }

  /** Labels and the dots behind them, as they stand in a fully qualified name. */
  lemma PartAndDot(s: Text, i: nat)
    requires IsFqdn(s) && i < |LabelsOf(s)|
    ensures var ps := LabelsOf(s);
            && At(ps, i) < (if i + 1 < |ps| then At(ps, i + 1) else |s|) <= |s|
            && s[At(ps, i)..if i + 1 < |ps| then At(ps, i + 1) else |s|] == ps[i] + [DOT]
  {
    hide FirstEnd, Parts;
    var ps, stem := LabelsOf(s), Stem(s);
    PartAt(stem, i);
    var lo, hi := At(ps, i), At(ps, i) + |ps[i]|;
    assert s == stem + [DOT];
    assert s[lo..hi] == stem[lo..hi];
    assert s[lo..hi + 1] == s[lo..hi] + [s[hi]];
    assert i + 1 == |ps| ==> s[lo..] == s[lo..hi + 1];
  }

  lemma DotsCancel(a: Text, b: Text)
    ensures a + [DOT] == b + [DOT] <==> a == b
  {
    assert (a + [DOT])[..|a + [DOT]| - 1] == a;
    assert (b + [DOT])[..|b + [DOT]| - 1] == b;
  }

  /** What stands in two names at two labels is the same if and only if the labels are. */
  lemma SamePart(s: Text, t: Text, i: nat, j: nat)
    requires IsFqdn(s) && IsFqdn(t) && i < |LabelsOf(s)| && j < |LabelsOf(t)|
    ensures var a, b := LabelsOf(s), LabelsOf(t);
            var p, q := if i + 1 < |a| then At(a, i + 1) else |s|, if j + 1 < |b| then At(b, j + 1) else |t|;
            && At(a, i) <= p <= |s| && At(b, j) <= q <= |t|
            && (s[At(a, i)..p] == t[At(b, j)..q] <==> a[i] == b[j])
  {
    hide LabelsOf, At, IsFqdn;
    PartAndDot(s, i);
    PartAndDot(t, j);
    DotsCancel(LabelsOf(s)[i], LabelsOf(t)[j]);
  }

  lemma CommonAt(a: seq<Text>, b: seq<Text>, i: nat, j: nat)
    requires i <= |a| && j <= |b|
    ensures Common(a[..i], b[..j]) ==
            if i == 0 || j == 0 || a[i - 1] != b[j - 1] then 0 else 1 + Common(a[..i - 1], b[..j - 1])
  {
    if i > 0 && j > 0 {
      assert a[..i][..i - 1] == a[..i - 1] && b[..j][..j - 1] == b[..j - 1];
    }
  }

  method CompareDomainName(s1: Text, s2: Text) returns (n: nat)
    ensures n == Common(LabelsOf(Fqdn(s1)), LabelsOf(Fqdn(s2)))
  {
    hide LabelsOf, At, Common, Fqdn, IsFqdn;
    FqdnIsFqdn(s1);
    FqdnIsFqdn(s2);
    var t1, t2 := Fqdn(s1), Fqdn(s2);
    var l1 := Split(t1);
    var l2 := Split(t2);
    ghost var p1, p2 := LabelsOf(t1), LabelsOf(t2);
    n := 0;
    assert p1[..|p1|] == p1 && p2[..|p2|] == p2;
    CommonAt(p1, p2, |p1|, |p2|);
    if |l1| == 0 || |l2| == 0 {
      return;
    }
    var j1, i1, j2, i2 := |l1| - 1, |l1| - 2, |l2| - 1, |l2| - 2;
    SamePart(t1, t2, j1, j2);
    assert t1[l1[j1]..] == t1[l1[j1]..|t1|] && t2[l2[j2]..] == t2[l2[j2]..|t2|];
    if t1[l1[j1]..] == t2[l2[j2]..] {
      n := n + 1;
    } else {
      return;
    }
    while true
      invariant -1 <= i1 < |p1| - 1 && j1 == i1 + 1 && -1 <= i2 < |p2| - 1 && j2 == i2 + 1
      invariant Common(p1, p2) == n + Common(p1[..j1], p2[..j2])
      decreases i1
    {
      CommonAt(p1, p2, j1, j2);
      if i1 < 0 || i2 < 0 {
        break;
      }
      SamePart(t1, t2, i1, i2);
      if t1[l1[i1]..l1[j1]] == t2[l2[i2]..l2[j2]] {
        n := n + 1;
      } else {
        break;
      }
      j1, i1, j2, i2 := j1 - 1, i1 - 1, j2 - 1, i2 - 1;
    }
  }

  /** The labels of parent end those of child. */
  predicate Under(parent: Text, child: Text) {
    var a, b := LabelsOf(Fqdn(parent)), LabelsOf(Fqdn(child));
    |a| <= |b| && b[|b| - |a|..] == a
  }

  /** The empty text is under nothing, although it is the root once it is fully qualified. */
  method IsSubDomain(parent: Text, child: Text) returns (r: bool)
    ensures r <==> parent != [] && Under(parent, child)
  {
    var n := CompareDomainName(parent, child);
    var count := CountLabel(parent);
    r := n == count;
    SameLabels(parent);
    ghost var a, b := LabelsOf(Fqdn(parent)), LabelsOf(Fqdn(child));
    hide LabelsOf;
    if |a| <= |b| {
      CommonIsLongest(a, b, |a|);
      assert a[|a| - |a|..] == a;
    }
  }

  lemma SameLabels(s: Text)
    ensures s != [] ==> LabelsOf(Fqdn(s)) == LabelsOf(s)
    ensures LabelsOf([]) == [[]] && LabelsOf(Fqdn([])) == []
  {
    assert Fqdn([]) == [DOT];
    if s != [] && !IsFqdn(s) {
      assert Stem(Fqdn(s)) == s;
    }
  }

  lemma EndsTwice(x: seq<Text>, y: seq<Text>, z: seq<Text>)
    requires |x| <= |y| <= |z| && y[|y| - |x|..] == x && z[|z| - |y|..] == y
    ensures z[|z| - |x|..] == x
  {
    assert z[|z| - |x|..] == z[|z| - |y|..][|y| - |x|..];
  }

  lemma RootHasNoLabels()
    ensures LabelsOf(Fqdn([DOT])) == []
  {
  }

  lemma FqdnIsFqdn(s: Text)
    ensures IsFqdn(Fqdn(s))
  {
  }

  /** Names are ordered by being under each other, with the root on top. */
  lemma UnderIsAnOrder(a: Text, b: Text, c: Text)
    ensures Under(a, a) && Under([DOT], a)
    ensures Under(a, b) && Under(b, c) ==> Under(a, c)
    ensures Under(a, b) && Under(b, a) ==> Fqdn(a) == Fqdn(b)
  {
    hide LabelsOf, Fqdn, IsFqdn;
    RootHasNoLabels();
    if Under(a, b) && Under(b, c) {
      EndsTwice(LabelsOf(Fqdn(a)), LabelsOf(Fqdn(b)), LabelsOf(Fqdn(c)));
    }
    if Under(a, b) && Under(b, a) {
      FqdnIsFqdn(a);
      FqdnIsFqdn(b);
      LabelsNameIt(Fqdn(a));
      LabelsNameIt(Fqdn(b));
    }
  }

  lemma LabelsNameIt(s: Text)
    requires IsFqdn(s)
    ensures s == if LabelsOf(s) == [] then [DOT] else Compression.Join(LabelsOf(s))
  {
    hide Parts;
    if !IsRoot(s) {
      LabelsJoin(s);
    }
  }

  // ---------------------------------------------------------------- dots that end labels and dots that do not

  lemma {:induction false} NoDotIsWhole(l: Text, quote: bool)
    requires forall i :: 0 <= i < |l| ==> l[i] != 46 && l[i] != 92
    requires quote ==> l != []
    ensures FirstEnd(l + [46], quote) == |l|
  {
    if l != [] {
      assert (l + [46])[1..] == l[1..] + [46];
      NoDotIsWhole(l[1..], false);
    }
  }

  /** Labels without dots and backslashes, each with a dot behind it, are the labels of what they make. */
  lemma PlainLabels(labels: seq<Text>)
    requires labels != []
    requires forall i :: 0 <= i < |labels| ==> labels[i] != [] && forall j :: 0 <= j < |labels[i]| ==> labels[i][j] != 46 && labels[i][j] != 92
    ensures LabelsOf(Compression.Join(labels)) == labels
  {
    forall i | 0 <= i < |labels| ensures Whole(labels[i]) {
      NoDotIsWhole(labels[i], false);
    }
    JoinHasLabels(labels);
    hide Parts, Stem, FirstEnd;
    assert Compression.Join(labels)[0] == labels[0][0];
  }

  /** a\.b.c. has the two labels a\.b and c; behind two backslashes the dot is an end: a\\.b. has a\\ and b. */
  lemma EscapedDots()
    ensures LabelsOf([97, 92, 46, 98, 46, 99, 46]) == [[97, 92, 46, 98], [99]]
    ensures LabelsOf([97, 92, 92, 46, 98, 46]) == [[97, 92, 92], [98]]
  {
    var one, two: seq<Text> := [[97, 92, 46, 98], [99]], [[97, 92, 92], [98]];
    EscapedAreWhole();
    hide FirstEnd;
    JoinHasLabels(one);
    JoinHasLabels(two);
    assert one[1..] == [[99]] && two[1..] == [[98]];
    assert [[99]][1..] == [] && Compression.Join([[99]]) == [99, 46];
    assert [[98]][1..] == [] && Compression.Join([[98]]) == [98, 46];
    assert Compression.Join(one) == [97, 92, 46, 98, 46, 99, 46] && Compression.Join(two) == [97, 92, 92, 46, 98, 46];
  }

  lemma EscapedAreWhole()
    ensures Whole([97, 92, 46, 98]) && Whole([99]) && Whole([97, 92, 92]) && Whole([98])
  {
    assert [97, 92, 46, 98, 46][1..] == [92, 46, 98, 46] && [92, 46, 98, 46][1..] == [46, 98, 46];
    assert [46, 98, 46][1..] == [98, 46] && [98, 46][1..] == [46] && [99, 46][1..] == [46];
    assert [97, 92, 92, 46][1..] == [92, 92, 46] && [92, 92, 46][1..] == [92, 46] && [92, 46][1..] == [46];
    assert FirstEnd([46], false) == 0;
    assert FirstEnd([98, 46], false) == 1 && FirstEnd([99, 46], false) == 1;
    assert FirstEnd([46, 98, 46], true) == 2;
    assert FirstEnd([92, 46, 98, 46], false) == 3;
    assert FirstEnd([92, 46], true) == 1;
    assert FirstEnd([92, 92, 46], false) == 2;
    assert [97, 92, 46, 98] + [DOT] == [97, 92, 46, 98, 46] && [97, 92, 92] + [DOT] == [97, 92, 92, 46];
    assert [98] + [DOT] == [98, 46] && [99] + [DOT] == [99, 46];
  }
}
