/**
 The round trip of the type bitmap (RFC 4034 section 4.1.2), and the room that packing it needs.
 */
module BitmapRoundTrip {
  import opened Bytes
  import opened TypeBitmap

  /** Neighbours in one window ascend. */
  ghost predicate Runs(ts: seq<nat>) {
    forall i, j :: 0 <= i < j < |ts| && j == i + 1 && ts[i] / 256 == ts[j] / 256 ==> ts[i] < ts[j]
  }

  /** The lists that survive: window 0 comes first, and the types of a window ascend. */
  ghost predicate Packable(ts: seq<RRType>) {
    ts == [] || (ts[0] < 256 && Runs(ts))
  }

  ghost predicate Ascending(ts: seq<nat>) {
    forall i, j :: 0 <= i < j < |ts| ==> ts[i] < ts[j]
  }

  ghost predicate Zeros(m: seq<byte>, off: nat) {
    forall k :: off <= k < |m| ==> m[k] == 0
  }

  // ---------------------------------------------------------------- one octet

  lemma {:induction false} OctetShape(b: byte, base: nat, k: nat)
    requires k <= 8
    ensures var q := OctetTypes(b, base, k);
            && Ascending(q)
            && (forall i :: 0 <= i < |q| ==> base <= q[i] < base + k)
            && (forall x: nat :: x < k && Bit(b, x) ==> base + x in q)
  {
    hide Bit;
    if k > 0 {
      OctetShape(b, base, k - 1);
    }
  }

  lemma {:induction false} SameBits(b: byte, c: byte, base: nat, k: nat)
    requires k <= 8 && forall j :: 0 <= j < k ==> (Bit(b, j) <==> Bit(c, j))
    ensures OctetTypes(b, base, k) == OctetTypes(c, base, k)
  {
    hide Bit;
    if k > 0 {
      SameBits(b, c, base, k - 1);
    }
  }

  lemma {:induction false} NoMoreBits(b: byte, base: nat, k: nat, n: nat)
    requires k <= n <= 8 && forall j :: k <= j < n ==> !Bit(b, j)
    ensures OctetTypes(b, base, n) == OctetTypes(b, base, k)
  {
    hide Bit;
    if k < n {
      NoMoreBits(b, base, k, n - 1);
    }
  }

  lemma OctetSet(b: byte, base: nat, k: nat)
    requires k < 8 && forall j :: k <= j < 8 ==> !Bit(b, j)
    ensures OctetTypes(SetBit(b, k), base, 8) == OctetTypes(b, base, 8) + [base + k]
  {
    hide Bit, SetBit;
    var c := SetBit(b, k);
    SameBits(b, c, base, k);
    NoMoreBits(b, base, k, 8);
    NoMoreBits(c, base, k + 1, 8);
  }

  lemma NoTypes(base: nat)
    ensures OctetTypes(0, base, 8) == [] && forall k :: 0 <= k < 8 ==> !Bit(0, k)
  {
    forall k | 0 <= k < 8 ensures !Bit(0, k) {
      NoBits(7 - k);
    }
    NoMoreBits(0, base, 0, 8);
  }

  // ---------------------------------------------------------------- one window

  lemma {:induction false} WindowShape(m: seq<byte>, at: nat, length: nat, window: byte)
    requires at + length <= |m|
    ensures var q := WindowTypes(m, at, length, window);
            Ascending(q) && forall i :: 0 <= i < |q| ==> window * 256 <= q[i] < window * 256 + 8 * length
  {
    hide OctetTypes;
    if length > 0 {
      WindowShape(m, at, length - 1, window);
      OctetShape(m[at + length - 1], window * 256 + 8 * (length - 1), 8);
    }
  }

  lemma {:induction false} WindowSame(m: seq<byte>, m1: seq<byte>, at: nat, length: nat, window: byte)
    requires at + length <= |m| == |m1| && forall k :: at <= k < at + length ==> m[k] == m1[k]
    ensures WindowTypes(m, at, length, window) == WindowTypes(m1, at, length, window)
  {
    hide OctetTypes;
    if length > 0 {
      WindowSame(m, m1, at, length - 1, window);
    }
  }

  lemma {:induction false} WindowZero(m: seq<byte>, at: nat, c: nat, length: nat, window: byte)
    requires c <= length && at + length <= |m| && Zeros(m, at + c)
    ensures WindowTypes(m, at, length, window) == WindowTypes(m, at, c, window)
  {
    hide OctetTypes;
    if c < length {
      WindowZero(m, at, c, length - 1, window);
      NoTypes(window * 256 + 8 * (length - 1));
    }
  }

  /** A type above all those of a window joins them at the end. */
  lemma WindowGrows(m: seq<byte>, at: nat, c: nat, t: RRType)
    requires at + 2 + Octet(t) < |m| && c <= Octet(t) + 1 && Zeros(m, at + 2 + c)
    requires var q := WindowTypes(m, at + 2, c, Window(t)); forall i :: 0 <= i < |q| ==> q[i] < t
    ensures WindowTypes(PutOne(m, at, t), at + 2, Octet(t) + 1, Window(t)) == WindowTypes(m, at + 2, c, Window(t)) + [t]
  {
    hide OctetTypes, Bit, SetBit, WindowTypes;
    var n, w, m1 := Octet(t), Window(t), PutOne(m, at, t);
    var b, base: nat := m[at + 2 + n], Window(t) * 256 + 8 * n;
    TypeParts(t);
    LastOctet(m, at + 2, n, w);
    LastOctet(m1, at + 2, n, w);
    WindowSame(m, m1, at + 2, n, w);
    if c <= n {
      WindowZero(m, at + 2, c, n, w);
      NoTypes(base);
      OctetSet(b, base, t % 8);
    } else {
      BitsAreBelow(b, base, t, WindowTypes(m, at + 2, n, w));
      OctetSet(b, base, t % 8);
    }
  }

  lemma BitsAreBelow(b: byte, base: nat, t: nat, front: seq<nat>)
    requires var q := front + OctetTypes(b, base, 8); forall i :: 0 <= i < |q| ==> q[i] < t
    ensures forall x: nat :: x < 8 && Bit(b, x) ==> base + x < t
  {
    hide OctetTypes, Bit;
    OctetShape(b, base, 8);
    var q, o := front + OctetTypes(b, base, 8), OctetTypes(b, base, 8);
    assert forall i :: 0 <= i < |o| ==> o[i] == q[|front| + i];
  }

  lemma TypeParts(t: RRType)
    ensures t == Window(t) * 256 + 8 * Octet(t) + t % 8
  {
    assert t % 256 % 8 == t % 8;
  }

  lemma LastOctet(m: seq<byte>, at: nat, n: nat, window: byte)
    requires at + n < |m|
    ensures WindowTypes(m, at, n + 1, window) == WindowTypes(m, at, n, window) + OctetTypes(m[at + n], window * 256 + 8 * n, 8)
  {
  }

  /** The last type put is among those read, whatever was there before. */
  lemma LastIsRead(m: seq<byte>, at: nat, t: RRType)
    requires at + 2 + Octet(t) < |m|
    ensures t in WindowTypes(PutOne(m, at, t), at + 2, Octet(t) + 1, Window(t))
  {
    hide OctetTypes, Bit, SetBit, WindowTypes;
    var n, w, m1 := Octet(t), Window(t), PutOne(m, at, t);
    TypeParts(t);
    LastOctet(m1, at + 2, n, w);
    assert Bit(m1[at + 2 + n], t % 8);
    OctetShape(m1[at + 2 + n], Window(t) * 256 + 8 * n, 8);
  }

  // ---------------------------------------------------------------- window after window

  lemma {:induction false} ReadsSame(m: seq<byte>, m1: seq<byte>, a: nat, b: nat, p: seq<nat>)
    requires ReadWindows(m, a, b) == Bitmap(p, b) && |m1| == |m| && b <= |m| && m1[..b] == m[..b]
    ensures ReadWindows(m1, a, b) == Bitmap(p, b)
    decreases b - a
  {
    hide WindowTypes;
    if a + 2 < b {
      var length := m[a + 1];
      var next := a + 2 + length;
      var rest := ReadWindows(m, next, b);
      assert m1[..b][a] == m[..b][a] && m1[..b][a + 1] == m[..b][a + 1];
      ReadsSame(m, m1, next, b, rest.types);
      forall k | a + 2 <= k < next ensures m[k] == m1[k] {
        assert m1[..b][k] == m[..b][k];
      }
      WindowSame(m, m1, a + 2, length, m[a]);
    }
  }

  lemma {:induction false} ReadsMore(m: seq<byte>, a: nat, b: nat, p: seq<nat>)
    requires ReadWindows(m, a, b) == Bitmap(p, b) && b + 2 <= |m| && 1 <= m[b + 1] <= 32 && b + 2 + m[b + 1] <= |m|
    ensures var end := b + 2 + m[b + 1];
            ReadWindows(m, a, end) == Bitmap(p + WindowTypes(m, b + 2, m[b + 1], m[b]), end)
    decreases b - a
  {
    hide WindowTypes;
    var end := b + 2 + m[b + 1];
    if a + 2 < b {
      var next := a + 2 + m[a + 1];
      var rest := ReadWindows(m, next, b);
      ReadsMore(m, next, b, rest.types);
    } else {
      assert ReadWindows(m, end, end) == Bitmap([], end);
    }
  }

  /**
   The message after the types in done: p is what the finished windows say, and the window at at,
   number last, has octet n as its last one. If done can survive at all, it is all there.
   */
  ghost predicate Inked(m: seq<byte>, off: nat, at: nat, last: byte, n: nat, done: seq<RRType>, p: seq<nat>) {
    && off <= at && at + 3 + n <= |m| && n < 32 && m[at] == last && m[at + 1] == n + 1
    && ReadWindows(m, off, at) == Bitmap(p, at)
    && Runs(p) && (p != [] ==> p[|p| - 1] / 256 != last)
    && done != [] && Window(done[|done| - 1]) == last && Octet(done[|done| - 1]) == n
    && var q := WindowTypes(m, at + 2, n + 1, last);
       q != [] && (Packable(done) ==> p + q == done && Zeros(m, at + 3 + n))
  }

  lemma PackablePrefix(done: seq<RRType>, more: seq<RRType>)
    requires Packable(done + more)
    ensures Packable(done)
  {
    var all := done + more;
    forall i, j | 0 <= i < j < |done| && j == i + 1 && done[i] / 256 == done[j] / 256 ensures done[i] < done[j] {
      assert all[i] == done[i] && all[j] == done[j];
    }
    if done != [] {
      assert all[0] == done[0];
    }
  }

  lemma RunsJoin(p: seq<nat>, q: seq<nat>, window: byte)
    requires Runs(p) && Ascending(q) && (p != [] ==> p[|p| - 1] / 256 != window)
    requires forall i :: 0 <= i < |q| ==> q[i] / 256 == window
    ensures Runs(p + q)
  {
  }

  /** What is read when the current window is closed. */
  lemma Closed(m: seq<byte>, off: nat, at: nat, last: byte, n: nat, done: seq<RRType>, p: seq<nat>)
    requires Inked(m, off, at, last, n, done, p)
    ensures var q := WindowTypes(m, at + 2, n + 1, last);
            && ReadWindows(m, off, at + 3 + n) == Bitmap(p + q, at + 3 + n)
            && Runs(p + q) && q != [] && q[|q| - 1] / 256 == last
            && (Packable(done) ==> p + q == done && Zeros(m, at + 3 + n))
  {
    hide WindowTypes, ReadWindows;
    ReadsMore(m, off, at, p);
    WindowShape(m, at + 2, n + 1, last);
    RunsJoin(p, WindowTypes(m, at + 2, n + 1, last), last);
  }

  /** A type starts a window. */
  lemma InkNew(m: seq<byte>, off: nat, at: nat, done: seq<RRType>, t: RRType, p: seq<nat>)
    requires off <= at && at + 2 + Octet(t) < |m| && ReadWindows(m, off, at) == Bitmap(p, at)
    requires Runs(p) && (p != [] ==> p[|p| - 1] / 256 != Window(t))
    requires Packable(done) ==> p == done && Zeros(m, at)
    ensures Inked(PutOne(m, at, t), off, at, Window(t), Octet(t), done + [t], p)
  {
    hide WindowTypes, ReadWindows, Window, Octet, SetBit, Packable, Runs;
    var m1, n := PutOne(m, at, t), Octet(t);
    ReadsSame(m, m1, off, at, p);
    LastIsRead(m, at, t);
    if Packable(done + [t]) {
      PackablePrefix(done, [t]);
      NoOctets(m, at + 2, Window(t));
      WindowGrows(m, at, 0, t);
    }
  }

  lemma NoOctets(m: seq<byte>, at: nat, window: byte)
    requires at <= |m|
    ensures WindowTypes(m, at, 0, window) == []
  {
  }

  /** A type joins the current window. */
  lemma InkSame(m: seq<byte>, off: nat, at: nat, n: nat, done: seq<RRType>, t: RRType, p: seq<nat>)
    requires Inked(m, off, at, Window(t), n, done, p) && at + 2 + Octet(t) < |m|
    ensures Inked(PutOne(m, at, t), off, at, Window(t), Octet(t), done + [t], p)
  {
    hide WindowTypes, ReadWindows, SetBit;
    var m1 := PutOne(m, at, t);
    ReadsSame(m, m1, off, at, p);
    LastIsRead(m, at, t);
    if Packable(done + [t]) {
      PackablePrefix(done, [t]);
      var q := WindowTypes(m, at + 2, n + 1, Window(t));
      WindowShape(m, at + 2, n + 1, Window(t));
      NextIsAbove(done, t, p, q, n);
      WindowGrows(m, at, n + 1, t);
    }
  }

  lemma NextIsAbove(done: seq<RRType>, t: RRType, p: seq<nat>, q: seq<nat>, n: nat)
    requires done != [] && Window(done[|done| - 1]) == Window(t) && Packable(done + [t])
    requires p + q == done && q != [] && Ascending(q) && Octet(done[|done| - 1]) == n
    ensures n <= Octet(t) && forall i :: 0 <= i < |q| ==> q[i] < t
  {
    var all := done + [t];
    assert all[|done| - 1] == q[|q| - 1] && all[|done|] == t;
    assert q[|q| - 1] < t;
  }

  /** The rest of the types, from any state of the packing loop. */
  lemma {:induction false} PutAllReads(types: seq<RRType>, m: seq<byte>, off: nat, at: nat, last: byte, n: nat,
                                       done: seq<RRType>, p: seq<nat>)
    requires Inked(m, off, at, last, n, done, p) && PutAll(types, m, at, last, n).Put?
    ensures var r := PutAll(types, m, at, last, n);
            var b := ReadWindows(r.m, off, r.off);
            && off + 3 <= r.off <= |m| && b.Bitmap? && b.off == r.off && Runs(b.types)
            && (Packable(done + types) ==> b.types == done + types)
    decreases |types|
  {
    hide Inked, ReadWindows, WindowTypes, Runs, Packable, PutOne, Window, Octet;
    InkedPlace(m, off, at, last, n, done, p);
    if types == [] {
      Closed(m, off, at, last, n, done, p);
      assert done + types == done;
    } else {
      var t, rest := types[0], types[1..];
      assert done + [t] + rest == done + types;
      if Packable(done + types) {
        PackablePrefix(done + [t], rest);
      }
      if Window(t) != last {
        var next := at + n + 3;
        var q := WindowTypes(m, at + 2, n + 1, last);
        Closed(m, off, at, last, n, done, p);
        InkNew(m, off, next, done, t, p + q);
        PutAllReads(rest, PutOne(m, next, t), off, next, Window(t), Octet(t), done + [t], p + q);
      } else {
        InkSame(m, off, at, n, done, t, p);
        PutAllReads(rest, PutOne(m, at, t), off, at, last, Octet(t), done + [t], p);
      }
    }
  }

  lemma InkedPlace(m: seq<byte>, off: nat, at: nat, last: byte, n: nat, done: seq<RRType>, p: seq<nat>)
    requires Inked(m, off, at, last, n, done, p)
    ensures off <= at && at + 3 + n <= |m|
  {
  }

  /** Nothing before the current window is touched. */
  lemma {:induction false} PutAllLeaves(types: seq<RRType>, m: seq<byte>, at: nat, last: byte, n: nat)
    requires PutAll(types, m, at, last, n).Put? && at <= |m|
    ensures var r := PutAll(types, m, at, last, n); r.m[..at] == m[..at] && at + 3 <= r.off <= |m|
    decreases |types|
  {
    hide PutOne, Window, Octet;
    if types != [] {
      var t := types[0];
      var next := if Window(t) != last then at + n + 3 else at;
      PutAllLeaves(types[1..], PutOne(m, next, t), next, Window(t), Octet(t));
      assert PutOne(m, next, t)[..at] == PutOne(m, next, t)[..next][..at];
      assert m[..at] == m[..next][..at];
      var r := PutAll(types, m, at, last, n);
      assert r.m[..at] == r.m[..next][..at];
    }
  }

  /**
   A list of types packed into zeroes is read back, with exactly the bytes that were packed, if and
   only if window 0 is the first one and neighbours in a window ascend. All strictly ascending
   lists that start below 256 are of that kind.
   */
  lemma RoundTrip(types: seq<RRType>, m: seq<byte>, off: nat)
    requires off <= |m| && Zeros(m, off) && PackBitmap(types, m, off).Put?
    ensures var p := PackBitmap(types, m, off); ReadBitmap(p.m, off, p.off) == Bitmap(types, p.off) <==> Packable(types)
  {
    hide ReadWindows, PutOne, PutAll, Octet, Zeros;
    if types != [] {
      var t, rest := types[0], types[1..];
      FirstPut(types, m, off);
      if t < 256 {
        EmptyRead(m, off);
        InkNew(m, off, off, [], t, []);
        PutAllReads(rest, PutOne(m, off, t), off, off, 0, Octet(t), [t], []);
        assert [t] + rest == types;
      } else {
        var p := PackBitmap(types, m, off);
        GapIsRefused(p.m, off, p.off);
      }
    }
  }

  lemma FirstPut(types: seq<RRType>, m: seq<byte>, off: nat)
    requires off <= |m| && Zeros(m, off) && types != [] && PackBitmap(types, m, off).Put?
    ensures var t, r := types[0], PackBitmap(types, m, off);
            && (t < 256 ==> off + 2 + Octet(t) < |m| && r == PutAll(types[1..], PutOne(m, off, t), off, 0, Octet(t)))
            && off + 3 <= r.off <= |m|
            && (t >= 256 ==> r.m[off + 1] == 0)
  {
    hide PutOne, Octet;
    var t, r := types[0], PackBitmap(types, m, off);
    if t < 256 {
      PutAllLeaves(types[1..], PutOne(m, off, t), off, 0, Octet(t));
    } else {
      PutAllLeaves(types[1..], PutOne(m, off + 3, t), off + 3, Window(t), Octet(t));
      assert r.m[off + 1] == r.m[..off + 3][off + 1] == PutOne(m, off + 3, t)[..off + 3][off + 1] == m[..off + 3][off + 1];
    }
  }

  lemma EmptyRead(m: seq<byte>, off: nat)
    ensures ReadWindows(m, off, off) == Bitmap([], off)
  {
  }

  lemma GapIsRefused(m: seq<byte>, off: nat, end: nat)
    requires off + 3 <= end <= |m| && m[off + 1] == 0
    ensures ReadBitmap(m, off, end) == Malformed(Overflow)
  {
  }

  // ---------------------------------------------------------------- room

  /** Where the octet of each type ends, in packing order. */
  function Ends(types: seq<RRType>, at: nat, last: byte, n: nat): (r: seq<nat>)
    ensures |r| == |types|
  {
    if types == [] then []
    else
      var t := types[0];
      var next := if Window(t) != last then at + n + 3 else at;
      [next + 3 + Octet(t)] + Ends(types[1..], next, Window(t), Octet(t))
  }

  /** The first octet without room. */
  function FirstOver(ends: seq<nat>, size: nat): (j: nat)
    ensures j <= |ends| && (forall i :: 0 <= i < j ==> ends[i] <= size) && (j < |ends| ==> ends[j] > size)
  {
    if ends == [] || ends[0] > size then 0 else 1 + FirstOver(ends[1..], size)
  }

  /**
   Types are packed if and only if every octet has room. The write past the end of the message is
   not caught exactly when the first octet that has no room misses it by one byte.
   */
  lemma {:induction false} RoomNeeded(types: seq<RRType>, m: seq<byte>, at: nat, last: byte, n: nat)
    requires types != [] || at + n + 3 <= |m|
    ensures var r, es := PutAll(types, m, at, last, n), Ends(types, at, last, n);
            var j := FirstOver(es, |m|);
            && (r.Put? <==> j == |es|)
            && (r == Fails(IndexOutOfRange) <==> j < |es| && es[j] == |m| + 1)
            && (r.Put? ==> r.off == if es == [] then at + n + 3 else es[|es| - 1])
    decreases |types|
  {
    hide PutOne, Window, Octet, PutAll, FirstOver;
    assert types[0..] == types;
    if types == [] {
      PutEnd(types, m, at, last, n);
      NoneOver(|m|);
    } else {
      var t, es := types[0], Ends(types, at, last, n);
      var next := if Window(t) != last then at + n + 3 else at;
      PutStep(types, 0, m, at, last, n);
      FirstIsOver(es, |m|);
      if next + 2 + Octet(t) < |m| {
        RoomNeeded(types[1..], PutOne(m, next, t), next, Window(t), Octet(t));
        assert es[1..] == Ends(types[1..], next, Window(t), Octet(t));
      }
    }
  }

  lemma NoneOver(size: nat)
    ensures FirstOver([], size) == 0
  {
  }

  lemma FirstIsOver(es: seq<nat>, size: nat)
    requires es != []
    ensures FirstOver(es, size) == if es[0] > size then 0 else 1 + FirstOver(es[1..], size)
  {
  }

  /** Packing as a whole: there is an answer, and it is the expected one, whenever the last octet fits. */
  lemma PackableFits(types: seq<RRType>, m: seq<byte>, off: nat)
    requires types != [] && Packable(types) && off + 2 <= |m|
    ensures var es := Ends(types, off, 0, 0);
            && (PackBitmap(types, m, off).Put? <==> es[|es| - 1] <= |m|)
            && (PackBitmap(types, m, off).Put? ==> PackBitmap(types, m, off).off == es[|es| - 1])
  {
    hide PutAll, Ends, FirstOver;
    var es := Ends(types, off, 0, 0);
    RoomNeeded(types, m, off, 0, 0);
    EndsAscend(types, off, 0, 0);
    LastDecides(es, |m|);
  }

  lemma LastDecides(es: seq<nat>, size: nat)
    requires es != [] && forall i, j :: 0 <= i < j < |es| ==> es[i] <= es[j]
    ensures FirstOver(es, size) == |es| <==> es[|es| - 1] <= size
  {
    hide FirstOver;
    var k := FirstOver(es, size);
    assert k < |es| - 1 ==> es[k] <= es[|es| - 1];
  }

  lemma {:induction false} EndsAscend(types: seq<RRType>, at: nat, last: byte, n: nat)
    requires Runs(types)
    ensures var es := Ends(types, at, last, n); forall i, j :: 0 <= i < j < |es| ==> es[i] <= es[j]
    decreases |types|
  {
    if |types| > 1 {
      var t := types[0];
      var next := if Window(t) != last then at + n + 3 else at;
      var rest := types[1..];
      assert rest[0] == types[1];
      EndsAscend(rest, next, Window(t), Octet(t));
      assert Ends(types, at, last, n)[0] <= Ends(rest, next, Window(t), Octet(t))[0];
    }
  }

  // ---------------------------------------------------------------- on the wire

  /**
   Section 4.1.2 of RFC 4034: a type has its high byte as the number of its window, and in the bitmap, which has as
   many bytes as it needs, the bit that its low byte counts off from the highest bit of the first byte.
   */
  lemma TypeOnWire(m: seq<byte>, at: nat, t: RRType)
    requires at + 2 + t % 256 / 8 < |m|
    ensures var r, o := PutOne(m, at, t), at + 2 + t % 256 / 8;
            && |r| == |m| && r[at] == t / 256 && r[at + 1] == t % 256 / 8 + 1
            && (forall i :: 0 <= i < |m| && i != at && i != at + 1 && i != o ==> r[i] == m[i])
            && (forall j :: 0 <= j < 8 ==> (BitOf(r[o], j) == 1 <==> j == 7 - t % 8 || BitOf(m[o], j) == 1))
  {
    hide SetBit, BitOf, Bit, Octet;
    WhereTypeGoes(t);
    BitIsSet(m[at + 2 + Octet(t)], t % 8);
    var r, b := PutOne(m, at, t), SetBit(m[at + 2 + Octet(t)], t % 8);
    assert r == m[at := Window(t)][at + 1 := Octet(t) + 1][at + 2 + Octet(t) := b];
  }

  lemma WhereTypeGoes(t: RRType)
    ensures Octet(t) == t % 256 / 8 && Window(t) == t / 256
  {
  }

  lemma BitIsSet(b: byte, n: nat)
    requires n < 8
    ensures forall j :: 0 <= j < 8 ==> (BitOf(SetBit(b, n), j) == 1 <==> j == 7 - n || BitOf(b, j) == 1)
  {
    hide SetBit, BitOf, Has;
    forall j | 0 <= j < 8 ensures BitOf(SetBit(b, n), j) == 1 <==> j == 7 - n || BitOf(b, j) == 1 {
      assert Bit(SetBit(b, n), 7 - j) <==> 7 - j == n || Bit(b, 7 - j);
      HasIsBit(SetBit(b, n), j);
      HasIsBit(b, j);
    }
  }

  lemma {:induction false} HasIsBit(n: nat, i: nat)
    ensures Has(n, i) <==> BitOf(n, i) == 1
  {
    if i > 0 {
      HasIsBit(n / 2, i - 1);
    }
  }
}
