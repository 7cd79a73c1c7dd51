/**
 The tree of contexts (go.net/context, context.go). All contexts are kept in one sequence, in the
 order in which they were made, and a context is its place there; a parent comes before its children.
 */
module Contexts {
  import opened Bytes

  datatype Error = Canceled | DeadlineExceeded

  /** emptyCtx, cancelCtx, timerCtx and valueCtx. */
  datatype Kind = Empty | Cancel | Timer(deadline: int) | Value(key: string, val: string)

  /** parent means nothing for an empty context; timer says whether a timer is still to fire. */
  datatype Node = Node(kind: Kind, parent: nat, err: Option<Error>, children: seq<nat>, timer: bool)

  type Tree = seq<Node>

  predicate Cancellable(n: Node) {
    n.kind.Cancel? || n.kind.Timer?
  }

  predicate Live(t: Tree, i: nat) {
    i < |t| && Cancellable(t[i]) && t[i].err.None?
  }

  ghost predicate Rooted(t: Tree) {
    forall i :: 0 <= i < |t| && !t[i].kind.Empty? ==> t[i].parent < i
  }

  /** parentCancelCtx: i itself or the first context above it that can be cancelled. */
  function Nearest(t: Tree, i: nat): (r: Option<nat>)
    requires Rooted(t) && i < |t|
    ensures r.Some? ==> r.value <= i && Cancellable(t[r.value])
  {
    match t[i].kind
    case Empty => None
    case Value(_, _) => Nearest(t, t[i].parent)
    case _ => Some(i)
  }

  /** The context with which i is registered. */
  function Above(t: Tree, i: nat): (r: Option<nat>)
    requires Rooted(t) && i < |t|
    ensures r.Some? ==> r.value < i && Cancellable(t[r.value])
  {
    if t[i].kind.Empty? then None else Nearest(t, t[i].parent)
  }

  /** i was derived from c, directly or not. */
  ghost predicate Under(t: Tree, i: nat, c: nat)
    requires Rooted(t) && i < |t|
  {
    !t[i].kind.Empty? && (t[i].parent == c || Under(t, t[i].parent, c))
  }

  /** Within: i is c or was derived from it. */
  ghost predicate Within(t: Tree, i: nat, c: nat)
    requires Rooted(t) && i < |t|
  {
    i == c || Under(t, i, c)
  }

  /** Children are registered where they belong. */
  ghost predicate Shape(t: Tree) {
    && Rooted(t)
    && forall a, k :: 0 <= a < |t| && 0 <= k < |t[a].children| ==>
         var ch := t[a].children[k]; ch < |t| && Cancellable(t[ch]) && Above(t, ch) == Some(a)
  }

  /** A live context below another one that can be cancelled is registered there, and that is live. */
  ghost predicate Registered(t: Tree, i: nat)
    requires Rooted(t)
  {
    && (Live(t, i) && Above(t, i).Some? ==> Live(t, Above(t, i).value) && i in t[Above(t, i).value].children)
    && (i < |t| && t[i].err.Some? ==> !t[i].timer)
  }

  ghost predicate Valid(t: Tree) {
    && Shape(t)
    && (forall i :: 0 <= i < |t| ==> Registered(t, i))
    && (forall i :: 0 <= i < |t| && !Live(t, i) ==> t[i].children == [] && !t[i].timer)
  }

  /** What cancelling needs: the contexts under c are registered. */
  ghost predicate ValidBelow(t: Tree, c: nat) {
    && Shape(t) && c < |t| && Cancellable(t[c])
    && forall i :: 0 <= i < |t| && Under(t, i, c) ==> Registered(t, i)
  }

  // ---------------------------------------------------------------- ancestry

  /** Same contexts derived from the same parents. */
  ghost predicate Alike(t: Tree, u: Tree) {
    |t| <= |u| && forall i :: 0 <= i < |t| ==> u[i].kind == t[i].kind && u[i].parent == t[i].parent
  }

  lemma {:induction false} AlikeAbove(t: Tree, u: Tree, i: nat)
    requires Rooted(t) && Rooted(u) && Alike(t, u) && i < |t|
    ensures Nearest(u, i) == Nearest(t, i) && Above(u, i) == Above(t, i)
  {
    if !t[i].kind.Empty? {
      AlikeAbove(t, u, t[i].parent);
    }
  }

  lemma {:induction false} AlikeUnder(t: Tree, u: Tree, i: nat, c: nat)
    requires Rooted(t) && Rooted(u) && Alike(t, u) && i < |t|
    ensures Under(u, i, c) <==> Under(t, i, c)
  {
    if !t[i].kind.Empty? {
      AlikeUnder(t, u, t[i].parent, c);
    }
  }

  lemma {:induction false} UnderIsLater(t: Tree, i: nat, c: nat)
    requires Rooted(t) && i < |t| && Under(t, i, c)
    ensures c < i
  {
    if t[i].parent != c {
      UnderIsLater(t, t[i].parent, c);
    }
  }

  lemma {:induction false} UnderTwice(t: Tree, i: nat, a: nat, c: nat)
    requires Rooted(t) && i < |t| && a < |t| && Under(t, i, a) && Within(t, a, c)
    ensures Under(t, i, c)
  {
    if t[i].parent != a {
      UnderTwice(t, t[i].parent, a, c);
    }
  }

  lemma {:induction false} NearestIsOver(t: Tree, i: nat)
    requires Rooted(t) && i < |t| && Nearest(t, i).Some?
    ensures Within(t, i, Nearest(t, i).value)
  {
    if t[i].kind.Value? {
      NearestIsOver(t, t[i].parent);
    }
  }

  lemma AboveIsOver(t: Tree, i: nat)
    requires Rooted(t) && i < |t| && Above(t, i).Some?
    ensures Under(t, i, Above(t, i).value)
  {
    NearestIsOver(t, t[i].parent);
  }

  /** Nothing that can be cancelled is passed over. */
  lemma {:induction false} NearestIsWithin(t: Tree, i: nat, c: nat)
    requires Rooted(t) && i < |t| && c < |t| && Cancellable(t[c]) && Within(t, i, c)
    ensures Nearest(t, i).Some? && Within(t, Nearest(t, i).value, c)
  {
    if t[i].kind.Value? {
      NearestIsWithin(t, t[i].parent, c);
    }
  }

  lemma AboveIsWithin(t: Tree, i: nat, c: nat)
    requires Rooted(t) && i < |t| && c < |t| && Cancellable(t[c]) && Under(t, i, c)
    ensures Above(t, i).Some? && Within(t, Above(t, i).value, c)
  {
    NearestIsWithin(t, t[i].parent, c);
  }

  /** Contexts registered with the same one have nothing below them in common. */
  lemma {:induction false} ChildrenApart(t: Tree, c: nat, x: nat, y: nat, i: nat)
    requires Rooted(t) && x < |t| && y < |t| && i < |t| && Cancellable(t[x]) && Cancellable(t[y])
    requires Above(t, x) == Some(c) && Above(t, y) == Some(c) && Within(t, i, x) && Within(t, i, y)
    ensures x == y
  {
    if i == x && Under(t, x, y) {
      AboveIsWithin(t, x, y);
      WithinIsLater(t, c, y);
    } else if i == y && Under(t, y, x) {
      AboveIsWithin(t, y, x);
      WithinIsLater(t, c, x);
    } else if i != x && i != y {
      ChildrenApart(t, c, x, y, t[i].parent);
    }
  }

  lemma WithinIsLater(t: Tree, i: nat, c: nat)
    requires Rooted(t) && i < |t| && Within(t, i, c)
    ensures c <= i
  {
    if i != c {
      UnderIsLater(t, i, c);
    }
  }

  // ---------------------------------------------------------------- cancelling

  function Dead(n: Node, err: Error): Node {
    n.(err := Some(err), children := [], timer := false)
  }

  /** All live contexts from c down have the error. */
  ghost function Cancelled(t: Tree, c: nat, err: Error): (r: Tree)
    requires Rooted(t)
    ensures |r| == |t|
    ensures forall i :: 0 <= i < |t| ==> r[i] == if Live(t, i) && Within(t, i, c) then Dead(t[i], err) else t[i]
  {
    seq(|t|, i requires 0 <= i < |t| => if Live(t, i) && Within(t, i, c) then Dead(t[i], err) else t[i])
  }

  function Without(s: seq<nat>, x: nat): (r: seq<nat>)
    ensures forall y :: y in r <==> y in s && y != x
  {
    if s == [] then [] else (if s[0] == x then [] else [s[0]]) + Without(s[1..], x)
  }

  /** A cancelCtx leaves the children of its parent; a timerCtx is not found there under its own name. */
  function Unlinked(t: Tree, c: nat): Tree
    requires Rooted(t) && c < |t|
  {
    var p := Above(t, c);
    if p.Some? && t[c].kind.Cancel? then t[p.value := t[p.value].(children := Without(t[p.value].children, c))] else t
  }

  ghost function AfterCancel(t: Tree, c: nat, remove: bool, err: Error): Tree
    requires Rooted(t) && c < |t|
  {
    if !Live(t, c) then t[c := t[c].(timer := false)]
    else
      CancelledIsRooted(t, c, err);
      if remove then Unlinked(Cancelled(t, c, err), c) else Cancelled(t, c, err)
  }

  lemma CancelledIsRooted(t: Tree, c: nat, err: Error)
    requires Rooted(t)
    ensures Rooted(Cancelled(t, c, err)) && Alike(t, Cancelled(t, c, err))
  {
  }

  /** i is one of the first k children of c, or was derived from one of them. */
  ghost predicate Hit(t: Tree, c: nat, k: nat, i: nat)
    requires Rooted(t) && c < |t| && k <= |t[c].children| && i < |t|
  {
    k > 0 && (Within(t, i, t[c].children[k - 1]) || Hit(t, c, k - 1, i))
  }

  /** The first k children of c have been cancelled; c has the error already. */
  ghost predicate Midway(was: Tree, t: Tree, c: nat, k: nat, err: Error) {
    && ValidBelow(was, c) && Live(was, c) && k <= |was[c].children|
    && |t| == |was| && t[c] == was[c].(err := Some(err))
    && forall i :: 0 <= i < |t| && i != c ==> t[i] == if Live(was, i) && Hit(was, c, k, i) then Dead(was[i], err) else was[i]
  }

  lemma MidwayShape(was: Tree, t: Tree, c: nat, k: nat, err: Error)
    requires Midway(was, t, c, k, err)
    ensures Shape(t) && Alike(was, t) && Rooted(was)
  {
    hide Hit, Under;
    forall a, j | 0 <= a < |t| && 0 <= j < |t[a].children|
      ensures t[a].children[j] < |t| && Cancellable(t[t[a].children[j]]) && Above(t, t[a].children[j]) == Some(a) {
      assert t[a].children == was[a].children;
      AlikeAbove(was, t, t[a].children[j]);
    }
  }

  /** A child that has been hit is under c, and c only. */
  lemma {:induction false} HitIsUnder(t: Tree, c: nat, k: nat, i: nat)
    requires Shape(t) && c < |t| && k <= |t[c].children| && i < |t| && Hit(t, c, k, i)
    ensures Under(t, i, c)
    decreases k
  {
    hide Under;
    var ch := t[c].children[k - 1];
    if Within(t, i, ch) {
      AboveIsOver(t, ch);
      if i != ch {
        UnderTwice(t, i, ch, c);
      }
    } else {
      HitIsUnder(t, c, k - 1, i);
    }
  }

  /** If something below a child has been hit, then the child has. */
  lemma {:induction false} HitTogether(t: Tree, c: nat, k: nat, ch: nat, a: nat, i: nat)
    requires Shape(t) && c < |t| && k <= |t[c].children| && ch < |t| && a < |t| && i < |t|
    requires Cancellable(t[ch]) && Above(t, ch) == Some(c) && Within(t, a, ch) && Within(t, i, ch) && Hit(t, c, k, a)
    ensures Hit(t, c, k, i)
    decreases k
  {
    hide Under;
    var x := t[c].children[k - 1];
    if Within(t, a, x) {
      ChildrenApart(t, c, x, ch, a);
    } else {
      HitTogether(t, c, k - 1, ch, a, i);
    }
  }

  /** The next child can be cancelled in its turn. */
  lemma NextChild(was: Tree, t: Tree, c: nat, k: nat, err: Error)
    requires Midway(was, t, c, k, err) && k < |was[c].children|
    ensures ValidBelow(t, was[c].children[k])
  {
    MidwayShape(was, t, c, k, err);
    hide Hit, Under, Nearest;
    var ch := was[c].children[k];
    forall i | 0 <= i < |t| && Under(t, i, ch) ensures Registered(t, i) {
      AlikeUnder(was, t, i, ch);
      AboveIsOver(was, ch);
      UnderTwice(was, i, ch, c);
      UnderIsLater(was, i, c);
      AlikeAbove(was, t, i);
      assert Registered(was, i);
      if Live(t, i) {
        AboveIsWithin(was, i, ch);
        var a := Above(was, i).value;
        WithinIsLater(was, a, ch);
        if Hit(was, c, k, a) {
          HitTogether(was, c, k, ch, a, i);
        }
      }
    }
  }

  /** What is live below a live context that can be cancelled keeps that live. */
  lemma {:induction false} LiveUp(t: Tree, c: nat, i: nat)
    requires ValidBelow(t, c) && Live(t, i) && Within(t, i, c)
    ensures Live(t, c)
    decreases i
  {
    if i != c {
      hide Under, Nearest;
      assert Registered(t, i);
      AboveIsWithin(t, i, c);
      LiveUp(t, c, Above(t, i).value);
    }
  }

  /** Every live context under c is within one of its children. */
  lemma {:induction false} AllAreHit(t: Tree, c: nat, i: nat)
    requires ValidBelow(t, c) && Live(t, i) && Under(t, i, c)
    ensures Hit(t, c, |t[c].children|, i)
    decreases i
  {
    hide Under, Nearest;
    assert Registered(t, i);
    AboveIsWithin(t, i, c);
    var a := Above(t, i).value;
    if a == c {
      var k :| 0 <= k < |t[c].children| && t[c].children[k] == i;
      HitOne(t, c, k, |t[c].children|, i);
    } else {
      AllAreHit(t, c, a);
      AboveIsOver(t, i);
      HitDown(t, c, |t[c].children|, a, i);
    }
  }

  lemma {:induction false} HitOne(t: Tree, c: nat, k: nat, n: nat, i: nat)
    requires Shape(t) && c < |t| && k < n <= |t[c].children| && i < |t| && t[c].children[k] == i
    ensures Hit(t, c, n, i)
    decreases n
  {
    if k < n - 1 {
      HitOne(t, c, k, n - 1, i);
    }
  }

  lemma {:induction false} HitDown(t: Tree, c: nat, n: nat, a: nat, i: nat)
    requires Shape(t) && c < |t| && n <= |t[c].children| && a < |t| && i < |t| && Hit(t, c, n, a) && Under(t, i, a)
    ensures Hit(t, c, n, i)
    decreases n
  {
    hide Under;
    if Within(t, a, t[c].children[n - 1]) {
      UnderTwice(t, i, a, t[c].children[n - 1]);
    } else {
      HitDown(t, c, n - 1, a, i);
    }
  }

  /** One more child has been cancelled. */
  lemma ChildDone(was: Tree, t: Tree, t1: Tree, c: nat, k: nat, err: Error)
    requires Midway(was, t, c, k, err) && k < |was[c].children|
    requires Rooted(t) && t1 == AfterCancel(t, was[c].children[k], false, err)
    ensures Midway(was, t1, c, k + 1, err)
  {
    MidwayShape(was, t, c, k, err);
    NextChild(was, t, c, k, err);
    var ch := was[c].children[k];
    hide Under, Nearest, Cancelled;
    AboveIsOver(was, ch);
    UnderIsLater(was, ch, c);
    forall i | 0 <= i < |t| && i != c
      ensures t1[i] == if Live(was, i) && Hit(was, c, k + 1, i) then Dead(was[i], err) else was[i] {
      AlikeUnder(was, t, i, ch);
      if Live(t, i) && Within(t, i, ch) {
        LiveUp(t, ch, i);
      }
    }
    assert !Under(was, c, ch) by {
      if Under(was, c, ch) {
        UnderIsLater(was, c, ch);
      }
    }
    AlikeUnder(was, t, c, ch);
  }

  /** All children have been cancelled. */
  lemma AllDone(was: Tree, t: Tree, c: nat, err: Error)
    requires c < |was| && Midway(was, t, c, |was[c].children|, err)
    ensures Rooted(was) && t[c := Dead(was[c], err)] == Cancelled(was, c, err)
  {
    MidwayShape(was, t, c, |was[c].children|, err);
    hide Under, Nearest;
    var n := |was[c].children|;
    forall i | 0 <= i < |was| && i != c ensures t[i] == Cancelled(was, c, err)[i] {
      if Live(was, i) && Under(was, i, c) {
        AllAreHit(was, c, i);
      } else if Live(was, i) && Hit(was, c, n, i) {
        HitIsUnder(was, c, n, i);
      }
    }
  }

  // ---------------------------------------------------------------- what cancelling keeps

  lemma CancelKeeps(t: Tree, c: nat, remove: bool, err: Error)
    requires Valid(t) && c < |t|
    ensures Valid(AfterCancel(t, c, remove, err)) && Alike(t, AfterCancel(t, c, remove, err))
  {
    if Live(t, c) {
      CancelledIsValid(t, c, err);
      if remove {
        UnlinkedIsValid(Cancelled(t, c, err), c);
      }
    } else {
      assert t[c := t[c].(timer := false)] == t by {
        assert !t[c].timer;
      }
    }
  }

  lemma CancelledIsValid(t: Tree, c: nat, err: Error)
    requires Valid(t) && Live(t, c)
    ensures Valid(Cancelled(t, c, err)) && Alike(t, Cancelled(t, c, err)) && Cancelled(t, c, err)[c].err == Some(err)
  {
    hide Under, Nearest;
    CancelledIsRooted(t, c, err);
    var u := Cancelled(t, c, err);
    forall a, k | 0 <= a < |u| && 0 <= k < |u[a].children|
      ensures u[a].children[k] < |u| && Cancellable(u[u[a].children[k]]) && Above(u, u[a].children[k]) == Some(a) {
      assert u[a].children == t[a].children;
      AlikeAbove(t, u, u[a].children[k]);
    }
    forall i | 0 <= i < |u| ensures Registered(u, i) {
      assert Registered(t, i);
      AlikeAbove(t, u, i);
      if Live(u, i) && Above(u, i).Some? {
        var a := Above(t, i).value;
        if Within(t, a, c) {
          AboveIsOver(t, i);
          UnderTwice(t, i, a, c);
        }
      }
    }
  }

  lemma UnlinkedIsValid(t: Tree, c: nat)
    requires Valid(t) && c < |t| && t[c].err.Some?
    ensures Valid(Unlinked(t, c)) && Alike(t, Unlinked(t, c))
  {
    hide Under, Nearest;
    var u := Unlinked(t, c);
    if u != t {
      var p := Above(t, c).value;
      forall a, k | 0 <= a < |u| && 0 <= k < |u[a].children|
        ensures u[a].children[k] < |u| && Cancellable(u[u[a].children[k]]) && Above(u, u[a].children[k]) == Some(a) {
        var ch := u[a].children[k];
        assert ch in t[a].children;
        AlikeAbove(t, u, ch);
      }
      forall i | 0 <= i < |u| ensures Registered(u, i) {
        assert Registered(t, i);
        AlikeAbove(t, u, i);
      }
    }
  }

  /** Cancellation is closed downward: below a cancelled context there is nothing live. */
  lemma {:induction false} NothingLiveBelow(t: Tree, c: nat, i: nat)
    requires Valid(t) && c < |t| && i < |t| && Cancellable(t[c]) && Cancellable(t[i]) && Under(t, i, c) && t[c].err.Some?
    ensures t[i].err.Some?
    decreases i
  {
    hide Under, Nearest;
    if Live(t, i) {
      assert Registered(t, i);
      AboveIsWithin(t, i, c);
      var a := Above(t, i).value;
      if a != c {
        NothingLiveBelow(t, c, a);
      }
    }
  }

  /** A live context that can be cancelled is registered with the nearest one above it. */
  lemma LiveIsRegistered(t: Tree, i: nat)
    requires Valid(t) && Live(t, i) && Above(t, i).Some?
    ensures Live(t, Above(t, i).value) && i in t[Above(t, i).value].children
  {
    assert Registered(t, i);
  }

  /** A context that has been cancelled leaves the children of the one above it unless it has a deadline. */
  lemma LeavesParent(t: Tree, c: nat, err: Error)
    requires Valid(t) && Live(t, c) && Above(t, c).Some?
    ensures var u, p := AfterCancel(t, c, true, err), Above(t, c).value;
            p < |u| && (c in u[p].children <==> t[c].kind.Timer?)
  {
    hide Nearest;
    CancelledIsRooted(t, c, err);
    LiveIsRegistered(t, c);
    var u, p := Cancelled(t, c, err), Above(t, c).value;
    AlikeAbove(t, u, c);
    if Within(t, p, c) {
      WithinIsLater(t, p, c);
    }
    assert u[p] == t[p];
  }

  // ---------------------------------------------------------------- the operations

  function DeadlineOf(t: Tree, i: nat): Option<int>
    requires Rooted(t) && i < |t|
  {
    match t[i].kind
    case Empty => None
    case Timer(d) => Some(d)
    case _ => DeadlineOf(t, t[i].parent)
  }

  function ValueOf(t: Tree, i: nat, key: string): Option<string>
    requires Rooted(t) && i < |t|
  {
    match t[i].kind
    case Empty => None
    case Value(k, v) => if k == key then Some(v) else ValueOf(t, t[i].parent, key)
    case _ => ValueOf(t, t[i].parent, key)
  }

  lemma {:induction false} AlikeLookups(t: Tree, u: Tree, i: nat, key: string)
    requires Rooted(t) && Rooted(u) && Alike(t, u) && i < |t|
    ensures DeadlineOf(u, i) == DeadlineOf(t, i) && ValueOf(u, i, key) == ValueOf(t, i, key)
  {
    if !t[i].kind.Empty? {
      AlikeLookups(t, u, t[i].parent, key);
    }
  }

  /** Errors are never taken back or changed. */
  ghost predicate Keeps(t: Tree, u: Tree) {
    Alike(t, u) && forall i :: 0 <= i < |t| && t[i].err.Some? ==> u[i].err == t[i].err
  }

  /** The tree with a new context at its end. */
  function Grown(t: Tree, kind: Kind, parent: nat): Tree {
    t + [Node(kind, parent, None, [], false)]
  }

  lemma GrownIsAlike(t: Tree, kind: Kind, parent: nat)
    requires Rooted(t) && (!kind.Empty? ==> parent < |t|)
    ensures Rooted(Grown(t, kind, parent)) && Alike(t, Grown(t, kind, parent))
  {
  }

  lemma GrownShape(t: Tree, kind: Kind, parent: nat)
    requires Shape(t) && (!kind.Empty? ==> parent < |t|)
    ensures Shape(Grown(t, kind, parent))
  {
    hide Nearest;
    GrownIsAlike(t, kind, parent);
    var u := Grown(t, kind, parent);
    forall a, k | 0 <= a < |u| && 0 <= k < |u[a].children|
      ensures u[a].children[k] < |u| && Cancellable(u[u[a].children[k]]) && Above(u, u[a].children[k]) == Some(a) {
      AlikeAbove(t, u, u[a].children[k]);
    }
  }

  /** All is well, but that the last context, if it is live, may not have been registered. */
  ghost predicate AlmostValid(t: Tree) {
    && t != [] && Shape(t) && t[|t| - 1].children == [] && !t[|t| - 1].timer
    && (forall i :: 0 <= i < |t| - 1 ==> Registered(t, i))
    && (forall i :: 0 <= i < |t| - 1 && !Live(t, i) ==> t[i].children == [] && !t[i].timer)
  }

  lemma GrownIsAlmostValid(t: Tree, kind: Kind, parent: nat)
    requires Valid(t) && (!kind.Empty? ==> parent < |t|)
    ensures AlmostValid(Grown(t, kind, parent))
    ensures !Cancellable(Node(kind, parent, None, [], false)) ==> Valid(Grown(t, kind, parent))
  {
    hide Nearest;
    GrownShape(t, kind, parent);
    var u := Grown(t, kind, parent);
    forall i | 0 <= i < |t| ensures Registered(u, i) {
      assert Registered(t, i);
      AlikeAbove(t, u, i);
    }
  }

  /** propagateCancel for the last context. */
  function Propagated(t: Tree): Tree
    requires Rooted(t) && t != []
  {
    var n := |t| - 1;
    match Above(t, n)
    case None => t
    case Some(a) =>
      if t[a].err.Some? then t[n := Dead(t[n], t[a].err.value)] else t[a := t[a].(children := t[a].children + [n])]
  }

  lemma PropagatedShape(t: Tree)
    requires AlmostValid(t) && Live(t, |t| - 1)
    ensures Shape(Propagated(t)) && Alike(t, Propagated(t))
  {
    hide Nearest;
    var u := Propagated(t);
    forall a, k | 0 <= a < |u| && 0 <= k < |u[a].children|
      ensures u[a].children[k] < |u| && Cancellable(u[u[a].children[k]]) && Above(u, u[a].children[k]) == Some(a) {
      AlikeAbove(t, u, u[a].children[k]);
    }
  }

  lemma PropagatedIsValid(t: Tree)
    requires AlmostValid(t) && Live(t, |t| - 1)
    ensures Valid(Propagated(t)) && Alike(t, Propagated(t))
  {
    PropagatedShape(t);
    hide Nearest, Shape, Above;
    var u, n := Propagated(t), |t| - 1;
    forall i | 0 <= i < |u| ensures Registered(u, i) {
      assert i < n ==> Registered(t, i);
      ShapeIsRooted(t);
      AlikeAbove(t, u, i);
    }
    ShapeIsRooted(t);
  }

  lemma ShapeIsRooted(t: Tree)
    requires Shape(t)
    ensures Rooted(t)
  {
  }

  /** What Err says: that of the nearest context that can be cancelled. */
  function ErrOf(t: Tree, i: nat): Option<Error>
    requires Rooted(t) && i < |t|
  {
    var a := Nearest(t, i);
    if a.Some? then t[a.value].err else None
  }

  /** Once a context says that it is cancelled, all that were derived from it do. */
  lemma DownwardClosed(t: Tree, c: nat, i: nat)
    requires Valid(t) && c < |t| && i < |t| && Within(t, i, c) && ErrOf(t, c).Some?
    ensures ErrOf(t, i).Some?
  {
    hide Under;
    var a := Nearest(t, c).value;
    NearestIsOver(t, c);
    if i != c && c != a {
      UnderTwice(t, i, c, a);
    }
    NearestIsWithin(t, i, a);
    if Nearest(t, i).value != a {
      NothingLiveBelow(t, a, Nearest(t, i).value);
    }
  }

  lemma NothingUnderLast(t: Tree, err: Error)
    requires AlmostValid(t) && Live(t, |t| - 1)
    ensures ValidBelow(t, |t| - 1)
    ensures AfterCancel(t, |t| - 1, false, err) == t[|t| - 1 := Dead(t[|t| - 1], err)]
  {
    var n := |t| - 1;
    forall i | 0 <= i < |t| ensures !Under(t, i, n) {
      if Under(t, i, n) {
        UnderIsLater(t, i, n);
      }
    }
    assert forall i :: 0 <= i < |t| ==> Cancelled(t, n, err)[i] == t[n := Dead(t[n], err)][i];
  }

  lemma BelowIsValid(t: Tree, c: nat)
    requires Valid(t) && c < |t| && Cancellable(t[c])
    ensures ValidBelow(t, c)
  {
  }

  /** All contexts there are, updated in place by the operations. */
  class Contexts {
    var t: Tree

    /** The two contexts that are there from the start: background and todo. */
    constructor ()
      ensures Valid(t) && t == [Node(Empty, 0, None, [], false), Node(Empty, 0, None, [], false)]
    {
      t := [Node(Empty, 0, None, [], false), Node(Empty, 0, None, [], false)];
    }

    method ParentCancelCtx(parent: nat) returns (r: Option<nat>)
      requires Rooted(t) && parent < |t|
      ensures r == Nearest(t, parent)
    {
      var p: nat := parent;
      while true
        invariant p < |t| && Nearest(t, p) == Nearest(t, parent)
        decreases p
      {
        match t[p].kind
        case Empty => return None;
        case Value(_, _) => p := t[p].parent;
        case _ => return Some(p);
      }
    }

    /** cancelCtx.cancel and timerCtx.cancel. */
    method Cancel(c: nat, removeFromParent: bool, err: Error)
      requires ValidBelow(t, c)
      modifies this
      ensures t == AfterCancel(old(t), c, removeFromParent, err)
      decreases |t| - c
    {
      hide Under, Nearest, Registered, Cancelled, Above, Hit;
      ghost var was := t;
      if t[c].err.Some? {
        t := t[c := t[c].(timer := false)];
        return;
      }
      t := t[c := t[c].(err := Some(err))];
      var children := t[c].children;
      NoneDone(was, c, err);
      for k := 0 to |children|
        invariant Midway(was, t, c, k, err)
      {
        NextChild(was, t, c, k, err);
        ghost var before := t;
        ChildIsLater(was, c, k);
        Cancel(children[k], false, err);
        ChildDone(was, before, t, c, k, err);
      }
      AllDone(was, t, c, err);
      ghost var mid := t;
      t := t[c := t[c].(children := [])];
      t := t[c := t[c].(timer := false)];
      assert t == mid[c := Dead(was[c], err)] == Cancelled(was, c, err);
      CancelledIsRooted(was, c, err);
      if removeFromParent {
        AboveStays(was, t, c);
        ghost var dead := t;
        var p := ParentCancelCtx(t[c].parent);
        assert p == Above(dead, c);
        if p.Some? && t[c].kind.Cancel? {
          t := t[p.value := t[p.value].(children := Without(t[p.value].children, c))];
        }
        assert t == Unlinked(dead, c);
      }
    }

    method PropagateCancel(parent: nat, child: nat)
      requires AlmostValid(t) && child == |t| - 1 && Live(t, child) && parent == t[child].parent
      modifies this
      ensures t == Propagated(old(t)) && Valid(t)
    {
      hide Nearest, Under;
      PropagatedIsValid(t);
      var p := ParentCancelCtx(parent);
      if p.None? {
        return;
      }
      var a := p.value;
      if t[a].err.Some? {
        NothingUnderLast(t, t[a].err.value);
        Cancel(child, false, t[a].err.value);
      } else {
        t := t[a := t[a].(children := t[a].children + [child])];
      }
    }

    /** A context born under a cancelled one has its error; under a live one it is registered there. */
    method WithCancel(parent: nat) returns (c: nat)
      requires Valid(t) && parent < |t|
      modifies this
      ensures Valid(t) && Keeps(old(t), t) && c == |old(t)| && |t| == c + 1
      ensures t[c].kind == Kind.Cancel && t[c].parent == parent && t[c].err == ErrOf(old(t), parent)
      ensures t == Propagated(Grown(old(t), Kind.Cancel, parent))
    {
      hide Nearest, Under;
      c := |t|;
      GrownIsAlmostValid(t, Kind.Cancel, parent);
      GrownAbove(t, Kind.Cancel, parent);
      t := t + [Node(Kind.Cancel, parent, None, [], false)];
      PropagateCancel(parent, c);
    }

    method WithValue(parent: nat, key: string, val: string) returns (c: nat)
      requires Valid(t) && parent < |t|
      modifies this
      ensures Valid(t) && Keeps(old(t), t) && c == |old(t)| && t == Grown(old(t), Value(key, val), parent)
      ensures ErrOf(t, c) == ErrOf(old(t), parent)
      ensures forall k :: ValueOf(t, c, k) == if k == key then Some(val) else ValueOf(old(t), parent, k)
    {
      c := |t|;
      ghost var was := t;
      GrownIsAlmostValid(t, Value(key, val), parent);
      t := t + [Node(Value(key, val), parent, None, [], false)];
      AlikeAbove(was, t, parent);
      forall k ensures ValueOf(t, c, k) == if k == key then Some(val) else ValueOf(was, parent, k) {
        AlikeLookups(was, t, parent, k);
      }
    }

    /** The deadline is the earlier one of the parent's and the one that is asked for. */
    method WithDeadline(parent: nat, deadline: int, now: int) returns (c: nat)
      requires Valid(t) && parent < |t|
      modifies this
      ensures Valid(t) && Keeps(old(t), t) && c == |old(t)| && |t| == c + 1 && Cancellable(t[c]) && t[c].parent == parent
      ensures var d := DeadlineOf(old(t), parent);
              && DeadlineOf(t, c) == Some(if d.Some? && d.value < deadline then d.value else deadline)
              && t[c].err == (if ErrOf(old(t), parent).Some? then ErrOf(old(t), parent)
                              else if !(d.Some? && d.value < deadline) && deadline <= now then Some(DeadlineExceeded) else None)
              && (t[c].timer <==> t[c].kind.Timer? && t[c].err.None?)
    {
      hide Nearest, Under, Shape, Registered, Propagated, Above, ErrOf;
      ghost var was := t;
      ShapeIsRooted(t);
      var cur := DeadlineOf(t, parent);
      if cur.Some? && cur.value < deadline {
        c := WithCancel(parent);
        ShapeIsRooted(t);
        AlikeLookups(was, t, parent, "");
        GrownIsQuiet(was, Kind.Cancel, parent);
        return;
      }
      c := |t|;
      GrownIsAlmostValid(t, Timer(deadline), parent);
      GrownBirth(t, Timer(deadline), parent);
      GrownIsQuiet(t, Timer(deadline), parent);
      t := t + [Node(Timer(deadline), parent, None, [], false)];
      PropagateCancel(parent, c);
      if deadline <= now {
        BelowIsValid(t, c);
        CancelKeeps(t, c, true, DeadlineExceeded);
        CancelLast(t, c, DeadlineExceeded);
        Cancel(c, true, DeadlineExceeded);
        return;
      }
      if t[c].err.None? {
        TimerIsValid(t, c);
        t := t[c := t[c].(timer := true)];
      }
    }

    /** What the CancelFunc of a context does. */
    method CancelFunc(c: nat)
      requires Valid(t) && c < |t| && Cancellable(t[c])
      modifies this
      ensures t == AfterCancel(old(t), c, true, Canceled)
      ensures Valid(t) && Keeps(old(t), t) && |t| == |old(t)|
      ensures forall i :: 0 <= i < |t| && Within(t, i, c) ==> ErrOf(t, i).Some?
      ensures forall i :: 0 <= i < |t| && !Within(t, i, c) ==> t[i].err == old(t)[i].err
      ensures forall i :: 0 <= i < |t| && Within(t, i, c) && Cancellable(t[i]) ==>
                t[i].err == if old(t)[i].err.Some? then old(t)[i].err else Some(Canceled)
    {
      BelowIsValid(t, c);
      CancelKeeps(t, c, true, Canceled);
      CancelTells(t, c, Canceled);
      Cancel(c, true, Canceled);
    }

    /** The timer of a context fires. */
    method Fire(c: nat)
      requires Valid(t) && c < |t| && t[c].timer
      modifies this
      ensures t == AfterCancel(old(t), c, true, DeadlineExceeded)
      ensures Valid(t) && Keeps(old(t), t) && |t| == |old(t)|
      ensures forall i :: 0 <= i < |t| && Within(t, i, c) ==> ErrOf(t, i).Some?
      ensures forall i :: 0 <= i < |t| && !Within(t, i, c) ==> t[i].err == old(t)[i].err
      ensures forall i :: 0 <= i < |t| && Within(t, i, c) && Cancellable(t[i]) ==>
                t[i].err == if old(t)[i].err.Some? then old(t)[i].err else Some(DeadlineExceeded)
    {
      BelowIsValid(t, c);
      CancelKeeps(t, c, true, DeadlineExceeded);
      CancelTells(t, c, DeadlineExceeded);
      Cancel(c, true, DeadlineExceeded);
    }
  }

  lemma NoneDone(was: Tree, c: nat, err: Error)
    requires ValidBelow(was, c) && Live(was, c)
    ensures Midway(was, was[c := was[c].(err := Some(err))], c, 0, err)
  {
  }

  lemma ChildIsLater(t: Tree, c: nat, k: nat)
    requires Shape(t) && c < |t| && k < |t[c].children|
    ensures c < t[c].children[k] < |t|
  {
  }

  lemma AboveStays(t: Tree, u: Tree, i: nat)
    requires Rooted(t) && |u| == |t| && Alike(t, u) && i < |t|
    ensures Rooted(u) && Above(u, i) == Above(t, i)
    ensures Above(u, i) == if u[i].kind.Empty? then None else Nearest(u, u[i].parent)
  {
    AlikeAbove(t, u, i);
  }

  lemma GrownAbove(t: Tree, kind: Kind, parent: nat)
    requires Rooted(t) && parent < |t| && !kind.Empty?
    ensures var u := Grown(t, kind, parent); Rooted(u) && Above(u, |t|) == Nearest(t, parent)
  {
    GrownIsAlike(t, kind, parent);
    AlikeAbove(t, Grown(t, kind, parent), parent);
  }

  /** What becomes of a new context that can be cancelled. */
  lemma GrownBirth(t: Tree, kind: Kind, parent: nat)
    requires Valid(t) && parent < |t| && (kind.Cancel? || kind.Timer?)
    ensures Rooted(Grown(t, kind, parent))
    ensures var u := Propagated(Grown(t, kind, parent));
            && |u| == |t| + 1 && u[|t|].kind == kind && u[|t|].parent == parent && u[|t|].err == ErrOf(t, parent)
            && Keeps(t, u)
  {
    hide Nearest;
    GrownAbove(t, kind, parent);
  }

  lemma GrownIsQuiet(t: Tree, kind: Kind, parent: nat)
    requires Rooted(t) && parent < |t| && !kind.Empty?
    ensures Rooted(Grown(t, kind, parent)) && var u := Propagated(Grown(t, kind, parent)); !u[|t|].timer
  {
    GrownAbove(t, kind, parent);
  }

  lemma TimerIsValid(t: Tree, c: nat)
    requires Valid(t) && Live(t, c)
    ensures Valid(t[c := t[c].(timer := true)])
  {
    hide Nearest;
    var u := t[c := t[c].(timer := true)];
    forall a, k | 0 <= a < |u| && 0 <= k < |u[a].children|
      ensures u[a].children[k] < |u| && Cancellable(u[u[a].children[k]]) && Above(u, u[a].children[k]) == Some(a) {
      assert u[a].children == t[a].children;
      AlikeAbove(t, u, u[a].children[k]);
    }
    forall i | 0 <= i < |u| ensures Registered(u, i) {
      assert Registered(t, i);
      AlikeAbove(t, u, i);
    }
  }

  /** Cancelling the last context changes nobody else's error. */
  lemma CancelLast(t: Tree, c: nat, err: Error)
    requires Valid(t) && c == |t| - 1 && Cancellable(t[c])
    ensures var u := AfterCancel(t, c, true, err);
            && (forall i :: 0 <= i < c ==> u[i].err == t[i].err)
            && u[c].err == (if t[c].err.Some? then t[c].err else Some(err)) && !u[c].timer && u[c].kind == t[c].kind
  {
    hide Nearest;
    CancelledIsRooted(t, c, err);
    forall i | 0 <= i < c ensures !Within(t, i, c) {
      if Under(t, i, c) {
        UnderIsLater(t, i, c);
      }
    }
    assert t[c].err.Some? ==> !t[c].timer by { assert Registered(t, c); }
  }

  /** After cancelling, all within c say so, and nobody else's error has changed. */
  lemma CancelTells(t: Tree, c: nat, err: Error)
    requires Valid(t) && c < |t| && Cancellable(t[c]) && Valid(AfterCancel(t, c, true, err))
    ensures var u := AfterCancel(t, c, true, err);
            && |u| == |t| && Keeps(t, u)
            && (forall i :: 0 <= i < |u| && Within(u, i, c) ==> ErrOf(u, i).Some?)
            && (forall i :: 0 <= i < |u| && !Within(u, i, c) ==> u[i].err == t[i].err)
            && (forall i :: 0 <= i < |u| && Within(u, i, c) && Cancellable(u[i]) ==>
                  u[i].err == if t[i].err.Some? then t[i].err else Some(err))
  {
    hide Nearest, Under;
    CancelKeeps(t, c, true, err);
    CancelledIsRooted(t, c, err);
    var u := AfterCancel(t, c, true, err);
    forall i | 0 <= i < |u|
      ensures Within(u, i, c) ==> ErrOf(u, i).Some?
      ensures !Within(u, i, c) ==> u[i].err == t[i].err
      ensures Within(u, i, c) && Cancellable(u[i]) ==> u[i].err == if t[i].err.Some? then t[i].err else Some(err) {
      if Within(u, i, c) && Cancellable(u[i]) && !Live(t, c) {
        OwnErr(t, c);
        OwnErr(t, i);
        AlikeUnder(t, u, i, c);
        DownwardClosed(t, c, i);
      }
      AlikeUnder(t, u, i, c);
      if Within(u, i, c) {
        OwnErr(u, c);
        DownwardClosed(u, c, i);
      }
    }
  }

  lemma OwnErr(t: Tree, c: nat)
    requires Rooted(t) && c < |t| && Cancellable(t[c])
    ensures ErrOf(t, c) == t[c].err
  {
  }
}
