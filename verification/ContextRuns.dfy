/**
 Cancelling while other goroutines derive and cancel contexts (go.net/context, context.go). A step
 is what one goroutine does while it has the lock that it needs; cancel keeps the lock of a
 context while it cancels its children one after another. Contexts that only carry a value make no
 difference and are left out: the parent of a context is the nearest one that can be cancelled.
 */
module ContextRuns {
  import opened Bytes
  import opened Contexts

  /**
   pending are the children that the cancel which has the lock has yet to come to, current the one
   that it is cancelling now. asked says whether the context itself has been cancelled by its
   CancelFunc or its timer.
   */
  datatype Ctx = Ctx(
    parent: Option<nat>, err: Option<Error>, children: seq<nat>,
    locked: bool, pending: seq<nat>, current: Option<nat>, asked: bool)

  type State = seq<Ctx>

  datatype Step =
    | Attach(parent: Option<nat>)
    | Ask(c: nat, err: Error)
    | Visit(c: nat, k: nat)
    | Finish(c: nat)
    | Unregister(c: nat)

  predicate Done(s: State, c: nat) {
    c < |s| && s[c].err.Some? && !s[c].locked
  }

  predicate Free(s: State, c: nat) {
    c < |s| && !s[c].locked
  }

  /** Whether a step is possible now: locks that it needs must be free. */
  predicate Can(s: State, a: Step) {
    match a
    case Attach(p) => p.Some? ==> Free(s, p.value)
    case Ask(c, _) => Free(s, c)
    case Visit(c, k) =>
      && c < |s| && s[c].locked && s[c].current.None? && k < |s[c].pending|
      && Free(s, s[c].pending[k]) && s[c].pending[k] != c
    case Finish(c) => c < |s| && s[c].locked && s[c].current.None? && s[c].pending == []
    case Unregister(c) => Done(s, c) && s[c].parent.Some? && Free(s, s[c].parent.value)
  }

  /** The lock is taken and the error set. */
  function Taken(x: Ctx, err: Option<Error>): Ctx {
    x.(err := err, locked := true, pending := x.children)
  }

  function Drop(q: seq<nat>, k: nat): seq<nat>
    requires k < |q|
  {
    q[..k] + q[k + 1..]
  }

  function Next(s: State, a: Step): State
    requires Can(s, a)
  {
    match a
    case Attach(None) => s + [Ctx(None, None, [], false, [], None, false)]
    case Attach(Some(p)) =>
      if s[p].err.Some? then s + [Ctx(Some(p), s[p].err, [], false, [], None, false)]
      else s[p := s[p].(children := s[p].children + [|s|])] + [Ctx(Some(p), None, [], false, [], None, false)]
    case Ask(c, err) =>
      if s[c].err.Some? then s else s[c := Taken(s[c], Some(err)).(asked := true)]
    case Visit(c, k) =>
      var ch := s[c].pending[k];
      var x := s[c].(pending := Drop(s[c].pending, k));
      if s[ch].err.Some? then s[c := x]
      else s[c := x.(current := Some(ch))][ch := Taken(s[ch], s[c].err)]
    case Finish(c) =>
      var t := s[c := s[c].(children := [], locked := false)];
      if s[c].parent.Some? && s[c].parent.value < |t| && t[s[c].parent.value].current == Some(c)
      then t[s[c].parent.value := t[s[c].parent.value].(current := None)] else t
    case Unregister(c) =>
      var p := s[c].parent.value;
      s[p := s[p].(children := Without(s[p].children, c))]
  }

  // ---------------------------------------------------------------- what every step keeps

  /** A context is cancelled for good, or will be found by the cancel of the one above it. */
  ghost predicate Covered(s: State, i: nat)
    requires i < |s|
  {
    s[i].parent.Some? ==>
      var p := s[i].parent.value;
      && p < i
      && (|| Done(s, i)
          || (s[p].err.None? && i in s[p].children)
          || (s[p].locked && (i in s[p].pending || s[p].current == Some(i))))
  }

  /** Where the error of a context comes from. */
  ghost predicate Explained(s: State, i: nat)
    requires i < |s|
  {
    s[i].err.Some? && !s[i].asked ==>
      s[i].parent.Some? && s[i].parent.value < i && s[s[i].parent.value].err == s[i].err
  }

  ghost predicate Own(s: State, i: nat, q: seq<nat>) {
    forall k :: 0 <= k < |q| ==> i < q[k] < |s| && s[q[k]].parent == Some(i)
  }

  ghost predicate Tidy(s: State, i: nat)
    requires i < |s|
  {
    && Own(s, i, s[i].children) && Own(s, i, s[i].pending)
    && (s[i].locked ==> s[i].err.Some?)
    && (s[i].current.Some? ==>
          s[i].locked && i < s[i].current.value < |s| && s[s[i].current.value].parent == Some(i) && s[s[i].current.value].locked)
    && (s[i].pending != [] ==> s[i].locked)
  }

  ghost predicate Ok(s: State) {
    forall i :: 0 <= i < |s| ==> Covered(s, i) && Explained(s, i) && Tidy(s, i)
  }

  lemma NextKeeps(s: State, a: Step)
    requires Ok(s) && Can(s, a)
    ensures Ok(Next(s, a))
  {
    match a
    case Attach(p) => AttachKeeps(s, p);
    case Ask(c, err) => AskKeeps(s, c, err);
    case Visit(c, k) => VisitKeeps(s, c, k);
    case Finish(c) => FinishKeeps(s, c);
    case Unregister(c) => UnregisterKeeps(s, c);
  }

  lemma AttachKeeps(s: State, p: Option<nat>)
    requires Ok(s) && Can(s, Attach(p))
    ensures Ok(Next(s, Attach(p)))
  {
    var t := Next(s, Attach(p));
    forall i | 0 <= i < |t| ensures Covered(t, i) && Explained(t, i) && Tidy(t, i) {
      if i < |s| {
        assert Covered(s, i) && Explained(s, i) && Tidy(s, i);
      }
    }
  }

  lemma AskKeeps(s: State, c: nat, err: Error)
    requires Ok(s) && Can(s, Ask(c, err))
    ensures Ok(Next(s, Ask(c, err)))
  {
    var t := Next(s, Ask(c, err));
    forall i | 0 <= i < |t| ensures Covered(t, i) && Explained(t, i) && Tidy(t, i) {
      assert Covered(s, i) && Explained(s, i) && Tidy(s, i);
    }
  }

  lemma DropKeeps(q: seq<nat>, k: nat)
    requires k < |q|
    ensures forall x :: x in Drop(q, k) ==> x in q
    ensures forall x :: x in q ==> x in Drop(q, k) || x == q[k]
    ensures forall j :: 0 <= j < |Drop(q, k)| ==> Drop(q, k)[j] in q
  {
  }

  lemma VisitKeeps(s: State, c: nat, k: nat)
    requires Ok(s) && Can(s, Visit(c, k))
    ensures Ok(Next(s, Visit(c, k)))
  {
    hide Drop;
    var t := Next(s, Visit(c, k));
    DropKeeps(s[c].pending, k);
    assert Tidy(s, c);
    forall i | 0 <= i < |t| ensures Covered(t, i) && Explained(t, i) && Tidy(t, i) {
      assert Covered(s, i) && Explained(s, i) && Tidy(s, i);
    }
  }

  lemma FinishKeeps(s: State, c: nat)
    requires Ok(s) && Can(s, Finish(c))
    ensures Ok(Next(s, Finish(c)))
  {
    hide Covered, Explained, Tidy;
    var t := Next(s, Finish(c));
    forall i | 0 <= i < |t| ensures Covered(t, i) && Explained(t, i) && Tidy(t, i) {
      FinishCovers(s, c, i);
      FinishTidies(s, c, i);
    }
  }

  lemma FinishCovers(s: State, c: nat, i: nat)
    requires Ok(s) && Can(s, Finish(c)) && i < |s|
    ensures var t := Next(s, Finish(c)); |t| == |s| && Covered(t, i) && Explained(t, i)
  {
    assert Covered(s, c) && Tidy(s, c);
    hide Tidy, Own;
    assert Covered(s, i) && Explained(s, i);
    assert Tidy(s, i);
  }

  lemma FinishTidies(s: State, c: nat, i: nat)
    requires Ok(s) && Can(s, Finish(c)) && i < |s|
    ensures var t := Next(s, Finish(c)); |t| == |s| && Tidy(t, i)
  {
    assert Covered(s, c);
    hide Explained, Covered;
    assert Tidy(s, i);
  }

  lemma UnregisterKeeps(s: State, c: nat)
    requires Ok(s) && Can(s, Unregister(c))
    ensures Ok(Next(s, Unregister(c)))
  {
    var p := s[c].parent.value;
    var q := Without(s[p].children, c);
    var t := Next(s, Unregister(c));
    assert Tidy(s, p);
    assert forall k :: 0 <= k < |q| ==> q[k] in s[p].children;
    forall i | 0 <= i < |t| ensures Covered(t, i) && Explained(t, i) && Tidy(t, i) {
      assert Covered(s, i) && Explained(s, i) && Tidy(s, i);
    }
  }

  // ---------------------------------------------------------------- whole runs

  ghost predicate Run(steps: seq<Step>, states: seq<State>) {
    && |states| == |steps| + 1 && states[0] == []
    && forall i :: 0 <= i < |steps| ==> Can(states[i], steps[i]) && states[i + 1] == Next(states[i], steps[i])
  }

  lemma {:induction false} RunIsOk(steps: seq<Step>, states: seq<State>, n: nat)
    requires Run(steps, states) && n <= |steps|
    ensures Ok(states[n])
  {
    if n > 0 {
      RunIsOk(steps, states, n - 1);
      NextKeeps(states[n - 1], steps[n - 1]);
    }
  }

  /** i was derived from c, directly or not. */
  ghost predicate Below(s: State, i: nat, c: nat)
    requires Ok(s) && i < |s|
    decreases i
  {
    assert Covered(s, i);
    s[i].parent.Some? && (s[i].parent.value == c || Below(s, s[i].parent.value, c))
  }

  /** When the cancel of a context has returned, everything derived from it has been cancelled for good. */
  lemma {:induction false} DoneDownward(s: State, c: nat, i: nat)
    requires Ok(s) && c < |s| && i < |s| && Done(s, c) && Below(s, i, c)
    ensures Done(s, i)
    decreases i
  {
    assert Covered(s, i);
    var p := s[i].parent.value;
    if p != c {
      DoneDownward(s, c, p);
    }
  }

  /** A context derived from one whose cancel has returned is born cancelled, with that one's error. */
  lemma BornCancelled(s: State, p: nat)
    requires Ok(s) && Done(s, p)
    ensures Can(s, Attach(Some(p)))
    ensures var t := Next(s, Attach(Some(p))); Done(t, |s|) && t[|s|].err == s[p].err
  {
  }

  /** Errors and ancestry are never changed, and what is done stays done. */
  lemma NothingIsUndone(s: State, a: Step, i: nat)
    requires Ok(s) && Can(s, a) && i < |s|
    ensures var t := Next(s, a);
            && i < |t| && t[i].parent == s[i].parent
            && (s[i].err.Some? ==> t[i].err == s[i].err)
            && (Done(s, i) ==> Done(t, i))
  {
    if a.Visit? {
      assert Tidy(s, a.c);
    }
  }

  /** The error of a context is that of the nearest context above or at it that was itself asked to stop. */
  lemma {:induction false} ErrorHasCause(s: State, i: nat) returns (c: nat)
    requires Ok(s) && i < |s| && s[i].err.Some?
    ensures c < |s| && (c == i || Below(s, i, c)) && s[c].asked && s[c].err == s[i].err
    ensures forall k :: 0 <= k < |s| && (k == i || Below(s, i, k)) && Below(s, k, c) ==> !s[k].asked
    decreases i
  {
    assert Explained(s, i);
    if s[i].asked {
      c := i;
      forall k | 0 <= k < |s| && (k == i || Below(s, i, k)) ensures !Below(s, k, i) {
        BelowIsLater(s, i, k);
        BelowIsLater(s, k, i);
      }
    } else {
      assert Covered(s, i);
      c := ErrorHasCause(s, s[i].parent.value);
    }
  }

  lemma {:induction false} BelowIsLater(s: State, i: nat, c: nat)
    requires Ok(s) && i < |s|
    ensures Below(s, i, c) ==> c < i
    decreases i
  {
    assert Covered(s, i);
    if s[i].parent.Some? {
      BelowIsLater(s, s[i].parent.value, c);
    }
  }

  // ---------------------------------------------------------------- cancelling comes to an end

  predicate IsCancelling(a: Step) {
    a.Visit? || a.Finish?
  }

  /** As long as a lock is held, some cancel that is under way can go on: none waits for another in a circle. */
  lemma NeverStuck(s: State, c: nat) returns (a: Step)
    requires Ok(s) && c < |s| && s[c].locked
    ensures IsCancelling(a) && Can(s, a)
    decreases |s| - c
  {
    assert Tidy(s, c);
    if s[c].current.Some? {
      a := NeverStuck(s, s[c].current.value);
    } else if s[c].pending == [] {
      a := Finish(c);
    } else {
      var ch := s[c].pending[0];
      if s[ch].locked {
        a := NeverStuck(s, ch);
      } else {
        a := Visit(c, 0);
      }
    }
  }

  /** What cancelling still has to do at most. */
  function WorkAt(x: Ctx): nat {
    if x.err.None? then 2 + |x.children| else |x.pending| + if x.locked then 1 else 0
  }

  function Work(s: State): nat {
    if s == [] then 0 else Work(s[..|s| - 1]) + WorkAt(s[|s| - 1])
  }

  lemma {:induction false} WorkOfUpdate(s: State, i: nat, x: Ctx)
    requires i < |s|
    ensures Work(s[i := x]) == Work(s) - WorkAt(s[i]) + WorkAt(x)
  {
    hide WorkAt;
    var n, t := |s| - 1, s[i := x];
    if i == n {
      assert t[..n] == s[..n];
    } else {
      assert t[..n] == s[..n][i := x];
      WorkOfUpdate(s[..n], i, x);
    }
  }

  /** Every step of a cancel leaves less to do, so that cancelling ends unless it is begun again and again. */
  lemma CancellingEnds(s: State, a: Step)
    requires Ok(s) && Can(s, a) && IsCancelling(a)
    ensures Work(Next(s, a)) < Work(s)
  {
    hide Work;
    var c := a.c;
    assert Tidy(s, c);
    match a
    case Visit(_, k) =>
      var ch := s[c].pending[k];
      var x := s[c].(pending := Drop(s[c].pending, k));
      WorkOfUpdate(s, c, x);
      var y := x.(current := Some(ch));
      WorkOfUpdate(s, c, y);
      WorkOfUpdate(s[c := y], ch, Taken(s[ch], s[c].err));
    case Finish(_) =>
      var x := s[c].(children := [], locked := false);
      WorkOfUpdate(s, c, x);
      if s[c].parent.Some? && s[c].parent.value < |s| {
        var p := s[c].parent.value;
        var t := s[c := x];
        WorkOfUpdate(t, p, t[p].(current := None));
      }
  }
}
