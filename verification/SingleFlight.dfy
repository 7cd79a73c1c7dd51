/**
 Duplicate suppression (miekg/dns, singleinflight.go). Do is cut where other goroutines can come
 in between: each critical section, and each wait, is one step.
 */
module SingleFlight {
  import opened Bytes

  /** What fn returns: a message, a round-trip time and an error, as one value. */
  type Result = string

  /**
   An execution of fn, under way or over; dups counts those who joined it. The key and the
   invocation that leads it are remembered for the statements about runs.
   */
  datatype Call = Call(key: string, leader: nat, val: Option<Result>, dups: nat)

  /** The table of calls under way, by key, and all calls there have been. */
  datatype Flights = Flights(m: map<string, nat>, calls: seq<Call>)

  // ---------------------------------------------------------------- the critical sections

  /** The call under way for the key is joined, or a new one is started by invocation me. */
  function Entered(f: Flights, key: string, me: nat): Flights {
    if key in f.m then
      var c := f.m[key];
      if c < |f.calls| then f.(calls := f.calls[c := f.calls[c].(dups := f.calls[c].dups + 1)]) else f
    else Flights(f.m[key := |f.calls|], f.calls + [Call(key, me, None, 0)])
  }

  function Finished(f: Flights, c: nat, val: Result): Flights {
    if c < |f.calls| then f.(calls := f.calls[c := f.calls[c].(val := Some(val))]) else f
  }

  function Removed(f: Flights, key: string): Flights {
    f.(m := f.m - {key})
  }

  /** The shared state, and what Do does to it. */
  class Group {
    var m: map<string, nat>
    var calls: seq<Call>

    function Contents(): Flights
      reads this
    {
      Flights(m, calls)
    }

    constructor ()
      ensures Contents() == Flights(map[], [])
    {
      m := map[];
      calls := [];
    }

    /** The first critical section of Do. */
    method Enter(key: string, me: nat) returns (c: nat, leads: bool)
      requires key in m ==> m[key] < |calls|
      modifies this
      ensures Contents() == Entered(old(Contents()), key, me)
      ensures leads == (key !in old(m)) && key in m && m[key] == c < |calls|
      ensures forall k :: k != key ==> (k in m <==> k in old(m)) && (k in m ==> m[k] == old(m)[k])
      ensures if leads then m[key] == |old(calls)| && calls == old(calls) + [Call(key, me, None, 0)]
              else m == old(m) && calls == old(calls)[c := old(calls)[c].(dups := old(calls)[c].dups + 1)]
    {
      if key in m {
        c := m[key];
        calls := calls[c := calls[c].(dups := calls[c].dups + 1)];
        return c, false;
      }
      c := |calls|;
      calls := calls + [Call(key, me, None, 0)];
      m := m[key := c];
      return c, true;
    }

    /** fn has returned: its result is kept and those waiting for it may go on. */
    method Finish(c: nat, val: Result)
      requires c < |calls|
      modifies this
      ensures Contents() == Finished(old(Contents()), c, val)
      ensures m == old(m) && |calls| == |old(calls)| && calls[c] == old(calls)[c].(val := Some(val))
      ensures forall k :: 0 <= k < |calls| && k != c ==> calls[k] == old(calls)[k]
    {
      calls := calls[c := calls[c].(val := Some(val))];
    }

    /** The last critical section. */
    method Remove(key: string)
      modifies this
      ensures Contents() == Removed(old(Contents()), key)
      ensures calls == old(calls) && key !in m && forall k :: k != key ==> (k in m <==> k in old(m)) && (k in m ==> m[k] == old(m)[k])
    {
      m := m - {key};
    }
  }

  // ---------------------------------------------------------------- any number of goroutines

  /**
   Where an invocation of Do is: fn is running, has been told to the others, the entry has been
   removed; or it is waiting for another's fn; or it has returned.
   */
  datatype Stage = Running | Told | Gone | Waiting | Returned(v: Option<Result>, shared: bool)

  datatype Invocation = Invocation(key: string, call: nat, leads: bool, stage: Stage)

  datatype State = State(f: Flights, dos: seq<Invocation>)

  datatype Step =
    | Start(key: string)
    | FnReturns(i: nat, v: Result)
    | Delete(i: nat)
    | LeaderReturns(i: nat)
    | JoinerReturns(i: nat)

  ghost predicate Can(s: State, a: Step) {
    match a
    case Start(key) => true
    case FnReturns(i, _) => i < |s.dos| && s.dos[i].stage == Running
    case Delete(i) => i < |s.dos| && s.dos[i].stage == Told
    case LeaderReturns(i) => i < |s.dos| && s.dos[i].stage == Gone
    case JoinerReturns(i) =>
      i < |s.dos| && s.dos[i].stage == Waiting && ValOf(s.f, s.dos[i].call).Some?
  }

  /** The result in a call, if it has one yet. */
  function ValOf(f: Flights, c: nat): Option<Result> {
    if c < |f.calls| then f.calls[c].val else None
  }

  predicate Joined(f: Flights, c: nat) {
    c < |f.calls| && f.calls[c].dups > 0
  }

  function Moved(dos: seq<Invocation>, i: nat, stage: Stage): (r: seq<Invocation>)
    requires i < |dos|
    ensures |r| == |dos|
  {
    dos[i := dos[i].(stage := stage)]
  }

  ghost function Next(s: State, a: Step): State
    requires Can(s, a)
  {
    match a
    case Start(key) =>
      var joins := key in s.f.m;
      var c := if joins then s.f.m[key] else |s.f.calls|;
      State(Entered(s.f, key, |s.dos|), s.dos + [Invocation(key, c, !joins, if joins then Waiting else Running)])
    case FnReturns(i, v) => State(Finished(s.f, s.dos[i].call, v), Moved(s.dos, i, Told))
    case Delete(i) => State(Removed(s.f, s.dos[i].key), Moved(s.dos, i, Gone))
    case LeaderReturns(i) => s.(dos := Moved(s.dos, i, Returned(ValOf(s.f, s.dos[i].call), Joined(s.f, s.dos[i].call))))
    case JoinerReturns(i) => s.(dos := Moved(s.dos, i, Returned(ValOf(s.f, s.dos[i].call), true)))
  }

  // ---------------------------------------------------------------- what every step keeps

  /** How many invocations have joined call c. */
  function Joiners(dos: seq<Invocation>, c: nat): nat {
    if dos == [] then 0
    else Joiners(dos[..|dos| - 1], c) + if dos[|dos| - 1].call == c && !dos[|dos| - 1].leads then 1 else 0
  }

  /** Call c is the one under way for its key. */
  predicate UnderWay(f: Flights, c: nat) {
    c < |f.calls| && f.calls[c].key in f.m && f.m[f.calls[c].key] == c
  }

  /** Invocation i agrees with the shared state. */
  ghost predicate Sound(f: Flights, d: Invocation, i: nat) {
    && d.call < |f.calls|
    && var c := f.calls[d.call];
    && c.key == d.key
    && (d.leads <==> c.leader == i)
    && match d.stage
       case Running => d.leads && UnderWay(f, d.call) && c.val.None?
       case Told => d.leads && UnderWay(f, d.call) && c.val.Some?
       case Gone => d.leads && !UnderWay(f, d.call) && c.val.Some?
       case Waiting => !d.leads
       case Returned(v, shared) =>
         c.val.Some? && c.val == v && if d.leads then !UnderWay(f, d.call) && (shared <==> c.dups > 0) else shared
  }

  ghost predicate Ok(s: State) {
    && (forall k :: k in s.f.m ==> s.f.m[k] < |s.f.calls| && s.f.calls[s.f.m[k]].key == k)
    && (forall i :: 0 <= i < |s.dos| ==> Sound(s.f, s.dos[i], i))
    && (forall c :: 0 <= c < |s.f.calls| ==> s.f.calls[c].leader < |s.dos| && s.dos[s.f.calls[c].leader].call == c)
    && (forall c :: 0 <= c < |s.f.calls| ==> s.f.calls[c].dups == Joiners(s.dos, c))
  }

  lemma {:induction false} JoinersMoved(dos: seq<Invocation>, i: nat, stage: Stage, c: nat)
    requires i < |dos|
    ensures Joiners(Moved(dos, i, stage), c) == Joiners(dos, c)
  {
    var r, n := Moved(dos, i, stage), |dos| - 1;
    if i == n {
      assert r[..n] == dos[..n];
    } else {
      assert r[..n] == Moved(dos[..n], i, stage);
      JoinersMoved(dos[..n], i, stage, c);
    }
  }

  lemma {:induction false} NoJoiners(dos: seq<Invocation>, c: nat)
    requires forall i :: 0 <= i < |dos| ==> dos[i].call < c
    ensures Joiners(dos, c) == 0
  {
    if dos != [] {
      NoJoiners(dos[..|dos| - 1], c);
    }
  }

  lemma {:induction false} SomeJoiner(dos: seq<Invocation>, c: nat)
    ensures Joiners(dos, c) > 0 <==> exists i :: 0 <= i < |dos| && dos[i].call == c && !dos[i].leads
  {
    if dos != [] {
      var front := dos[..|dos| - 1];
      SomeJoiner(front, c);
      if i :| 0 <= i < |front| && front[i].call == c && !front[i].leads {
        assert dos[i].call == c && !dos[i].leads;
      }
      if i :| 0 <= i < |dos| && dos[i].call == c && !dos[i].leads && i < |front| {
        assert front[i].call == c;
      }
    }
  }

  lemma Starts()
    ensures Ok(State(Flights(map[], []), []))
  {
  }

  /** Every step keeps all of it. */
  lemma NextKeeps(s: State, a: Step)
    requires Ok(s) && Can(s, a)
    ensures Ok(Next(s, a))
  {
    match a
    case Start(key) => StartKeeps(s, key);
    case FnReturns(i, v) => FnReturnsKeeps(s, i, v);
    case Delete(i) => DeleteKeeps(s, i);
    case LeaderReturns(i) => ReturnKeeps(s, a, i);
    case JoinerReturns(i) => ReturnKeeps(s, a, i);
  }

  lemma StartKeeps(s: State, key: string)
    requires Ok(s)
    ensures Ok(Next(s, Start(key)))
  {
    hide Joiners, Sound;
    var t := Next(s, Start(key));
    forall i | 0 <= i < |t.dos| ensures Sound(t.f, t.dos[i], i) {
      StartSound(s, key, i);
    }
    forall c | 0 <= c < |t.f.calls| ensures t.f.calls[c].dups == Joiners(t.dos, c) {
      StartCount(s, key, c);
    }
  }

  lemma StartSound(s: State, key: string, i: nat)
    requires Ok(s) && i <= |s.dos|
    ensures var t := Next(s, Start(key)); Sound(t.f, t.dos[i], i)
  {
    hide Joiners;
    if i < |s.dos| {
      assert Sound(s.f, s.dos[i], i);
      OthersEnter(s.f, key, |s.dos|, s.dos[i], i);
    } else if key in s.f.m {
      assert s.f.calls[s.f.m[key]].leader < |s.dos|;
    }
  }

  lemma StartCount(s: State, key: string, c: nat)
    requires Ok(s) && c < |Next(s, Start(key)).f.calls|
    ensures var t := Next(s, Start(key)); t.f.calls[c].dups == Joiners(t.dos, c)
  {
    hide Sound, UnderWay;
    var t := Next(s, Start(key));
    assert t.dos[..|s.dos|] == s.dos;
    if c == |s.f.calls| {
      forall i | 0 <= i < |s.dos| ensures s.dos[i].call < c {
        CallIsThere(s.f, s.dos[i], i);
      }
      NoJoiners(s.dos, c);
    }
  }

  lemma CallIsThere(f: Flights, d: Invocation, i: nat)
    requires Sound(f, d, i)
    ensures d.call < |f.calls|
  {
  }

  /** An invocation is not disturbed when another one enters. */
  lemma OthersEnter(f: Flights, key: string, me: nat, d: Invocation, i: nat)
    requires Sound(f, d, i) && i < me && forall k :: k in f.m ==> f.m[k] < |f.calls| && f.calls[f.m[k]].key == k
    requires d.leads && d.stage.Returned? ==> !UnderWay(f, d.call)
    ensures Sound(Entered(f, key, me), d, i)
  {
  }

  lemma FnReturnsKeeps(s: State, i: nat, v: Result)
    requires Ok(s) && Can(s, FnReturns(i, v))
    ensures Ok(Next(s, FnReturns(i, v)))
  {
    var t := Next(s, FnReturns(i, v));
    forall j | 0 <= j < |t.dos| ensures Sound(t.f, t.dos[j], j) {
      assert Sound(s.f, s.dos[j], j) && Sound(s.f, s.dos[i], i);
    }
    forall c | 0 <= c < |t.f.calls| ensures t.f.calls[c].dups == Joiners(t.dos, c) {
      JoinersMoved(s.dos, i, Told, c);
    }
  }

  lemma DeleteKeeps(s: State, i: nat)
    requires Ok(s) && Can(s, Delete(i))
    ensures Ok(Next(s, Delete(i)))
  {
    var t := Next(s, Delete(i));
    forall j | 0 <= j < |t.dos| ensures Sound(t.f, t.dos[j], j) {
      assert Sound(s.f, s.dos[j], j) && Sound(s.f, s.dos[i], i);
    }
    forall c | 0 <= c < |t.f.calls| ensures t.f.calls[c].dups == Joiners(t.dos, c) {
      JoinersMoved(s.dos, i, Gone, c);
    }
  }

  lemma ReturnKeeps(s: State, a: Step, i: nat)
    requires Ok(s) && Can(s, a) && (a == LeaderReturns(i) || a == JoinerReturns(i))
    ensures Ok(Next(s, a))
  {
    var t := Next(s, a);
    forall j | 0 <= j < |t.dos| ensures Sound(t.f, t.dos[j], j) {
      assert Sound(s.f, s.dos[j], j) && Sound(s.f, s.dos[i], i);
    }
    forall c | 0 <= c < |t.f.calls| ensures t.f.calls[c].dups == Joiners(t.dos, c) {
      JoinersMoved(s.dos, i, t.dos[i].stage, c);
    }
  }

  // ---------------------------------------------------------------- whole runs

  ghost predicate Run(steps: seq<Step>, states: seq<State>) {
    && |states| == |steps| + 1 && states[0] == State(Flights(map[], []), [])
    && forall i :: 0 <= i < |steps| ==> Can(states[i], steps[i]) && states[i + 1] == Next(states[i], steps[i])
  }

  lemma {:induction false} RunIsOk(steps: seq<Step>, states: seq<State>, n: nat)
    requires Run(steps, states) && n <= |steps|
    ensures Ok(states[n])
  {
    if n > 0 {
      RunIsOk(steps, states, n - 1);
      NextKeeps(states[n - 1], steps[n - 1]);
    } else {
      Starts();
    }
  }

  /** In step k of the run the fn of call c returns. */
  ghost predicate ReturnsFor(steps: seq<Step>, states: seq<State>, k: nat, c: nat) {
    && k < |steps| && k < |states| && steps[k].FnReturns? && steps[k].i < |states[k].dos|
    && states[k].dos[steps[k].i].call == c
  }

  lemma StepOf(steps: seq<Step>, states: seq<State>, n: nat)
    requires Run(steps, states) && n < |steps|
    ensures |states| == |steps| + 1
    ensures Ok(states[n]) && Can(states[n], steps[n]) && states[n + 1] == Next(states[n], steps[n]) && Ok(states[n + 1])
    ensures steps[n].FnReturns? ==> steps[n].i < |states[n].dos|
  {
    RunIsOk(steps, states, n);
    RunIsOk(steps, states, n + 1);
  }

  /** What one step does to the value of a call: only the return of its fn gives it one. */
  lemma ValueAfter(s: State, a: Step, c: nat)
    requires Ok(s) && Can(s, a) && c < |Next(s, a).f.calls|
    ensures a.FnReturns? && s.dos[a.i].call == c ==>
              && c < |s.f.calls| && s.f.calls[c].val.None? && s.f.calls[c].leader == a.i && Next(s, a).f.calls[c].leader == a.i
              && Next(s, a).f.calls[c].val == Some(a.v)
    ensures !(a.FnReturns? && s.dos[a.i].call == c) ==>
              if c < |s.f.calls| then
                Next(s, a).f.calls[c].val == s.f.calls[c].val && Next(s, a).f.calls[c].leader == s.f.calls[c].leader
              else Next(s, a).f.calls[c].val.None?
  {
    hide Joiners;
    if !a.Start? {
      assert Sound(s.f, s.dos[a.i], a.i);
    }
  }

  lemma CallsAreThere(s: State)
    requires Ok(s)
    ensures forall i :: 0 <= i < |s.dos| ==> s.dos[i].call < |s.f.calls|
  {
    hide Joiners;
    forall i | 0 <= i < |s.dos| ensures s.dos[i].call < |s.f.calls| {
      assert Sound(s.f, s.dos[i], i);
    }
  }

  /** As long as a call has no value, or is not there, its fn has not returned. */
  lemma {:induction false} NotReturnedYet(steps: seq<Step>, states: seq<State>, n: nat, c: nat)
    requires Run(steps, states) && n <= |steps|
    requires c < |states[n].f.calls| ==> states[n].f.calls[c].val.None?
    ensures forall k :: 0 <= k < n ==> !ReturnsFor(steps, states, k, c)
  {
    hide Run, Ok, Can, Next;
    if n > 0 {
      StepOf(steps, states, n - 1);
      var s, a := states[n - 1], steps[n - 1];
      CallsAreThere(s);
      CallsStay(s, a);
      if c < |Next(s, a).f.calls| {
        ValueAfter(s, a, c);
      }
      NotReturnedYet(steps, states, n - 1, c);
    }
  }

  lemma CallsStay(s: State, a: Step)
    requires Can(s, a)
    ensures |s.f.calls| <= |Next(s, a).f.calls|
  {
  }

  /** The value of a call is what its fn has returned, to the invocation that leads it, and it has returned once. */
  lemma {:induction false} ValueIsReturned(steps: seq<Step>, states: seq<State>, n: nat, c: nat) returns (j: nat)
    requires Run(steps, states) && n <= |steps| && c < |states[n].f.calls| && states[n].f.calls[c].val.Some?
    ensures j < n && steps[j] == FnReturns(states[n].f.calls[c].leader, states[n].f.calls[c].val.value)
    ensures ReturnsFor(steps, states, j, c)
    ensures forall k :: 0 <= k < n && k != j ==> !ReturnsFor(steps, states, k, c)
  {
    hide Run, Ok, Can, Next;
    j := 0;
    if n == 0 {
      NoCallsYet(steps, states);
    } else {
      StepOf(steps, states, n - 1);
      ValueAfter(states[n - 1], steps[n - 1], c);
      if ReturnsFor(steps, states, n - 1, c) {
        j := n - 1;
        NotReturnedYet(steps, states, n - 1, c);
      } else {
        j := ValueIsReturned(steps, states, n - 1, c);
      }
    }
  }

  lemma ReturnedValue(s: State, i: nat)
    requires Ok(s) && i < |s.dos| && s.dos[i].stage.Returned?
    ensures s.dos[i].call < |s.f.calls| && s.f.calls[s.dos[i].call].val.Some?
    ensures s.f.calls[s.dos[i].call].val == s.dos[i].stage.v
  {
    assert Sound(s.f, s.dos[i], i);
  }

  lemma NoCallsYet(steps: seq<Step>, states: seq<State>)
    requires Run(steps, states)
    ensures |states| == |steps| + 1 && states[0].f.calls == []
  {
  }

  /**
   In every run: whoever has returned from Do has the result that fn returned to the leader of the call,
   the only one that it returned for that call.
   */
  lemma ResultIsFns(steps: seq<Step>, states: seq<State>, n: nat, i: nat) returns (j: nat, x: Result)
    requires Run(steps, states) && n <= |steps| && i < |states[n].dos| && states[n].dos[i].stage.Returned?
    ensures states[n].dos[i].stage.v == Some(x)
    ensures var c := states[n].dos[i].call;
            && j < n && c < |states[n].f.calls| && steps[j] == FnReturns(states[n].f.calls[c].leader, x)
            && ReturnsFor(steps, states, j, c)
            && forall k :: 0 <= k < n && k != j ==> !ReturnsFor(steps, states, k, c)
  {
    hide Ok, Can, Next, Run;
    NoCallsYet(steps, states);
    RunIsOk(steps, states, n);
    ReturnedValue(states[n], i);
    j := ValueIsReturned(steps, states, n, states[n].dos[i].call);
    x := steps[j].v;
  }

  /** At any time at most one fn runs for a key. */
  lemma OneAtATime(s: State, i: nat, j: nat)
    requires Ok(s) && i < |s.dos| && j < |s.dos|
    requires s.dos[i].stage == Running && s.dos[j].stage == Running && s.dos[i].key == s.dos[j].key
    ensures i == j
  {
    assert Sound(s.f, s.dos[i], i) && Sound(s.f, s.dos[j], j);
  }

  /** All invocations of one call return the same, and only one of them ran fn. */
  lemma SameResult(s: State, i: nat, j: nat)
    requires Ok(s) && i < |s.dos| && j < |s.dos| && s.dos[i].call == s.dos[j].call
    requires s.dos[i].stage.Returned? && s.dos[j].stage.Returned?
    ensures s.dos[i].key == s.dos[j].key && s.dos[i].stage.v == s.dos[j].stage.v && s.dos[i].stage.v.Some?
    ensures s.dos[i].leads && s.dos[j].leads ==> i == j
  {
    assert Sound(s.f, s.dos[i], i) && Sound(s.f, s.dos[j], j);
  }

  /** The leader is told that it shared its result if and only if someone joined it. */
  lemma SharedIsTrue(s: State, i: nat)
    requires Ok(s) && i < |s.dos| && s.dos[i].stage.Returned? && s.dos[i].leads
    ensures s.dos[i].stage.shared <==> exists j :: 0 <= j < |s.dos| && s.dos[j].call == s.dos[i].call && !s.dos[j].leads
  {
    assert Sound(s.f, s.dos[i], i);
    SomeJoiner(s.dos, s.dos[i].call);
  }

  /** A leader removes its own entry and no other one. */
  lemma OwnEntry(s: State, i: nat)
    requires Ok(s) && Can(s, Delete(i))
    ensures s.dos[i].key in s.f.m && s.f.m[s.dos[i].key] == s.dos[i].call
    ensures forall k :: k in s.f.m && k != s.dos[i].key ==> k in Next(s, Delete(i)).f.m && Next(s, Delete(i)).f.m[k] == s.f.m[k]
  {
    assert Sound(s.f, s.dos[i], i);
  }

  /** Nobody waits in vain: an invocation that has not returned can go on, or the leader of its call can. */
  lemma SomeoneCanGoOn(s: State, i: nat, v: Result)
    requires Ok(s) && i < |s.dos| && !s.dos[i].stage.Returned?
    ensures var l := s.f.calls[s.dos[i].call].leader;
            || Can(s, FnReturns(l, v)) || Can(s, Delete(i)) || Can(s, LeaderReturns(i)) || Can(s, JoinerReturns(i))
  {
    assert Sound(s.f, s.dos[i], i);
    var l := s.f.calls[s.dos[i].call].leader;
    assert Sound(s.f, s.dos[l], l);
  }
}
