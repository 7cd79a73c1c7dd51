/**
 A direct message for a controller at another proxy goes out on a link to that proxy, and waits
 there, behind what was written before it, until it is handed to the controller.
 */
module DirectDelivery {
  import opened Sockets
  import opened Mesh
  import opened Directory
  import opened Direct

  /** What the controller with an id has been told. */
  function Heard(s: Socket, c: Id): seq<Wire> {
    var k := FindController(s.controllers, c);
    if k < |s.controllers| then s.controllers[k].told else []
  }

  predicate HasController(s: Socket, c: Id) {
    FindController(s.controllers, c) < |s.controllers|
  }

  // ---------------------------------------------------------------- the link that is taken

  /** The link on which a direct message for target leaves. */
  function RouteOf(s: Socket, target: Id): Id
    requires FindRoute(s.proxies, target) < |s.proxies|
  {
    s.proxies[FindRoute(s.proxies, target)].id
  }

  /** Proxy b has dialled link l, which is open and read to its end, and target is among the owner's peers. */
  ghost predicate Knows(m: State, b: nat, l: Id, target: Id) {
    && l in m.links && m.links[l].dialler == b && b < |m.sockets| && m.links[l].owner < |m.sockets|
    && m.links[l].owned && m.links[l].dial == Open && Queue(m, l) == []
    && target in PeerIds(m.sockets[m.links[l].owner].peers)
  }

  /** Another open link that b has dialled to the same owner. */
  ghost predicate Twin(m: State, l: Id, r: Id)
    requires l in m.links
  {
    && r in m.links && r != l && m.links[r].dial == Open
    && m.links[r].owner == m.links[l].owner && m.links[r].dialler == m.links[l].dialler
  }

  /** Then there is a route, and it is that link, or another one from b to the same proxy. */
  lemma RouteIsKnown(m: State, b: nat, l: Id, target: Id)
    requires Ok(m) && Agree(m) && Knows(m, b, l, target)
    ensures FindRoute(m.sockets[b].proxies, target) < |m.sockets[b].proxies|
    ensures var r := RouteOf(m.sockets[b], target); r == l || Twin(m, l, r)
  {
    AgreeLink(m, l);
    var s := m.sockets[b];
    var j, k := FindRoute(s.proxies, target), FindProxy(s.proxies, l);
    assert k < |s.proxies| && target in s.proxies[k].peers;
    RouteIsDialled(m, b, j, target);
    RouteIsDialled(m, b, k, target);
  }

  /** A link that is believed to lead to somebody was dialled from here to where it is, and is open here. */
  lemma RouteIsDialled(m: State, b: nat, j: nat, x: Id)
    requires Ok(m) && b < |m.sockets| && j < |m.sockets[b].proxies| && x in m.sockets[b].proxies[j].peers
    ensures var l := m.sockets[b].proxies[j].id;
            && l in m.links && m.links[l].dialler == b && m.links[l].dial == Open
            && x in m.home && m.home[x] == m.links[l].owner
  {
    assert EndOk(m.sockets[b].proxies[j], b, m.links, m.home);
  }

  /** The letter is the last thing written to the route. */
  lemma LetterIsPosted(s: Socket, d: Letter)
    requires Distinct(s) && !HasController(s, d.target) && FindRoute(s.proxies, d.target) < |s.proxies|
    ensures var r := RouteOf(s, d.target);
            ProxyOut(Route(s, d.source, d.target, d.payload), r) == ProxyOut(s, r) + [Posted(d)]
  {
    var t := Route(s, d.source, d.target, d.payload);
    assert SameEnds(s, t);
    SameEndsFound(s, t, RouteOf(s, d.target));
  }

  // ---------------------------------------------------------------- one handler

  /** Nothing is taken out of what is on the way over l. */
  ghost predicate QueueGrows(s: Socket, t: Socket, l: Id) {
    HasEnd(s, l) && HasEnd(t, l) ==> ProxyOut(s, l) <= ProxyOut(t, l)
  }

  ghost predicate HeardGrows(s: Socket, t: Socket, c: Id) {
    HasController(s, c) && HasController(t, c) ==> Heard(s, c) <= Heard(t, c)
  }

  lemma EventQueue(s: Socket, e: Event, l: Id)
    requires Enabled(s, e) && Distinct(s)
    ensures QueueGrows(s, After(s, e), l)
  {
    if e.LinkOpens? {
      OpensQueue(s, e.id, e.writeable, l);
    } else if e.LinkCloses? {
      ClosesQueue(s, e.id, l);
    } else {
      OtherwiseQueue(s, e, l);
    }
  }

  lemma OpensQueue(s: Socket, id: Id, writeable: bool, l: Id)
    ensures QueueGrows(s, After(s, LinkOpens(id, writeable)), l)
  {
    var t := After(s, LinkOpens(id, writeable));
    assert t.proxies == s.proxies + [t.proxies[|s.proxies|]];
    hide After;
    FoundInLonger(s.proxies, t.proxies[|s.proxies|], l);
  }

  lemma ClosesQueue(s: Socket, id: Id, l: Id)
    requires Enabled(s, LinkCloses(id)) && Distinct(s)
    ensures QueueGrows(s, After(s, LinkCloses(id)), l)
  {
    hide After, Distinct;
    ClosedEnds(s, id);
    if l != id {
      OtherEndStays(s, id, l);
    }
  }

  /** The ends keep their places, and nothing is taken out of them. */
  ghost predicate EndsGrow(s: Socket, t: Socket) {
    && |t.proxies| == |s.proxies|
    && forall i :: 0 <= i < |s.proxies| ==> t.proxies[i].id == s.proxies[i].id && s.proxies[i].out <= t.proxies[i].out
  }

  lemma OtherwiseQueue(s: Socket, e: Event, l: Id)
    requires Enabled(s, e) && !e.LinkOpens? && !e.LinkCloses?
    ensures QueueGrows(s, After(s, e), l)
  {
    hide After, Enabled;
    EndsOfAfter(s, e);
    SameEndsFound(s, After(s, e), l);
  }

  lemma EndsOfAfter(s: Socket, e: Event)
    requires Enabled(s, e) && !e.LinkOpens? && !e.LinkCloses?
    ensures EndsGrow(s, After(s, e))
  {
    hide FindController, FindPeer, FindRoute, TellAll, TellOthers, Drop, Welcome, DeliverAll;
    match e {
      case ControllerSays(_, _, _) =>
      case LinkDelivers(_, _) =>
      case Dispatch =>
      case _ =>
    }
  }

  /** The controllers keep their ids. */
  ghost predicate SameControllers(s: Socket, t: Socket) {
    && |t.controllers| == |s.controllers|
    && forall i :: 0 <= i < |s.controllers| ==> t.controllers[i].id == s.controllers[i].id && s.controllers[i].told <= t.controllers[i].told
  }

  lemma SameControllersHear(s: Socket, t: Socket, c: Id)
    requires SameControllers(s, t)
    ensures HeardGrows(s, t, c) && FindController(t.controllers, c) == FindController(s.controllers, c)
  {
  }

  /** One of the controllers has gone. */
  lemma OthersHear(s: Socket, t: Socket, id: Id, c: Id)
    requires Distinct(s) && t.controllers == Drop(s.controllers, id)
    ensures HeardGrows(s, t, c)
  {
    var cs, ds, k := s.controllers, t.controllers, FindController(s.controllers, id);
    assert forall i :: 0 <= i < |ds| ==> ds[i] == cs[if i < k then i else i + 1];
    if HasController(s, c) && HasController(t, c) {
      var i, j := FindController(cs, c), FindController(ds, c);
      assert ds[j].id == c && cs[if j < k then j else j + 1].id == c;
    }
  }

  lemma LeavesHeard(s: Socket, id: Id, c: Id)
    requires Enabled(s, PeerLeaves(id)) && Distinct(s)
    ensures HeardGrows(s, After(s, PeerLeaves(id)), c)
  {
    var u, t := s.(controllers := Drop(s.controllers, id)), After(s, PeerLeaves(id));
    OthersHear(s, u, id, c);
    hide Distinct, Drop;
    assert SameControllers(u, t);
    SameControllersHear(u, t, c);
  }

  lemma ArrivesHeard(s: Socket, k: Controller, c: Id)
    ensures HeardGrows(s, s.(controllers := s.controllers + [k]), c)
  {
    var cs := s.controllers + [k];
    if HasController(s, c) {
      assert cs[FindController(s.controllers, c)].id == c;
    }
  }

  lemma EventHeard(s: Socket, e: Event, c: Id)
    requires Enabled(s, e) && Distinct(s)
    ensures HeardGrows(s, After(s, e), c)
  {
    var t := After(s, e);
    match e {
      case PeerLeaves(id) => LeavesHeard(s, id, c);
      case ControllerArrives(id, orders) => ArrivesHeard(s, Controller(id, Welcome(s, id, orders)), c);
      case ControllerLeaves(id) => OthersHear(s, t, id, c);
      case _ =>
        assert SameControllers(s, t);
        SameControllersHear(s, t, c);
    }
  }

  /** A letter that is read from a link is the next thing that its controller is told. */
  lemma LetterIsHanded(s: Socket, l: Id, d: Letter)
    requires Enabled(s, LinkDelivers(l, Posted(d))) && HasController(s, d.target)
    ensures Heard(After(s, LinkDelivers(l, Posted(d))), d.target) == Heard(s, d.target) + [Handed(d)]
  {
    var t := After(s, LinkDelivers(l, Posted(d)));
    assert SameControllers(s, t);
    SameControllersHear(s, t, d.target);
  }

  lemma PopGrows(s: Socket, x: Id, l: Id, c: Id)
    ensures x != l ==> QueueGrows(s, Pop(s, x), l)
    ensures HasController(Pop(s, x), c) <==> HasController(s, c)
    ensures Heard(Pop(s, x), c) == Heard(s, c)
  {
    PopEnds(s, x);
    assert x != l ==> SameEnd(s, Pop(s, x), l);
  }

  // ---------------------------------------------------------------- one step

  /** The link is open at both ends, and the controller is at the owner. */
  ghost predicate Stands(m: State, r: Id, c: Id) {
    && r in m.links && m.links[r].owned && m.links[r].dial == Open
    && m.links[r].owner < |m.sockets| && HasController(m.sockets[m.links[r].owner], c)
  }

  /** What is on its way over the link to its owner. */
  function OnWay(m: State, r: Id): seq<Wire>
    requires r in m.links && m.links[r].dialler < |m.sockets|
  {
    ProxyOut(m.sockets[m.links[r].dialler], r)
  }

  /** What the controller at the owner has been told. */
  function ToldAt(m: State, r: Id, c: Id): seq<Wire>
    requires r in m.links && m.links[r].owner < |m.sockets|
  {
    Heard(m.sockets[m.links[r].owner], c)
  }

  /** The socket at n has handled an event, or lost a message that the other end of a link has read. */
  ghost predicate Moves(m: State, t: Step, n: nat, s: Socket)
    requires n < |m.sockets|
  {
    || s == m.sockets[n]
    || (exists e :: Enabled(m.sockets[n], e) && s == After(m.sockets[n], e))
    || (t.Down? && t.l in m.links && m.links[t.l].owner == n && s == Pop(m.sockets[n], t.l))
    || (t.Up? && t.l in m.links && m.links[t.l].dialler == n && s == Pop(m.sockets[n], t.l))
  }

  lemma EverySocketMoves(m: State, t: Step, n: nat)
    requires Ok(m) && Can(m, t) && n < |m.sockets|
    ensures |Next(m, t).sockets| == |m.sockets| && Moves(m, t, n, Next(m, t).sockets[n])
  {
    if t.Down? {
      DownMoves(m, t.l, n);
    } else if t.Up? {
      UpMoves(m, t.l, n);
    } else {
      LocalMoves(m, t, n);
    }
  }

  lemma LocalMoves(m: State, t: Step, n: nat)
    requires Can(m, t) && !t.Down? && !t.Up? && n < |m.sockets|
    ensures |Next(m, t).sockets| == |m.sockets| && Moves(m, t, n, Next(m, t).sockets[n])
  {
    hide After, Pop, Enabled, FindController, Moves;
    match t {
      case Local(k, e) => OneMoves(m, t, n, k, e);
      case Accept(l, a, _) =>
        AlwaysOpens(m.sockets[a], l, true);
        OneMoves(m, t, n, a, LinkOpens(l, true));
      case Attach(l) =>
        AlwaysOpens(m.sockets[m.links[l].dialler], l, false);
        OneMoves(m, t, n, m.links[l].dialler, LinkOpens(l, false));
      case HangUp(l) => OneMoves(m, t, n, m.links[l].owner, LinkCloses(l));
      case Abandon(l) => OneMoves(m, t, n, m.links[l].dialler, LinkCloses(l));
    }
  }

  lemma OneMoves(m: State, t: Step, n: nat, k: nat, e: Event)
    requires n < |m.sockets| && k < |m.sockets| && Enabled(m.sockets[k], e)
    ensures Moves(m, t, n, m.sockets[k := After(m.sockets[k], e)][n])
  {
  }

  lemma DownMoves(m: State, l: Id, n: nat)
    requires Ok(m) && Can(m, Down(l)) && n < |m.sockets|
    ensures |Next(m, Down(l)).sockets| == |m.sockets| && Moves(m, Down(l), n, Next(m, Down(l)).sockets[n])
  {
    OkLink(m, l);
    hide Ok, After, Pop, Queue, ProxyOut, HasEnd;
    PopQueueElsewhere(m, l);
  }

  lemma UpMoves(m: State, l: Id, n: nat)
    requires Can(m, Up(l)) && n < |m.sockets|
    ensures |Next(m, Up(l)).sockets| == |m.sockets| && Moves(m, Up(l), n, Next(m, Up(l)).sockets[n])
  {
    hide After, Pop, ProxyOut;
  }

  lemma SameLink(m: State, t: Step, r: Id)
    requires Can(m, t) && r in m.links
    ensures r in Next(m, t).links
    ensures Next(m, t).links[r].owner == m.links[r].owner && Next(m, t).links[r].dialler == m.links[r].dialler
  {
    hide After, Pop;
  }

  /** What the controller at the owner was told stays told. */
  lemma ToldGrows(m: State, t: Step, r: Id, c: Id)
    requires Ok(m) && Can(m, t) && Stands(m, r, c) && Stands(Next(m, t), r, c)
    ensures ToldAt(m, r, c) <= ToldAt(Next(m, t), r, c)
  {
    var a := m.links[r].owner;
    SameLink(m, t, r);
    EverySocketMoves(m, t, a);
    DistinctHere(m, a);
    hide Ok, Next, Can, After, Pop, Enabled, Heard, Distinct;
    var s, s1 := m.sockets[a], Next(m, t).sockets[a];
    if e :| Enabled(s, e) && s1 == After(s, e) {
      EventHeard(s, e, c);
    } else if t.Down? || t.Up? {
      PopGrows(s, t.l, r, c);
    }
  }

  /** What is on its way stays on its way, behind nothing new, until the owner reads it. */
  lemma OnWayGrows(m: State, t: Step, r: Id, c: Id)
    requires Ok(m) && Can(m, t) && t != Up(r) && Ok(Next(m, t)) && Stands(m, r, c) && Stands(Next(m, t), r, c)
    ensures LinkOk(m, r) && LinkOk(Next(m, t), r)
    ensures OnWay(m, r) <= OnWay(Next(m, t), r)
  {
    OkLink(m, r);
    OkLink(Next(m, t), r);
    SameLink(m, t, r);
    var b := m.links[r].dialler;
    EverySocketMoves(m, t, b);
    DistinctHere(m, b);
    hide Ok, Next, Can, After, Pop, Enabled, Heard, Distinct, ProxyOut;
    var s, s1 := m.sockets[b], Next(m, t).sockets[b];
    if e :| Enabled(s, e) && s1 == After(s, e) {
      EventQueue(s, e, r);
    } else if t.Down? || t.Up? {
      PopGrows(s, t.l, r, c);
    }
  }

  /** The owner reads the first message; a letter for the controller is handed to it. */
  lemma OnWayIsRead(m: State, r: Id, d: Letter)
    requires Ok(m) && Can(m, Up(r)) && Stands(m, r, d.target)
    ensures LinkOk(m, r) && |Next(m, Up(r)).sockets| == |m.sockets| && Next(m, Up(r)).links == m.links
    ensures OnWay(m, r) != [] && OnWay(Next(m, Up(r)), r) == OnWay(m, r)[1..]
    ensures OnWay(m, r)[0] == Posted(d) ==> ToldAt(Next(m, Up(r)), r, d.target) == ToldAt(m, r, d.target) + [Handed(d)]
  {
    OkLink(m, r);
    var b, a := m.links[r].dialler, m.links[r].owner;
    hide Ok, Pop, After, Heard, Enabled, ProxyOut, HasEnd;
    PopEnds(m.sockets[b], r);
    if OnWay(m, r)[0] == Posted(d) {
      LetterIsHanded(m.sockets[a], r, d);
    }
  }

  // ---------------------------------------------------------------- whole runs

  /** The link stays open at both ends, and the controller stays. */
  ghost predicate StaysUp(ms: seq<State>, i: nat, j: nat, r: Id, c: Id)
    requires j < |ms|
  {
    forall k :: i <= k <= j ==> Stands(ms[k], r, c)
  }

  /** How often the owner has read from the link. */
  function TimesRead(ts: seq<Step>, r: Id): nat {
    if ts == [] then 0 else TimesRead(ts[..|ts| - 1], r) + if ts[|ts| - 1] == Up(r) then 1 else 0
  }

  /** The letter is on its way, at place p. */
  ghost predicate Waits(m: State, r: Id, d: Letter, p: nat) {
    r in m.links && m.links[r].dialler < |m.sockets| && p < |OnWay(m, r)| && OnWay(m, r)[p] == Posted(d)
  }

  /** A letter that was at place p: after p messages have been read it is the next, and then it is handed over. */
  ghost predicate InTurn(m: State, m1: State, r: Id, d: Letter, p: nat, times: nat) {
    && Stands(m, r, d.target) && Stands(m1, r, d.target)
    && ToldAt(m, r, d.target) <= ToldAt(m1, r, d.target)
    && if times <= p then Waits(m1, r, d, p - times)
       else Handed(d) in ToldAt(m1, r, d.target)[|ToldAt(m, r, d.target)|..]
  }

  lemma NextInTurn(m0: State, m: State, t: Step, r: Id, d: Letter, p: nat, times: nat)
    requires Ok(m) && Can(m, t) && Ok(Next(m, t)) && Stands(Next(m, t), r, d.target)
    requires InTurn(m0, m, r, d, p, times)
    ensures InTurn(m0, Next(m, t), r, d, p, times + if t == Up(r) then 1 else 0)
  {
    hide Ok, Can, Next, OnWay, ToldAt, LinkOk;
    ToldGrows(m, t, r, d.target);
    LinkThere(m, r);
    LinkThere(Next(m, t), r);
    ToldAfter(ToldAt(m0, r, d.target), ToldAt(m, r, d.target), ToldAt(Next(m, t), r, d.target), Handed(d));
    if t == Up(r) {
      OnWayIsRead(m, r, d);
    } else {
      OnWayGrows(m, t, r, d.target);
    }
  }

  /** What was told since stays told, and what is told last has been told since. */
  lemma ToldAfter(t0: seq<Wire>, t: seq<Wire>, t1: seq<Wire>, w: Wire)
    requires t0 <= t <= t1
    ensures w in t[|t0|..] ==> w in t1[|t0|..]
    ensures t1 == t + [w] ==> w in t1[|t0|..]
  {
    assert t1[|t0|..] == t[|t0|..] + t1[|t|..];
    assert t1 == t + [w] ==> t1[|t|] == w && t1[|t|..][0] == w;
  }

  lemma LinkThere(m: State, r: Id)
    requires Ok(m) && r in m.links
    ensures m.links[r].owner < |m.sockets| && m.links[r].dialler < |m.sockets|
  {
    OkLink(m, r);
  }

  lemma {:induction false} LetterWaits(ms: seq<State>, ts: seq<Step>, i: nat, j: nat, r: Id, d: Letter, p: nat)
    requires Run(ms, ts) && i <= j <= |ts|
    requires StaysUp(ms, i, j, r, d.target)
    requires Waits(ms[i], r, d, p)
    ensures InTurn(ms[i], ms[j], r, d, p, TimesRead(ts[i..j], r))
  {
    hide Run, Waits, Stands, Ok, Agree, Can, Next, ToldAt;
    RunCounts(ms, ts);
    assert Stands(ms[i], r, d.target) && Stands(ms[j], r, d.target);
    if i < j {
      LetterWaits(ms, ts, i, j - 1, r, d, p);
      assert ts[i..j][..j - i - 1] == ts[i..j - 1];
      StepOf(ms, ts, j - 1);
      hide InTurn;
      NextInTurn(ms[i], ms[j - 1], ts[j - 1], r, d, p, TimesRead(ts[i..j - 1], r));
    }
  }

  lemma LetterGoesOut(m: State, b: nat, d: Letter, r: Id)
    requires Ok(m) && Can(m, Local(b, ControllerSays(d.source, d.target, d.payload)))
    requires !HasController(m.sockets[b], d.target) && FindRoute(m.sockets[b].proxies, d.target) < |m.sockets[b].proxies|
    requires r == RouteOf(m.sockets[b], d.target) && r in m.links && m.links[r].dialler == b
    ensures Waits(Next(m, Local(b, ControllerSays(d.source, d.target, d.payload))), r, d, |ProxyOut(m.sockets[b], r)|)
  {
    DistinctHere(m, b);
    LetterIsPosted(m.sockets[b], d);
    hide Ok, Route, ProxyOut, FindRoute;
  }

  /** The letter leaves on the link that is known to lead there, or on its twin. */
  lemma LetterSent(m: State, b: nat, l: Id, d: Letter)
    requires var t := Local(b, ControllerSays(d.source, d.target, d.payload)); Ok(m) && Agree(m) && Can(m, t)
    requires Knows(m, b, l, d.target) && !HasController(m.sockets[b], d.target)
    ensures var s := m.sockets[b];
            && FindRoute(s.proxies, d.target) < |s.proxies|
            && var r := RouteOf(s, d.target);
            && (r == l || Twin(m, l, r))
            && Waits(Next(m, Local(b, ControllerSays(d.source, d.target, d.payload))), r, d, |ProxyOut(s, r)|)
  {
    hide Ok, Agree, Can, Next, Waits;
    RouteIsKnown(m, b, l, d.target);
    LetterGoesOut(m, b, d, RouteOf(m.sockets[b], d.target));
  }

  lemma InTurnBefore(m0: State, m: State, m1: State, r: Id, d: Letter, p: nat, times: nat)
    requires InTurn(m, m1, r, d, p, times) && Stands(m0, r, d.target) && ToldAt(m0, r, d.target) <= ToldAt(m, r, d.target)
    ensures InTurn(m0, m1, r, d, p, times)
  {
    var t0, t, t1 := ToldAt(m0, r, d.target), ToldAt(m, r, d.target), ToldAt(m1, r, d.target);
    assert t1[|t0|..] == t1[|t0|..|t|] + t1[|t|..];
  }

  /** When nothing is on its way any more, the letter has been told. */
  lemma ReadIsTold(m: State, m1: State, r: Id, d: Letter, p: nat, times: nat)
    requires InTurn(m, m1, r, d, p, times) && r in m1.links && m1.links[r].dialler < |m1.sockets| && OnWay(m1, r) == []
    ensures times > p && Handed(d) in ToldAt(m1, r, d.target)[|ToldAt(m, r, d.target)|..]
  {
  }

  /**
   In every run: a controller at one proxy sends to a target that it has none of its own for, and that is
   among the peers of a proxy which it has dialled, on a link that is open and read to its end. Then the
   letter goes out on that link, or on another one to the same proxy; and for as long as this one stays
   open at both ends, and the target's controller stays there, the letter waits on it behind what had
   been written before, and is told to that controller as soon as all this has been read.
   */
  lemma LetterArrives(ms: seq<State>, ts: seq<Step>, i: nat, j: nat, b: nat, l: Id, d: Letter)
    requires Run(ms, ts) && i < j <= |ts| && ts[i] == Local(b, ControllerSays(d.source, d.target, d.payload))
    requires Knows(ms[i], b, l, d.target) && !HasController(ms[i].sockets[b], d.target)
    ensures var s := ms[i].sockets[b];
            && FindRoute(s.proxies, d.target) < |s.proxies|
            && var r := RouteOf(s, d.target);
            && (r == l || Twin(ms[i], l, r))
            && (StaysUp(ms, i, j, r, d.target) ==>
                  InTurn(ms[i], ms[j], r, d, |ProxyOut(s, r)|, TimesRead(ts[i + 1..j], r)))
  {
    hide Run, Ok, Agree, Can, Next, Stands, Knows, InTurn, Waits, ToldAt;
    RunCounts(ms, ts);
    StepOf(ms, ts, i);
    LetterSent(ms[i], b, l, d);
    var r := RouteOf(ms[i].sockets[b], d.target);
    if StaysUp(ms, i, j, r, d.target) {
      assert Stands(ms[i], r, d.target) && Stands(ms[i + 1], r, d.target);
      ToldGrows(ms[i], ts[i], r, d.target);
      LetterWaits(ms, ts, i + 1, j, r, d, |ProxyOut(ms[i].sockets[b], r)|);
      InTurnBefore(ms[i], ms[i + 1], ms[j], r, d, |ProxyOut(ms[i].sockets[b], r)|, TimesRead(ts[i + 1..j], r));
    }
  }
}
