/**
 Direct messages between controllers: one that is sent is received at most once, by a controller
 with the id that it is for, and crosses at most one link.
 */
module Direct {
  import opened Sockets
  import opened Mesh
  import opened Directory

  /** A direct message, whether on a link or handed to a controller. */
  datatype Letter = Letter(source: Id, target: Id, payload: string)

  function Handed(d: Letter): Wire {
    Wire(Message, d.source, d.target, d.payload)
  }

  function Posted(d: Letter): Wire {
    Wire(DirectMessage, d.source, d.target, d.payload)
  }

  // ---------------------------------------------------------------- counting copies

  function CopiesTold(cs: seq<Controller>, d: Letter): nat {
    if cs == [] then 0 else CopiesTold(cs[..|cs| - 1], d) + multiset(cs[|cs| - 1].told)[Handed(d)]
  }

  function CopiesOut(ps: seq<Proxy>, d: Letter): nat {
    if ps == [] then 0 else CopiesOut(ps[..|ps| - 1], d) + multiset(ps[|ps| - 1].out)[Posted(d)]
  }

  function ToldOf(d: Letter): Socket -> nat {
    (s: Socket) => CopiesTold(s.controllers, d)
  }

  function OutOf(d: Letter): Socket -> nat {
    (s: Socket) => CopiesOut(s.proxies, d)
  }

  function Total(sockets: seq<Socket>, copies: Socket -> nat): nat {
    if sockets == [] then 0 else Total(sockets[..|sockets| - 1], copies) + copies(sockets[|sockets| - 1])
  }

  lemma {:induction false} ToldUpdate(cs: seq<Controller>, k: nat, c: Controller, d: Letter)
    requires k < |cs|
    ensures CopiesTold(cs[k := c], d) ==
            CopiesTold(cs, d) - multiset(cs[k].told)[Handed(d)] + multiset(c.told)[Handed(d)]
    ensures multiset(cs[k].told)[Handed(d)] <= CopiesTold(cs, d)
  {
    var last := |cs| - 1;
    if k < last {
      assert cs[k := c][..last] == cs[..last][k := c];
      ToldUpdate(cs[..last], k, c, d);
    } else {
      assert cs[k := c][..last] == cs[..last];
    }
  }

  lemma {:induction false} OutUpdate(ps: seq<Proxy>, k: nat, p: Proxy, d: Letter)
    requires k < |ps|
    ensures CopiesOut(ps[k := p], d) ==
            CopiesOut(ps, d) - multiset(ps[k].out)[Posted(d)] + multiset(p.out)[Posted(d)]
    ensures multiset(ps[k].out)[Posted(d)] <= CopiesOut(ps, d)
  {
    var last := |ps| - 1;
    if k < last {
      assert ps[k := p][..last] == ps[..last][k := p];
      OutUpdate(ps[..last], k, p, d);
    } else {
      assert ps[k := p][..last] == ps[..last];
    }
  }

  lemma {:induction false} TotalUpdate(sockets: seq<Socket>, n: nat, s: Socket, copies: Socket -> nat)
    requires n < |sockets|
    ensures Total(sockets[n := s], copies) == Total(sockets, copies) - copies(sockets[n]) + copies(s)
  {
    var last := |sockets| - 1;
    if n < last {
      assert sockets[n := s][..last] == sockets[..last][n := s];
      TotalUpdate(sockets[..last], n, s, copies);
    } else {
      assert sockets[n := s][..last] == sockets[..last];
    }
  }

  /** Controllers with the same copies, one by one. */
  lemma {:induction false} SameTold(cs: seq<Controller>, ds: seq<Controller>, d: Letter)
    requires |ds| == |cs|
    requires forall i :: 0 <= i < |cs| ==> multiset(ds[i].told)[Handed(d)] == multiset(cs[i].told)[Handed(d)]
    ensures CopiesTold(ds, d) == CopiesTold(cs, d)
  {
    if cs != [] {
      SameTold(cs[..|cs| - 1], ds[..|ds| - 1], d);
    }
  }

  lemma {:induction false} SameOut(ps: seq<Proxy>, qs: seq<Proxy>, d: Letter)
    requires |qs| == |ps|
    requires forall i :: 0 <= i < |ps| ==> multiset(qs[i].out)[Posted(d)] == multiset(ps[i].out)[Posted(d)]
    ensures CopiesOut(qs, d) == CopiesOut(ps, d)
  {
    if ps != [] {
      SameOut(ps[..|ps| - 1], qs[..|qs| - 1], d);
    }
  }

  lemma WithoutLast<T>(s: seq<T>, k: nat)
    requires k + 1 < |s|
    ensures Without(s, k) == Without(s[..|s| - 1], k) + [s[|s| - 1]]
  {
  }

  lemma ToldSnoc(cs: seq<Controller>, c: Controller, d: Letter)
    ensures CopiesTold(cs + [c], d) == CopiesTold(cs, d) + multiset(c.told)[Handed(d)]
  {
    assert (cs + [c])[..|cs|] == cs;
  }

  lemma OutSnoc(ps: seq<Proxy>, p: Proxy, d: Letter)
    ensures CopiesOut(ps + [p], d) == CopiesOut(ps, d) + multiset(p.out)[Posted(d)]
  {
    assert (ps + [p])[..|ps|] == ps;
  }

  lemma {:induction false} FewerTold(cs: seq<Controller>, k: nat, d: Letter)
    ensures CopiesTold(Without(cs, k), d) <= CopiesTold(cs, d)
  {
    if k < |cs| {
      hide CopiesTold, Handed;
      var last := |cs| - 1;
      assert cs == cs[..last] + [cs[last]];
      ToldSnoc(cs[..last], cs[last], d);
      if k < last {
        WithoutLast(cs, k);
        ToldSnoc(Without(cs[..last], k), cs[last], d);
        FewerTold(cs[..last], k, d);
      } else {
        assert Without(cs, k) == cs[..last];
      }
    }
  }

  lemma {:induction false} FewerOut(ps: seq<Proxy>, k: nat, d: Letter)
    ensures CopiesOut(Without(ps, k), d) <= CopiesOut(ps, d)
  {
    if k < |ps| {
      hide CopiesOut, Posted;
      var last := |ps| - 1;
      assert ps == ps[..last] + [ps[last]];
      OutSnoc(ps[..last], ps[last], d);
      if k < last {
        WithoutLast(ps, k);
        OutSnoc(Without(ps[..last], k), ps[last], d);
        FewerOut(ps[..last], k, d);
      } else {
        assert Without(ps, k) == ps[..last];
      }
    }
  }

  // ---------------------------------------------------------------- one handler

  /** The event is about the letter: somebody sends it, or it comes over a link. */
  predicate IsAbout(e: Event, d: Letter) {
    e == ControllerSays(d.source, d.target, d.payload) || (e.LinkDelivers? && e.wire == Posted(d))
  }

  /** How often the handler hands the letter to a controller. */
  function Hands(s: Socket, e: Event, d: Letter): nat {
    if IsAbout(e, d) && FindController(s.controllers, d.target) < |s.controllers| then 1 else 0
  }

  lemma HandCopies(s: Socket, k: nat, source: Id, target: Id, payload: string, d: Letter)
    requires k < |s.controllers|
    ensures var r := Hand(s, k, source, target, payload);
            && r.proxies == s.proxies
            && CopiesTold(r.controllers, d) ==
               CopiesTold(s.controllers, d) + if d == Letter(source, target, payload) then 1 else 0
  {
    var c := s.controllers[k];
    ToldUpdate(s.controllers, k, c.(told := c.told + [Wire(Message, source, target, payload)]), d);
  }

  /** What is handed over is not sent on; what is sent on is not handed over. */
  lemma RouteCopies(s: Socket, source: Id, target: Id, payload: string, d: Letter)
    ensures var r, e := Route(s, source, target, payload), ControllerSays(source, target, payload);
            && CopiesTold(r.controllers, d) == CopiesTold(s.controllers, d) + Hands(s, e, d)
            && CopiesOut(r.proxies, d) + Hands(s, e, d) <= CopiesOut(s.proxies, d) + if IsAbout(e, d) then 1 else 0
  {
    var k, j := FindController(s.controllers, target), FindRoute(s.proxies, target);
    if k < |s.controllers| {
      HandCopies(s, k, source, target, payload, d);
    } else if j < |s.proxies| {
      OutUpdate(s.proxies, j, Send(s.proxies[j], DirectMessage, source, target, payload), d);
    }
  }

  lemma TellCopies(c: Controller, action: Action, id: Id, d: Letter)
    requires action == Connect || action == Disconnect
    ensures multiset(Tell(c, action, id).told)[Handed(d)] == multiset(c.told)[Handed(d)]
  {
  }

  lemma SendCopies(p: Proxy, action: Action, id: Id, d: Letter)
    requires action == Connect || action == Disconnect
    ensures multiset(Send(p, action, p.id, id, "").out)[Posted(d)] == multiset(p.out)[Posted(d)]
  {
  }

  lemma TellAllCopies(cs: seq<Controller>, action: Action, id: Id, d: Letter)
    requires action == Connect || action == Disconnect
    ensures CopiesTold(TellOthers(cs, action, id), d) == CopiesTold(cs, d)
    ensures CopiesTold(TellAll(cs, action, id), d) == CopiesTold(cs, d)
  {
    forall i | 0 <= i < |cs| ensures multiset(Tell(cs[i], action, id).told)[Handed(d)] == multiset(cs[i].told)[Handed(d)] {
      TellCopies(cs[i], action, id, d);
    }
    hide Tell, Handed, CopiesTold;
    SameTold(cs, TellOthers(cs, action, id), d);
    SameTold(cs, TellAll(cs, action, id), d);
  }

  lemma AnnounceCopies(ps: seq<Proxy>, action: Action, id: Id, d: Letter)
    requires action == Connect || action == Disconnect
    ensures CopiesOut(Announce(ps, action, id), d) == CopiesOut(ps, d)
  {
    forall i | 0 <= i < |ps|
      ensures multiset(Send(ps[i], action, ps[i].id, id, "").out)[Posted(d)] == multiset(ps[i].out)[Posted(d)]
    {
      SendCopies(ps[i], action, id, d);
    }
    hide Send, Posted, CopiesOut;
    SameOut(ps, Announce(ps, action, id), d);
  }

  /** A controller that arrives is told about peers only. */
  lemma {:induction false} WelcomeNoLetters(ws: seq<Wire>, d: Letter)
    requires forall i :: 0 <= i < |ws| ==> ws[i].action == Connect
    ensures multiset(ws)[Handed(d)] == 0
  {
    assert Handed(d) !in ws;
  }

  lemma {:induction false} WelcomeConnects(ps: seq<Peer>, orders: seq<seq<Id>>, c: Id)
    ensures forall i :: 0 <= i < |WelcomePeers(ps, c)| ==> WelcomePeers(ps, c)[i].action == Connect && WelcomePeers(ps, c)[i].source == c
    ensures forall i :: 0 <= i < |WelcomeOrders(orders, c)| ==>
              WelcomeOrders(orders, c)[i].action == Connect && WelcomeOrders(orders, c)[i].source == c
    decreases |ps| + |orders|
  {
    if ps != [] {
      WelcomeConnects(ps[1..], orders, c);
    } else if orders != [] {
      WelcomeConnects(ps, orders[1..], c);
    }
  }

  lemma ArrivesCopies(s: Socket, id: Id, orders: seq<seq<Id>>, d: Letter)
    requires Enabled(s, ControllerArrives(id, orders))
    ensures CopiesTold(After(s, ControllerArrives(id, orders)).controllers, d) == CopiesTold(s.controllers, d)
  {
    var r, ws := After(s, ControllerArrives(id, orders)), Welcome(s, id, orders);
    WelcomeConnects(s.peers, orders, id);
    WelcomeNoLetters(ws, d);
    assert r.controllers[..|s.controllers|] == s.controllers;
  }

  lemma DispatchCopies(s: Socket, d: Letter)
    requires s.buffer != []
    ensures CopiesOut(After(s, Dispatch).proxies, d) == CopiesOut(s.proxies, d)
  {
    SameOut(s.proxies, After(s, Dispatch).proxies, d);
  }

  lemma OpensCopies(s: Socket, l: Id, writeable: bool, d: Letter)
    ensures CopiesOut(After(s, LinkOpens(l, writeable)).proxies, d) == CopiesOut(s.proxies, d)
  {
    var r := After(s, LinkOpens(l, writeable));
    assert r.proxies[..|s.proxies|] == s.proxies;
    assert Posted(d) !in r.proxies[|s.proxies|].out;
  }

  lemma ReceiveCopies(s: Socket, l: Id, w: Wire, d: Letter)
    requires Enabled(s, LinkDelivers(l, w))
    ensures var r, e := After(s, LinkDelivers(l, w)), LinkDelivers(l, w);
            && CopiesTold(r.controllers, d) == CopiesTold(s.controllers, d) + Hands(s, e, d)
            && CopiesOut(r.proxies, d) == CopiesOut(s.proxies, d)
  {
    var j := FindProxy(s.proxies, l);
    hide CopiesTold, CopiesOut, TellAll;
    match w.action {
      case Connect =>
        TellAllCopies(s.controllers, Connect, w.target, d);
        OutUpdate(s.proxies, j, s.proxies[j].(peers := s.proxies[j].peers + {w.target}), d);
      case Disconnect =>
        TellAllCopies(s.controllers, Disconnect, w.target, d);
        OutUpdate(s.proxies, j, s.proxies[j].(peers := s.proxies[j].peers - {w.target}), d);
      case Message =>
      case DirectMessage =>
        var k := FindController(s.controllers, w.target);
        if k < |s.controllers| {
          HandCopies(s, k, w.source, w.target, w.payload, d);
        }
    }
  }

  /** Controllers get a letter only when it is handed to one, and a handler that does so writes it to no link. */
  lemma EventCopies(s: Socket, e: Event, d: Letter)
    requires Enabled(s, e)
    ensures var r := After(s, e);
            && CopiesTold(r.controllers, d) <= CopiesTold(s.controllers, d) + Hands(s, e, d)
            && (!e.PeerLeaves? && !e.ControllerLeaves? ==>
                  CopiesTold(r.controllers, d) == CopiesTold(s.controllers, d) + Hands(s, e, d))
            && CopiesOut(r.proxies, d) + Hands(s, e, d) <= CopiesOut(s.proxies, d) + if IsAbout(e, d) then 1 else 0
  {
    hide CopiesTold, CopiesOut, TellOthers, Announce, Route, Receive;
    match e {
      case PeerArrives(id) =>
        TellAllCopies(s.controllers, Connect, id, d);
        AnnounceCopies(s.proxies, Connect, id, d);
      case PeerLeaves(id) =>
        TellAllCopies(Drop(s.controllers, id), Disconnect, id, d);
        AnnounceCopies(s.proxies, Disconnect, id, d);
        FewerTold(s.controllers, FindController(s.controllers, id), d);
      case PeerSays(id, payload) =>
      case ControllerArrives(id, orders) => ArrivesCopies(s, id, orders, d);
      case ControllerLeaves(id) => FewerTold(s.controllers, FindController(s.controllers, id), d);
      case ControllerSays(id, target, payload) => RouteCopies(s, id, target, payload, d);
      case LinkOpens(l, writeable) => OpensCopies(s, l, writeable, d);
      case LinkCloses(l) => FewerOut(s.proxies, FindProxy(s.proxies, l), d);
      case LinkDelivers(l, w) => ReceiveCopies(s, l, w, d);
      case Dispatch => DispatchCopies(s, d);
    }
  }

  lemma PopCopies(s: Socket, l: Id, d: Letter)
    ensures Pop(s, l).controllers == s.controllers
    ensures CopiesOut(Pop(s, l).proxies, d) ==
            CopiesOut(s.proxies, d) - if ProxyOut(s, l) != [] && ProxyOut(s, l)[0] == Posted(d) then 1 else 0
  {
    var k := FindProxy(s.proxies, l);
    if k < |s.proxies| && s.proxies[k].out != [] {
      var p := s.proxies[k];
      OutUpdate(s.proxies, k, p.(out := p.out[1..]), d);
      assert p.out == [p.out[0]] + p.out[1..];
    }
  }

  // ---------------------------------------------------------------- every step

  function SentIn(t: Step, d: Letter): nat {
    if t.Local? && t.event == ControllerSays(d.source, d.target, d.payload) then 1 else 0
  }

  /** How often the letter is handed to a controller in the step. */
  function ReceivedIn(m: State, t: Step, d: Letter): nat
    requires Can(m, t)
  {
    match t
    case Local(n, e) => Hands(m.sockets[n], e, d)
    case Down(l) => Hands(m.sockets[m.links[l].dialler], LinkDelivers(l, Queue(m, l)[0]), d)
    case Up(l) =>
      Hands(m.sockets[m.links[l].owner], LinkDelivers(l, ProxyOut(m.sockets[m.links[l].dialler], l)[0]), d)
    case Accept(_, _, _) => 0
    case Attach(_) => 0
    case HangUp(_) => 0
    case Abandon(_) => 0
  }

  function AllTold(sockets: seq<Socket>, d: Letter): nat {
    Total(sockets, ToldOf(d))
  }

  function AllOut(sockets: seq<Socket>, d: Letter): nat {
    Total(sockets, OutOf(d))
  }

  /** One socket has handled an event. */
  lemma EventTotals(sockets: seq<Socket>, n: nat, e: Event, d: Letter)
    requires n < |sockets| && Enabled(sockets[n], e)
    ensures var r := sockets[n := After(sockets[n], e)];
            && AllTold(r, d) <= AllTold(sockets, d) + Hands(sockets[n], e, d)
            && AllOut(r, d) + Hands(sockets[n], e, d) <= AllOut(sockets, d) + if IsAbout(e, d) then 1 else 0
  {
    hide Total, After, Hands, IsAbout, Enabled;
    EventCopies(sockets[n], e, d);
    TotalUpdate(sockets, n, After(sockets[n], e), ToldOf(d));
    TotalUpdate(sockets, n, After(sockets[n], e), OutOf(d));
  }

  lemma PopTotals(sockets: seq<Socket>, n: nat, l: Id, d: Letter)
    requires n < |sockets|
    ensures var r := sockets[n := Pop(sockets[n], l)];
            && AllTold(r, d) == AllTold(sockets, d)
            && AllOut(r, d) == AllOut(sockets, d)
               - if ProxyOut(sockets[n], l) != [] && ProxyOut(sockets[n], l)[0] == Posted(d) then 1 else 0
  {
    hide Total, Pop, ProxyOut;
    PopCopies(sockets[n], l, d);
    TotalUpdate(sockets, n, Pop(sockets[n], l), ToldOf(d));
    TotalUpdate(sockets, n, Pop(sockets[n], l), OutOf(d));
  }

  lemma PopQueueTotals(m: State, l: Id, d: Letter)
    requires Ok(m) && Can(m, Down(l))
    ensures Queue(m, l)[0] != Posted(d)
    ensures AllTold(PopQueue(m, l).sockets, d) == AllTold(m.sockets, d)
    ensures AllOut(PopQueue(m, l).sockets, d) == AllOut(m.sockets, d)
  {
    QueueIsDown(m, l);
    assert DownWire(Queue(m, l)[0], m.links[l].owner, m.home);
    hide Ok, Pop, ProxyOut, AllTold, AllOut;
    PopTotals(m.sockets, m.links[l].owner, l, d);
  }

  lemma DownCopies(m: State, l: Id, d: Letter)
    requires Ok(m) && Can(m, Down(l))
    ensures AllOut(Next(m, Down(l)).sockets, d) + ReceivedIn(m, Down(l), d) <= AllOut(m.sockets, d)
    ensures AllTold(Next(m, Down(l)).sockets, d) <= AllTold(m.sockets, d) + ReceivedIn(m, Down(l), d)
  {
    hide Ok, Queue, PopQueue, After, AllTold, AllOut, Hands;
    var b := m.links[l].dialler;
    OkLink(m, l);
    PopQueueTotals(m, l, d);
    PopQueueElsewhere(m, l);
    EventTotals(PopQueue(m, l).sockets, b, LinkDelivers(l, Queue(m, l)[0]), d);
  }

  lemma UpCopies(m: State, l: Id, d: Letter)
    requires Can(m, Up(l))
    ensures AllOut(Next(m, Up(l)).sockets, d) + ReceivedIn(m, Up(l), d) <= AllOut(m.sockets, d)
    ensures AllTold(Next(m, Up(l)).sockets, d) <= AllTold(m.sockets, d) + ReceivedIn(m, Up(l), d)
  {
    hide After, AllTold, AllOut, ProxyOut, Pop, Hands;
    var a, b := m.links[l].owner, m.links[l].dialler;
    PopTotals(m.sockets, b, l, d);
    EventTotals(m.sockets[b := Pop(m.sockets[b], l)], a, LinkDelivers(l, ProxyOut(m.sockets[b], l)[0]), d);
  }

  /**
   Every step: controllers get a letter only when it is handed to one of them, and the copies on links
   with those handed over are no more than the copies that were on links and the one that is sent.
   */
  lemma NextCopies(m: State, t: Step, d: Letter)
    requires Ok(m) && Can(m, t)
    ensures AllOut(Next(m, t).sockets, d) + ReceivedIn(m, t, d) <= AllOut(m.sockets, d) + SentIn(t, d)
    ensures AllTold(Next(m, t).sockets, d) <= AllTold(m.sockets, d) + ReceivedIn(m, t, d)
  {
    hide Ok, After, AllTold, AllOut;
    match t {
      case Local(n, e) => EventTotals(m.sockets, n, e, d);
      case Accept(l, a, b) => EventTotals(m.sockets, a, LinkOpens(l, true), d);
      case Attach(l) => EventTotals(m.sockets, m.links[l].dialler, LinkOpens(l, false), d);
      case HangUp(l) => EventTotals(m.sockets, m.links[l].owner, LinkCloses(l), d);
      case Abandon(l) => EventTotals(m.sockets, m.links[l].dialler, LinkCloses(l), d);
      case Down(l) => DownCopies(m, l, d);
      case Up(l) => UpCopies(m, l, d);
    }
  }

  function TimesSent(ts: seq<Step>, d: Letter): nat {
    if ts == [] then 0 else TimesSent(ts[..|ts| - 1], d) + SentIn(ts[|ts| - 1], d)
  }

  /** How often the letter has been handed to a controller in the first i steps, whether or not that one is still there. */
  ghost function TimesReceived(ms: seq<State>, ts: seq<Step>, i: nat, d: Letter): nat
    requires Run(ms, ts) && i <= |ts|
  {
    if i == 0 then 0 else TimesReceived(ms, ts, i - 1, d) + ReceivedIn(ms[i - 1], ts[i - 1], d)
  }

  lemma {:induction false} NothingYet(sockets: seq<Socket>, d: Letter)
    requires forall n :: 0 <= n < |sockets| ==> sockets[n] == Socket([], [], [], [])
    ensures AllTold(sockets, d) == 0 && AllOut(sockets, d) == 0
  {
    if sockets != [] {
      NothingYet(sockets[..|sockets| - 1], d);
    }
  }

  /**
   In every run: a letter is never received, or on its way, more often than it was sent, even by
   controllers that have left. So each one that was sent is received by at most one controller.
   */
  lemma {:induction false} NeverCopied(ms: seq<State>, ts: seq<Step>, i: nat, d: Letter)
    requires Run(ms, ts) && i <= |ts|
    ensures TimesReceived(ms, ts, i, d) + AllOut(ms[i].sockets, d) <= TimesSent(ts[..i], d)
    ensures AllTold(ms[i].sockets, d) <= TimesReceived(ms, ts, i, d)
  {
    if i == 0 {
      NothingYet(ms[0].sockets, d);
    } else {
      NeverCopied(ms, ts, i - 1, d);
      RunAgrees(ms, ts, i - 1);
      NextCopies(ms[i - 1], ts[i - 1], d);
      assert ts[..i][..i - 1] == ts[..i - 1];
    }
  }

  // ---------------------------------------------------------------- to the right controller

  /** What a controller has been handed is for it, and what it was told of peers goes under its own id. */
  ghost predicate ForIt(c: Controller) {
    forall k :: 0 <= k < |c.told| ==> if c.told[k].action == Message then c.told[k].target == c.id else c.told[k].source == c.id
  }

  ghost predicate AllForThem(s: Socket) {
    forall i :: 0 <= i < |s.controllers| ==> ForIt(s.controllers[i])
  }

  lemma HandForIt(s: Socket, k: nat, source: Id, target: Id, payload: string)
    requires AllForThem(s) && k < |s.controllers| && s.controllers[k].id == target
    ensures AllForThem(Hand(s, k, source, target, payload))
  {
  }

  lemma ToldForThem(cs: seq<Controller>, action: Action, id: Id)
    requires action != Message && forall i :: 0 <= i < |cs| ==> ForIt(cs[i])
    ensures forall i :: 0 <= i < |cs| ==> ForIt(TellOthers(cs, action, id)[i]) && ForIt(TellAll(cs, action, id)[i])
  {
  }

  lemma EventForThem(s: Socket, e: Event)
    requires Enabled(s, e) && AllForThem(s)
    ensures AllForThem(After(s, e))
  {
    var r := After(s, e);
    match e {
      case PeerArrives(id) => ToldForThem(s.controllers, Connect, id);
      case PeerLeaves(id) =>
        FewerForThem(s, id);
        ToldForThem(Drop(s.controllers, id), Disconnect, id);
      case PeerSays(_, _) =>
      case ControllerArrives(id, orders) => WelcomeConnects(s.peers, orders, id);
      case ControllerLeaves(id) => FewerForThem(s, id);
      case ControllerSays(_, _, _) =>
      case LinkOpens(_, _) =>
      case LinkCloses(_) =>
      case LinkDelivers(l, w) => ReceiveForThem(s, FindProxy(s.proxies, l), w);
      case Dispatch =>
    }
  }

  lemma FewerForThem(s: Socket, id: Id)
    requires AllForThem(s)
    ensures forall i :: 0 <= i < |Drop(s.controllers, id)| ==> ForIt(Drop(s.controllers, id)[i])
  {
    var cs, k := Drop(s.controllers, id), FindController(s.controllers, id);
    hide ForIt;
    assert forall i :: 0 <= i < |cs| ==> cs[i] == s.controllers[if i < k then i else i + 1];
  }

  lemma ReceiveForThem(s: Socket, j: nat, w: Wire)
    requires AllForThem(s) && j < |s.proxies|
    ensures AllForThem(Receive(s, j, w))
  {
    hide ForIt, TellAll, Hand;
    var k := FindController(s.controllers, w.target);
    match w.action {
      case Connect => ToldForThem(s.controllers, Connect, w.target);
      case Disconnect => ToldForThem(s.controllers, Disconnect, w.target);
      case Message =>
      case DirectMessage =>
        if k < |s.controllers| {
          HandForIt(s, k, w.source, w.target, w.payload);
        }
    }
  }

  lemma NextForThem(m: State, t: Step)
    requires Can(m, t) && forall n :: 0 <= n < |m.sockets| ==> AllForThem(m.sockets[n])
    ensures forall n :: 0 <= n < |Next(m, t).sockets| ==> AllForThem(Next(m, t).sockets[n])
  {
    hide AllForThem, After, Enabled, Queue, ProxyOut;
    match t {
      case Local(n, e) => EventForThem(m.sockets[n], e);
      case Accept(l, a, _) =>
        AlwaysOpens(m.sockets[a], l, true);
        EventForThem(m.sockets[a], LinkOpens(l, true));
      case Attach(l) =>
        AlwaysOpens(m.sockets[m.links[l].dialler], l, false);
        EventForThem(m.sockets[m.links[l].dialler], LinkOpens(l, false));
      case HangUp(l) => EventForThem(m.sockets[m.links[l].owner], LinkCloses(l));
      case Abandon(l) => EventForThem(m.sockets[m.links[l].dialler], LinkCloses(l));
      case Down(l) =>
        EventForThem(m.sockets[m.links[l].dialler], LinkDelivers(l, Queue(m, l)[0]));
        PopForThem(m.sockets[m.links[l].owner], l);
      case Up(l) =>
        var b := m.links[l].dialler;
        EventForThem(m.sockets[m.links[l].owner], LinkDelivers(l, ProxyOut(m.sockets[b], l)[0]));
        PopForThem(m.sockets[b], l);
    }
  }

  lemma AlwaysOpens(s: Socket, l: Id, writeable: bool)
    ensures Enabled(s, LinkOpens(l, writeable))
  {
  }

  lemma PopForThem(s: Socket, l: Id)
    requires AllForThem(s)
    ensures AllForThem(Pop(s, l))
  {
  }

  /** In every run, a controller receives only letters that are for it. */
  lemma {:induction false} OnlyForThem(ms: seq<State>, ts: seq<Step>, i: nat)
    requires Run(ms, ts) && i < |ms|
    ensures forall n :: 0 <= n < |ms[i].sockets| ==> AllForThem(ms[i].sockets[n])
  {
    if i > 0 {
      OnlyForThem(ms, ts, i - 1);
      NextForThem(ms[i - 1], ts[i - 1]);
    }
  }

  /** What has come over one link is not sent on over any: a letter crosses one link at most. */
  lemma OneLinkAtMost(s: Socket, id: Id, w: Wire)
    requires Enabled(s, LinkDelivers(id, w))
    ensures var t := After(s, LinkDelivers(id, w));
            && |t.proxies| == |s.proxies|
            && forall k :: 0 <= k < |s.proxies| ==> t.proxies[k].id == s.proxies[k].id && t.proxies[k].out == s.proxies[k].out
  {
    var j := FindProxy(s.proxies, id);
    assert s.proxies[j].id == id;
  }
}
