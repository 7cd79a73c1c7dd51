/**
 Any number of proxies that serve the same named web socket. A link is dialled by one proxy
 and owned by the other; both ends have the same id. Each step is one handler of one proxy.
 */
module Mesh {
  import opened Sockets

  datatype Stage = Ahead | Open | Over

  /**
   A link: who owns it, who dialled it, whether the owner's end is still there, how far the
   dialler's end has come, and what the owner's end had written when it went.
   */
  datatype Link = Link(owner: nat, dialler: nat, owned: bool, dial: Stage, left: seq<Wire>)

  type Links = map<Id, Link>

  /** For every peer that there has ever been, the proxy that it joined. */
  type Homes = map<Id, nat>

  datatype State = State(sockets: seq<Socket>, links: Links, home: Homes)

  datatype Step =
    | Local(n: nat, event: Event)
    | Accept(l: Id, owner: nat, dialler: nat)
    | Attach(l: Id)
    | HangUp(l: Id)
    | Abandon(l: Id)
    | Down(l: Id)
    | Up(l: Id)

  // ---------------------------------------------------------------- the two ends of a link

  function ProxyOut(s: Socket, l: Id): seq<Wire> {
    var k := FindProxy(s.proxies, l);
    if k < |s.proxies| then s.proxies[k].out else []
  }

  /** What the dialler has still to read from the owner. */
  function Queue(m: State, l: Id): seq<Wire>
    requires l in m.links && m.links[l].owner < |m.sockets|
  {
    if m.links[l].owned then ProxyOut(m.sockets[m.links[l].owner], l) else m.links[l].left
  }

  /** The peers that the dialler believes to be at the owner. */
  function Believed(s: Socket, l: Id): set<Id> {
    var k := FindProxy(s.proxies, l);
    if k < |s.proxies| then s.proxies[k].peers else {}
  }

  /** The end of l without the first message that it had written. */
  function Pop(s: Socket, l: Id): Socket {
    var k := FindProxy(s.proxies, l);
    if k < |s.proxies| && s.proxies[k].out != [] then
      s.(proxies := s.proxies[k := s.proxies[k].(out := s.proxies[k].out[1..])])
    else s
  }

  // ---------------------------------------------------------------- steps

  /** Ids are never used twice: not for two peers, two links, or a peer and a link. */
  predicate Fresh(m: State, id: Id) {
    id !in m.home && id !in m.links
  }

  predicate LocalEvent(m: State, s: Socket, e: Event) {
    && Enabled(s, e)
    && match e
       case PeerArrives(id) => Fresh(m, id)
       case ControllerArrives(id, _) => FindController(s.controllers, id) == |s.controllers|
       case PeerLeaves(_) => true
       case PeerSays(_, _) => true
       case ControllerLeaves(_) => true
       case ControllerSays(_, _, _) => true
       case Dispatch => true
       case LinkOpens(_, _) => false
       case LinkCloses(_) => false
       case LinkDelivers(_, _) => false
  }

  predicate Can(m: State, t: Step) {
    match t
    case Local(n, e) => n < |m.sockets| && LocalEvent(m, m.sockets[n], e)
    case Accept(l, a, b) => Fresh(m, l) && a < |m.sockets| && b < |m.sockets| && a != b
    case Attach(l) => l in m.links && m.links[l].dialler < |m.sockets| && m.links[l].dial == Ahead
    case HangUp(l) =>
      l in m.links && m.links[l].owned && m.links[l].owner < |m.sockets| && Enabled(m.sockets[m.links[l].owner], LinkCloses(l))
    case Abandon(l) =>
      l in m.links && m.links[l].dial == Open && m.links[l].dialler < |m.sockets|
      && Enabled(m.sockets[m.links[l].dialler], LinkCloses(l))
    case Down(l) =>
      && l in m.links && m.links[l].dial == Open && m.links[l].dialler < |m.sockets| && m.links[l].owner < |m.sockets|
      && Queue(m, l) != [] && Enabled(m.sockets[m.links[l].dialler], LinkDelivers(l, Queue(m, l)[0]))
    case Up(l) =>
      && l in m.links && m.links[l].owned && m.links[l].dialler < |m.sockets| && m.links[l].owner < |m.sockets|
      && m.links[l].owner != m.links[l].dialler
      && ProxyOut(m.sockets[m.links[l].dialler], l) != []
      && Enabled(m.sockets[m.links[l].owner], LinkDelivers(l, ProxyOut(m.sockets[m.links[l].dialler], l)[0]))
  }

  function Put(m: State, n: nat, s: Socket): State
    requires n < |m.sockets|
  {
    m.(sockets := m.sockets[n := s])
  }

  /** The first message of the queue is taken out. */
  function PopQueue(m: State, l: Id): State
    requires l in m.links && m.links[l].owner < |m.sockets| && Queue(m, l) != []
  {
    if m.links[l].owned then Put(m, m.links[l].owner, Pop(m.sockets[m.links[l].owner], l))
    else m.(links := m.links[l := m.links[l].(left := m.links[l].left[1..])])
  }

  function Next(m: State, t: Step): State
    requires Can(m, t)
  {
    match t
    case Local(n, e) =>
      var m1 := Put(m, n, After(m.sockets[n], e));
      if e.PeerArrives? then m1.(home := m.home[e.id := n]) else m1
    case Accept(l, a, b) =>
      Put(m, a, After(m.sockets[a], LinkOpens(l, true))).(links := m.links[l := Link(a, b, true, Ahead, [])])
    case Attach(l) =>
      var b := m.links[l].dialler;
      Put(m, b, After(m.sockets[b], LinkOpens(l, false))).(links := m.links[l := m.links[l].(dial := Open)])
    case HangUp(l) =>
      var a := m.links[l].owner;
      Put(m, a, After(m.sockets[a], LinkCloses(l)))
        .(links := m.links[l := m.links[l].(owned := false, left := LastWords(m.sockets[a], l))])
    case Abandon(l) =>
      var b := m.links[l].dialler;
      Put(m, b, After(m.sockets[b], LinkCloses(l))).(links := m.links[l := m.links[l].(dial := Over)])
    case Down(l) =>
      var b, w := m.links[l].dialler, Queue(m, l)[0];
      var m1 := PopQueue(m, l);
      // the owner is another proxy, so that taking the message out leaves the dialler alone
      Put(m1, b, After(m.sockets[b], LinkDelivers(l, w)))
    case Up(l) =>
      var a, b := m.links[l].owner, m.links[l].dialler;
      var w := ProxyOut(m.sockets[b], l)[0];
      Put(Put(m, b, Pop(m.sockets[b], l)), a, After(m.sockets[a], LinkDelivers(l, w)))
  }

  // ---------------------------------------------------------------- what every step keeps

  /** A message from the owner of a link: about its peers, or from one of them. */
  predicate DownWire(w: Wire, n: nat, home: Homes) {
    match w.action
    case Connect => w.target in home && home[w.target] == n
    case Disconnect => w.target in home && home[w.target] == n
    case Message => w.source in home && home[w.source] == n
    case DirectMessage => false
  }

  ghost predicate DownWires(ws: seq<Wire>, n: nat, home: Homes) {
    forall i :: 0 <= i < |ws| ==> DownWire(ws[i], n, home)
  }

  ghost predicate UpWires(ws: seq<Wire>) {
    forall i :: 0 <= i < |ws| ==> ws[i].action == DirectMessage
  }

  /** An end of a link at proxy n: the owner's end is writeable and believes nothing. */
  ghost predicate EndOk(p: Proxy, n: nat, links: Links, home: Homes) {
    && p.id in links
    && if p.writeable then
         links[p.id].owner == n && links[p.id].owned && p.peers == {} && DownWires(p.out, n, home)
       else
         && links[p.id].dialler == n && links[p.id].dial == Open && UpWires(p.out)
         && forall x :: x in p.peers ==> x in home && home[x] == links[p.id].owner
  }

  /** A broadcast in the buffer of proxy n is marked as coming from a proxy if and only if it does. */
  predicate BroadcastOk(b: Broadcast, n: nat, home: Homes) {
    b.source in home && (b.fromProxy <==> home[b.source] != n)
  }

  ghost predicate Distinct(s: Socket) {
    && (forall i, j :: 0 <= i < j < |s.peers| ==> s.peers[i].id != s.peers[j].id)
    && (forall i, j :: 0 <= i < j < |s.controllers| ==> s.controllers[i].id != s.controllers[j].id)
    && (forall i, j :: 0 <= i < j < |s.proxies| ==> s.proxies[i].id != s.proxies[j].id)
  }

  ghost predicate SocketOk(s: Socket, n: nat, links: Links, home: Homes) {
    && Distinct(s)
    && (forall i :: 0 <= i < |s.proxies| ==> EndOk(s.proxies[i], n, links, home))
    && (forall i :: 0 <= i < |s.peers| ==> s.peers[i].id in home && home[s.peers[i].id] == n)
    && (forall i :: 0 <= i < |s.buffer| ==> BroadcastOk(s.buffer[i], n, home))
  }

  ghost predicate HasEnd(s: Socket, l: Id) {
    FindProxy(s.proxies, l) < |s.proxies|
  }

  ghost predicate LinkOk(m: State, l: Id)
    requires l in m.links
  {
    var k := m.links[l];
    && k.owner < |m.sockets| && k.dialler < |m.sockets| && k.owner != k.dialler && l !in m.home
    && (k.owned <==> HasEnd(m.sockets[k.owner], l))
    && (k.dial == Open <==> HasEnd(m.sockets[k.dialler], l))
    && DownWires(k.left, k.owner, m.home)
  }

  ghost predicate Ok(m: State) {
    && (forall n :: 0 <= n < |m.sockets| ==> SocketOk(m.sockets[n], n, m.links, m.home))
    && (forall l :: l in m.links ==> LinkOk(m, l))
  }

  // ---------------------------------------------------------------- why every step keeps it

  /** The ids of the link ends stay what they are. */
  ghost predicate SameEnds(s: Socket, r: Socket) {
    |r.proxies| == |s.proxies| && forall i :: 0 <= i < |s.proxies| ==> r.proxies[i].id == s.proxies[i].id
  }

  lemma SameEndsFound(s: Socket, r: Socket, l: Id)
    requires SameEnds(s, r)
    ensures FindProxy(r.proxies, l) == FindProxy(s.proxies, l)
  {
  }

  /** Links and homes may change as long as no end is concerned. */
  ghost predicate Extends(s: Socket, links: Links, home: Homes, links1: Links, home1: Homes) {
    && (forall x :: x in home ==> x in home1 && home1[x] == home[x])
    && forall i :: 0 <= i < |s.proxies| && s.proxies[i].id in links ==>
         var l := s.proxies[i].id;
         && l in links1 && links1[l].owner == links[l].owner && links1[l].dialler == links[l].dialler
         && (s.proxies[i].writeable ==> links1[l].owned == links[l].owned)
         && (!s.proxies[i].writeable ==> links1[l].dial == links[l].dial)
  }

  lemma SocketExtends(s: Socket, n: nat, links: Links, home: Homes, links1: Links, home1: Homes)
    requires SocketOk(s, n, links, home) && Extends(s, links, home, links1, home1)
    ensures SocketOk(s, n, links1, home1)
  {
    forall i | 0 <= i < |s.proxies| ensures EndOk(s.proxies[i], n, links1, home1) {
      assert EndOk(s.proxies[i], n, links, home);
      if s.proxies[i].writeable {
        WiresExtend(s.proxies[i].out, n, home, home1);
      }
    }
    forall i | 0 <= i < |s.buffer| ensures BroadcastOk(s.buffer[i], n, home1) {
      assert BroadcastOk(s.buffer[i], n, home);
    }
  }

  lemma WiresExtend(ws: seq<Wire>, n: nat, home: Homes, home1: Homes)
    requires DownWires(ws, n, home) && forall x :: x in home ==> x in home1 && home1[x] == home[x]
    ensures DownWires(ws, n, home1)
  {
    forall i | 0 <= i < |ws| ensures DownWire(ws[i], n, home1) {
      assert DownWire(ws[i], n, home);
    }
  }

  lemma AnnounceKeeps(ps: seq<Proxy>, action: Action, target: Id, n: nat, links: Links, home: Homes)
    requires forall i :: 0 <= i < |ps| ==> EndOk(ps[i], n, links, home)
    requires action.Connect? || action.Disconnect?
    requires target in home && home[target] == n
    ensures forall i :: 0 <= i < |ps| ==> EndOk(Announce(ps, action, target)[i], n, links, home)
  {
    forall i | 0 <= i < |ps| ensures EndOk(Announce(ps, action, target)[i], n, links, home) {
      assert EndOk(ps[i], n, links, home);
    }
  }

  lemma PeerArrivesKeeps(s: Socket, id: Id, n: nat, links: Links, home: Homes)
    requires SocketOk(s, n, links, home) && id !in home
    ensures SocketOk(After(s, PeerArrives(id)), n, links, home[id := n])
    ensures SameEnds(s, After(s, PeerArrives(id)))
  {
    var home1 := home[id := n];
    SocketExtends(s, n, links, home, links, home1);
    AnnounceKeeps(s.proxies, Connect, id, n, links, home1);
  }

  lemma PeerLeavesKeeps(s: Socket, id: Id, n: nat, links: Links, home: Homes)
    requires SocketOk(s, n, links, home) && Enabled(s, PeerLeaves(id))
    ensures SocketOk(After(s, PeerLeaves(id)), n, links, home)
    ensures SameEnds(s, After(s, PeerLeaves(id)))
  {
    AnnounceKeeps(s.proxies, Disconnect, id, n, links, home);
  }

  lemma PeerSaysKeeps(s: Socket, id: Id, payload: string, n: nat, links: Links, home: Homes)
    requires SocketOk(s, n, links, home) && Enabled(s, PeerSays(id, payload))
    ensures SocketOk(After(s, PeerSays(id, payload)), n, links, home)
  {
    var r := After(s, PeerSays(id, payload));
    forall i | 0 <= i < |r.buffer| ensures BroadcastOk(r.buffer[i], n, home) {
      if i < |s.buffer| {
        assert BroadcastOk(s.buffer[i], n, home);
      }
    }
  }

  lemma ControllersKeep(s: Socket, e: Event, n: nat, links: Links, home: Homes)
    requires SocketOk(s, n, links, home) && Enabled(s, e) && (e.ControllerArrives? || e.ControllerLeaves?)
    requires e.ControllerArrives? ==> FindController(s.controllers, e.id) == |s.controllers|
    ensures SocketOk(After(s, e), n, links, home)
  {
    assert After(s, e).proxies == s.proxies && After(s, e).buffer == s.buffer;
  }

  lemma RouteKeeps(s: Socket, source: Id, target: Id, payload: string, n: nat, links: Links, home: Homes)
    requires SocketOk(s, n, links, home)
    ensures SocketOk(Route(s, source, target, payload), n, links, home)
    ensures SameEnds(s, Route(s, source, target, payload))
  {
    var r := Route(s, source, target, payload);
    assert Distinct(r);
    forall i | 0 <= i < |r.proxies| ensures EndOk(r.proxies[i], n, links, home) {
      assert EndOk(s.proxies[i], n, links, home);
    }
  }

  lemma DispatchKeeps(s: Socket, n: nat, links: Links, home: Homes)
    requires SocketOk(s, n, links, home) && s.buffer != []
    ensures SocketOk(After(s, Dispatch), n, links, home)
    ensures SameEnds(s, After(s, Dispatch))
  {
    var r, m := After(s, Dispatch), s.buffer[0];
    assert BroadcastOk(m, n, home);
    assert Distinct(r);
    forall i | 0 <= i < |r.proxies| ensures EndOk(r.proxies[i], n, links, home) {
      assert EndOk(s.proxies[i], n, links, home);
    }
    forall i | 0 <= i < |r.buffer| ensures BroadcastOk(r.buffer[i], n, home) {
      assert BroadcastOk(s.buffer[i + 1], n, home);
    }
  }

  lemma PopKeeps(s: Socket, l: Id, n: nat, links: Links, home: Homes)
    requires SocketOk(s, n, links, home)
    ensures SocketOk(Pop(s, l), n, links, home) && SameEnds(s, Pop(s, l))
  {
    var r := Pop(s, l);
    assert Distinct(r);
    forall i | 0 <= i < |r.proxies| ensures EndOk(r.proxies[i], n, links, home) {
      assert EndOk(s.proxies[i], n, links, home);
    }
  }

  /** What a link delivers fits the end at which it arrives. */
  ghost predicate Fits(p: Proxy, w: Wire, links: Links, home: Homes) {
    && p.id in links
    && if p.writeable then w.action == DirectMessage
       else DownWire(w, links[p.id].owner, home) && links[p.id].owner != links[p.id].dialler
  }

  lemma ReceiveKeeps(s: Socket, j: nat, w: Wire, n: nat, links: Links, home: Homes)
    requires SocketOk(s, n, links, home) && j < |s.proxies| && Fits(s.proxies[j], w, links, home)
    ensures SocketOk(Receive(s, j, w), n, links, home) && SameEnds(s, Receive(s, j, w))
  {
    var r := Receive(s, j, w);
    assert EndOk(s.proxies[j], n, links, home);
    assert Distinct(r);
    forall i | 0 <= i < |r.proxies| ensures EndOk(r.proxies[i], n, links, home) {
      assert EndOk(s.proxies[i], n, links, home);
    }
    forall i | 0 <= i < |r.buffer| ensures BroadcastOk(r.buffer[i], n, home) {
      if i < |s.buffer| {
        assert BroadcastOk(s.buffer[i], n, home);
      }
    }
  }

  lemma RollIsDown(peers: seq<Peer>, action: Action, l: Id, n: nat, home: Homes)
    requires forall i :: 0 <= i < |peers| ==> peers[i].id in home && home[peers[i].id] == n
    requires action == Connect || action == Disconnect
    ensures DownWires(Roll(peers, action, l), n, home)
  {
  }

  lemma OpensKeeps(s: Socket, l: Id, writeable: bool, n: nat, links: Links, home: Homes)
    requires SocketOk(s, n, links, home) && !HasEnd(s, l) && l in links
    requires if writeable then links[l].owner == n && links[l].owned else links[l].dialler == n && links[l].dial == Open
    ensures SocketOk(After(s, LinkOpens(l, writeable)), n, links, home)
    ensures forall x :: HasEnd(After(s, LinkOpens(l, writeable)), x) <==> HasEnd(s, x) || x == l
  {
    var r := After(s, LinkOpens(l, writeable));
    RollIsDown(s.peers, Connect, l, n, home);
    assert Distinct(r);
    forall x ensures HasEnd(r, x) <==> HasEnd(s, x) || x == l {
      EndIsThere(s, x);
      EndIsThere(r, x);
      if HasEnd(s, x) {
        assert r.proxies[FindProxy(s.proxies, x)].id == x;
      }
      assert r.proxies[|s.proxies|].id == l;
    }
  }

  lemma EndIsThere(s: Socket, l: Id)
    ensures HasEnd(s, l) <==> exists i :: 0 <= i < |s.proxies| && s.proxies[i].id == l
  {
    if HasEnd(s, l) {
      assert s.proxies[FindProxy(s.proxies, l)].id == l;
    }
  }

  lemma ClosesKeeps(s: Socket, l: Id, n: nat, links: Links, home: Homes, links1: Links)
    requires SocketOk(s, n, links, home) && HasEnd(s, l)
    requires forall x :: x in links && x != l ==> x in links1 && links1[x] == links[x]
    ensures SocketOk(After(s, LinkCloses(l)), n, links1, home)
  {
    var r, k := After(s, LinkCloses(l)), FindProxy(s.proxies, l);
    assert forall i :: 0 <= i < |r.proxies| ==> r.proxies[i] == s.proxies[if i < k then i else i + 1];
    assert Distinct(r);
    forall i | 0 <= i < |r.proxies| ensures EndOk(r.proxies[i], n, links1, home) {
      assert EndOk(s.proxies[if i < k then i else i + 1], n, links, home);
    }
  }

  lemma ClosedEnds(s: Socket, l: Id)
    requires Distinct(s) && HasEnd(s, l)
    ensures forall x :: HasEnd(After(s, LinkCloses(l)), x) <==> HasEnd(s, x) && x != l
  {
    var r, k := After(s, LinkCloses(l)), FindProxy(s.proxies, l);
    assert forall i :: 0 <= i < |r.proxies| ==> r.proxies[i] == s.proxies[if i < k then i else i + 1];
    forall x ensures HasEnd(r, x) <==> HasEnd(s, x) && x != l {
      EndIsThere(s, x);
      EndIsThere(r, x);
      if HasEnd(s, x) && x != l {
        var i := FindProxy(s.proxies, x);
        assert r.proxies[if i < k then i else i - 1].id == x;
      }
    }
  }

  /** The end found is the owner's if and only if this is the owner's proxy. */
  lemma EndFound(s: Socket, l: Id, n: nat, links: Links, home: Homes)
    requires SocketOk(s, n, links, home) && HasEnd(s, l) && l in links && links[l].owner != links[l].dialler
    ensures var p := s.proxies[FindProxy(s.proxies, l)];
            && EndOk(p, n, links, home) && p.id == l
            && (p.writeable <==> links[l].owner == n)
  {
    assert EndOk(s.proxies[FindProxy(s.proxies, l)], n, links, home);
  }

  lemma LastWordsAreDown(s: Socket, l: Id, n: nat, links: Links, home: Homes)
    requires SocketOk(s, n, links, home) && HasEnd(s, l) && s.proxies[FindProxy(s.proxies, l)].writeable
    ensures DownWires(LastWords(s, l), n, home)
  {
    assert EndOk(s.proxies[FindProxy(s.proxies, l)], n, links, home);
    RollIsDown(s.peers, Disconnect, l, n, home);
  }

  // ---------------------------------------------------------------- whole states

  lemma LocalKeeps(m: State, n: nat, e: Event)
    requires Ok(m) && Can(m, Local(n, e))
    ensures var r := After(m.sockets[n], e);
            && SocketOk(r, n, m.links, if e.PeerArrives? then m.home[e.id := n] else m.home)
            && SameEnds(m.sockets[n], r)
  {
    var s := m.sockets[n];
    hide SocketOk, SameEnds;
    assert SocketOk(s, n, m.links, m.home);
    match e {
      case PeerArrives(id) => PeerArrivesKeeps(s, id, n, m.links, m.home);
      case PeerLeaves(id) => PeerLeavesKeeps(s, id, n, m.links, m.home);
      case PeerSays(id, payload) =>
        PeerSaysKeeps(s, id, payload, n, m.links, m.home);
        SameProxies(s, After(s, e));
      case ControllerArrives(_, _) =>
        ControllersKeep(s, e, n, m.links, m.home);
        SameProxies(s, After(s, e));
      case ControllerLeaves(_) =>
        ControllersKeep(s, e, n, m.links, m.home);
        SameProxies(s, After(s, e));
      case ControllerSays(id, target, payload) => RouteKeeps(s, id, target, payload, n, m.links, m.home);
      case Dispatch => DispatchKeeps(s, n, m.links, m.home);
    }
  }

  lemma SameProxies(s: Socket, r: Socket)
    requires r.proxies == s.proxies
    ensures SameEnds(s, r)
  {
  }

  /** One socket is replaced; links and homes change without harm to the other sockets. */
  lemma StateKeeps(m: State, n: nat, s: Socket, links1: Links, home1: Homes)
    requires Ok(m) && n < |m.sockets| && SocketOk(s, n, links1, home1)
    requires forall k :: 0 <= k < |m.sockets| && k != n ==> Extends(m.sockets[k], m.links, m.home, links1, home1)
    requires forall l :: l in links1 ==> LinkOk(State(m.sockets[n := s], links1, home1), l)
    ensures Ok(State(m.sockets[n := s], links1, home1))
  {
    hide SocketOk, Extends, LinkOk;
    var sockets := m.sockets[n := s];
    forall k | 0 <= k < |sockets| ensures SocketOk(sockets[k], k, links1, home1) {
      if k != n {
        SocketExtends(m.sockets[k], k, m.links, m.home, links1, home1);
      }
    }
  }

  lemma LinksAfter(m: State, n: nat, s: Socket, home1: Homes)
    requires Ok(m) && n < |m.sockets| && SameEnds(m.sockets[n], s)
    requires forall x :: x in m.home ==> x in home1 && home1[x] == m.home[x]
    requires forall l :: l in m.links ==> l !in home1
    ensures forall l :: l in m.links ==> LinkOk(State(m.sockets[n := s], m.links, home1), l)
  {
    forall l | l in m.links ensures LinkOk(State(m.sockets[n := s], m.links, home1), l) {
      assert LinkOk(m, l);
      SameEndsFound(m.sockets[n], s, l);
      WiresExtend(m.links[l].left, m.links[l].owner, m.home, home1);
    }
  }

  lemma SameLinks(s: Socket, links: Links, home: Homes, home1: Homes)
    requires forall x :: x in home ==> x in home1 && home1[x] == home[x]
    ensures Extends(s, links, home, links, home1)
  {
  }

  /** A socket is replaced by one with the same ends. */
  lemma ReplaceKeeps(m: State, n: nat, s: Socket, home1: Homes)
    requires Ok(m) && n < |m.sockets| && SocketOk(s, n, m.links, home1) && SameEnds(m.sockets[n], s)
    requires forall x :: x in m.home ==> x in home1 && home1[x] == m.home[x]
    requires forall l :: l in m.links ==> l !in home1
    ensures Ok(State(m.sockets[n := s], m.links, home1))
  {
    hide SocketOk, Extends, LinkOk, SameEnds;
    LinksAfter(m, n, s, home1);
    forall k | 0 <= k < |m.sockets| ensures Extends(m.sockets[k], m.links, m.home, m.links, home1) {
      SameLinks(m.sockets[k], m.links, m.home, home1);
    }
    StateKeeps(m, n, s, m.links, home1);
  }

  /** Links other than l do not see that its end at n has come or gone. */
  lemma OtherLinks(m: State, n: nat, r: Socket, l: Id, links1: Links)
    requires Ok(m) && n < |m.sockets| && l in links1 && links1 == m.links[l := links1[l]]
    requires forall x :: x != l ==> (HasEnd(r, x) <==> HasEnd(m.sockets[n], x))
    ensures forall x :: x in links1 && x != l ==> LinkOk(State(m.sockets[n := r], links1, m.home), x)
  {
    hide SocketOk, HasEnd, DownWires;
    forall x | x in links1 && x != l ensures LinkOk(State(m.sockets[n := r], links1, m.home), x) {
      assert LinkOk(m, x);
    }
  }

  lemma AcceptKeeps(m: State, l: Id, a: nat, b: nat)
    requires Ok(m) && Can(m, Accept(l, a, b))
    ensures Ok(Next(m, Accept(l, a, b)))
  {
    var s, k := m.sockets[a], Link(a, b, true, Ahead, []);
    var links1 := m.links[l := k];
    NoEnd(m, l);
    NewExtends(m, l, links1);
    SocketExtends(s, a, m.links, m.home, links1, m.home);
    OpensKeeps(s, l, true, a, links1, m.home);
    hide SocketOk, HasEnd, Extends;
    var r := After(s, LinkOpens(l, true));
    OtherLinks(m, a, r, l, links1);
    assert LinkOk(State(m.sockets[a := r], links1, m.home), l);
    hide LinkOk;
    StateKeeps(m, a, r, links1, m.home);
  }

  lemma NewExtends(m: State, l: Id, links1: Links)
    requires Ok(m) && l !in m.links && l in links1 && links1 == m.links[l := links1[l]]
    ensures forall k :: 0 <= k < |m.sockets| ==> Extends(m.sockets[k], m.links, m.home, links1, m.home)
  {
  }

  /** A link that does not exist has no ends. */
  lemma NoEnd(m: State, l: Id)
    requires Ok(m) && l !in m.links
    ensures forall k :: 0 <= k < |m.sockets| ==> !HasEnd(m.sockets[k], l)
  {
    forall k | 0 <= k < |m.sockets| ensures !HasEnd(m.sockets[k], l) {
      if HasEnd(m.sockets[k], l) {
        EndIsLinked(m.sockets[k], l, k, m.links, m.home);
      }
    }
  }

  lemma EndIsLinked(s: Socket, l: Id, n: nat, links: Links, home: Homes)
    requires SocketOk(s, n, links, home) && HasEnd(s, l)
    ensures l in links
  {
    assert EndOk(s.proxies[FindProxy(s.proxies, l)], n, links, home);
  }

  lemma AttachKeeps(m: State, l: Id)
    requires Ok(m) && Can(m, Attach(l))
    ensures Ok(Next(m, Attach(l)))
  {
    hide SocketOk, HasEnd, Extends, Ok, After;
    var b, links1 := m.links[l].dialler, m.links[l := m.links[l].(dial := Open)];
    AttachedEnd(m, l);
    ElsewhereExtends(m, l, links1);
    var r := After(m.sockets[b], LinkOpens(l, false));
    OtherLinks(m, b, r, l, links1);
    StateKeeps(m, b, r, links1, m.home);
  }

  /** The dialler's end is there, and the link is in order. */
  lemma AttachedEnd(m: State, l: Id)
    requires Ok(m) && Can(m, Attach(l))
    ensures var b, links1 := m.links[l].dialler, m.links[l := m.links[l].(dial := Open)];
            var r := After(m.sockets[b], LinkOpens(l, false));
            && SocketOk(r, b, links1, m.home)
            && (forall x :: x != l ==> (HasEnd(r, x) <==> HasEnd(m.sockets[b], x)))
            && LinkOk(State(m.sockets[b := r], links1, m.home), l)
  {
    var b, links1 := m.links[l].dialler, m.links[l := m.links[l].(dial := Open)];
    assert LinkOk(m, l);
    NotHereExtends(m, l, links1);
    hide SocketOk, HasEnd, Extends, After;
    SocketExtends(m.sockets[b], b, m.links, m.home, links1, m.home);
    OpensKeeps(m.sockets[b], l, false, b, links1, m.home);
  }

  lemma NotHereExtends(m: State, l: Id, links1: Links)
    requires Ok(m) && l in m.links && m.links[l].dial != Open && l in links1 && links1 == m.links[l := links1[l]]
    ensures var b := m.links[l].dialler; b < |m.sockets| && Extends(m.sockets[b], m.links, m.home, links1, m.home)
  {
    assert LinkOk(m, l);
    EndIsThere(m.sockets[m.links[l].dialler], l);
  }

  /** How far the dialler has come does not concern other sockets. */
  lemma ElsewhereExtends(m: State, l: Id, links1: Links)
    requires Ok(m) && l in m.links && l in links1 && links1 == m.links[l := m.links[l].(dial := links1[l].dial)]
    ensures forall k :: 0 <= k < |m.sockets| && k != m.links[l].dialler ==>
              Extends(m.sockets[k], m.links, m.home, links1, m.home)
  {
    forall k | 0 <= k < |m.sockets| && k != m.links[l].dialler
      ensures Extends(m.sockets[k], m.links, m.home, links1, m.home)
    {
      forall i | 0 <= i < |m.sockets[k].proxies| && m.sockets[k].proxies[i].id == l
        ensures m.sockets[k].proxies[i].writeable
      {
        assert EndOk(m.sockets[k].proxies[i], k, m.links, m.home);
      }
    }
  }

  lemma AbandonKeeps(m: State, l: Id)
    requires Ok(m) && Can(m, Abandon(l))
    ensures Ok(Next(m, Abandon(l)))
  {
    hide SocketOk, HasEnd, Extends, Ok, After;
    var b, links1 := m.links[l].dialler, m.links[l := m.links[l].(dial := Over)];
    AbandonedEnd(m, l);
    ElsewhereExtends(m, l, links1);
    var r := After(m.sockets[b], LinkCloses(l));
    OtherLinks(m, b, r, l, links1);
    StateKeeps(m, b, r, links1, m.home);
  }

  /** The dialler's end is gone, and the link is in order. */
  lemma AbandonedEnd(m: State, l: Id)
    requires Ok(m) && Can(m, Abandon(l))
    ensures var b, links1 := m.links[l].dialler, m.links[l := m.links[l].(dial := Over)];
            var r := After(m.sockets[b], LinkCloses(l));
            && SocketOk(r, b, links1, m.home)
            && (forall x :: x != l ==> (HasEnd(r, x) <==> HasEnd(m.sockets[b], x)))
            && LinkOk(State(m.sockets[b := r], links1, m.home), l)
  {
    hide Extends, After, Distinct, EndOk, BroadcastOk;
    var b, links1 := m.links[l].dialler, m.links[l := m.links[l].(dial := Over)];
    assert LinkOk(m, l);
    assert SocketOk(m.sockets[b], b, m.links, m.home);
    ClosesKeeps(m.sockets[b], l, b, m.links, m.home, links1);
    ClosedEnds(m.sockets[b], l);
  }

  lemma HangUpKeeps(m: State, l: Id)
    requires Ok(m) && Can(m, HangUp(l))
    ensures Ok(Next(m, HangUp(l)))
  {
    var a := m.links[l].owner;
    var s := m.sockets[a];
    var links1 := m.links[l := m.links[l].(owned := false, left := LastWords(s, l))];
    assert LinkOk(m, l);
    EndFound(s, l, a, m.links, m.home);
    LastWordsAreDown(s, l, a, m.links, m.home);
    ClosesKeeps(s, l, a, m.links, m.home, links1);
    ClosedEnds(s, l);
    NotOwnerExtends(m, l, links1);
    hide SocketOk, HasEnd, Extends;
    var r := After(s, LinkCloses(l));
    OtherLinks(m, a, r, l, links1);
    assert LinkOk(State(m.sockets[a := r], links1, m.home), l);
    hide LinkOk;
    StateKeeps(m, a, r, links1, m.home);
  }

  lemma NotOwnerExtends(m: State, l: Id, links1: Links)
    requires Ok(m) && l in m.links && l in links1
    requires links1 == m.links[l := m.links[l].(owned := links1[l].owned, left := links1[l].left)]
    ensures forall k :: 0 <= k < |m.sockets| && k != m.links[l].owner ==>
              Extends(m.sockets[k], m.links, m.home, links1, m.home)
  {
    forall k | 0 <= k < |m.sockets| && k != m.links[l].owner
      ensures Extends(m.sockets[k], m.links, m.home, links1, m.home)
    {
      forall i | 0 <= i < |m.sockets[k].proxies| && m.sockets[k].proxies[i].id == l
        ensures !m.sockets[k].proxies[i].writeable
      {
        assert EndOk(m.sockets[k].proxies[i], k, m.links, m.home);
      }
    }
  }

  /** The queue of a link holds messages from the owner. */
  lemma QueueIsDown(m: State, l: Id)
    requires Ok(m) && l in m.links && m.links[l].owner < |m.sockets|
    ensures DownWires(Queue(m, l), m.links[l].owner, m.home)
  {
    assert LinkOk(m, l);
    if m.links[l].owned {
      EndFound(m.sockets[m.links[l].owner], l, m.links[l].owner, m.links, m.home);
    }
  }

  lemma PopQueueKeeps(m: State, l: Id)
    requires Ok(m) && l in m.links && m.links[l].owner < |m.sockets| && Queue(m, l) != []
    ensures Ok(PopQueue(m, l))
  {
    assert LinkOk(m, l);
    var a := m.links[l].owner;
    var s := m.sockets[a];
    if m.links[l].owned {
      PopKeeps(s, l, a, m.links, m.home);
      NotHomes(m);
      ReplaceKeeps(m, a, Pop(s, l), m.home);
    } else {
      var links1 := m.links[l := m.links[l].(left := m.links[l].left[1..])];
      LeftExtends(m, l, links1);
      SocketExtends(s, a, m.links, m.home, links1, m.home);
      hide SocketOk, HasEnd, Extends;
      OtherLinks(m, a, s, l, links1);
      assert m.sockets[a := s] == m.sockets;
      assert LinkOk(State(m.sockets[a := s], links1, m.home), l);
      hide LinkOk;
      StateKeeps(m, a, s, links1, m.home);
    }
  }

  lemma LeftExtends(m: State, l: Id, links1: Links)
    requires Ok(m) && l in m.links && l in links1 && links1 == m.links[l := m.links[l].(left := links1[l].left)]
    ensures forall k :: 0 <= k < |m.sockets| ==> Extends(m.sockets[k], m.links, m.home, links1, m.home)
  {
  }

  lemma NotHomes(m: State)
    requires Ok(m)
    ensures forall l :: l in m.links ==> l !in m.home
  {
    forall l | l in m.links ensures l !in m.home {
      assert LinkOk(m, l);
    }
  }

  /** Taking a message out of the queue leaves other sockets and the link's ends alone. */
  lemma PopQueueElsewhere(m: State, l: Id)
    requires l in m.links && m.links[l].owner < |m.sockets| && Queue(m, l) != []
    ensures var r := PopQueue(m, l);
            && |r.sockets| == |m.sockets| && r.home == m.home
            && (forall k :: 0 <= k < |m.sockets| && k != m.links[l].owner ==> r.sockets[k] == m.sockets[k])
            && r.links.Keys == m.links.Keys
            && (forall x :: x in m.links ==> r.links[x] == m.links[x].(left := r.links[x].left))
  {
  }

  lemma DeliverKeeps(m: State, n: nat, l: Id, w: Wire)
    requires Ok(m) && n < |m.sockets| && HasEnd(m.sockets[n], l)
    requires Fits(m.sockets[n].proxies[FindProxy(m.sockets[n].proxies, l)], w, m.links, m.home)
    requires Enabled(m.sockets[n], LinkDelivers(l, w))
    ensures Ok(Put(m, n, After(m.sockets[n], LinkDelivers(l, w))))
  {
    var s := m.sockets[n];
    ReceiveKeeps(s, FindProxy(s.proxies, l), w, n, m.links, m.home);
    NotHomes(m);
    ReplaceKeeps(m, n, After(s, LinkDelivers(l, w)), m.home);
  }

  lemma DownKeeps(m: State, l: Id)
    requires Ok(m) && Can(m, Down(l))
    ensures Ok(Next(m, Down(l)))
  {
    var b, w := m.links[l].dialler, Queue(m, l)[0];
    QueueIsDown(m, l);
    assert DownWire(w, m.links[l].owner, m.home);
    assert LinkOk(m, l);
    PopQueueKeeps(m, l);
    PopQueueElsewhere(m, l);
    hide PopQueue, SocketOk;
    var m1 := PopQueue(m, l);
    EndFound(m1.sockets[b], l, b, m1.links, m1.home);
    DeliverKeeps(m1, b, l, w);
  }

  lemma UpKeeps(m: State, l: Id)
    requires Ok(m) && Can(m, Up(l))
    ensures Ok(Next(m, Up(l)))
  {
    var a, b := m.links[l].owner, m.links[l].dialler;
    var w := ProxyOut(m.sockets[b], l)[0];
    assert LinkOk(m, l);
    EndFound(m.sockets[b], l, b, m.links, m.home);
    PopKeeps(m.sockets[b], l, b, m.links, m.home);
    NotHomes(m);
    ReplaceKeeps(m, b, Pop(m.sockets[b], l), m.home);
    var m1 := Put(m, b, Pop(m.sockets[b], l));
    EndFound(m1.sockets[a], l, a, m1.links, m1.home);
    DeliverKeeps(m1, a, l, w);
  }

  lemma NextKeeps(m: State, t: Step)
    requires Ok(m) && Can(m, t)
    ensures Ok(Next(m, t))
  {
    match t {
      case Local(n, e) =>
        LocalKeeps(m, n, e);
        var home1 := if e.PeerArrives? then m.home[e.id := n] else m.home;
        forall x | x in m.links ensures x !in home1 {
          assert LinkOk(m, x);
        }
        ReplaceKeeps(m, n, After(m.sockets[n], e), home1);
      case Accept(l, a, b) => AcceptKeeps(m, l, a, b);
      case Attach(l) => AttachKeeps(m, l);
      case HangUp(l) => HangUpKeeps(m, l);
      case Abandon(l) => AbandonKeeps(m, l);
      case Down(l) => DownKeeps(m, l);
      case Up(l) => UpKeeps(m, l);
    }
  }
}