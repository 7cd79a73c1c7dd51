/**
 One named web socket of one proxy, as values: its peers, its controllers, its links to other
 proxies, and what each handler makes of them. A connection carries what was written to it.
 */
module Sockets {

  type Id = int

  datatype Action = Connect | Disconnect | Message | DirectMessage

  /** What controllers and proxies are sent. */
  datatype Wire = Wire(action: Action, source: Id, target: Id, payload: string)

  /** An entry of the broadcast buffer. */
  datatype Broadcast = Broadcast(source: Id, payload: string, fromProxy: bool)

  /** A peer: what it has said, and the broadcasts it has been sent. */
  datatype Peer = Peer(id: Id, said: seq<string>, inbox: seq<Broadcast>)

  datatype Controller = Controller(id: Id, told: seq<Wire>)

  /** One end of a link to another proxy; out is what the other end has still to read. */
  datatype Proxy = Proxy(id: Id, writeable: bool, peers: set<Id>, out: seq<Wire>)

  datatype Socket = Socket(controllers: seq<Controller>, peers: seq<Peer>, proxies: seq<Proxy>, buffer: seq<Broadcast>)

  const BUFFER_SIZE := 512

  // ---------------------------------------------------------------- sending

  function Tell(c: Controller, action: Action, target: Id): Controller {
    c.(told := c.told + [Wire(action, c.id, target, "")])
  }

  /** Every controller is told about target. */
  function TellAll(cs: seq<Controller>, action: Action, target: Id): (r: seq<Controller>)
    ensures |r| == |cs|
  {
    seq(|cs|, i requires 0 <= i < |cs| => Tell(cs[i], action, target))
  }

  /** Every controller but target's own is told about it. */
  function TellOthers(cs: seq<Controller>, action: Action, target: Id): (r: seq<Controller>)
    ensures |r| == |cs|
  {
    seq(|cs|, i requires 0 <= i < |cs| => if cs[i].id != target then Tell(cs[i], action, target) else cs[i])
  }

  function Send(p: Proxy, action: Action, source: Id, target: Id, payload: string): Proxy {
    p.(out := p.out + [Wire(action, source, target, payload)])
  }

  /** Every writeable link is told about target. */
  function Announce(ps: seq<Proxy>, action: Action, target: Id): (r: seq<Proxy>)
    ensures |r| == |ps|
  {
    seq(|ps|, i requires 0 <= i < |ps| => if ps[i].writeable then Send(ps[i], action, ps[i].id, target, "") else ps[i])
  }

  /** One announcement for each peer. */
  function Roll(peers: seq<Peer>, action: Action, source: Id): (r: seq<Wire>)
    ensures |r| == |peers|
  {
    seq(|peers|, i requires 0 <= i < |peers| => Wire(action, source, peers[i].id, ""))
  }

  // ---------------------------------------------------------------- finding connections

  function FindPeer(ps: seq<Peer>, id: Id): (k: nat)
    ensures k <= |ps| && (k < |ps| ==> ps[k].id == id)
    ensures forall i :: 0 <= i < k ==> ps[i].id != id
  {
    if ps == [] || ps[0].id == id then 0 else 1 + FindPeer(ps[1..], id)
  }

  function FindController(cs: seq<Controller>, id: Id): (k: nat)
    ensures k <= |cs| && (k < |cs| ==> cs[k].id == id)
    ensures forall i :: 0 <= i < k ==> cs[i].id != id
  {
    if cs == [] || cs[0].id == id then 0 else 1 + FindController(cs[1..], id)
  }

  function FindProxy(ps: seq<Proxy>, id: Id): (k: nat)
    ensures k <= |ps| && (k < |ps| ==> ps[k].id == id)
    ensures forall i :: 0 <= i < k ==> ps[i].id != id
  {
    if ps == [] || ps[0].id == id then 0 else 1 + FindProxy(ps[1..], id)
  }

  /** The first link that is known to lead to a peer. */
  function FindRoute(ps: seq<Proxy>, target: Id): (k: nat)
    ensures k <= |ps| && (k < |ps| ==> target in ps[k].peers)
    ensures forall i :: 0 <= i < k ==> target !in ps[i].peers
  {
    if ps == [] || target in ps[0].peers then 0 else 1 + FindRoute(ps[1..], target)
  }

  function Without<T>(s: seq<T>, k: nat): seq<T> {
    if k < |s| then s[..k] + s[k + 1..] else s
  }

  // ---------------------------------------------------------------- broadcasts

  function Deliver(p: Peer, m: Broadcast): Peer {
    if p.id == m.source then p else p.(inbox := p.inbox + [m])
  }

  function DeliverAll(ps: seq<Peer>, m: Broadcast): (r: seq<Peer>)
    ensures |r| == |ps|
  {
    seq(|ps|, i requires 0 <= i < |ps| => Deliver(ps[i], m))
  }

  function Forward(p: Proxy, m: Broadcast): Proxy {
    if !p.writeable || p.id == m.source then p else Send(p, Message, m.source, 0, m.payload)
  }

  function ForwardAll(ps: seq<Proxy>, m: Broadcast): (r: seq<Proxy>)
    ensures |r| == |ps|
  {
    if m.fromProxy then ps else seq(|ps|, i requires 0 <= i < |ps| => Forward(ps[i], m))
  }

  // ---------------------------------------------------------------- handlers

  /** What controller c hears when it arrives; orders says how each map of peers is walked through. */
  function Welcome(s: Socket, c: Id, orders: seq<seq<Id>>): seq<Wire> {
    WelcomePeers(s.peers, c) + WelcomeOrders(orders, c)
  }

  function WelcomePeers(peers: seq<Peer>, c: Id): seq<Wire> {
    if peers == [] then []
    else (if peers[0].id != c then [Wire(Connect, c, peers[0].id, "")] else []) + WelcomePeers(peers[1..], c)
  }

  function WelcomeIds(ids: seq<Id>, c: Id): seq<Wire> {
    seq(|ids|, i requires 0 <= i < |ids| => Wire(Connect, c, ids[i], ""))
  }

  function WelcomeOrders(orders: seq<seq<Id>>, c: Id): seq<Wire> {
    if orders == [] then [] else WelcomeIds(orders[0], c) + WelcomeOrders(orders[1..], c)
  }

  /** order lists the elements of ids, each once. */
  predicate Lists(order: seq<Id>, ids: set<Id>) {
    && (forall i :: 0 <= i < |order| ==> order[i] in ids)
    && (forall x :: x in ids ==> x in order)
    && (forall i, j :: 0 <= i < j < |order| ==> order[i] != order[j])
  }

  predicate ListsAll(orders: seq<seq<Id>>, ps: seq<Proxy>) {
    |orders| == |ps| && forall i :: 0 <= i < |ps| ==> Lists(orders[i], ps[i].peers)
  }

  function Drop(cs: seq<Controller>, id: Id): seq<Controller> {
    Without(cs, FindController(cs, id))
  }

  datatype Event =
    | PeerArrives(id: Id)
    | PeerLeaves(id: Id)
    | PeerSays(id: Id, payload: string)
    | ControllerArrives(id: Id, orders: seq<seq<Id>>)
    | ControllerLeaves(id: Id)
    | ControllerSays(id: Id, target: Id, payload: string)
    | LinkOpens(id: Id, writeable: bool)
    | LinkCloses(id: Id)
    | LinkDelivers(id: Id, wire: Wire)
    | Dispatch

  /** Whether the event can happen: what it is about is there, and a full buffer makes its writers wait. */
  predicate Enabled(s: Socket, e: Event) {
    match e
    case PeerArrives(_) => true
    case PeerLeaves(id) => FindPeer(s.peers, id) < |s.peers|
    case PeerSays(id, _) => FindPeer(s.peers, id) < |s.peers| && |s.buffer| < BUFFER_SIZE
    case ControllerArrives(_, orders) => ListsAll(orders, s.proxies)
    case ControllerLeaves(_) => true
    case ControllerSays(_, _, _) => true
    case LinkOpens(_, _) => true
    case LinkCloses(id) => FindProxy(s.proxies, id) < |s.proxies|
    case LinkDelivers(id, w) =>
      FindProxy(s.proxies, id) < |s.proxies| && (w.action == Message ==> |s.buffer| < BUFFER_SIZE)
    case Dispatch => s.buffer != []
  }

  /** What a handler makes of the socket. */
  function After(s: Socket, e: Event): Socket
    requires Enabled(s, e)
  {
    match e
    case PeerArrives(id) =>
      Socket(TellOthers(s.controllers, Connect, id), s.peers + [Peer(id, [], [])], Announce(s.proxies, Connect, id), s.buffer)
    case PeerLeaves(id) =>
      Socket(TellOthers(Drop(s.controllers, id), Disconnect, id), Without(s.peers, FindPeer(s.peers, id)),
             Announce(s.proxies, Disconnect, id), s.buffer)
    case PeerSays(id, payload) =>
      var k := FindPeer(s.peers, id);
      s.(peers := s.peers[k := s.peers[k].(said := s.peers[k].said + [payload])],
         buffer := s.buffer + [Broadcast(id, payload, false)])
    case ControllerArrives(id, orders) => s.(controllers := s.controllers + [Controller(id, Welcome(s, id, orders))])
    case ControllerLeaves(id) => s.(controllers := Drop(s.controllers, id))
    case ControllerSays(id, target, payload) => Route(s, id, target, payload)
    case LinkOpens(id, writeable) =>
      s.(proxies := s.proxies + [Proxy(id, writeable, {}, if writeable then Roll(s.peers, Connect, id) else [])])
    case LinkCloses(id) => s.(proxies := Without(s.proxies, FindProxy(s.proxies, id)))
    case LinkDelivers(id, w) => Receive(s, FindProxy(s.proxies, id), w)
    case Dispatch =>
      var m := s.buffer[0];
      s.(buffer := s.buffer[1..], peers := DeliverAll(s.peers, m), proxies := ForwardAll(s.proxies, m))
  }

  /** A direct message goes to a controller here, or to the first link that leads to its target. */
  function Route(s: Socket, source: Id, target: Id, payload: string): Socket {
    var k, j := FindController(s.controllers, target), FindRoute(s.proxies, target);
    if k < |s.controllers| then Hand(s, k, source, target, payload)
    else if j < |s.proxies| then
      s.(proxies := s.proxies[j := Send(s.proxies[j], DirectMessage, source, target, payload)])
    else s
  }

  /** A direct message reaches the controller at k. */
  function Hand(s: Socket, k: nat, source: Id, target: Id, payload: string): Socket
    requires k < |s.controllers|
  {
    var c := s.controllers[k];
    s.(controllers := s.controllers[k := c.(told := c.told + [Wire(Message, source, target, payload)])])
  }

  /** What arrives over the link at j. */
  function Receive(s: Socket, j: nat, w: Wire): Socket
    requires j < |s.proxies|
  {
    var p := s.proxies[j];
    match w.action
    case Connect =>
      s.(proxies := s.proxies[j := p.(peers := p.peers + {w.target})], controllers := TellAll(s.controllers, Connect, w.target))
    case Disconnect =>
      s.(proxies := s.proxies[j := p.(peers := p.peers - {w.target})], controllers := TellAll(s.controllers, Disconnect, w.target))
    case Message => s.(buffer := s.buffer + [Broadcast(w.source, w.payload, true)])
    case DirectMessage =>
      var k := FindController(s.controllers, w.target);
      if k < |s.controllers| then Hand(s, k, w.source, w.target, w.payload) else s
  }

  /** What the end of a link has written and the other end may still read after it is gone. */
  function LastWords(s: Socket, id: Id): seq<Wire> {
    var k := FindProxy(s.proxies, id);
    if k == |s.proxies| then []
    else s.proxies[k].out + if s.proxies[k].writeable then Roll(s.peers, Disconnect, id) else []
  }
}
