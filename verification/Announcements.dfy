/**
 What a controller has been told, taken together, is who is there: the local peers other than
 its own, and the peers that the links are believed to lead to. Every step keeps this, with two
 exceptions: a dialler's end that goes with peers in its map, of whom the controllers are told
 nothing, and news of the loss of a peer who is known over another link as well.
 */
module Announcements {
  import opened Sockets
  import opened Mesh
  import opened Directory

  /** Everybody whom the links are believed to lead to. */
  function Remote(ps: seq<Proxy>): (r: set<Id>)
    ensures forall x :: x in r <==> exists i :: 0 <= i < |ps| && x in ps[i].peers
  {
    if ps == [] then {} else Remote(ps[..|ps| - 1]) + ps[|ps| - 1].peers
  }

  /** Who is there, as seen by controller c. */
  function Present(s: Socket, c: Id): set<Id> {
    (PeerIds(s.peers) - {c}) + Remote(s.proxies)
  }

  ghost predicate Hears(c: Controller, present: set<Id>) {
    Fold({}, c.told) == present
  }

  ghost predicate AllHear(s: Socket) {
    forall i :: 0 <= i < |s.controllers| ==> Hears(s.controllers[i], Present(s, s.controllers[i].id))
  }

  /** Another link than the one at k is believed to lead to x. */
  ghost predicate BehindOther(s: Socket, k: nat, x: Id) {
    exists i :: 0 <= i < |s.proxies| && i != k && x in s.proxies[i].peers
  }

  lemma HearsMore(c: Controller, present: set<Id>, w: Wire)
    requires Hears(c, present)
    ensures Hears(c.(told := c.told + [w]), Apply(present, w))
  {
    FoldSnoc({}, c.told, w);
  }

  lemma SameRemote(ps: seq<Proxy>, qs: seq<Proxy>)
    requires |qs| == |ps| && forall i :: 0 <= i < |ps| ==> qs[i].peers == ps[i].peers
    ensures Remote(qs) == Remote(ps)
  {
    forall x ensures x in Remote(qs) <==> x in Remote(ps) {
      if x in Remote(ps) {
        var i :| 0 <= i < |ps| && x in ps[i].peers;
        assert x in qs[i].peers;
      }
    }
  }

  /** All controllers but id's own are told of a change at id. */
  lemma OthersHear(s: Socket, r: Socket, action: Action, id: Id)
    requires AllHear(s) && r.controllers == TellOthers(s.controllers, action, id)
    requires forall c :: Present(r, c) == if c != id then Apply(Present(s, c), Wire(action, c, id, "")) else Present(s, c)
    ensures AllHear(r)
  {
    hide Present, Hears, Apply;
    forall i | 0 <= i < |r.controllers| ensures Hears(r.controllers[i], Present(r, r.controllers[i].id)) {
      var c := s.controllers[i];
      HearsMore(c, Present(s, c.id), Wire(action, c.id, id, ""));
    }
  }

  lemma PeerArrivesHeard(s: Socket, id: Id)
    requires AllHear(s) && id !in PeerIds(s.peers)
    ensures AllHear(After(s, PeerArrives(id)))
  {
    hide PeerIds, Remote, Announce, TellOthers, AllHear;
    var r := After(s, PeerArrives(id));
    IdsWithOneMore(s.peers, Peer(id, [], []));
    AnnouncedRemote(s.proxies, Connect, id);
    OthersHear(s, r, Connect, id);
  }

  lemma AnnouncedRemote(ps: seq<Proxy>, action: Action, id: Id)
    ensures Remote(Announce(ps, action, id)) == Remote(ps)
  {
    SameRemote(ps, Announce(ps, action, id));
  }

  lemma PeerLeavesHeard(s: Socket, id: Id)
    requires AllHear(s) && Distinct(s) && Enabled(s, PeerLeaves(id)) && id !in Remote(s.proxies)
    ensures AllHear(After(s, PeerLeaves(id)))
  {
    var r, cs := After(s, PeerLeaves(id)), Drop(s.controllers, id);
    IdsWithOneLess(s, FindPeer(s.peers, id));
    SameRemote(s.proxies, r.proxies);
    Dropped(s, id);
    forall i | 0 <= i < |r.controllers| ensures Hears(r.controllers[i], Present(r, r.controllers[i].id)) {
      hide PeerIds, Remote, Fold, Drop, Distinct, Hears, Announce;
      var c := cs[i];
      var j :| 0 <= j < |s.controllers| && s.controllers[j] == c;
      HearsMore(c, Present(s, c.id), Wire(Disconnect, c.id, id, ""));
      assert Present(r, c.id) == Present(s, c.id) - {id};
    }
  }

  /** The controllers that are left, none of which has the id that was dropped. */
  lemma Dropped(s: Socket, id: Id)
    requires Distinct(s)
    ensures var cs := Drop(s.controllers, id);
            forall i :: 0 <= i < |cs| ==> cs[i].id != id && exists j :: 0 <= j < |s.controllers| && s.controllers[j] == cs[i]
  {
    var cs, k := Drop(s.controllers, id), FindController(s.controllers, id);
    assert forall i :: 0 <= i < |cs| ==> cs[i] == s.controllers[if i < k then i else i + 1];
  }

  lemma ControllerLeavesHeard(s: Socket, id: Id)
    requires AllHear(s) && Distinct(s)
    ensures AllHear(After(s, ControllerLeaves(id)))
  {
    var r := After(s, ControllerLeaves(id));
    Dropped(s, id);
    hide Drop, Distinct, Hears, PeerIds, Remote;
    forall i | 0 <= i < |r.controllers| ensures Hears(r.controllers[i], Present(r, r.controllers[i].id)) {
      var j :| 0 <= j < |s.controllers| && s.controllers[j] == r.controllers[i];
    }
  }

  // ---------------------------------------------------------------- a new controller

  lemma {:induction false} WelcomedPeers(known: set<Id>, ps: seq<Peer>, c: Id)
    ensures Fold(known, WelcomePeers(ps, c)) == known + (PeerIds(ps) - {c})
    decreases ps
  {
    hide *;
    WelcomeStep(known, ps, c);
    if ps != [] {
      FirstId(ps);
      WelcomedPeers(if ps[0].id != c then known + {ps[0].id} else known, ps[1..], c);
    }
  }

  lemma WelcomeStep(known: set<Id>, ps: seq<Peer>, c: Id)
    ensures ps == [] ==> Fold(known, WelcomePeers(ps, c)) == known && PeerIds(ps) == {}
    ensures ps != [] ==>
              Fold(known, WelcomePeers(ps, c)) ==
              Fold(if ps[0].id != c then known + {ps[0].id} else known, WelcomePeers(ps[1..], c))
  {
    if ps != [] {
      var ws, more := WelcomePeers(ps, c), WelcomePeers(ps[1..], c);
      if ps[0].id != c {
        assert ws == [Wire(Connect, c, ps[0].id, "")] + more && ws[1..] == more;
        FoldFirst(known, ws);
      } else {
        assert ws == more;
      }
    }
  }

  lemma FirstId(ps: seq<Peer>)
    requires ps != []
    ensures PeerIds(ps) == {ps[0].id} + PeerIds(ps[1..])
  {
    IdsWithOneMore([], ps[0]);
    IdsConcat([ps[0]], ps[1..]);
    assert [] + [ps[0]] == [ps[0]] && [ps[0]] + ps[1..] == ps;
  }

  lemma {:induction false} WelcomedIds(known: set<Id>, ids: seq<Id>, all: set<Id>, c: Id)
    requires (forall i :: 0 <= i < |ids| ==> ids[i] in all) && forall x :: x in all ==> x in known || x in ids
    ensures Fold(known, WelcomeIds(ids, c)) == known + all
    decreases ids
  {
    if ids == [] {
      assert forall x :: x in all ==> x in known;
      assert known + all == known;
    } else {
      var ws := WelcomeIds(ids, c);
      assert ws[0] == Wire(Connect, c, ids[0], "") && ws[1..] == WelcomeIds(ids[1..], c);
      FoldFirst(known, ws);
      WelcomedIds(known + {ids[0]}, ids[1..], all, c);
    }
  }

  lemma {:induction false} WelcomedOrders(known: set<Id>, orders: seq<seq<Id>>, ps: seq<Proxy>, c: Id)
    requires ListsAll(orders, ps)
    ensures Fold(known, WelcomeOrders(orders, c)) == known + Remote(ps)
    decreases ps
  {
    if ps != [] {
      var first, rest := WelcomeIds(orders[0], c), WelcomeOrders(orders[1..], c);
      FoldConcat(known, first, rest);
      WelcomedIds(known, orders[0], ps[0].peers, c);
      WelcomedOrders(known + ps[0].peers, orders[1..], ps[1..], c);
      FirstRemote(ps);
    }
  }

  lemma FirstRemote(ps: seq<Proxy>)
    requires ps != []
    ensures Remote(ps) == ps[0].peers + Remote(ps[1..])
  {
    forall x ensures x in Remote(ps) <==> x in ps[0].peers + Remote(ps[1..]) {
      if x in Remote(ps) && x !in ps[0].peers {
        var i :| 0 <= i < |ps| && x in ps[i].peers;
        assert x in ps[1..][i - 1].peers;
      } else if x in Remote(ps[1..]) {
        var i :| 0 <= i < |ps| - 1 && x in ps[1..][i].peers;
        assert x in ps[i + 1].peers;
      }
    }
  }

  lemma WelcomeHears(s: Socket, id: Id, orders: seq<seq<Id>>)
    requires ListsAll(orders, s.proxies)
    ensures Hears(Controller(id, Welcome(s, id, orders)), Present(s, id))
  {
    hide PeerIds, Remote, Fold, WelcomePeers, WelcomeOrders, Lists;
    FoldConcat({}, WelcomePeers(s.peers, id), WelcomeOrders(orders, id));
    WelcomedPeers({}, s.peers, id);
    WelcomedOrders(PeerIds(s.peers) - {id}, orders, s.proxies, id);
    assert {} + (PeerIds(s.peers) - {id}) == PeerIds(s.peers) - {id};
  }

  lemma ControllerArrivesHeard(s: Socket, id: Id, orders: seq<seq<Id>>)
    requires AllHear(s) && ListsAll(orders, s.proxies)
    ensures AllHear(After(s, ControllerArrives(id, orders)))
  {
    hide PeerIds, Remote, Fold, WelcomePeers, WelcomeOrders, Hears, Lists;
    var r := After(s, ControllerArrives(id, orders));
    WelcomeHears(s, id, orders);
    forall i | 0 <= i < |r.controllers| ensures Hears(r.controllers[i], Present(r, r.controllers[i].id)) {
    }
  }

  // ---------------------------------------------------------------- messages and links

  /** Nothing was said about who is there, and nothing has changed about it. */
  lemma QuietlyHeard(s: Socket, r: Socket)
    requires AllHear(s) && |r.controllers| == |s.controllers|
    requires PeerIds(r.peers) == PeerIds(s.peers) && Remote(r.proxies) == Remote(s.proxies)
    requires forall i :: 0 <= i < |s.controllers| ==>
               r.controllers[i].id == s.controllers[i].id
               && Fold({}, r.controllers[i].told) == Fold({}, s.controllers[i].told)
    ensures AllHear(r)
  {
    hide Fold, Remote, PeerIds;
    forall i | 0 <= i < |r.controllers| ensures Hears(r.controllers[i], Present(r, r.controllers[i].id)) {
      assert Hears(s.controllers[i], Present(s, s.controllers[i].id));
    }
  }

  lemma HandHeard(s: Socket, k: nat, source: Id, target: Id, payload: string)
    requires AllHear(s) && k < |s.controllers|
    ensures AllHear(Hand(s, k, source, target, payload))
  {
    var r, w := Hand(s, k, source, target, payload), Wire(Message, source, target, payload);
    FoldSnoc({}, s.controllers[k].told, w);
    assert r.peers == s.peers && r.proxies == s.proxies;
    assert r.controllers == s.controllers[k := s.controllers[k].(told := s.controllers[k].told + [w])];
    hide *;
    QuietlyHeard(s, r);
  }

  lemma RouteHeard(s: Socket, source: Id, target: Id, payload: string)
    requires AllHear(s)
    ensures AllHear(Route(s, source, target, payload))
  {
    var k, r := FindController(s.controllers, target), Route(s, source, target, payload);
    if k < |s.controllers| {
      HandHeard(s, k, source, target, payload);
    } else {
      SameRemote(s.proxies, r.proxies);
      QuietlyHeard(s, r);
    }
  }

  lemma DispatchHeard(s: Socket)
    requires AllHear(s) && s.buffer != []
    ensures AllHear(After(s, Dispatch))
  {
    var r := After(s, Dispatch);
    SameIds(s.peers, r.peers);
    SameRemote(s.proxies, r.proxies);
    QuietlyHeard(s, r);
  }

  lemma PeerSaysHeard(s: Socket, id: Id, payload: string)
    requires AllHear(s) && Enabled(s, PeerSays(id, payload))
    ensures AllHear(After(s, PeerSays(id, payload)))
  {
    var r := After(s, PeerSays(id, payload));
    SameIds(s.peers, r.peers);
    QuietlyHeard(s, r);
  }

  lemma OpensHeard(s: Socket, l: Id, writeable: bool)
    requires AllHear(s)
    ensures AllHear(After(s, LinkOpens(l, writeable)))
  {
    var r := After(s, LinkOpens(l, writeable));
    assert r.proxies[..|r.proxies| - 1] == s.proxies;
    QuietlyHeard(s, r);
  }

  lemma RemoteOthers(s: Socket, k: nat, x: Id)
    requires k < |s.proxies|
    ensures x in Remote(Without(s.proxies, k)) <==> BehindOther(s, k, x)
  {
    var r := Without(s.proxies, k);
    assert forall i :: 0 <= i < |r| ==> r[i] == s.proxies[if i < k then i else i + 1];
    if x in Remote(r) {
      var i :| 0 <= i < |r| && x in r[i].peers;
      assert x in s.proxies[if i < k then i else i + 1].peers;
    }
    if BehindOther(s, k, x) {
      var i :| 0 <= i < |s.proxies| && i != k && x in s.proxies[i].peers;
      assert r[if i < k then i else i - 1] == s.proxies[i];
    }
  }

  lemma RemoteHereOrThere(s: Socket, k: nat, x: Id)
    requires k < |s.proxies|
    ensures x in Remote(s.proxies) <==> x in s.proxies[k].peers || BehindOther(s, k, x)
  {
  }

  lemma AfterCloses(s: Socket, l: Id)
    requires HasEnd(s, l)
    ensures var k, r := FindProxy(s.proxies, l), After(s, LinkCloses(l));
            r == s.(proxies := Without(s.proxies, k)) && Believed(s, l) == s.proxies[k].peers
  {
  }

  /** The end of a link goes: controllers still know who is there if and only if all behind it are known over other links. */
  lemma DropIsHeard(s: Socket, l: Id, n: nat, links: Links, home: Homes)
    requires AllHear(s) && SocketOk(s, n, links, home) && HasEnd(s, l) && l in links && links[l].owner != links[l].dialler
    ensures AllHear(After(s, LinkCloses(l))) <==>
            s.controllers == [] || forall x :: x in Believed(s, l) ==> BehindOther(s, FindProxy(s.proxies, l), x)
  {
    var k, r := FindProxy(s.proxies, l), After(s, LinkCloses(l));
    AfterCloses(s, l);
    NotHere(s, k, n, links, home);
    hide After, SocketOk, HasEnd, FindProxy, Believed, BehindOther, Remote, PeerIds, Without;
    if forall x :: x in Believed(s, l) ==> BehindOther(s, k, x) {
      forall x ensures x in Remote(r.proxies) <==> x in Remote(s.proxies) {
        RemoteOthers(s, k, x);
        RemoteHereOrThere(s, k, x);
      }
      QuietlyHeard(s, r);
    } else if s.controllers != [] {
      var x :| x in Believed(s, l) && !BehindOther(s, k, x);
      RemoteOthers(s, k, x);
      RemoteHereOrThere(s, k, x);
      Differ(s, r, x);
    }
  }

  /** Nothing was said about x, who is no longer there. */
  lemma Differ(s: Socket, r: Socket, x: Id)
    requires AllHear(s) && s.controllers != [] && r.controllers == s.controllers && r.peers == s.peers
    requires x !in PeerIds(s.peers) && x in Remote(s.proxies) && x !in Remote(r.proxies)
    ensures !AllHear(r)
  {
    var c := s.controllers[0];
    assert Hears(c, Present(s, c.id));
    assert x in Present(s, c.id) && x !in Present(r, c.id);
    assert r.controllers[0] == c;
  }

  /** Whoever is believed to be behind a link is not here. */
  lemma NotHere(s: Socket, k: nat, n: nat, links: Links, home: Homes)
    requires SocketOk(s, n, links, home) && k < |s.proxies|
    requires s.proxies[k].id in links && links[s.proxies[k].id].owner != links[s.proxies[k].id].dialler
    ensures forall x :: x in s.proxies[k].peers ==> x !in PeerIds(s.peers)
  {
    assert EndOk(s.proxies[k], n, links, home);
    forall x | x in s.proxies[k].peers ensures x !in PeerIds(s.peers) {
      IsPeerId(s.peers, x);
    }
  }

  /** All controllers are told of a change at id. */
  lemma EverybodyHears(s: Socket, r: Socket, action: Action, id: Id)
    requires AllHear(s) && r.controllers == TellAll(s.controllers, action, id)
    requires forall c :: Present(r, c) == Apply(Present(s, c), Wire(action, c, id, ""))
    ensures AllHear(r)
  {
    hide Present, Hears, Apply;
    forall i | 0 <= i < |r.controllers| ensures Hears(r.controllers[i], Present(r, r.controllers[i].id)) {
      var c := s.controllers[i];
      HearsMore(c, Present(s, c.id), Wire(action, c.id, id, ""));
    }
  }

  lemma RemoteWith(ps: seq<Proxy>, j: nat, x: Id)
    requires j < |ps|
    ensures Remote(ps[j := ps[j].(peers := ps[j].peers + {x})]) == Remote(ps) + {x}
  {
    var qs := ps[j := ps[j].(peers := ps[j].peers + {x})];
    forall y ensures y in Remote(qs) <==> y in Remote(ps) + {x} {
      assert x in qs[j].peers;
      if y in Remote(ps) {
        var i :| 0 <= i < |ps| && y in ps[i].peers;
        assert y in qs[i].peers;
      }
    }
  }

  lemma RemoteLess(ps: seq<Proxy>, j: nat, x: Id)
    requires j < |ps|
    ensures var others := exists i :: 0 <= i < |ps| && i != j && x in ps[i].peers;
            Remote(ps[j := ps[j].(peers := ps[j].peers - {x})]) == if others then Remote(ps) else Remote(ps) - {x}
  {
    var qs := ps[j := ps[j].(peers := ps[j].peers - {x})];
    forall y ensures y in Remote(qs) <==> exists i :: 0 <= i < |ps| && y in ps[i].peers && (i != j || y != x) {
      if i :| 0 <= i < |ps| && y in ps[i].peers && (i != j || y != x) {
        assert y in qs[i].peers;
      }
    }
  }

  /** A peer of which a link tells is not here. */
  lemma ToldIsThere(s: Socket, j: nat, w: Wire, n: nat, links: Links, home: Homes)
    requires SocketOk(s, n, links, home) && j < |s.proxies| && Fits(s.proxies[j], w, links, home)
    requires w.action == Connect || w.action == Disconnect
    ensures w.target !in PeerIds(s.peers)
  {
    IsPeerId(s.peers, w.target);
    assert EndOk(s.proxies[j], n, links, home);
  }

  /** News that a peer has gone: controllers still know who is there if and only if no other link leads to that one. */
  lemma LossIsHeard(s: Socket, j: nat, w: Wire, n: nat, links: Links, home: Homes)
    requires AllHear(s) && SocketOk(s, n, links, home)
    requires j < |s.proxies| && Fits(s.proxies[j], w, links, home) && w.action == Disconnect
    ensures AllHear(Receive(s, j, w)) <==> s.controllers == [] || !BehindOther(s, j, w.target)
  {
    hide SocketOk, PeerIds, Remote, TellAll, EndOk, Fits;
    var r := Receive(s, j, w);
    ToldIsThere(s, j, w, n, links, home);
    RemoteLess(s.proxies, j, w.target);
    if !BehindOther(s, j, w.target) {
      EverybodyHears(s, r, Disconnect, w.target);
    } else if s.controllers != [] {
      RemoteHereOrThere(s, j, w.target);
      WronglyTold(s, r, w.target);
    }
  }

  /** Controllers are told that x is gone, who is not. */
  lemma WronglyTold(s: Socket, r: Socket, x: Id)
    requires AllHear(s) && s.controllers != [] && r.controllers == TellAll(s.controllers, Disconnect, x)
    requires x in Remote(r.proxies)
    ensures !AllHear(r)
  {
    var c := s.controllers[0];
    FoldSnoc({}, c.told, Wire(Disconnect, c.id, x, ""));
    assert r.controllers[0] == Tell(c, Disconnect, x);
    assert x !in Fold({}, r.controllers[0].told) && x in Present(r, c.id);
  }

  /** What else comes over a link always leaves the controllers right. */
  lemma NewsIsHeard(s: Socket, j: nat, w: Wire)
    requires AllHear(s) && j < |s.proxies| && w.action != Disconnect
    ensures AllHear(Receive(s, j, w))
  {
    hide AllHear, PeerIds, Remote, TellAll;
    var r := Receive(s, j, w);
    match w.action {
      case Connect =>
        RemoteWith(s.proxies, j, w.target);
        EverybodyHears(s, r, Connect, w.target);
      case Message =>
        Unspoken(s, r);
      case DirectMessage =>
        var k := FindController(s.controllers, w.target);
        if k < |s.controllers| {
          HandHeard(s, k, w.source, w.target, w.payload);
        }
    }
  }

  lemma Unspoken(s: Socket, r: Socket)
    requires AllHear(s) && r.controllers == s.controllers && r.peers == s.peers && r.proxies == s.proxies
    ensures AllHear(r)
  {
    QuietlyHeard(s, r);
  }

  lemma PopHeard(s: Socket, l: Id)
    requires AllHear(s)
    ensures AllHear(Pop(s, l))
  {
    SameRemote(s.proxies, Pop(s, l).proxies);
    QuietlyHeard(s, Pop(s, l));
  }

  // ---------------------------------------------------------------- every step

  ghost predicate Heard(m: State) {
    forall n :: 0 <= n < |m.sockets| ==> AllHear(m.sockets[n])
  }

  /**
   The step tells all controllers how it changes who is there. There are two ways in which it may not:
   the dialler's end of a link goes while somebody is known over this link only, or a peer is
   reported as gone who is known over another link too.
   */
  ghost predicate Informs(m: State, t: Step)
    requires Can(m, t)
  {
    match t
    case Abandon(l) =>
      var s := m.sockets[m.links[l].dialler];
      s.controllers == [] || forall x :: x in Believed(s, l) ==> BehindOther(s, FindProxy(s.proxies, l), x)
    case Down(l) =>
      var s, w := m.sockets[m.links[l].dialler], Queue(m, l)[0];
      w.action == Disconnect ==> s.controllers == [] || !BehindOther(s, FindProxy(s.proxies, l), w.target)
    case Local(_, _) => true
    case Accept(_, _, _) => true
    case Attach(_) => true
    case HangUp(_) => true
    case Up(_) => true
  }

  lemma HeardHere(m: State, n: nat)
    requires Heard(m) && n < |m.sockets|
    ensures AllHear(m.sockets[n])
  {
  }

  lemma OkSocket(m: State, n: nat)
    requires Ok(m) && n < |m.sockets|
    ensures SocketOk(m.sockets[n], n, m.links, m.home)
  {
  }

  /** All are right after one socket has changed if and only if its own controllers are. */
  lemma OneHeard(m: State, n: nat, m1: State)
    requires Heard(m) && n < |m.sockets| && |m1.sockets| == |m.sockets|
    requires forall k :: 0 <= k < |m.sockets| && k != n ==> m1.sockets[k] == m.sockets[k]
    ensures Heard(m1) <==> AllHear(m1.sockets[n])
  {
    hide AllHear;
  }

  lemma LocalHeard(m: State, n: nat, e: Event)
    requires Ok(m) && Heard(m) && Can(m, Local(n, e))
    ensures AllHear(After(m.sockets[n], e))
  {
    var s := m.sockets[n];
    NotAPeerYet(m, n, e);
    HeardHere(m, n);
    hide Heard, Ok, SocketOk, AllHear, After;
    match e {
      case PeerArrives(id) => PeerArrivesHeard(s, id);
      case PeerLeaves(id) => PeerLeavesHeard(s, id);
      case PeerSays(id, payload) => PeerSaysHeard(s, id, payload);
      case ControllerArrives(id, orders) => ControllerArrivesHeard(s, id, orders);
      case ControllerLeaves(id) => ControllerLeavesHeard(s, id);
      case ControllerSays(id, target, payload) =>
        RouteHeard(s, id, target, payload);
        AfterSays(s, id, target, payload);
      case Dispatch => DispatchHeard(s);
    }
  }

  lemma AfterSays(s: Socket, id: Id, target: Id, payload: string)
    ensures After(s, ControllerSays(id, target, payload)) == Route(s, id, target, payload)
  {
  }

  /** A peer that arrives is not here yet; a peer that is here is not believed to be elsewhere. */
  lemma NotAPeerYet(m: State, n: nat, e: Event)
    requires Ok(m) && Can(m, Local(n, e))
    ensures Distinct(m.sockets[n])
    ensures e.PeerArrives? ==> e.id !in PeerIds(m.sockets[n].peers)
    ensures e.PeerLeaves? ==> e.id !in Remote(m.sockets[n].proxies)
  {
    var s := m.sockets[n];
    OkSocket(m, n);
    if e.PeerLeaves? {
      NotElsewhere(m, n, e.id);
    } else if e.PeerArrives? {
      IsPeerId(s.peers, e.id);
    }
  }

  lemma NotElsewhere(m: State, n: nat, x: Id)
    requires Ok(m) && n < |m.sockets| && x in m.home && m.home[x] == n
    ensures x !in Remote(m.sockets[n].proxies)
  {
    OkSocket(m, n);
    forall i | 0 <= i < |m.sockets[n].proxies| ensures x !in m.sockets[n].proxies[i].peers {
      assert EndOk(m.sockets[n].proxies[i], n, m.links, m.home);
      OkLink(m, m.sockets[n].proxies[i].id);
    }
  }

  /** The owner's end of a link leads to nobody. */
  lemma OwnerBelieves(m: State, l: Id)
    requires Ok(m) && l in m.links && m.links[l].owned
    ensures m.links[l].owner < |m.sockets| && Believed(m.sockets[m.links[l].owner], l) == {}
  {
    OkLink(m, l);
    EndFound(m.sockets[m.links[l].owner], l, m.links[l].owner, m.links, m.home);
  }

  /** The steps that make and break links. */
  lemma LinkHeard(m: State, t: Step)
    requires Ok(m) && Heard(m) && Can(m, t)
    requires t.Accept? || t.Attach? || t.HangUp? || t.Abandon?
    ensures Heard(Next(m, t)) <==> Informs(m, t)
  {
    hide Ok, Heard, AllHear, After, SocketOk, Believed, BehindOther;
    match t {
      case Accept(l, a, b) =>
        HeardHere(m, a);
        OpensHeard(m.sockets[a], l, true);
        OneHeard(m, a, Next(m, t));
      case Attach(l) =>
        var b := m.links[l].dialler;
        HeardHere(m, b);
        OpensHeard(m.sockets[b], l, false);
        OneHeard(m, b, Next(m, t));
      case HangUp(l) =>
        var a := m.links[l].owner;
        OkLink(m, l);
        OkSocket(m, a);
        HeardHere(m, a);
        OwnerBelieves(m, l);
        DropIsHeard(m.sockets[a], l, a, m.links, m.home);
        OneHeard(m, a, Next(m, t));
      case Abandon(l) =>
        var b := m.links[l].dialler;
        OkLink(m, l);
        OkSocket(m, b);
        HeardHere(m, b);
        DropIsHeard(m.sockets[b], l, b, m.links, m.home);
        OneHeard(m, b, Next(m, t));
    }
  }

  lemma DeliverHeard(m: State, n: nat, l: Id, w: Wire)
    requires Ok(m) && Heard(m) && n < |m.sockets|
    requires HasEnd(m.sockets[n], l) && Enabled(m.sockets[n], LinkDelivers(l, w))
    requires Fits(m.sockets[n].proxies[FindProxy(m.sockets[n].proxies, l)], w, m.links, m.home)
    ensures var s := m.sockets[n];
            Heard(Put(m, n, After(s, LinkDelivers(l, w)))) <==>
            (w.action == Disconnect ==> s.controllers == [] || !BehindOther(s, FindProxy(s.proxies, l), w.target))
  {
    hide *;
    OkSocket(m, n);
    HeardHere(m, n);
    EndThere(m.sockets[n], l);
    ReceiveHeard(m.sockets[n], l, w, n, m.links, m.home);
    PutOne(m, n, After(m.sockets[n], LinkDelivers(l, w)));
  }

  lemma EndThere(s: Socket, l: Id)
    requires HasEnd(s, l)
    ensures FindProxy(s.proxies, l) < |s.proxies|
  {
  }

  lemma PutOne(m: State, n: nat, s: Socket)
    requires Heard(m) && n < |m.sockets|
    ensures Heard(Put(m, n, s)) <==> AllHear(s)
  {
    OneHeard(m, n, Put(m, n, s));
  }

  lemma ReceiveHeard(s: Socket, l: Id, w: Wire, n: nat, links: Links, home: Homes)
    requires AllHear(s) && SocketOk(s, n, links, home) && HasEnd(s, l) && Enabled(s, LinkDelivers(l, w))
    requires Fits(s.proxies[FindProxy(s.proxies, l)], w, links, home)
    ensures AllHear(After(s, LinkDelivers(l, w))) <==>
            (w.action == Disconnect ==> s.controllers == [] || !BehindOther(s, FindProxy(s.proxies, l), w.target))
  {
    hide AllHear, Receive, SocketOk, BehindOther, Fits;
    if w.action == Disconnect {
      LossIsHeard(s, FindProxy(s.proxies, l), w, n, links, home);
    } else {
      NewsIsHeard(s, FindProxy(s.proxies, l), w);
    }
  }

  lemma PopQueueHeard(m: State, l: Id)
    requires Heard(m) && l in m.links && m.links[l].owner < |m.sockets| && Queue(m, l) != []
    ensures Heard(PopQueue(m, l))
  {
    var a := m.links[l].owner;
    PopHeard(m.sockets[a], l);
    hide AllHear, Pop;
  }

  lemma DownHeard(m: State, l: Id)
    requires Ok(m) && Heard(m) && Can(m, Down(l))
    ensures Heard(Next(m, Down(l))) <==> Informs(m, Down(l))
  {
    hide Ok, Heard, AllHear, Queue, PopQueue, After, SocketOk, EndOk, DownWire, BehindOther;
    var b, w := m.links[l].dialler, Queue(m, l)[0];
    var m1 := PopQueue(m, l);
    OkLink(m, l);
    FirstIsDown(m, l);
    PopQueueKeeps(m, l);
    PopQueueElsewhere(m, l);
    PopQueueHeard(m, l);
    OkSocket(m1, b);
    EndFound(m1.sockets[b], l, b, m1.links, m1.home);
    DeliverHeard(m1, b, l, w);
  }

  lemma FirstIsDown(m: State, l: Id)
    requires Ok(m) && l in m.links && m.links[l].owner < |m.sockets| && Queue(m, l) != []
    ensures DownWire(Queue(m, l)[0], m.links[l].owner, m.home)
  {
    QueueIsDown(m, l);
  }

  lemma FirstIsUp(m: State, l: Id)
    requires Ok(m) && l in m.links && m.links[l].dialler < |m.sockets|
    requires ProxyOut(m.sockets[m.links[l].dialler], l) != []
    ensures ProxyOut(m.sockets[m.links[l].dialler], l)[0].action == DirectMessage
  {
    OkLink(m, l);
    EndFound(m.sockets[m.links[l].dialler], l, m.links[l].dialler, m.links, m.home);
  }

  lemma UpHeard(m: State, l: Id)
    requires Ok(m) && Heard(m) && Can(m, Up(l))
    ensures Heard(Next(m, Up(l)))
  {
    hide Ok, Heard, AllHear, Pop, After, ProxyOut, SocketOk, EndOk;
    var a, b := m.links[l].owner, m.links[l].dialler;
    var w := ProxyOut(m.sockets[b], l)[0];
    OkLink(m, l);
    FirstIsUp(m, l);
    PopDiallerKeeps(m, l);
    HeardHere(m, b);
    PopHeard(m.sockets[b], l);
    var m1 := Put(m, b, Pop(m.sockets[b], l));
    OneHeard(m, b, m1);
    OkSocket(m1, a);
    EndFound(m1.sockets[a], l, a, m1.links, m1.home);
    DeliverHeard(m1, a, l, w);
  }

  /** Controllers that know who is there still do so after a step if and only if the step informs them. */
  lemma NextHeard(m: State, t: Step)
    requires Ok(m) && Heard(m) && Can(m, t)
    ensures Heard(Next(m, t)) <==> Informs(m, t)
  {
    hide Ok, Heard, AllHear, After, BehindOther;
    match t {
      case Local(n, e) =>
        LocalHeard(m, n, e);
        OneHeard(m, n, Next(m, t));
      case Down(l) => DownHeard(m, l);
      case Up(l) => UpHeard(m, l);
      case Accept(_, _, _) => LinkHeard(m, t);
      case Attach(_) => LinkHeard(m, t);
      case HangUp(_) => LinkHeard(m, t);
      case Abandon(_) => LinkHeard(m, t);
    }
  }

  // ---------------------------------------------------------------- whole runs

  /** The first i steps of the run inform all controllers. */
  ghost predicate InformsUpTo(ms: seq<State>, ts: seq<Step>, i: nat)
    requires Run(ms, ts) && i <= |ts|
  {
    forall j :: 0 <= j < i ==> Informs(ms[j], ts[j])
  }

  ghost predicate HeardUpTo(ms: seq<State>, i: nat)
    requires i < |ms|
  {
    forall j :: 0 <= j <= i ==> Heard(ms[j])
  }

  /** In a run the controllers have always known who is there if and only if all its steps so far informed them. */
  lemma {:induction false} RunHeard(ms: seq<State>, ts: seq<Step>, i: nat)
    requires Run(ms, ts) && i <= |ts|
    ensures HeardUpTo(ms, i) <==> InformsUpTo(ms, ts, i)
  {
    if i > 0 {
      RunHeard(ms, ts, i - 1);
      RunAgrees(ms, ts, i - 1);
      hide Ok, Heard, Informs, Agree, Can, Next;
      if Heard(ms[i - 1]) {
        NextHeard(ms[i - 1], ts[i - 1]);
      }
      assert HeardUpTo(ms, i) <==> HeardUpTo(ms, i - 1) && Heard(ms[i]);
      assert InformsUpTo(ms, ts, i) <==> InformsUpTo(ms, ts, i - 1) && Informs(ms[i - 1], ts[i - 1]);
    }
  }

  /**
   In every reachable state of a run whose steps inform the controllers, the announcements that a controller
   has been sent come to the local peers other than itself and all peers behind the links.
   */
  lemma ControllersKnow(ms: seq<State>, ts: seq<Step>, i: nat, n: nat, k: nat)
    requires Run(ms, ts) && i <= |ts| && InformsUpTo(ms, ts, i)
    requires n < |ms[i].sockets| && k < |ms[i].sockets[n].controllers|
    ensures var s := ms[i].sockets[n]; var c := s.controllers[k];
            Fold({}, c.told) == (PeerIds(s.peers) - {c.id}) + Remote(s.proxies)
  {
    RunHeard(ms, ts, i);
    assert Heard(ms[i]);
    var s := ms[i].sockets[n];
    assert AllHear(s);
    assert Hears(s.controllers[k], Present(s, s.controllers[k].id));
  }
}
