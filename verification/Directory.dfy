/**
 Who is there: what the dialler of a link believes, once it has read everything, is what the
 owner has; and what a controller has been told is who is there, here and behind the links.
 */
module Directory {
  import opened Sockets
  import opened Mesh

  // ---------------------------------------------------------------- announcements as a set

  function Apply(known: set<Id>, w: Wire): set<Id> {
    match w.action
    case Connect => known + {w.target}
    case Disconnect => known - {w.target}
    case Message => known
    case DirectMessage => known
  }

  /** Who is there after the announcements. */
  function Fold(known: set<Id>, ws: seq<Wire>): set<Id> {
    if ws == [] then known else Apply(Fold(known, ws[..|ws| - 1]), ws[|ws| - 1])
  }

  lemma FoldSnoc(known: set<Id>, ws: seq<Wire>, w: Wire)
    ensures Fold(known, ws + [w]) == Apply(Fold(known, ws), w)
  {
    assert (ws + [w])[..|ws|] == ws;
  }

  lemma {:induction false} FoldConcat(known: set<Id>, a: seq<Wire>, b: seq<Wire>)
    ensures Fold(known, a + b) == Fold(Fold(known, a), b)
  {
    if b == [] {
      assert a + b == a;
    } else {
      var c := b[..|b| - 1];
      assert a + b == (a + c) + [b[|b| - 1]];
      FoldSnoc(known, a + c, b[|b| - 1]);
      FoldConcat(known, a, c);
    }
  }

  lemma FoldFirst(known: set<Id>, ws: seq<Wire>)
    requires ws != []
    ensures Fold(known, ws) == Fold(Apply(known, ws[0]), ws[1..])
  {
    assert ws == [ws[0]] + ws[1..];
    assert Fold(known, [ws[0]]) == Apply(Fold(known, []), ws[0]);
    FoldConcat(known, [ws[0]], ws[1..]);
  }

  function PeerIds(ps: seq<Peer>): set<Id> {
    if ps == [] then {} else PeerIds(ps[..|ps| - 1]) + {ps[|ps| - 1].id}
  }

  lemma {:induction false} IsPeerId(ps: seq<Peer>, x: Id)
    ensures x in PeerIds(ps) <==> exists i :: 0 <= i < |ps| && ps[i].id == x
  {
    if ps != [] {
      IsPeerId(ps[..|ps| - 1], x);
      assert ps[|ps| - 1].id == x ==> exists i :: 0 <= i < |ps| && ps[i].id == x;
    }
  }

  lemma {:induction false} FoldRollConnect(known: set<Id>, ps: seq<Peer>, l: Id)
    ensures Fold(known, Roll(ps, Connect, l)) == known + PeerIds(ps)
  {
    if ps != [] {
      var qs := ps[..|ps| - 1];
      assert Roll(ps, Connect, l) == Roll(qs, Connect, l) + [Wire(Connect, l, ps[|ps| - 1].id, "")];
      FoldSnoc(known, Roll(qs, Connect, l), Wire(Connect, l, ps[|ps| - 1].id, ""));
      FoldRollConnect(known, qs, l);
    }
  }

  lemma {:induction false} FoldRollDisconnect(known: set<Id>, ps: seq<Peer>, l: Id)
    ensures Fold(known, Roll(ps, Disconnect, l)) == known - PeerIds(ps)
  {
    if ps != [] {
      var qs := ps[..|ps| - 1];
      assert Roll(ps, Disconnect, l) == Roll(qs, Disconnect, l) + [Wire(Disconnect, l, ps[|ps| - 1].id, "")];
      FoldSnoc(known, Roll(qs, Disconnect, l), Wire(Disconnect, l, ps[|ps| - 1].id, ""));
      FoldRollDisconnect(known, qs, l);
    }
  }

  // ---------------------------------------------------------------- links

  /** What the dialler will believe when it has read everything. */
  function Due(m: State, l: Id): set<Id>
    requires l in m.links && m.links[l].owner < |m.sockets| && m.links[l].dialler < |m.sockets|
  {
    Fold(Believed(m.sockets[m.links[l].dialler], l), Queue(m, l))
  }

  ghost predicate LinkAgrees(m: State, l: Id)
    requires l in m.links && m.links[l].owner < |m.sockets| && m.links[l].dialler < |m.sockets|
  {
    m.links[l].dial != Over ==>
      Due(m, l) == if m.links[l].owned then PeerIds(m.sockets[m.links[l].owner].peers) else {}
  }

  ghost predicate Agree(m: State)
    requires Ok(m)
  {
    forall l :: l in m.links ==> LinkOk(m, l) && LinkAgrees(m, l)
  }

  /** Nothing has happened to the end of l, as far as announcements go. */
  ghost predicate SameEnd(s: Socket, r: Socket, l: Id) {
    ProxyOut(r, l) == ProxyOut(s, l) && Believed(r, l) == Believed(s, l)
  }

  lemma PopEnds(s: Socket, l: Id)
    ensures forall x :: x != l ==> SameEnd(s, Pop(s, l), x)
    ensures Believed(Pop(s, l), l) == Believed(s, l)
    ensures ProxyOut(s, l) != [] ==> ProxyOut(Pop(s, l), l) == ProxyOut(s, l)[1..]
    ensures Pop(s, l).peers == s.peers
  {
    var r := Pop(s, l);
    assert SameEnds(s, r);
    forall x ensures FindProxy(r.proxies, x) == FindProxy(s.proxies, x) {
      SameEndsFound(s, r, x);
    }
  }

  lemma OpensEnds(s: Socket, l: Id, writeable: bool)
    requires !HasEnd(s, l)
    ensures var r := After(s, LinkOpens(l, writeable));
            && (forall x :: x != l ==> SameEnd(s, r, x))
            && Believed(r, l) == {} && ProxyOut(r, l) == (if writeable then Roll(s.peers, Connect, l) else [])
            && r.peers == s.peers
  {
    hide After, Roll, FindProxy;
    var r, p := After(s, LinkOpens(l, writeable)), Proxy(l, writeable, {}, if writeable then Roll(s.peers, Connect, l) else []);
    EndIsAdded(s, l, writeable);
    FoundInLonger(s.proxies, p, l);
    forall x | x != l ensures SameEnd(s, r, x) {
      FoundInLonger(s.proxies, p, x);
    }
  }

  lemma EndIsAdded(s: Socket, l: Id, writeable: bool)
    ensures var p := Proxy(l, writeable, {}, if writeable then Roll(s.peers, Connect, l) else []);
            After(s, LinkOpens(l, writeable)) == s.(proxies := s.proxies + [p])
  {
  }

  lemma FoundInLonger(ps: seq<Proxy>, p: Proxy, x: Id)
    ensures FindProxy(ps + [p], x) ==
            if FindProxy(ps, x) < |ps| then FindProxy(ps, x) else if p.id == x then |ps| else |ps| + 1
  {
    var i, j := FindProxy(ps, x), FindProxy(ps + [p], x);
    assert (ps + [p])[|ps|] == p;
    assert i < |ps| ==> (ps + [p])[i].id == x;
    assert j < |ps| ==> ps[j].id == x;
  }

  lemma ClosesEnds(s: Socket, l: Id)
    requires HasEnd(s, l) && Distinct(s)
    ensures var r := After(s, LinkCloses(l));
            && (forall x :: x != l ==> SameEnd(s, r, x))
            && Believed(r, l) == {} && ProxyOut(r, l) == []
            && r.peers == s.peers
  {
    var r := After(s, LinkCloses(l));
    ClosedEnds(s, l);
    forall x | x != l ensures SameEnd(s, r, x) {
      OtherEndStays(s, l, x);
    }
  }

  lemma FoundAt(ps: seq<Proxy>, k: nat, x: Id)
    requires k <= |ps| && (k < |ps| ==> ps[k].id == x) && forall i :: 0 <= i < k ==> ps[i].id != x
    ensures FindProxy(ps, x) == k
  {
  }

  lemma FoundWithout(ps: seq<Proxy>, k: nat, x: Id)
    requires k < |ps| && ps[k].id != x
    ensures var i := FindProxy(ps, x); FindProxy(Without(ps, k), x) == if i < k then i else i - 1
  {
    var i, r := FindProxy(ps, x), Without(ps, k);
    forall j | 0 <= j < |r| ensures r[j] == ps[if j < k then j else j + 1] {
    }
    FoundAt(r, if i < k then i else i - 1, x);
  }

  lemma OtherEndStays(s: Socket, l: Id, x: Id)
    requires HasEnd(s, l) && x != l
    ensures SameEnd(s, After(s, LinkCloses(l)), x)
  {
    var k := FindProxy(s.proxies, l);
    assert After(s, LinkCloses(l)).proxies == Without(s.proxies, k);
    hide After, FindProxy;
    FoundWithout(s.proxies, k, x);
  }

  /** A local event tells the dialler of l exactly how the peers have changed. */
  ghost predicate Tells(s: Socket, r: Socket, l: Id) {
    && Believed(r, l) == Believed(s, l)
    && forall known :: Fold(known, ProxyOut(s, l)) == PeerIds(s.peers) ==> Fold(known, ProxyOut(r, l)) == PeerIds(r.peers)
  }

  ghost predicate WriteableEnd(s: Socket, l: Id) {
    HasEnd(s, l) && s.proxies[FindProxy(s.proxies, l)].writeable
  }

  lemma SameTells(s: Socket, r: Socket, l: Id)
    requires r.proxies == s.proxies && PeerIds(r.peers) == PeerIds(s.peers)
    ensures Tells(s, r, l)
  {
  }

  lemma AnnounceTells(s: Socket, r: Socket, action: Action, id: Id, l: Id)
    requires r.proxies == Announce(s.proxies, action, id)
    requires forall known :: Apply(known, Wire(action, l, id, "")) == PeerIds(r.peers) || known != PeerIds(s.peers)
    ensures Believed(r, l) == Believed(s, l)
    ensures WriteableEnd(s, l) ==> Tells(s, r, l)
  {
    SameEndsFound(s, r, l);
    if WriteableEnd(s, l) {
      var w := Wire(action, l, id, "");
      assert ProxyOut(r, l) == ProxyOut(s, l) + [w];
      forall known ensures Fold(known, ProxyOut(r, l)) == Apply(Fold(known, ProxyOut(s, l)), w) {
        FoldSnoc(known, ProxyOut(s, l), w);
      }
    }
  }

  lemma IdsWithOneMore(ps: seq<Peer>, p: Peer)
    ensures PeerIds(ps + [p]) == PeerIds(ps) + {p.id}
  {
    assert (ps + [p])[..|ps|] == ps;
  }

  lemma IdsWithOneLess(s: Socket, k: nat)
    requires Distinct(s) && k < |s.peers|
    ensures PeerIds(Without(s.peers, k)) == PeerIds(s.peers) - {s.peers[k].id}
  {
    assert forall i :: 0 <= i < |s.peers| && i != k ==> s.peers[i].id != s.peers[k].id;
    hide Distinct, PeerIds, Without;
    OthersLeft(s.peers, k);
  }

  lemma {:induction false} IdsConcat(a: seq<Peer>, b: seq<Peer>)
    ensures PeerIds(a + b) == PeerIds(a) + PeerIds(b)
  {
    if b == [] {
      assert a + b == a;
    } else {
      var c, p := b[..|b| - 1], b[|b| - 1];
      assert a + b == (a + c) + [p] && b == c + [p];
      hide PeerIds;
      IdsWithOneMore(a + c, p);
      IdsWithOneMore(c, p);
      IdsConcat(a, c);
    }
  }

  lemma OthersLeft(ps: seq<Peer>, k: nat)
    requires k < |ps| && forall i :: 0 <= i < |ps| && i != k ==> ps[i].id != ps[k].id
    ensures PeerIds(Without(ps, k)) == PeerIds(ps) - {ps[k].id}
  {
    var a, b := ps[..k], ps[k + 1..];
    NotAmong(a, ps[k].id);
    NotAmong(b, ps[k].id);
    assert ps == a + [ps[k]] + b;
    hide *;
    OneOut(a, ps[k], b);
  }

  lemma OneOut(a: seq<Peer>, p: Peer, b: seq<Peer>)
    requires p.id !in PeerIds(a) && p.id !in PeerIds(b)
    ensures PeerIds(a + b) == PeerIds(a + [p] + b) - {p.id}
  {
    hide *;
    IdsWithOneMore(a, p);
    IdsConcat(a + [p], b);
    IdsConcat(a, b);
  }

  lemma NotAmong(ps: seq<Peer>, x: Id)
    requires forall i :: 0 <= i < |ps| ==> ps[i].id != x
    ensures x !in PeerIds(ps)
  {
    IsPeerId(ps, x);
  }

  lemma {:induction false} SameIds(ps: seq<Peer>, qs: seq<Peer>)
    requires |qs| == |ps| && forall i :: 0 <= i < |ps| ==> qs[i].id == ps[i].id
    ensures PeerIds(qs) == PeerIds(ps)
  {
    if ps != [] {
      SameIds(ps[..|ps| - 1], qs[..|qs| - 1]);
    }
  }

  lemma RouteTells(s: Socket, source: Id, target: Id, payload: string, l: Id)
    ensures var r := Route(s, source, target, payload);
            && Believed(r, l) == Believed(s, l) && r.peers == s.peers
            && (WriteableEnd(s, l) ==> Tells(s, r, l))
  {
    var r := Route(s, source, target, payload);
    assert SameEnds(s, r);
    SameEndsFound(s, r, l);
    var w := Wire(DirectMessage, source, target, payload);
    forall known ensures Fold(known, ProxyOut(s, l) + [w]) == Fold(known, ProxyOut(s, l)) {
      FoldSnoc(known, ProxyOut(s, l), w);
    }
  }

  lemma DispatchTells(s: Socket, l: Id)
    requires s.buffer != []
    ensures var r := After(s, Dispatch);
            && Believed(r, l) == Believed(s, l)
            && (WriteableEnd(s, l) ==> Tells(s, r, l))
  {
    var r, m := After(s, Dispatch), s.buffer[0];
    assert SameEnds(s, r);
    SameEndsFound(s, r, l);
    SameIds(s.peers, r.peers);
    var w := Wire(Message, m.source, 0, m.payload);
    forall known ensures Fold(known, ProxyOut(s, l) + [w]) == Fold(known, ProxyOut(s, l)) {
      FoldSnoc(known, ProxyOut(s, l), w);
    }
  }

  lemma LocalTells(m: State, n: nat, e: Event, l: Id)
    requires Ok(m) && Can(m, Local(n, e))
    ensures var s, r := m.sockets[n], After(m.sockets[n], e);
            && Believed(r, l) == Believed(s, l)
            && (WriteableEnd(s, l) ==> Tells(s, r, l))
  {
    var s, r := m.sockets[n], After(m.sockets[n], e);
    hide Tells, SocketOk, WriteableEnd;
    match e {
      case PeerArrives(id) =>
        IdsWithOneMore(s.peers, Peer(id, [], []));
        AnnounceTells(s, r, Connect, id, l);
      case PeerLeaves(id) =>
        DistinctHere(m, n);
        IdsWithOneLess(s, FindPeer(s.peers, id));
        AnnounceTells(s, r, Disconnect, id, l);
      case PeerSays(id, payload) =>
        SameIds(s.peers, r.peers);
        SameTells(s, r, l);
      case ControllerArrives(_, _) => SameTells(s, r, l);
      case ControllerLeaves(_) => SameTells(s, r, l);
      case ControllerSays(id, target, payload) => RouteTells(s, id, target, payload, l);
      case Dispatch => DispatchTells(s, l);
    }
  }

  lemma DistinctHere(m: State, n: nat)
    requires Ok(m) && n < |m.sockets|
    ensures Distinct(m.sockets[n])
  {
  }

  /** What arrives over l changes only what is believed because of l. */
  lemma ReceiveEnds(s: Socket, l: Id, w: Wire)
    requires HasEnd(s, l) && Enabled(s, LinkDelivers(l, w))
    ensures var r := After(s, LinkDelivers(l, w));
            && (forall x :: ProxyOut(r, x) == ProxyOut(s, x))
            && (forall x :: x != l ==> Believed(r, x) == Believed(s, x))
            && Believed(r, l) == Apply(Believed(s, l), w)
            && r.peers == s.peers
  {
    var k, r := FindProxy(s.proxies, l), After(s, LinkDelivers(l, w));
    var p := s.proxies[k].(peers := Apply(s.proxies[k].peers, w));
    assert r.proxies == s.proxies[k := p] && r.peers == s.peers;
    hide After, Receive, Enabled;
    assert SameEnds(s, r);
    forall x ensures FindProxy(r.proxies, x) == FindProxy(s.proxies, x) {
      SameEndsFound(s, r, x);
    }
  }

  // ---------------------------------------------------------------- every step keeps the links in agreement

  lemma LocalAgrees(m: State, n: nat, e: Event)
    requires Ok(m) && Agree(m) && Can(m, Local(n, e)) && Ok(Next(m, Local(n, e)))
    ensures Agree(Next(m, Local(n, e)))
  {
    hide Ok, After, LinkAgrees, LocalEvent;
    var m1 := Next(m, Local(n, e));
    forall l | l in m1.links ensures LinkOk(m1, l) && LinkAgrees(m1, l) {
      OkLink(m1, l);
      LocalAgreesAt(m, n, e, l);
    }
  }

  lemma LocalAgreesAt(m: State, n: nat, e: Event, l: Id)
    requires Ok(m) && Agree(m) && Can(m, Local(n, e)) && l in m.links
    ensures LinkOk(m, l) && LinkAgrees(Next(m, Local(n, e)), l)
  {
    hide Ok, Agree, After, Fold, Believed, ProxyOut, WriteableEnd, LocalEvent, HasEnd, DownWires, PeerIds;
    AgreeLink(m, l);
    LocalTells(m, n, e, l);
    OwnerWrites(m, l);
  }

  lemma OwnerWrites(m: State, l: Id)
    requires Ok(m) && l in m.links
    ensures LinkOk(m, l)
    ensures m.links[l].owned <==> WriteableEnd(m.sockets[m.links[l].owner], l)
  {
    assert LinkOk(m, l);
    if HasEnd(m.sockets[m.links[l].owner], l) {
      EndFound(m.sockets[m.links[l].owner], l, m.links[l].owner, m.links, m.home);
    }
  }

  /** A step that concerns l has left the other links, and all peers, as they were. */
  ghost predicate Undisturbed(m: State, m1: State, l: Id)
    requires Ok(m)
  {
    && |m1.sockets| == |m.sockets|
    && (forall k :: 0 <= k < |m.sockets| ==> m1.sockets[k].peers == m.sockets[k].peers)
    && (forall x :: x in m1.links && x != l ==> x in m.links && LinkOk(m, x) && m1.links[x] == m.links[x])
    && (forall x :: x in m1.links && x != l ==> Due(m1, x) == Due(m, x))
  }

  lemma OthersAgree(m: State, m1: State, l: Id)
    requires Ok(m) && Agree(m) && Ok(m1) && Undisturbed(m, m1, l)
    requires l in m1.links && LinkOk(m1, l) && LinkAgrees(m1, l)
    ensures Agree(m1)
  {
    forall x | x in m1.links ensures LinkOk(m1, x) && LinkAgrees(m1, x) {
      OkLink(m1, x);
      if x != l {
        AgreeLink(m, x);
        hide Ok, Due, LinkOk;
      }
    }
  }

  lemma OkLink(m: State, l: Id)
    requires Ok(m) && l in m.links
    ensures LinkOk(m, l)
  {
  }

  lemma AgreeLink(m: State, l: Id)
    requires Ok(m) && Agree(m) && l in m.links
    ensures LinkOk(m, l) && LinkAgrees(m, l)
  {
  }

  /** Only the socket at n has changed, and only what concerns l. */
  lemma OneSocket(m: State, n: nat, r: Socket, l: Id, links1: Links)
    requires Ok(m) && n < |m.sockets| && l in links1 && links1 == m.links[l := links1[l]]
    requires r.peers == m.sockets[n].peers && forall x :: x != l ==> SameEnd(m.sockets[n], r, x)
    ensures Undisturbed(m, State(m.sockets[n := r], links1, m.home), l)
  {
    hide Ok, Due, SameEnd, HasEnd, DownWires;
    var m1 := State(m.sockets[n := r], links1, m.home);
    forall x | x in links1 && x != l ensures LinkOk(m, x) && Due(m1, x) == Due(m, x) {
      OkLink(m, x);
      SameDue(m, n, r, l, links1, x);
    }
  }

  lemma SameDue(m: State, n: nat, r: Socket, l: Id, links1: Links, x: Id)
    requires n < |m.sockets| && x in m.links && LinkOk(m, x) && x != l && l in links1 && links1 == m.links[l := links1[l]]
    requires SameEnd(m.sockets[n], r, x)
    ensures Due(State(m.sockets[n := r], links1, m.home), x) == Due(m, x)
  {
    hide Fold, ProxyOut, Believed;
  }

  lemma AcceptAgrees(m: State, l: Id, a: nat, b: nat)
    requires Ok(m) && Agree(m) && Can(m, Accept(l, a, b)) && Ok(Next(m, Accept(l, a, b)))
    ensures Agree(Next(m, Accept(l, a, b)))
  {
    hide Ok, Agree, After, HasEnd, ProxyOut, Believed, Fold, Undisturbed;
    var m1, s := Next(m, Accept(l, a, b)), m.sockets[a];
    NoEnd(m, l);
    OpensEnds(s, l, true);
    FoldRollConnect({}, s.peers, l);
    NothingBelieved(m.sockets[b], l);
    OneSocket(m, a, After(s, LinkOpens(l, true)), l, m1.links);
    OkLink(m1, l);
    OthersAgree(m, m1, l);
  }

  lemma NothingBelieved(s: Socket, l: Id)
    requires !HasEnd(s, l)
    ensures Believed(s, l) == {}
  {
  }

  lemma AttachAgrees(m: State, l: Id)
    requires Ok(m) && Agree(m) && Can(m, Attach(l)) && Ok(Next(m, Attach(l)))
    ensures Agree(Next(m, Attach(l)))
  {
    hide Ok, Agree, After, HasEnd, ProxyOut, Believed, Fold, Undisturbed;
    var m1, b := Next(m, Attach(l)), m.links[l].dialler;
    AgreeLink(m, l);
    NothingBelieved(m.sockets[b], l);
    OpensEnds(m.sockets[b], l, false);
    OneSocket(m, b, After(m.sockets[b], LinkOpens(l, false)), l, m1.links);
    OkLink(m1, l);
    OthersAgree(m, m1, l);
  }

  lemma HangUpAgrees(m: State, l: Id)
    requires Ok(m) && Agree(m) && Can(m, HangUp(l)) && Ok(Next(m, HangUp(l)))
    ensures Agree(Next(m, HangUp(l)))
  {
    hide Ok, Agree, After, HasEnd, Believed, Fold, Undisturbed, Distinct, SameEnd;
    var m1, a := Next(m, HangUp(l)), m.links[l].owner;
    var s := m.sockets[a];
    AgreeLink(m, l);
    DistinctHere(m, a);
    LastWordsRead(m, l);
    ClosesEnds(s, l);
    OneSocket(m, a, After(s, LinkCloses(l)), l, m1.links);
    OkLink(m1, l);
    OthersAgree(m, m1, l);
  }

  /** Once the last words of the owner's end have been read, nobody is believed to be there. */
  lemma LastWordsRead(m: State, l: Id)
    requires Ok(m) && l in m.links && m.links[l].owned && LinkOk(m, l)
    requires m.links[l].dial != Over ==> Due(m, l) == PeerIds(m.sockets[m.links[l].owner].peers)
    ensures m.links[l].dial != Over ==>
              Fold(Believed(m.sockets[m.links[l].dialler], l), LastWords(m.sockets[m.links[l].owner], l)) == {}
  {
    var s := m.sockets[m.links[l].owner];
    OwnerWrites(m, l);
    hide Ok, Fold, Believed;
    var believed := Believed(m.sockets[m.links[l].dialler], l);
    FoldConcat(believed, ProxyOut(s, l), Roll(s.peers, Disconnect, l));
    FoldRollDisconnect(Fold(believed, ProxyOut(s, l)), s.peers, l);
    assert LastWords(s, l) == ProxyOut(s, l) + Roll(s.peers, Disconnect, l);
  }

  lemma AbandonAgrees(m: State, l: Id)
    requires Ok(m) && Agree(m) && Can(m, Abandon(l)) && Ok(Next(m, Abandon(l)))
    ensures Agree(Next(m, Abandon(l)))
  {
    hide Ok, Agree, After, HasEnd, Believed, Fold, Undisturbed, Distinct, SameEnd;
    var m1, b := Next(m, Abandon(l)), m.links[l].dialler;
    AgreeLink(m, l);
    DistinctHere(m, b);
    ClosesEnds(m.sockets[b], l);
    OneSocket(m, b, After(m.sockets[b], LinkCloses(l)), l, m1.links);
    OkLink(m1, l);
    OthersAgree(m, m1, l);
  }

  lemma UndisturbedTwice(m: State, m1: State, m2: State, l: Id)
    requires Ok(m) && Ok(m1) && Undisturbed(m, m1, l) && Undisturbed(m1, m2, l)
    ensures Undisturbed(m, m2, l)
  {
    hide Ok, LinkOk, Due;
  }

  /** Taking a message out of l's queue. */
  lemma PopQueueEnds(m: State, l: Id)
    requires Ok(m) && l in m.links && LinkOk(m, l) && Queue(m, l) != [] && Ok(PopQueue(m, l))
    ensures var m1 := PopQueue(m, l);
            && Undisturbed(m, m1, l)
            && l in m1.links && m1.links[l] == m.links[l].(left := m1.links[l].left)
            && Believed(m1.sockets[m.links[l].dialler], l) == Believed(m.sockets[m.links[l].dialler], l)
            && Queue(m1, l) == Queue(m, l)[1..]
  {
    hide Ok, Pop, ProxyOut, Believed, SameEnd, Undisturbed;
    var a := m.links[l].owner;
    PopEnds(m.sockets[a], l);
    if m.links[l].owned {
      OneSocket(m, a, Pop(m.sockets[a], l), l, m.links);
      assert m.links[l := m.links[l]] == m.links;
    } else {
      SameSelf(m.sockets[a]);
      OneSocket(m, a, m.sockets[a], l, PopQueue(m, l).links);
      assert m.sockets[a := m.sockets[a]] == m.sockets;
    }
  }

  lemma SameSelf(s: Socket)
    ensures forall x :: SameEnd(s, s, x)
  {
  }

  lemma DownAgrees(m: State, l: Id)
    requires Ok(m) && Agree(m) && Can(m, Down(l)) && Ok(Next(m, Down(l)))
    ensures Agree(Next(m, Down(l)))
  {
    hide Ok, Agree, After, Believed, Fold, Undisturbed, SameEnd, Apply, PopQueue, ProxyOut, Queue;
    var m1, m2, b, w := PopQueue(m, l), Next(m, Down(l)), m.links[l].dialler, Queue(m, l)[0];
    AgreeLink(m, l);
    PopQueueKeeps(m, l);
    PopQueueEnds(m, l);
    PopQueueElsewhere(m, l);
    FoldFirst(Believed(m.sockets[b], l), Queue(m, l));
    var r := After(m.sockets[b], LinkDelivers(l, w));
    ReceiveEnds(m.sockets[b], l, w);
    ReceiveSame(m.sockets[b], r, l);
    OneSocket(m1, b, r, l, m1.links);
    assert m1.links[l := m1.links[l]] == m1.links;
    QueueElsewhere(m1, b, r, l);
    UndisturbedTwice(m, m1, m2, l);
    OkLink(m2, l);
    SamePeersAt(m, m2, l, m.links[l].owner);
    OthersAgree(m, m2, l);
  }

  lemma ReceiveSame(s: Socket, r: Socket, l: Id)
    requires forall x :: ProxyOut(r, x) == ProxyOut(s, x)
    requires forall x :: x != l ==> Believed(r, x) == Believed(s, x)
    ensures forall x :: x != l ==> SameEnd(s, r, x)
  {
  }

  lemma QueueElsewhere(m: State, n: nat, r: Socket, l: Id)
    requires l in m.links && n < |m.sockets| && m.links[l].owner < |m.sockets| && n != m.links[l].owner
    ensures Queue(Put(m, n, r), l) == Queue(m, l)
  {
  }

  lemma SamePeersAt(m: State, m1: State, l: Id, k: nat)
    requires Ok(m) && Undisturbed(m, m1, l) && k < |m.sockets|
    ensures k < |m1.sockets| && m1.sockets[k].peers == m.sockets[k].peers
  {
  }

  lemma UpAgrees(m: State, l: Id)
    requires Ok(m) && Agree(m) && Can(m, Up(l)) && Ok(Next(m, Up(l)))
    ensures Agree(Next(m, Up(l)))
  {
    hide Ok, Agree, After, Believed, Fold, Undisturbed, SameEnd, Apply, ProxyOut, Queue, Pop;
    var m2, a, b := Next(m, Up(l)), m.links[l].owner, m.links[l].dialler;
    var w := ProxyOut(m.sockets[b], l)[0];
    AgreeLink(m, l);
    PopDiallerKeeps(m, l);
    PopEnds(m.sockets[b], l);
    var m1 := Put(m, b, Pop(m.sockets[b], l));
    OneSocket(m, b, Pop(m.sockets[b], l), l, m.links);
    assert m.links[l := m.links[l]] == m.links && m1.links[l := m1.links[l]] == m1.links;
    QueueElsewhere(m, b, Pop(m.sockets[b], l), l);
    var r := After(m.sockets[a], LinkDelivers(l, w));
    ReceiveEnds(m.sockets[a], l, w);
    ReceiveSame(m.sockets[a], r, l);
    OneSocket(m1, a, r, l, m1.links);
    QueueHere(m1, r, l);
    UndisturbedTwice(m, m1, m2, l);
    OkLink(m2, l);
    SamePeersAt(m, m2, l, a);
    OthersAgree(m, m2, l);
  }

  lemma PopDiallerKeeps(m: State, l: Id)
    requires Ok(m) && l in m.links && LinkOk(m, l)
    ensures Ok(Put(m, m.links[l].dialler, Pop(m.sockets[m.links[l].dialler], l)))
  {
    var b := m.links[l].dialler;
    PopKeeps(m.sockets[b], l, b, m.links, m.home);
    NotHomes(m);
    ReplaceKeeps(m, b, Pop(m.sockets[b], l), m.home);
  }

  lemma QueueHere(m: State, r: Socket, l: Id)
    requires l in m.links && m.links[l].owner < |m.sockets|
    requires ProxyOut(r, l) == ProxyOut(m.sockets[m.links[l].owner], l)
    ensures Queue(Put(m, m.links[l].owner, r), l) == Queue(m, l)
  {
  }

  /** Every step keeps the links in agreement. */
  lemma NextAgrees(m: State, t: Step)
    requires Ok(m) && Agree(m) && Can(m, t)
    ensures Ok(Next(m, t)) && Agree(Next(m, t))
  {
    NextKeeps(m, t);
    hide Ok, Agree, Can, Next;
    match t {
      case Local(n, e) => LocalAgrees(m, n, e);
      case Accept(l, a, b) => AcceptAgrees(m, l, a, b);
      case Attach(l) => AttachAgrees(m, l);
      case HangUp(l) => HangUpAgrees(m, l);
      case Abandon(l) => AbandonAgrees(m, l);
      case Down(l) => DownAgrees(m, l);
      case Up(l) => UpAgrees(m, l);
    }
  }

  // ---------------------------------------------------------------- whole runs

  /** Nobody is there yet. */
  ghost predicate Start(m: State) {
    m.links == map[] && m.home == map[] && forall n :: 0 <= n < |m.sockets| ==> m.sockets[n] == Socket([], [], [], [])
  }

  ghost predicate Run(ms: seq<State>, ts: seq<Step>) {
    && |ms| == |ts| + 1 && Start(ms[0])
    && forall i :: 0 <= i < |ts| ==> Can(ms[i], ts[i]) && ms[i + 1] == Next(ms[i], ts[i])
  }

  lemma RunCounts(ms: seq<State>, ts: seq<Step>)
    requires Run(ms, ts)
    ensures |ms| == |ts| + 1
    ensures forall i :: 0 <= i < |ts| ==> Can(ms[i], ts[i])
  {
  }

  lemma {:induction false} RunAgrees(ms: seq<State>, ts: seq<Step>, i: nat)
    requires Run(ms, ts) && i < |ms|
    ensures Ok(ms[i]) && Agree(ms[i])
  {
    if i > 0 {
      RunAgrees(ms, ts, i - 1);
      NextAgrees(ms[i - 1], ts[i - 1]);
    }
  }

  lemma StepOf(ms: seq<State>, ts: seq<Step>, i: nat)
    requires Run(ms, ts) && i < |ts|
    ensures Ok(ms[i]) && Agree(ms[i]) && Can(ms[i], ts[i]) && ms[i + 1] == Next(ms[i], ts[i]) && Ok(ms[i + 1])
  {
    RunAgrees(ms, ts, i);
    RunAgrees(ms, ts, i + 1);
  }

  /** In every reachable state: a dialler that has read all that there is knows exactly the owner's peers. */
  lemma DrainedLinkKnows(ms: seq<State>, ts: seq<Step>, i: nat, l: Id)
    requires Run(ms, ts) && i < |ms|
    requires l in ms[i].links && ms[i].links[l].dial == Open
    ensures var m := ms[i]; var k := m.links[l];
            && k.owner < |m.sockets| && k.dialler < |m.sockets|
            && (Queue(m, l) == [] ==>
                  Believed(m.sockets[k.dialler], l) == if k.owned then PeerIds(m.sockets[k.owner].peers) else {})
  {
    RunAgrees(ms, ts, i);
    AgreeLink(ms[i], l);
  }
}
