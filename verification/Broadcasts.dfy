/**
 Broadcasts reach every other peer exactly once, in the order in which they were sent. This is
 about runs in which peers and links neither come nor go.
 */
module Broadcasts {
  import opened Sockets
  import opened Mesh
  import opened Directory

  // ---------------------------------------------------------------- what one peer has said

  /** The payloads of x among the broadcasts. */
  function From(bs: seq<Broadcast>, x: Id): seq<string> {
    if bs == [] then []
    else From(bs[..|bs| - 1], x) + if bs[|bs| - 1].source == x then [bs[|bs| - 1].payload] else []
  }

  /** The payloads of x among the messages that a link carries. */
  function Carried(ws: seq<Wire>, x: Id): seq<string> {
    if ws == [] then []
    else
      var w := ws[|ws| - 1];
      Carried(ws[..|ws| - 1], x) + if w.action == Message && w.source == x then [w.payload] else []
  }

  lemma FromSnoc(bs: seq<Broadcast>, b: Broadcast, x: Id)
    ensures From(bs + [b], x) == From(bs, x) + if b.source == x then [b.payload] else []
  {
    assert (bs + [b])[..|bs|] == bs;
  }

  lemma CarriedSnoc(ws: seq<Wire>, w: Wire, x: Id)
    ensures Carried(ws + [w], x) == Carried(ws, x) + if w.action == Message && w.source == x then [w.payload] else []
  {
    assert (ws + [w])[..|ws|] == ws;
  }

  lemma {:induction false} FromFirst(bs: seq<Broadcast>, x: Id)
    requires bs != []
    ensures From(bs, x) == (if bs[0].source == x then [bs[0].payload] else []) + From(bs[1..], x)
  {
    hide From;
    var front, b := bs[..|bs| - 1], bs[|bs| - 1];
    assert bs == front + [b];
    FromSnoc(front, b, x);
    NothingFrom(x);
    if front == [] {
      assert bs[1..] == [];
    } else {
      FromFirst(front, x);
      assert bs[1..] == front[1..] + [b];
      FromSnoc(front[1..], b, x);
    }
  }

  lemma {:induction false} CarriedFirst(ws: seq<Wire>, x: Id)
    requires ws != []
    ensures Carried(ws, x) ==
            (if ws[0].action == Message && ws[0].source == x then [ws[0].payload] else []) + Carried(ws[1..], x)
  {
    hide Carried;
    var front, w := ws[..|ws| - 1], ws[|ws| - 1];
    assert ws == front + [w];
    CarriedSnoc(front, w, x);
    NothingFrom(x);
    if front == [] {
      assert ws[1..] == [];
    } else {
      CarriedFirst(front, x);
      assert ws[1..] == front[1..] + [w];
      CarriedSnoc(front[1..], w, x);
    }
  }

  lemma NothingFrom(x: Id)
    ensures From([], x) == [] && Carried([], x) == []
  {
  }

  // ---------------------------------------------------------------- one handler

  /** Events that leave peers and links in place. */
  predicate Quiet(e: Event) {
    e.PeerSays? || e.ControllerArrives? || e.ControllerLeaves? || e.ControllerSays? || e.Dispatch?
  }

  /** What x says in this event. */
  function Says(e: Event, x: Id): seq<string> {
    if e.PeerSays? && e.id == x then [e.payload] else []
  }

  /** What of x is dispatched in this event. */
  function Dispatched(s: Socket, e: Event, x: Id): seq<string>
    requires Enabled(s, e)
  {
    if e.Dispatch? && s.buffer[0].source == x then [s.buffer[0].payload] else []
  }

  /** The buffer loses what is dispatched and gains what is said. */
  lemma BufferAfter(s: Socket, e: Event, x: Id)
    requires Enabled(s, e) && Quiet(e)
    ensures Dispatched(s, e, x) + From(After(s, e).buffer, x) == From(s.buffer, x) + Says(e, x)
  {
    var r := After(s, e);
    if e.PeerSays? {
      FromSnoc(s.buffer, Broadcast(e.id, e.payload, false), x);
      assert Dispatched(s, e, x) == [];
    } else if e.Dispatch? {
      FromFirst(s.buffer, x);
      assert From(s.buffer, x) + [] == From(s.buffer, x);
    } else {
      assert r.buffer == s.buffer;
      assert [] + From(s.buffer, x) == From(s.buffer, x) + [];
    }
  }

  /** Peers other than x receive what of x is dispatched. */
  lemma PeersAfter(s: Socket, e: Event, x: Id, j: nat)
    requires Enabled(s, e) && Quiet(e) && Distinct(s) && j < |s.peers|
    ensures var r := After(s, e);
            && |r.peers| == |s.peers| && r.peers[j].id == s.peers[j].id
            && r.peers[j].said == s.peers[j].said + Says(e, s.peers[j].id)
            && From(r.peers[j].inbox, x) ==
               From(s.peers[j].inbox, x) + if s.peers[j].id != x then Dispatched(s, e, x) else []
  {
    hide From;
    var r, q := After(s, e), s.peers[j];
    assert q.said + [] == q.said && From(q.inbox, x) + [] == From(q.inbox, x);
    if e.PeerSays? {
      SpeakerFound(s, e.id, j);
    } else if e.Dispatch? {
      FromSnoc(q.inbox, s.buffer[0], x);
      assert r.peers[j] == Deliver(q, s.buffer[0]);
    } else {
      assert r.peers == s.peers;
    }
  }

  lemma SpeakerFound(s: Socket, id: Id, j: nat)
    requires Distinct(s) && j < |s.peers|
    ensures s.peers[j].id == id <==> j == FindPeer(s.peers, id)
  {
  }

  /** A writeable link carries away what of x, a local peer, is dispatched. */
  lemma OutAfter(s: Socket, e: Event, x: Id, l: Id)
    requires Enabled(s, e) && Quiet(e) && WriteableEnd(s, l) && l != x
    requires e.Dispatch? && s.buffer[0].source == x ==> !s.buffer[0].fromProxy
    ensures WriteableEnd(After(s, e), l)
    ensures Carried(ProxyOut(After(s, e), l), x) == Carried(ProxyOut(s, l), x) + Dispatched(s, e, x)
  {
    var r := After(s, e);
    assert SameEnds(s, r);
    SameEndsFound(s, r, l);
    var out := ProxyOut(s, l);
    if e.Dispatch? {
      var m := s.buffer[0];
      CarriedSnoc(out, Wire(Message, m.source, 0, m.payload), x);
    } else if e.ControllerSays? {
      CarriedSnoc(out, Wire(DirectMessage, e.id, e.target, e.payload), x);
    }
    assert Carried(out, x) + [] == Carried(out, x);
  }

  // ---------------------------------------------------------------- the flow of broadcasts

  /** l is open at both ends, and it is the only such link from its owner to its dialler. */
  ghost predicate Live(m: State, l: Id) {
    && l in m.links && m.links[l].owned && m.links[l].dial == Open
    && forall x :: x in m.links && x != l && m.links[x].owner == m.links[l].owner && m.links[x].dialler == m.links[l].dialler ==>
         m.links[x].dial != Open
  }

  /** No link that b has dialled to a is open. */
  ghost predicate Apart(m: State, a: nat, b: nat) {
    forall x :: x in m.links && m.links[x].owner == a && m.links[x].dialler == b ==> m.links[x].dial != Open
  }

  /** What x has said has reached the local peer q, or is in the buffer; x hears nothing of its own. */
  ghost predicate LocalFlow(s: Socket, i: nat, j: nat)
    requires i < |s.peers| && j < |s.peers|
  {
    var x, q := s.peers[i], s.peers[j];
    if i == j then From(q.inbox, x.id) == [] else From(q.inbox, x.id) + From(s.buffer, x.id) == x.said
  }

  /** What x has said at a has reached q at b, or is in b's buffer, on the link, or in a's buffer, in that order. */
  ghost predicate RemoteFlow(a: Socket, queue: seq<Wire>, b: Socket, i: nat, j: nat)
    requires i < |a.peers| && j < |b.peers|
  {
    var x, q := a.peers[i], b.peers[j];
    From(q.inbox, x.id) + From(b.buffer, x.id) + Carried(queue, x.id) + From(a.buffer, x.id) == x.said
  }

  ghost predicate NoFlow(a: Socket, b: Socket, i: nat, j: nat)
    requires i < |a.peers| && j < |b.peers|
  {
    From(b.peers[j].inbox, a.peers[i].id) == [] && From(b.buffer, a.peers[i].id) == []
  }

  ghost predicate AllLocal(s: Socket) {
    forall i, j :: 0 <= i < |s.peers| && 0 <= j < |s.peers| ==> LocalFlow(s, i, j)
  }

  ghost predicate AllRemote(a: Socket, queue: seq<Wire>, b: Socket) {
    forall i, j :: 0 <= i < |a.peers| && 0 <= j < |b.peers| ==> RemoteFlow(a, queue, b, i, j)
  }

  ghost predicate AllApart(a: Socket, b: Socket) {
    forall i, j :: 0 <= i < |a.peers| && 0 <= j < |b.peers| ==> NoFlow(a, b, i, j)
  }

  ghost predicate LinkFlow(m: State, l: Id)
    requires Live(m, l)
  {
    && m.links[l].owner < |m.sockets| && m.links[l].dialler < |m.sockets|
    && AllRemote(m.sockets[m.links[l].owner], Queue(m, l), m.sockets[m.links[l].dialler])
  }

  ghost predicate Flow(m: State) {
    && (forall n :: 0 <= n < |m.sockets| ==> AllLocal(m.sockets[n]))
    && (forall l :: Live(m, l) ==> LinkFlow(m, l))
    && (forall a, b :: 0 <= a < |m.sockets| && 0 <= b < |m.sockets| && a != b && Apart(m, a, b) ==>
          AllApart(m.sockets[a], m.sockets[b]))
  }

  // ---------------------------------------------------------------- local steps

  lemma LocalFlowAfter(s: Socket, e: Event, i: nat, j: nat)
    requires Enabled(s, e) && Quiet(e) && Distinct(s) && i < |s.peers| && j < |s.peers| && LocalFlow(s, i, j)
    ensures |After(s, e).peers| == |s.peers| && LocalFlow(After(s, e), i, j)
  {
    var x := s.peers[i].id;
    PeersAfter(s, e, x, i);
    PeersAfter(s, e, x, j);
    BufferAfter(s, e, x);
    hide After, From, Enabled, Dispatched, Says;
    assert i != j ==> s.peers[j].id != x;
    if i != j {
      Regroup(From(s.peers[j].inbox, x), Dispatched(s, e, x), From(After(s, e).buffer, x), From(s.buffer, x), Says(e, x));
    }
  }

  /** g moves from the head of one sequence to the tail of the one before it; t is new. */
  lemma Regroup(head: seq<string>, g: seq<string>, rest: seq<string>, was: seq<string>, t: seq<string>)
    requires g + rest == was + t
    ensures head + g + rest == head + was + t
  {
    assert head + g + rest == head + (g + rest);
    assert head + was + t == head + (was + t);
  }

  /** A local event at the owner. */
  lemma OwnerFlowAfter(a: Socket, e: Event, b: Socket, l: Id, i: nat, j: nat)
    requires Enabled(a, e) && Quiet(e) && Distinct(a) && i < |a.peers| && j < |b.peers|
    requires WriteableEnd(a, l) && l != a.peers[i].id && RemoteFlow(a, ProxyOut(a, l), b, i, j)
    requires e.Dispatch? && a.buffer[0].source == a.peers[i].id ==> !a.buffer[0].fromProxy
    ensures |After(a, e).peers| == |a.peers| && RemoteFlow(After(a, e), ProxyOut(After(a, e), l), b, i, j)
  {
    hide After, From, Enabled, Dispatched, Says, Carried, ProxyOut, WriteableEnd, Distinct;
    var x, r := a.peers[i].id, After(a, e);
    PeersAfter(a, e, x, i);
    BufferAfter(a, e, x);
    OutAfter(a, e, x, l);
    var head := From(b.peers[j].inbox, x) + From(b.buffer, x);
    Passes(head, Carried(ProxyOut(a, l), x), Dispatched(a, e, x), From(r.buffer, x), From(a.buffer, x), Says(e, x));
  }

  /** The same one stage further on: g joins what is carried. */
  lemma Passes(head: seq<string>, carried: seq<string>, g: seq<string>, rest: seq<string>, was: seq<string>, t: seq<string>)
    requires g + rest == was + t
    ensures head + (carried + g) + rest == head + carried + was + t
  {
    Regroup(head + carried, g, rest, was, t);
    assert head + (carried + g) == head + carried + g;
  }

  /** A local event at the dialler. */
  lemma DiallerFlowAfter(a: Socket, queue: seq<Wire>, b: Socket, e: Event, i: nat, j: nat)
    requires Enabled(b, e) && Quiet(e) && Distinct(b) && i < |a.peers| && j < |b.peers|
    requires forall k :: 0 <= k < |b.peers| ==> b.peers[k].id != a.peers[i].id
    ensures |After(b, e).peers| == |b.peers|
    ensures RemoteFlow(a, queue, b, i, j) ==> RemoteFlow(a, queue, After(b, e), i, j)
    ensures NoFlow(a, b, i, j) ==> NoFlow(a, After(b, e), i, j)
  {
    var x := a.peers[i].id;
    PeersAfter(b, e, x, j);
    BufferAfter(b, e, x);
    assert Says(e, x) == [];
    hide After, From, Enabled, Dispatched, Says, Carried;
    var r := After(b, e);
    Regroup(From(b.peers[j].inbox, x), Dispatched(b, e, x), From(r.buffer, x), From(b.buffer, x), []);
    assert From(b.peers[j].inbox, x) + From(b.buffer, x) + [] == From(b.peers[j].inbox, x) + From(b.buffer, x);
  }

  /** Links keep their ends. */
  ghost predicate SameTopology(m: State, m1: State) {
    && m1.links.Keys == m.links.Keys && |m1.sockets| == |m.sockets|
    && forall l :: l in m.links ==> m1.links[l] == m.links[l].(left := m1.links[l].left)
  }

  lemma SameLife(m: State, m1: State)
    requires SameTopology(m, m1)
    ensures forall l :: Live(m1, l) <==> Live(m, l)
    ensures forall a, b :: Apart(m1, a, b) <==> Apart(m, a, b)
  {
  }

  lemma LocalStepFlows(m: State, n: nat, e: Event)
    requires Ok(m) && Flow(m) && Can(m, Local(n, e)) && Quiet(e)
    ensures Flow(Next(m, Local(n, e)))
  {
    var m1, r := Next(m, Local(n, e)), After(m.sockets[n], e);
    assert m1 == Put(m, n, r);
    SameLife(m, m1);
    DistinctHere(m, n);
    AllLocalAfter(m.sockets[n], e);
    forall l | Live(m1, l) ensures LinkFlow(m1, l) {
      LinkFlowAfter(m, n, e, l);
    }
    forall a, b | 0 <= a < |m.sockets| && 0 <= b < |m.sockets| && a != b && Apart(m1, a, b)
      ensures AllApart(m1.sockets[a], m1.sockets[b])
    {
      AllApartAfter(m, n, e, a, b);
    }
  }

  lemma AllLocalAfter(s: Socket, e: Event)
    requires Enabled(s, e) && Quiet(e) && Distinct(s) && AllLocal(s)
    ensures AllLocal(After(s, e))
  {
    hide After, Enabled, Distinct, LocalFlow;
    if |s.peers| > 0 {
      LocalFlowAfter(s, e, 0, 0);
    } else {
      NoPeers(s, e);
    }
    forall i, j | 0 <= i < |s.peers| && 0 <= j < |s.peers| ensures LocalFlow(After(s, e), i, j) {
      LocalFlowAfter(s, e, i, j);
    }
  }

  lemma NoPeers(s: Socket, e: Event)
    requires Enabled(s, e) && Quiet(e)
    ensures |After(s, e).peers| == |s.peers|
  {
  }

  /** The peers at a are not the peers at b, nor links; what a has in its buffer of its own is not marked. */
  lemma Strangers(m: State, a: nat, b: nat)
    requires Ok(m) && a < |m.sockets| && b < |m.sockets| && a != b
    ensures forall i, k :: 0 <= i < |m.sockets[a].peers| && 0 <= k < |m.sockets[b].peers| ==>
              m.sockets[b].peers[k].id != m.sockets[a].peers[i].id
  {
    OkPeers(m, a);
    OkPeers(m, b);
  }

  lemma OkPeers(m: State, n: nat)
    requires Ok(m) && n < |m.sockets|
    ensures forall i :: 0 <= i < |m.sockets[n].peers| ==>
              var x := m.sockets[n].peers[i].id; x in m.home && m.home[x] == n && x !in m.links
    ensures forall k :: 0 <= k < |m.sockets[n].buffer| ==> BroadcastOk(m.sockets[n].buffer[k], n, m.home)
  {
    NotHomes(m);
    assert SocketOk(m.sockets[n], n, m.links, m.home);
  }

  lemma LinkFlowAfter(m: State, n: nat, e: Event, l: Id)
    requires Ok(m) && Flow(m) && Can(m, Local(n, e)) && Quiet(e) && Live(m, l)
    requires Live(Put(m, n, After(m.sockets[n], e)), l)
    ensures LinkFlow(Put(m, n, After(m.sockets[n], e)), l)
  {
    var a, b := m.links[l].owner, m.links[l].dialler;
    OwnerWrites(m, l);
    DistinctHere(m, n);
    OkPeers(m, a);
    Strangers(m, a, b);
    NoPeers(m.sockets[n], e);
    assert LinkFlow(m, l);
    hide Ok, Flow, After, Distinct, LocalEvent, RemoteFlow, WriteableEnd, ProxyOut;
    var m1 := Put(m, n, After(m.sockets[n], e));
    forall i, j | 0 <= i < |m.sockets[a].peers| && 0 <= j < |m.sockets[b].peers|
      ensures RemoteFlow(m1.sockets[a], Queue(m1, l), m1.sockets[b], i, j)
    {
      assert RemoteFlow(m.sockets[a], Queue(m, l), m.sockets[b], i, j);
      if n == a {
        OwnerFlowAfter(m.sockets[a], e, m.sockets[b], l, i, j);
      } else if n == b {
        DiallerFlowAfter(m.sockets[a], Queue(m, l), m.sockets[b], e, i, j);
      }
    }
  }

  lemma AllApartAfter(m: State, n: nat, e: Event, a: nat, b: nat)
    requires Ok(m) && Flow(m) && Can(m, Local(n, e)) && Quiet(e)
    requires a < |m.sockets| && b < |m.sockets| && a != b && Apart(m, a, b)
    ensures var m1 := Put(m, n, After(m.sockets[n], e)); AllApart(m1.sockets[a], m1.sockets[b])
  {
    DistinctHere(m, n);
    Strangers(m, a, b);
    NoPeers(m.sockets[n], e);
    assert AllApart(m.sockets[a], m.sockets[b]);
    hide Ok, Flow, Distinct, LocalEvent;
    var m1 := Put(m, n, After(m.sockets[n], e));
    forall i, j | 0 <= i < |m1.sockets[a].peers| && 0 <= j < |m1.sockets[b].peers|
      ensures NoFlow(m1.sockets[a], m1.sockets[b], i, j)
    {
      assert NoFlow(m.sockets[a], m.sockets[b], i, j);
      if n == b {
        DiallerFlowAfter(m.sockets[a], [], m.sockets[b], e, i, j);
      } else if n == a {
        PeersAfter(m.sockets[a], e, 0, i);
      }
    }
  }

  // ---------------------------------------------------------------- steps over a link

  /** What a message read from a link adds to the buffer. */
  function Added(w: Wire): seq<Broadcast> {
    if w.action == Message then [Broadcast(w.source, w.payload, true)] else []
  }

  ghost predicate SameTalk(m: State, m1: State) {
    |m1.sockets| == |m.sockets|
    && forall k :: 0 <= k < |m.sockets| ==> m1.sockets[k].peers == m.sockets[k].peers && m1.sockets[k].buffer == m.sockets[k].buffer
  }

  /** Queues other than l's are what they were. */
  ghost predicate SameQueues(m: State, m1: State, l: Id) {
    forall x :: x in m.links && x in m1.links && m.links[x].owner < |m.sockets| && m1.links[x].owner < |m1.sockets| && x != l ==>
      Queue(m1, x) == Queue(m, x)
  }

  lemma PopEffects(m: State, l: Id)
    requires l in m.links && m.links[l].owner < |m.sockets| && Queue(m, l) != []
    ensures var m1 := PopQueue(m, l);
            && SameTopology(m, m1) && SameTalk(m, m1) && SameQueues(m, m1, l)
            && Queue(m1, l) == Queue(m, l)[1..]
  {
    var a := m.links[l].owner;
    PopEnds(m.sockets[a], l);
    assert Pop(m.sockets[a], l).buffer == m.sockets[a].buffer;
    hide Pop, ProxyOut;
    forall x | x in m.links && m.links[x].owner < |m.sockets| && x != l ensures Queue(PopQueue(m, l), x) == Queue(m, x) {
      assert SameEnd(m.sockets[a], Pop(m.sockets[a], l), x);
    }
  }

  lemma DeliverEffects(m: State, b: nat, l: Id, w: Wire)
    requires b < |m.sockets| && HasEnd(m.sockets[b], l) && Enabled(m.sockets[b], LinkDelivers(l, w))
    ensures var r := After(m.sockets[b], LinkDelivers(l, w));
            && r.peers == m.sockets[b].peers && r.buffer == m.sockets[b].buffer + Added(w)
            && forall x :: x in m.links && m.links[x].owner < |m.sockets| ==> Queue(Put(m, b, r), x) == Queue(m, x)
  {
    ReceiveEnds(m.sockets[b], l, w);
    var r := After(m.sockets[b], LinkDelivers(l, w));
    assert r.buffer == m.sockets[b].buffer + Added(w);
    hide After, ProxyOut, Enabled;
  }

  /** Reading from the owner of l changes the dialler's buffer and l's queue, for all that broadcasts care. */
  lemma DownEffects(m: State, l: Id)
    requires Ok(m) && Can(m, Down(l))
    ensures var m2 := Next(m, Down(l));
            && SameTopology(m, m2) && AddedAt(m, m2, l, Queue(m, l)[0]) && SameQueues(m, m2, l)
            && m.links[l].owner < |m2.sockets|
            && Queue(m2, l) == Queue(m, l)[1..]
  {
    hide Ok, After, Queue, PopQueue, Added, SameQueues, HasEnd;
    var a, b, w := m.links[l].owner, m.links[l].dialler, Queue(m, l)[0];
    OkLink(m, l);
    SourceIsAtOwner(m, l);
    PopEffects(m, l);
    PopQueueElsewhere(m, l);
    var m1 := PopQueue(m, l);
    DeliverEffects(m1, b, l, w);
    SameQueuesTwice(m, m1, Next(m, Down(l)), l);
  }

  lemma SameQueuesTwice(m: State, m1: State, m2: State, l: Id)
    requires SameTopology(m, m1) && SameQueues(m, m1, l) && m2.links == m1.links && |m2.sockets| == |m1.sockets|
    requires forall x :: x in m1.links && m1.links[x].owner < |m1.sockets| ==> Queue(m2, x) == Queue(m1, x)
    ensures SameQueues(m, m2, l)
  {
    hide Queue;
  }

  /** The source of a message on a link is at the link's owner. */
  lemma SourceIsAtOwner(m: State, l: Id)
    requires Ok(m) && Can(m, Down(l))
    ensures var w := Queue(m, l)[0];
            w.action == Message ==> w.source in m.home && m.home[w.source] == m.links[l].owner
  {
    QueueIsDown(m, l);
    assert DownWire(Queue(m, l)[0], m.links[l].owner, m.home);
  }

  /** What x has said in a message. */
  function Mine(w: Wire, x: Id): seq<string> {
    if w.action == Message && w.source == x then [w.payload] else []
  }

  lemma AddedFrom(bs: seq<Broadcast>, w: Wire, x: Id)
    ensures From(bs + Added(w), x) == From(bs, x) + Mine(w, x)
  {
    if w.action == Message {
      FromSnoc(bs, Broadcast(w.source, w.payload, true), x);
    } else {
      assert bs + [] == bs && From(bs, x) + [] == From(bs, x);
    }
  }

  /** A message moves from the head of the queue to the end of the dialler's buffer. */
  lemma AddedSame(bs: seq<Broadcast>, queue: seq<Wire>, x: Id)
    requires queue != []
    ensures From(bs + Added(queue[0]), x) + Carried(queue[1..], x) == From(bs, x) + Carried(queue, x)
  {
    hide From, Carried, Added;
    CarriedFirst(queue, x);
    AddedFrom(bs, queue[0], x);
    var t := Mine(queue[0], x);
    assert From(bs, x) + t + Carried(queue[1..], x) == From(bs, x) + (t + Carried(queue[1..], x));
  }

  lemma DownFlows(m: State, l: Id)
    requires Ok(m) && Flow(m) && Can(m, Down(l))
    ensures Flow(Next(m, Down(l)))
  {
    hide Ok, Flow, Next, AddedAt, AllLocal, AllApart, LinkFlow, Live, Apart, SameQueues, Queue, SameTopology;
    var m2, w := Next(m, Down(l)), Queue(m, l)[0];
    OkLink(m, l);
    DownEffects(m, l);
    SameLife(m, m2);
    assert |m2.sockets| == |m.sockets| by { SameCount(m, m2); }
    forall n | 0 <= n < |m2.sockets| ensures AllLocal(m2.sockets[n]) {
      AllLocalAdded(m, m2, l, w, n);
    }
    forall x | Live(m2, x) ensures LinkFlow(m2, x) {
      LinkFlowAdded(m, m2, l, x);
    }
    forall a, b | 0 <= a < |m2.sockets| && 0 <= b < |m2.sockets| && a != b && Apart(m2, a, b)
      ensures AllApart(m2.sockets[a], m2.sockets[b])
    {
      AllApartAdded(m, m2, l, w, a, b);
    }
    FlowIs(m2);
  }

  lemma SameCount(m: State, m1: State)
    requires SameTopology(m, m1)
    ensures |m1.sockets| == |m.sockets|
  {
  }

  lemma FlowIs(m: State)
    requires forall n :: 0 <= n < |m.sockets| ==> AllLocal(m.sockets[n])
    requires forall l :: Live(m, l) ==> LinkFlow(m, l)
    requires forall a, b :: 0 <= a < |m.sockets| && 0 <= b < |m.sockets| && a != b && Apart(m, a, b) ==>
               AllApart(m.sockets[a], m.sockets[b])
    ensures Flow(m)
  {
  }

  /** One message w, from a peer of l's owner, has been added to the buffer of l's dialler. */
  ghost predicate AddedAt(m: State, m2: State, l: Id, w: Wire) {
    && l in m.links && |m2.sockets| == |m.sockets| && m.links[l].dialler < |m.sockets| && m.links[l].owner != m.links[l].dialler
    && m.links[l].dial == Open
    && (w.action == Message ==> w.source in m.home && m.home[w.source] == m.links[l].owner)
    && (forall k :: 0 <= k < |m.sockets| ==> m2.sockets[k].peers == m.sockets[k].peers)
    && (forall k :: 0 <= k < |m.sockets| ==>
          m2.sockets[k].buffer == m.sockets[k].buffer + if k == m.links[l].dialler then Added(w) else [])
  }

  lemma AllLocalAdded(m: State, m2: State, l: Id, w: Wire, n: nat)
    requires Ok(m) && Flow(m) && AddedAt(m, m2, l, w) && n < |m.sockets|
    ensures AllLocal(m2.sockets[n])
  {
    OkPeers(m, n);
    assert AllLocal(m.sockets[n]);
    hide Ok, Flow, Added, From;
    var s, r := m.sockets[n], m2.sockets[n];
    forall i, j | 0 <= i < |r.peers| && 0 <= j < |r.peers| ensures LocalFlow(r, i, j) {
      assert LocalFlow(s, i, j);
      AddedOrNot(m, m2, l, w, n, s.peers[i].id);
    }
  }

  lemma AddedOrNot(m: State, m2: State, l: Id, w: Wire, n: nat, x: Id)
    requires AddedAt(m, m2, l, w) && n < |m.sockets|
    requires n == m.links[l].dialler && w.action == Message ==> w.source != x
    ensures From(m2.sockets[n].buffer, x) == From(m.sockets[n].buffer, x)
  {
    if n == m.links[l].dialler {
      AddedFrom(m.sockets[n].buffer, w, x);
    } else {
      assert m.sockets[n].buffer + [] == m.sockets[n].buffer;
    }
  }

  lemma AllApartAdded(m: State, m2: State, l: Id, w: Wire, a: nat, b: nat)
    requires Ok(m) && Flow(m) && AddedAt(m, m2, l, w)
    requires a < |m.sockets| && b < |m.sockets| && a != b && Apart(m, a, b)
    ensures AllApart(m2.sockets[a], m2.sockets[b])
  {
    OkPeers(m, a);
    assert AllApart(m.sockets[a], m.sockets[b]);
    hide Ok, Flow, Added, From;
    forall i, j | 0 <= i < |m.sockets[a].peers| && 0 <= j < |m.sockets[b].peers|
      ensures NoFlow(m2.sockets[a], m2.sockets[b], i, j)
    {
      assert NoFlow(m.sockets[a], m.sockets[b], i, j);
      AddedOrNot(m, m2, l, w, b, m.sockets[a].peers[i].id);
    }
  }

  lemma LinkFlowAdded(m: State, m2: State, l: Id, x: Id)
    requires Ok(m) && Flow(m) && l in m.links && m.links[l].owner < |m.sockets| && Queue(m, l) != []
    requires AddedAt(m, m2, l, Queue(m, l)[0]) && SameTopology(m, m2) && Live(m, x) && Live(m2, x)
    requires Queue(m2, l) == Queue(m, l)[1..] && SameQueues(m, m2, l)
    ensures LinkFlow(m2, x)
  {
    var a, b := m.links[x].owner, m.links[x].dialler;
    OkLink(m, x);
    assert LinkFlow(m, x);
    hide Ok, Flow, Queue, RemoteFlow;
    forall i, j | 0 <= i < |m.sockets[a].peers| && 0 <= j < |m.sockets[b].peers|
      ensures RemoteFlow(m2.sockets[a], Queue(m2, x), m2.sockets[b], i, j)
    {
      assert RemoteFlow(m.sockets[a], Queue(m, x), m.sockets[b], i, j);
      RemoteFlowAdded(m, m2, l, x, i, j);
    }
  }

  lemma RemoteFlowAdded(m: State, m2: State, l: Id, x: Id, i: nat, j: nat)
    requires Ok(m) && l in m.links && m.links[l].owner < |m.sockets| && Queue(m, l) != []
    requires AddedAt(m, m2, l, Queue(m, l)[0]) && SameTopology(m, m2) && Live(m, x) && LinkOk(m, x)
    requires Queue(m2, l) == Queue(m, l)[1..] && SameQueues(m, m2, l)
    requires var a, b := m.sockets[m.links[x].owner], m.sockets[m.links[x].dialler];
             i < |a.peers| && j < |b.peers| && RemoteFlow(a, Queue(m, x), b, i, j)
    ensures RemoteFlow(m2.sockets[m.links[x].owner], Queue(m2, x), m2.sockets[m.links[x].dialler], i, j)
  {
    var a, b, w := m.links[x].owner, m.links[x].dialler, Queue(m, l)[0];
    OkPeers(m, a);
    hide Ok, Added, From, Carried, Queue;
    var id := m.sockets[a].peers[i].id;
    AddedOrNot(m, m2, l, w, a, id);
    if x == l {
      AddedSame(m.sockets[b].buffer, Queue(m, l), id);
      MovedOn(From(m.sockets[b].peers[j].inbox, id), From(m2.sockets[b].buffer, id), Carried(Queue(m2, l), id),
              From(m.sockets[b].buffer, id), Carried(Queue(m, l), id));
    } else {
      AddedOrNot(m, m2, l, w, b, id);
    }
  }

  lemma MovedOn(head: seq<string>, a1: seq<string>, b1: seq<string>, a: seq<string>, b: seq<string>)
    requires a1 + b1 == a + b
    ensures head + a1 + b1 == head + a + b
  {
    assert head + a1 + b1 == head + (a1 + b1);
    assert head + a + b == head + (a + b);
  }

  lemma UpEffects(m: State, l: Id)
    requires Ok(m) && Can(m, Up(l))
    ensures var m2 := Next(m, Up(l));
            && SameTalk(m, m2) && m2.links == m.links
            && forall x :: x in m.links && m.links[x].owner < |m.sockets| ==> Queue(m2, x) == Queue(m, x)
  {
    hide Ok, EndOk, SocketOk;
    var a, b := m.links[l].owner, m.links[l].dialler;
    var w := ProxyOut(m.sockets[b], l)[0];
    OkLink(m, l);
    UpIsDirect(m, l);
    var p := Pop(m.sockets[b], l);
    var m1 := Put(m, b, p);
    PopEnds(m.sockets[b], l);
    PopBuffer(m.sockets[b], l);
    DeliverEffects(m1, a, l, w);
    hide Pop, After, ProxyOut;
    forall x | x in m.links && m.links[x].owner < |m.sockets| ensures Queue(m1, x) == Queue(m, x) {
      assert x != l ==> SameEnd(m.sockets[b], p, x);
    }
  }

  lemma PopBuffer(s: Socket, l: Id)
    ensures Pop(s, l).buffer == s.buffer
  {
  }

  lemma UpIsDirect(m: State, l: Id)
    requires Ok(m) && Can(m, Up(l))
    ensures Added(ProxyOut(m.sockets[m.links[l].dialler], l)[0]) == []
  {
    OkLink(m, l);
    EndFound(m.sockets[m.links[l].dialler], l, m.links[l].dialler, m.links, m.home);
  }

  lemma UpFlows(m: State, l: Id)
    requires Ok(m) && Flow(m) && Can(m, Up(l))
    ensures Flow(Next(m, Up(l)))
  {
    var m2 := Next(m, Up(l));
    UpEffects(m, l);
    hide Ok, Next, Can, Queue;
    SameLife(m, m2);
    forall n | 0 <= n < |m2.sockets| ensures AllLocal(m2.sockets[n]) {
      assert AllLocal(m.sockets[n]);
      TalkLocal(m.sockets[n], m2.sockets[n]);
    }
    forall x | Live(m2, x) ensures LinkFlow(m2, x) {
      assert LinkFlow(m, x);
      TalkRemote(m.sockets[m.links[x].owner], m2.sockets[m.links[x].owner], Queue(m, x),
                 m.sockets[m.links[x].dialler], m2.sockets[m.links[x].dialler]);
    }
    forall a, b | 0 <= a < |m2.sockets| && 0 <= b < |m2.sockets| && a != b && Apart(m2, a, b)
      ensures AllApart(m2.sockets[a], m2.sockets[b])
    {
      assert AllApart(m.sockets[a], m.sockets[b]);
      TalkApart(m.sockets[a], m2.sockets[a], m.sockets[b], m2.sockets[b]);
    }
  }

  lemma TalkLocal(s: Socket, r: Socket)
    requires r.peers == s.peers && r.buffer == s.buffer && AllLocal(s)
    ensures AllLocal(r)
  {
    forall i, j | 0 <= i < |r.peers| && 0 <= j < |r.peers| ensures LocalFlow(r, i, j) {
      assert LocalFlow(s, i, j);
    }
  }

  lemma TalkRemote(a: Socket, a1: Socket, queue: seq<Wire>, b: Socket, b1: Socket)
    requires a1.peers == a.peers && a1.buffer == a.buffer && b1.peers == b.peers && b1.buffer == b.buffer
    requires AllRemote(a, queue, b)
    ensures AllRemote(a1, queue, b1)
  {
    forall i, j | 0 <= i < |a1.peers| && 0 <= j < |b1.peers| ensures RemoteFlow(a1, queue, b1, i, j) {
      assert RemoteFlow(a, queue, b, i, j);
    }
  }

  lemma TalkApart(a: Socket, a1: Socket, b: Socket, b1: Socket)
    requires a1.peers == a.peers && b1.peers == b.peers && b1.buffer == b.buffer && AllApart(a, b)
    ensures AllApart(a1, b1)
  {
    forall i, j | 0 <= i < |a1.peers| && 0 <= j < |b1.peers| ensures NoFlow(a1, b1, i, j) {
      assert NoFlow(a, b, i, j);
    }
  }

  // ---------------------------------------------------------------- whole runs

  /** Nobody and nothing comes or goes. */
  predicate Settled(t: Step) {
    match t
    case Local(_, e) => Quiet(e)
    case Down(_) => true
    case Up(_) => true
    case Accept(_, _, _) => false
    case Attach(_) => false
    case HangUp(_) => false
    case Abandon(_) => false
  }

  lemma NextFlows(m: State, t: Step)
    requires Ok(m) && Flow(m) && Can(m, t) && Settled(t)
    ensures Ok(Next(m, t)) && Flow(Next(m, t)) && SameTopology(m, Next(m, t))
  {
    NextKeeps(m, t);
    hide Ok, Flow, After, Queue, PopQueue, ProxyOut, Pop, LocalEvent;
    match t {
      case Local(n, e) => LocalStepFlows(m, n, e);
      case Down(l) =>
        DownFlows(m, l);
        DownEffects(m, l);
      case Up(l) =>
        UpFlows(m, l);
        UpEffects(m, l);
    }
  }

  /** Everybody is there, and nobody has said anything. */
  ghost predicate Silent(m: State) {
    && (forall n :: 0 <= n < |m.sockets| ==> m.sockets[n].buffer == [])
    && (forall n, i :: 0 <= n < |m.sockets| && 0 <= i < |m.sockets[n].peers| ==>
          m.sockets[n].peers[i].said == [] && m.sockets[n].peers[i].inbox == [])
    && (forall l, k :: l in m.links && m.links[l].owner < |m.sockets| && 0 <= k < |Queue(m, l)| ==> Queue(m, l)[k].action != Message)
  }

  lemma {:induction false} NothingCarried(ws: seq<Wire>, x: Id)
    requires forall k :: 0 <= k < |ws| ==> ws[k].action != Message
    ensures Carried(ws, x) == []
  {
    if ws != [] {
      NothingCarried(ws[..|ws| - 1], x);
    }
  }

  lemma SilentFlows(m: State)
    requires Ok(m) && Silent(m)
    ensures Flow(m)
  {
    forall l | Live(m, l) ensures LinkFlow(m, l) {
      OkLink(m, l);
      var a, b := m.sockets[m.links[l].owner], m.sockets[m.links[l].dialler];
      forall i, j | 0 <= i < |a.peers| && 0 <= j < |b.peers| ensures RemoteFlow(a, Queue(m, l), b, i, j) {
        NothingCarried(Queue(m, l), a.peers[i].id);
      }
    }
  }

  /** A run in which membership is fixed, from a reachable state in which nobody has spoken. */
  ghost predicate Talk(ms: seq<State>, ts: seq<Step>) {
    && |ms| == |ts| + 1 && Ok(ms[0]) && Silent(ms[0])
    && forall i :: 0 <= i < |ts| ==> Can(ms[i], ts[i]) && Settled(ts[i]) && ms[i + 1] == Next(ms[i], ts[i])
  }

  lemma {:induction false} TalkFlows(ms: seq<State>, ts: seq<Step>, i: nat)
    requires Talk(ms, ts) && i < |ms|
    ensures Ok(ms[i]) && Flow(ms[i])
  {
    if i == 0 {
      SilentFlows(ms[0]);
    } else {
      TalkFlows(ms, ts, i - 1);
      NextFlows(ms[i - 1], ts[i - 1]);
    }
  }

  /**
   At one proxy, in every reachable state: a peer has received a prefix of what another has
   said, and nothing that it has said itself; it has received all of it once the buffer is empty.
   */
  lemma LocalDelivery(ms: seq<State>, ts: seq<Step>, t: nat, n: nat, i: nat, j: nat)
    requires Talk(ms, ts) && t < |ms| && n < |ms[t].sockets|
    requires i < |ms[t].sockets[n].peers| && j < |ms[t].sockets[n].peers|
    ensures var s := ms[t].sockets[n]; var x, q := s.peers[i], s.peers[j];
            && (i == j ==> From(q.inbox, x.id) == [])
            && (i != j ==> From(q.inbox, x.id) <= x.said)
            && (i != j && s.buffer == [] ==> From(q.inbox, x.id) == x.said)
  {
    TalkFlows(ms, ts, t);
    var s := ms[t].sockets[n];
    assert AllLocal(s) && LocalFlow(s, i, j);
  }

  /**
   From one proxy to another with one link between them, in every reachable state: a peer has
   received a prefix of what a remote peer has said: everything at most once, and in order. It
   has received all of it once the buffers and the link are empty.
   */
  lemma RemoteDelivery(ms: seq<State>, ts: seq<Step>, t: nat, l: Id, i: nat, j: nat)
    requires Talk(ms, ts) && t < |ms| && Live(ms[t], l)
    requires ms[t].links[l].owner < |ms[t].sockets| && ms[t].links[l].dialler < |ms[t].sockets|
    requires i < |ms[t].sockets[ms[t].links[l].owner].peers| && j < |ms[t].sockets[ms[t].links[l].dialler].peers|
    ensures var m := ms[t]; var a, b := m.sockets[m.links[l].owner], m.sockets[m.links[l].dialler];
            var x, q := a.peers[i], b.peers[j];
            && From(q.inbox, x.id) <= x.said
            && (a.buffer == [] && b.buffer == [] && Queue(m, l) == [] ==> From(q.inbox, x.id) == x.said)
  {
    hide Talk, Ok, Flow, Live, LinkFlow, From, Carried, Queue;
    TalkFlows(ms, ts, t);
    var m := ms[t];
    LinkFlows(m, l);
    var a, b := m.sockets[m.links[l].owner], m.sockets[m.links[l].dialler];
    assert RemoteFlow(a, Queue(m, l), b, i, j);
    var x := a.peers[i].id;
    var rest := From(b.buffer, x) + Carried(Queue(m, l), x) + From(a.buffer, x);
    assert a.peers[i].said == From(b.peers[j].inbox, x) + rest;
    NothingFrom(x);
  }

  lemma LinkFlows(m: State, l: Id)
    requires Flow(m) && Live(m, l)
    ensures l in m.links && m.links[l].owner < |m.sockets| && m.links[l].dialler < |m.sockets|
    ensures AllRemote(m.sockets[m.links[l].owner], Queue(m, l), m.sockets[m.links[l].dialler])
  {
    assert LinkFlow(m, l);
  }

  /** Without a link between the proxies nothing arrives: no other proxy passes it on. */
  lemma NoDelivery(ms: seq<State>, ts: seq<Step>, t: nat, a: nat, b: nat, i: nat, j: nat)
    requires Talk(ms, ts) && t < |ms| && a < |ms[t].sockets| && b < |ms[t].sockets| && a != b && Apart(ms[t], a, b)
    requires i < |ms[t].sockets[a].peers| && j < |ms[t].sockets[b].peers|
    ensures From(ms[t].sockets[b].peers[j].inbox, ms[t].sockets[a].peers[i].id) == []
  {
    TalkFlows(ms, ts, t);
    assert AllApart(ms[t].sockets[a], ms[t].sockets[b]);
    assert NoFlow(ms[t].sockets[a], ms[t].sockets[b], i, j);
  }
}