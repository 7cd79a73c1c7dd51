/**
 Runs after which controllers are no longer right about who is there: one that drops a link, and one
 in which an owner has been dialled twice. Each of the two conditions of a tidy run is needed.
 */
module AnnouncementLimits {
  import opened Sockets
  import opened Mesh
  import opened Directory
  import opened Announcements
  import opened TidyRuns

  // ---------------------------------------------------------------- a run that drops a link

  const EMPTY: Socket := Socket([], [], [], [])

  /** A proxy with peer 1 and its ends of links. */
  function Owner(ps: seq<Proxy>): Socket {
    Socket([], [Peer(1, [], [])], ps, [])
  }

  /** A proxy with a controller, and its ends of links. */
  function Dialler(told: seq<Wire>, ps: seq<Proxy>): Socket {
    Socket([Controller(2, told)], [], ps, [])
  }

  const NEWS := Wire(Connect, 2, 1, "")
  const LOSS := Wire(Disconnect, 2, 1, "")
  const LINK: Link := Link(0, 1, true, Open, [])

  function Pair(a: Socket, b: Socket, links: Links): State {
    State([a, b], links, map[1 := 0])
  }

  /** What the owner of link l sends when it begins. */
  function Roster(l: Id): Wire {
    Wire(Connect, l, 1, "")
  }

  lemma OneMore(ms: seq<State>, ts: seq<Step>, t: Step)
    requires Run(ms, ts) && Can(ms[|ts|], t)
    ensures Run(ms + [Next(ms[|ts|], t)], ts + [t])
  {
    hide Can, Next, Start;
    var more, us := ms + [Next(ms[|ts|], t)], ts + [t];
    forall i | 0 <= i < |us| ensures Can(more[i], us[i]) && more[i + 1] == Next(more[i], us[i]) {
      if i < |ts| {
        assert Can(ms[i], ts[i]) && ms[i + 1] == Next(ms[i], ts[i]);
        assert more[i] == ms[i] && more[i + 1] == ms[i + 1] && us[i] == ts[i];
      }
    }
  }

  const ALONE: State := Pair(EMPTY, EMPTY, map[]).(home := map[])

  lemma PeerJoins()
    ensures Can(ALONE, Local(0, PeerArrives(1)))
    ensures Next(ALONE, Local(0, PeerArrives(1))) == Pair(Owner([]), EMPTY, map[])
  {
    assert After(EMPTY, PeerArrives(1)) == Owner([]);
  }

  lemma ControllerJoins()
    ensures var m := Pair(Owner([]), EMPTY, map[]);
            && Can(m, Local(1, ControllerArrives(2, [])))
            && Next(m, Local(1, ControllerArrives(2, []))) == Pair(Owner([]), Dialler([], []), map[])
  {
    assert Welcome(EMPTY, 2, []) == [];
    assert After(EMPTY, ControllerArrives(2, [])) == Dialler([], []);
  }

  /** A peer joins the one proxy and a controller the other. */
  lemma TheyJoin() returns (ms: seq<State>, ts: seq<Step>)
    ensures Run(ms, ts) && ts == [Local(0, PeerArrives(1)), Local(1, ControllerArrives(2, []))]
    ensures ms[2] == Pair(Owner([]), Dialler([], []), map[])
  {
    ms, ts := [ALONE], [];
    assert Run(ms, ts);
    hide Run, Can, Next;
    PeerJoins();
    OneMore(ms, ts, Local(0, PeerArrives(1)));
    ms, ts := ms + [Pair(Owner([]), EMPTY, map[])], ts + [Local(0, PeerArrives(1))];
    ControllerJoins();
    OneMore(ms, ts, Local(1, ControllerArrives(2, [])));
    ms, ts := ms + [Pair(Owner([]), Dialler([], []), map[])], ts + [Local(1, ControllerArrives(2, []))];
  }

  lemma {:induction false} FoundLast(ps: seq<Proxy>, p: Proxy)
    requires FindProxy(ps, p.id) == |ps|
    ensures FindProxy(ps + [p], p.id) == |ps|
  {
    if ps != [] {
      assert (ps + [p])[1..] == ps[1..] + [p];
      FoundLast(ps[1..], p);
    }
  }

  function OwnerEnd(l: Id, out: seq<Wire>): Proxy {
    Proxy(l, true, {}, out)
  }

  function DiallerEnd(l: Id, peers: set<Id>): Proxy {
    Proxy(l, false, peers, [])
  }

  lemma OwnerOpens(xs: seq<Proxy>, l: Id)
    ensures After(Owner(xs), LinkOpens(l, true)) == Owner(xs + [OwnerEnd(l, [Roster(l)])])
  {
    assert Roll([Peer(1, [], [])], Connect, l) == [Roster(l)];
  }

  lemma DiallerOpens(told: seq<Wire>, ys: seq<Proxy>, l: Id)
    ensures After(Dialler(told, ys), LinkOpens(l, false)) == Dialler(told, ys + [DiallerEnd(l, {})])
  {
  }

  lemma OwnerIsRead(xs: seq<Proxy>, l: Id, w: Wire)
    requires FindProxy(xs, l) == |xs|
    ensures var s := Owner(xs + [OwnerEnd(l, [w])]); ProxyOut(s, l) == [w] && Pop(s, l) == Owner(xs + [OwnerEnd(l, [])])
  {
    hide FindProxy;
    FoundLast(xs, OwnerEnd(l, [w]));
    assert [w][1..] == [];
    assert (xs + [OwnerEnd(l, [w])])[|xs| := OwnerEnd(l, [])] == xs + [OwnerEnd(l, [])];
  }

  lemma DiallerReads(told: seq<Wire>, ys: seq<Proxy>, l: Id, was: set<Id>, w: Wire)
    requires FindProxy(ys, l) == |ys| && w.target == 1 && (w.action == Connect || w.action == Disconnect)
    ensures var s := Dialler(told, ys + [DiallerEnd(l, was)]);
            && Enabled(s, LinkDelivers(l, w))
            && After(s, LinkDelivers(l, w)) ==
               if w.action == Connect then Dialler(told + [NEWS], ys + [DiallerEnd(l, was + {1})])
               else Dialler(told + [LOSS], ys + [DiallerEnd(l, was - {1})])
  {
    hide FindProxy;
    var s := Dialler(told, ys + [DiallerEnd(l, was)]);
    FoundLast(ys, DiallerEnd(l, was));
    assert TellAll(s.controllers, w.action, 1) == [Controller(2, told + [if w.action == Connect then NEWS else LOSS])];
    assert forall p :: (ys + [DiallerEnd(l, was)])[|ys| := p] == ys + [p];
  }

  /** A link is dialled, beside those that there are. */
  lemma OneIsDialled(m: State, l: Id, told: seq<Wire>, xs: seq<Proxy>, ys: seq<Proxy>)
    requires m == Pair(Owner(xs), Dialler(told, ys), m.links) && l !in m.links && l != 1
    ensures Can(m, Accept(l, 0, 1))
    ensures var m1 := Next(m, Accept(l, 0, 1));
            && Can(m1, Attach(l))
            && Next(m1, Attach(l)) == Pair(Owner(xs + [OwnerEnd(l, [Roster(l)])]), Dialler(told, ys + [DiallerEnd(l, {})]),
                                           m.links[l := LINK])
  {
    hide After;
    OwnerOpens(xs, l);
    DiallerOpens(told, ys, l);
    var ahead := m.links[l := Link(0, 1, true, Ahead, [])];
    assert ahead[l := LINK] == m.links[l := LINK];
    assert Next(m, Accept(l, 0, 1)) == Pair(Owner(xs + [OwnerEnd(l, [Roster(l)])]), Dialler(told, ys), ahead);
  }

  /** Its roster is read. */
  lemma OneIsRead(m: State, l: Id, told: seq<Wire>, xs: seq<Proxy>, ys: seq<Proxy>)
    requires FindProxy(xs, l) == |xs| && FindProxy(ys, l) == |ys| && l in m.links && m.links[l] == LINK
    requires m == Pair(Owner(xs + [OwnerEnd(l, [Roster(l)])]), Dialler(told, ys + [DiallerEnd(l, {})]), m.links)
    ensures Can(m, Down(l))
    ensures Next(m, Down(l)) == Pair(Owner(xs + [OwnerEnd(l, [])]), Dialler(told + [NEWS], ys + [DiallerEnd(l, {1})]), m.links)
  {
    hide After, FindProxy, Pop, ProxyOut, Enabled;
    OwnerIsRead(xs, l, Roster(l));
    DiallerReads(told, ys, l, {}, Roster(l));
    assert {} + {1} == {1};
    assert Queue(m, l) == [Roster(l)];
    assert PopQueue(m, l) == Pair(Owner(xs + [OwnerEnd(l, [])]), m.sockets[1], m.links);
  }

  /** A first link, with id 10, has been dialled and read to its end. */
  lemma TheyAreLinked() returns (ms: seq<State>, ts: seq<Step>)
    ensures Run(ms, ts)
    ensures ts == [Local(0, PeerArrives(1)), Local(1, ControllerArrives(2, [])), Accept(10, 0, 1), Attach(10), Down(10)]
    ensures ms[5] == Pair(Owner([OwnerEnd(10, [])]), Dialler([NEWS], [DiallerEnd(10, {1})]), map[10 := LINK])
    ensures forall i :: 0 <= i < 5 ==> Tidy(ms[i], ts[i])
  {
    hide Run, Next, Can;
    ms, ts := TheyJoin();
    RunCounts(ms, ts);
    var m := ms[2];
    assert [] + [NEWS] == [NEWS] && [] + [OwnerEnd(10, [])] == [OwnerEnd(10, [])] && [] + [DiallerEnd(10, {1})] == [DiallerEnd(10, {1})];
    OneIsDialled(m, 10, [], [], []);
    OneMore(ms, ts, Accept(10, 0, 1));
    var m1 := Next(m, Accept(10, 0, 1));
    ms, ts := ms + [m1], ts + [Accept(10, 0, 1)];
    OneMore(ms, ts, Attach(10));
    var m2 := Next(m1, Attach(10));
    ms, ts := ms + [m2], ts + [Attach(10)];
    OneIsRead(m2, 10, [], [], []);
    OneMore(ms, ts, Down(10));
    ms, ts := ms + [Next(m2, Down(10))], ts + [Down(10)];
    NoneBefore(m, m1);
  }

  lemma NoneBefore(m: State, m1: State)
    requires m == Pair(Owner([]), Dialler([], []), map[]) && Can(m, Accept(10, 0, 1)) && m1 == Next(m, Accept(10, 0, 1))
    ensures Can(m1, Attach(10)) && Tidy(m1, Attach(10))
  {
    assert m1.sockets[1] == m.sockets[1];
  }

  /**
   A run in which the last step drops the link, and all others are tidy: the controller has been told of
   a peer that is no longer behind any link.
   */
  lemma DroppedLink() returns (ms: seq<State>, ts: seq<Step>)
    ensures Run(ms, ts) && |ts| == 6 && ts[5] == Abandon(10)
    ensures forall i :: 0 <= i < 5 ==> Tidy(ms[i], ts[i])
    ensures |ms[6].sockets| == 2 && ms[6].sockets[1] == Dialler([NEWS], []) && !AllHear(ms[6].sockets[1])
  {
    hide Run, Tidy, Can, Next;
    ms, ts := TheyAreLinked();
    RunCounts(ms, ts);
    Drops(ms[5]);
    OneMore(ms, ts, Abandon(10));
    ms, ts := ms + [Next(ms[5], Abandon(10))], ts + [Abandon(10)];
    Deaf([NEWS], []);
    assert Fold({}, [NEWS]) == {1} by { Told(); }
  }

  lemma Drops(m: State)
    requires m == Pair(Owner([OwnerEnd(10, [])]), Dialler([NEWS], [DiallerEnd(10, {1})]), map[10 := LINK])
    ensures Can(m, Abandon(10)) && Next(m, Abandon(10)).sockets == [m.sockets[0], Dialler([NEWS], [])]
  {
    assert FindProxy(m.sockets[1].proxies, 10) == 0;
    assert Without(m.sockets[1].proxies, 0) == [];
  }

  lemma Told()
    ensures Fold({}, [NEWS]) == {1} && Fold({}, [NEWS] + [NEWS] + [LOSS]) == {}
  {
    FoldSnoc({}, [], NEWS);
    assert [] + [NEWS] == [NEWS];
    FoldSnoc({}, [NEWS], NEWS);
    FoldSnoc({}, [NEWS] + [NEWS], LOSS);
  }

  /** The one controller is wrong if what it was told is not what is behind the links. */
  lemma Deaf(told: seq<Wire>, ps: seq<Proxy>)
    ensures AllHear(Dialler(told, ps)) <==> Fold({}, told) == Remote(ps)
  {
    var s := Dialler(told, ps);
    assert s.controllers[0] == Controller(2, told);
    assert Present(s, 2) == Remote(ps);
    assert AllHear(s) <==> Hears(s.controllers[0], Present(s, 2));
  }

  /**
   A run in which no link is dropped, but the owner is dialled twice: when it hangs up one of the links, the
   controller is told that the peer is gone, which is still behind the other link.
   */
  lemma DialledTwice() returns (ms: seq<State>, ts: seq<Step>)
    ensures Run(ms, ts) && |ts| == 10 && ts[6] == Attach(11)
    ensures forall i :: 0 <= i < 10 && i != 6 ==> Tidy(ms[i], ts[i])
    ensures |ms[10].sockets| == 2
    ensures ms[10].sockets[1] == Dialler([NEWS] + [NEWS] + [LOSS], [DiallerEnd(10, {1}), DiallerEnd(11, {})])
    ensures !AllHear(ms[10].sockets[1])
  {
    hide Run, Can, Next, After;
    ms, ts := TheyAreLinked();
    RunCounts(ms, ts);
    var m := ms[5];
    var xs, ys := [OwnerEnd(10, [])], [DiallerEnd(10, {1})];
    assert FindProxy(xs, 11) == 1 && FindProxy(ys, 11) == 1;
    OneIsDialled(m, 11, [NEWS], xs, ys);
    OneMore(ms, ts, Accept(11, 0, 1));
    var m1 := Next(m, Accept(11, 0, 1));
    ms, ts := ms + [m1], ts + [Accept(11, 0, 1)];
    OneMore(ms, ts, Attach(11));
    var m2 := Next(m1, Attach(11));
    ms, ts := ms + [m2], ts + [Attach(11)];
    OneIsRead(m2, 11, [NEWS], xs, ys);
    OneMore(ms, ts, Down(11));
    var m3 := Next(m2, Down(11));
    ms, ts := ms + [m3], ts + [Down(11)];
    HangsUp(m3);
    OneMore(ms, ts, HangUp(11));
    var m4 := Next(m3, HangUp(11));
    ms, ts := ms + [m4], ts + [HangUp(11)];
    HearsOfLoss(m4);
    OneMore(ms, ts, Down(11));
    ms, ts := ms + [Next(m4, Down(11))], ts + [Down(11)];
    Deaf([NEWS] + [NEWS] + [LOSS], [DiallerEnd(10, {1}), DiallerEnd(11, {})]);
    Told();
    assert 1 in DiallerEnd(10, {1}).peers;
    assert 1 in Remote([DiallerEnd(10, {1}), DiallerEnd(11, {})]);
  }

  lemma HangsUp(m: State)
    requires m == Pair(Owner([OwnerEnd(10, [])] + [OwnerEnd(11, [])]),
                       Dialler([NEWS] + [NEWS], [DiallerEnd(10, {1})] + [DiallerEnd(11, {1})]), map[10 := LINK, 11 := LINK])
    ensures Can(m, HangUp(11))
    ensures Next(m, HangUp(11)) ==
            Pair(Owner([OwnerEnd(10, [])]), m.sockets[1],
                 map[10 := LINK, 11 := LINK.(owned := false, left := [Wire(Disconnect, 11, 1, "")])])
  {
    var ps := m.sockets[0].proxies;
    assert ps == [OwnerEnd(10, []), OwnerEnd(11, [])];
    assert ps[1..] == [OwnerEnd(11, [])];
    assert FindProxy(ps, 11) == 1;
    assert Without(ps, 1) == [OwnerEnd(10, [])];
    assert Roll([Peer(1, [], [])], Disconnect, 11) == [Wire(Disconnect, 11, 1, "")];
    assert LastWords(m.sockets[0], 11) == [Wire(Disconnect, 11, 1, "")];
  }

  lemma HearsOfLoss(m: State)
    requires m.sockets == [Owner([OwnerEnd(10, [])]), Dialler([NEWS] + [NEWS], [DiallerEnd(10, {1})] + [DiallerEnd(11, {1})])]
    requires 11 in m.links && m.links[11] == LINK.(owned := false, left := [Wire(Disconnect, 11, 1, "")])
    ensures Can(m, Down(11))
    ensures Next(m, Down(11)).sockets ==
            [m.sockets[0], Dialler([NEWS] + [NEWS] + [LOSS], [DiallerEnd(10, {1}), DiallerEnd(11, {})])]
  {
    hide After, Enabled;
    var ys := [DiallerEnd(10, {1})];
    assert FindProxy(ys, 11) == 1;
    DiallerReads([NEWS] + [NEWS], ys, 11, {1}, Wire(Disconnect, 11, 1, ""));
    assert {1} - {1} == {};
    assert ys + [DiallerEnd(11, {})] == [DiallerEnd(10, {1}), DiallerEnd(11, {})];
    assert Queue(m, 11) == [Wire(Disconnect, 11, 1, "")];
  }
}
