/**
 Runs in which a dialler drops a link only when it believes nobody to be behind it, and does not dial
 an owner to which it has a link already. In these all controllers always know who is there.
 */
module TidyRuns {
  import opened Sockets
  import opened Mesh
  import opened Directory
  import opened Announcements

  /** No two links lead to the same owner. */
  ghost predicate Single(s: Socket, links: Links) {
    forall i, j :: 0 <= i < j < |s.proxies| && !s.proxies[i].writeable && !s.proxies[j].writeable ==>
      s.proxies[i].id in links && s.proxies[j].id in links
      && links[s.proxies[i].id].owner != links[s.proxies[j].id].owner
  }

  ghost predicate AllSingle(m: State) {
    forall n :: 0 <= n < |m.sockets| ==> Single(m.sockets[n], m.links)
  }

  /**
   This proxy has dialled no link to the owner. Discovery skips the names that it has dialled already, so that
   only two rounds of it that overlap dial an owner twice.
   */
  predicate NoneTo(s: Socket, owner: nat, links: Links) {
    forall i :: 0 <= i < |s.proxies| && !s.proxies[i].writeable && s.proxies[i].id in links ==> links[s.proxies[i].id].owner != owner
  }

  /** A dialler does not dial an owner twice, and drops a link only when it leads to nobody. */
  predicate Tidy(m: State, t: Step)
    requires Can(m, t)
  {
    match t
    case Local(_, _) => true
    case Accept(_, _, _) => true
    case Attach(l) => NoneTo(m.sockets[m.links[l].dialler], m.links[l].owner, m.links)
    case HangUp(_) => true
    case Abandon(l) => Believed(m.sockets[m.links[l].dialler], l) == {}
    case Down(_) => true
    case Up(_) => true
  }

  ghost predicate SameOwners(links: Links, links1: Links) {
    forall l :: l in links ==> l in links1 && links1[l].owner == links[l].owner
  }

  /** The same ends, and each still writeable or not. */
  ghost predicate SameKinds(s: Socket, r: Socket) {
    |r.proxies| == |s.proxies|
    && forall i :: 0 <= i < |s.proxies| ==> r.proxies[i].id == s.proxies[i].id && r.proxies[i].writeable == s.proxies[i].writeable
  }

  lemma SingleStays(s: Socket, r: Socket, links: Links, links1: Links)
    requires Single(s, links) && SameKinds(s, r) && SameOwners(links, links1)
    ensures Single(r, links1)
  {
  }

  lemma SingleOpens(s: Socket, l: Id, writeable: bool, links: Links, links1: Links)
    requires Single(s, links) && SameOwners(links, links1) && l in links1
    requires forall i :: 0 <= i < |s.proxies| ==> s.proxies[i].id in links
    requires !writeable ==> NoneTo(s, links1[l].owner, links)
    ensures Single(After(s, LinkOpens(l, writeable)), links1)
  {
  }

  lemma SingleCloses(s: Socket, l: Id, links: Links, links1: Links)
    requires Single(s, links) && SameOwners(links, links1) && Enabled(s, LinkCloses(l))
    ensures Single(After(s, LinkCloses(l)), links1)
  {
    var r, k := After(s, LinkCloses(l)), FindProxy(s.proxies, l);
    assert forall i :: 0 <= i < |r.proxies| ==> r.proxies[i] == s.proxies[if i < k then i else i + 1];
  }

  lemma OneSingle(m: State, n: nat, s: Socket, links1: Links, home1: Homes)
    requires AllSingle(m) && n < |m.sockets| && Single(s, links1) && SameOwners(m.links, links1)
    ensures AllSingle(State(m.sockets[n := s], links1, home1))
  {
    hide Single, SameOwners;
    var sockets := m.sockets[n := s];
    forall k | 0 <= k < |sockets| ensures Single(sockets[k], links1) {
      if k != n {
        KindsAreSame(m.sockets[k]);
        SingleStays(m.sockets[k], m.sockets[k], m.links, links1);
      }
    }
  }

  lemma KindsAreSame(s: Socket)
    ensures SameKinds(s, s)
  {
  }

  lemma KindsAfter(s: Socket, e: Event)
    requires Enabled(s, e) && !e.LinkOpens? && !e.LinkCloses?
    ensures SameKinds(s, After(s, e))
  {
  }

  lemma SameOwnersSelf(links: Links)
    ensures SameOwners(links, links)
  {
  }

  /** The kinds at n stay what they are. */
  lemma KindsSingle(m: State, n: nat, s: Socket, links1: Links, home1: Homes)
    requires AllSingle(m) && n < |m.sockets| && SameKinds(m.sockets[n], s) && SameOwners(m.links, links1)
    ensures AllSingle(State(m.sockets[n := s], links1, home1))
  {
    hide Single, SameKinds, SameOwners;
    SingleStays(m.sockets[n], s, m.links, links1);
    OneSingle(m, n, s, links1, home1);
  }

  lemma EndsAreLinked(m: State, n: nat)
    requires Ok(m) && n < |m.sockets|
    ensures forall i :: 0 <= i < |m.sockets[n].proxies| ==> m.sockets[n].proxies[i].id in m.links
  {
    OkSocket(m, n);
    forall i | 0 <= i < |m.sockets[n].proxies| ensures m.sockets[n].proxies[i].id in m.links {
      assert EndOk(m.sockets[n].proxies[i], n, m.links, m.home);
    }
  }

  lemma LinkSingle(m: State, t: Step)
    requires Ok(m) && AllSingle(m) && Can(m, t) && Tidy(m, t)
    requires t.Accept? || t.Attach? || t.HangUp? || t.Abandon?
    ensures AllSingle(Next(m, t))
  {
    hide Ok, After, NoneTo, Single;
    var links1 := Next(m, t).links;
    match t {
      case Accept(l, a, b) =>
        EndsAreLinked(m, a);
        SingleOpens(m.sockets[a], l, true, m.links, links1);
        OneSingle(m, a, After(m.sockets[a], LinkOpens(l, true)), links1, m.home);
      case Attach(l) =>
        var b := m.links[l].dialler;
        EndsAreLinked(m, b);
        SingleOpens(m.sockets[b], l, false, m.links, links1);
        OneSingle(m, b, After(m.sockets[b], LinkOpens(l, false)), links1, m.home);
      case HangUp(l) =>
        var a := m.links[l].owner;
        SingleCloses(m.sockets[a], l, m.links, links1);
        OneSingle(m, a, After(m.sockets[a], LinkCloses(l)), links1, m.home);
      case Abandon(l) =>
        var b := m.links[l].dialler;
        SingleCloses(m.sockets[b], l, m.links, links1);
        OneSingle(m, b, After(m.sockets[b], LinkCloses(l)), links1, m.home);
    }
  }

  lemma PopQueueSingle(m: State, l: Id)
    requires AllSingle(m) && l in m.links && m.links[l].owner < |m.sockets| && Queue(m, l) != []
    ensures AllSingle(PopQueue(m, l))
  {
    hide AllSingle, Queue, Pop, SameKinds, ProxyOut;
    var a, links1 := m.links[l].owner, PopQueue(m, l).links;
    if m.links[l].owned {
      SameOwnersSelf(m.links);
      PopKinds(m.sockets[a], l);
      KindsSingle(m, a, Pop(m.sockets[a], l), m.links, m.home);
    } else {
      KindsAreSame(m.sockets[a]);
      KindsSingle(m, a, m.sockets[a], links1, m.home);
      assert m.sockets[a := m.sockets[a]] == m.sockets;
    }
  }

  lemma DownSingle(m: State, l: Id)
    requires AllSingle(m) && Can(m, Down(l))
    ensures AllSingle(Next(m, Down(l)))
  {
    hide AllSingle, Queue, After, Enabled, SameKinds, PopQueue, SameOwners;
    var b, w, m1 := m.links[l].dialler, Queue(m, l)[0], PopQueue(m, l);
    PopQueueSingle(m, l);
    PopQueueKinds(m, l, b);
    KindsAfter(m.sockets[b], LinkDelivers(l, w));
    SameOwnersSelf(m1.links);
    KindsTwice(m1.sockets[b], m.sockets[b], After(m.sockets[b], LinkDelivers(l, w)));
    KindsSingle(m1, b, After(m.sockets[b], LinkDelivers(l, w)), m1.links, m1.home);
  }

  lemma PopQueueKinds(m: State, l: Id, b: nat)
    requires l in m.links && m.links[l].owner < |m.sockets| && Queue(m, l) != [] && b < |m.sockets|
    ensures |PopQueue(m, l).sockets| == |m.sockets| && SameKinds(PopQueue(m, l).sockets[b], m.sockets[b])
  {
    PopKinds(m.sockets[b], l);
    hide Pop, Queue, ProxyOut;
  }

  lemma KindsTwice(r: Socket, s: Socket, t: Socket)
    requires SameKinds(r, s) && SameKinds(s, t)
    ensures SameKinds(r, t)
  {
  }

  lemma PopKinds(s: Socket, l: Id)
    ensures SameKinds(s, Pop(s, l))
  {
  }

  lemma UpSingle(m: State, l: Id)
    requires AllSingle(m) && Can(m, Up(l))
    ensures AllSingle(Next(m, Up(l)))
  {
    hide AllSingle, Pop, After, Enabled, SameKinds, ProxyOut;
    var a, b := m.links[l].owner, m.links[l].dialler;
    SameOwnersSelf(m.links);
    PopKinds(m.sockets[b], l);
    KindsSingle(m, b, Pop(m.sockets[b], l), m.links, m.home);
    var w, m1 := ProxyOut(m.sockets[b], l)[0], Put(m, b, Pop(m.sockets[b], l));
    KindsAfter(m.sockets[a], LinkDelivers(l, w));
    KindsSingle(m1, a, After(m.sockets[a], LinkDelivers(l, w)), m.links, m.home);
  }

  /** After tidy steps no proxy has two links to the same owner. */
  lemma NextSingle(m: State, t: Step)
    requires Ok(m) && AllSingle(m) && Can(m, t) && Tidy(m, t)
    ensures AllSingle(Next(m, t))
  {
    hide Ok, AllSingle, After, Tidy, SameKinds, SameOwners;
    match t {
      case Local(n, e) =>
        KindsAfter(m.sockets[n], e);
        SameOwnersSelf(m.links);
        KindsSingle(m, n, After(m.sockets[n], e), m.links, Next(m, t).home);
      case Down(l) => DownSingle(m, l);
      case Up(l) => UpSingle(m, l);
      case Accept(_, _, _) => LinkSingle(m, t);
      case Attach(_) => LinkSingle(m, t);
      case HangUp(_) => LinkSingle(m, t);
      case Abandon(_) => LinkSingle(m, t);
    }
  }

  /** A peer of the owner of one link is behind no other link. */
  lemma OnlyThere(s: Socket, j: nat, x: Id, n: nat, links: Links, home: Homes)
    requires SocketOk(s, n, links, home) && Single(s, links) && j < |s.proxies| && !s.proxies[j].writeable
    requires s.proxies[j].id in links && x in home && home[x] == links[s.proxies[j].id].owner
    ensures !BehindOther(s, j, x)
  {
    forall i | 0 <= i < |s.proxies| && i != j ensures x !in s.proxies[i].peers {
      assert EndOk(s.proxies[i], n, links, home);
    }
  }

  /** A tidy step informs all controllers, if no proxy has two links to the same owner. */
  lemma TidyInforms(m: State, t: Step)
    requires Ok(m) && AllSingle(m) && Can(m, t) && Tidy(m, t)
    ensures Informs(m, t)
  {
    hide Ok, Queue, Enabled, SocketOk, BehindOther, Single, EndOk;
    if t.Down? && Queue(m, t.l)[0].action == Disconnect {
      var l, b := t.l, m.links[t.l].dialler;
      OkLink(m, l);
      FirstIsDown(m, l);
      OkSocket(m, b);
      EndFound(m.sockets[b], l, b, m.links, m.home);
      OnlyThere(m.sockets[b], FindProxy(m.sockets[b].proxies, l), Queue(m, l)[0].target, b, m.links, m.home);
    }
  }

  lemma StartsSingle(m: State)
    requires Start(m)
    ensures AllSingle(m)
  {
  }

  /** So in a tidy run all steps inform the controllers. */
  lemma {:induction false} TidyRunInforms(ms: seq<State>, ts: seq<Step>, i: nat)
    requires Run(ms, ts) && i <= |ts| && forall j :: 0 <= j < i ==> Tidy(ms[j], ts[j])
    ensures AllSingle(ms[i]) && InformsUpTo(ms, ts, i)
  {
    RunCounts(ms, ts);
    hide Ok, Agree, AllSingle, Informs, Tidy, Can, Next;
    if i == 0 {
      StartsSingle(ms[0]);
    } else {
      hide Run;
      TidyRunInforms(ms, ts, i - 1);
      StepOf(ms, ts, i - 1);
      TidyInforms(ms[i - 1], ts[i - 1]);
      NextSingle(ms[i - 1], ts[i - 1]);
    }
  }
}
