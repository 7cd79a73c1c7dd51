/**
 The named web socket as the object it is (socket.go, peer.go, proxy.go, control.go): handlers
 append to its lists, splice them, and send in loops. Each does what Sockets says.
 */
module NamedSocket {
  import opened Sockets

  class NamedWebSocket {
    var controllers: seq<Controller>
    var peers: seq<Peer>
    var proxies: seq<Proxy>
    var broadcastBuffer: seq<Broadcast>

    constructor ()
      ensures State() == Socket([], [], [], [])
    {
      controllers, peers, proxies, broadcastBuffer := [], [], [], [];
    }

    function State(): Socket
      reads this
    {
      Socket(controllers, peers, proxies, broadcastBuffer)
    }

    // ------------------------------------------------------------ broadcasts

    method LocalBroadcast(m: Broadcast)
      modifies this`peers
      ensures peers == DeliverAll(old(peers), m)
    {
      for i := 0 to |peers|
        invariant |peers| == |old(peers)|
        invariant forall k :: 0 <= k < i ==> peers[k] == Deliver(old(peers)[k], m)
        invariant forall k :: i <= k < |peers| ==> peers[k] == old(peers)[k]
      {
        // a peer does not hear what it said itself
        if peers[i].id == m.source {
          continue;
        }
        peers := peers[i := peers[i].(inbox := peers[i].inbox + [m])];
      }
    }

    method RemoteBroadcast(m: Broadcast)
      modifies this`proxies
      ensures proxies == ForwardAll(old(proxies), m)
    {
      if m.fromProxy {
        return;
      }
      for i := 0 to |proxies|
        invariant |proxies| == |old(proxies)|
        invariant forall k :: 0 <= k < i ==> proxies[k] == Forward(old(proxies)[k], m)
        invariant forall k :: i <= k < |proxies| ==> proxies[k] == old(proxies)[k]
      {
        if !proxies[i].writeable || proxies[i].id == m.source {
          continue;
        }
        proxies := proxies[i := Send(proxies[i], Message, m.source, 0, m.payload)];
      }
    }

    /** One round of the dispatcher. */
    method MessageDispatcher()
      requires Enabled(State(), Dispatch)
      modifies this
      ensures State() == After(old(State()), Dispatch)
    {
      var m := broadcastBuffer[0];
      broadcastBuffer := broadcastBuffer[1..];
      LocalBroadcast(m);
      RemoteBroadcast(m);
    }

    // ------------------------------------------------------------ telling others

    method TellControllers(action: Action, target: Id, own: bool)
      modifies this`controllers
      ensures controllers == if own then TellAll(old(controllers), action, target) else TellOthers(old(controllers), action, target)
    {
      for i := 0 to |controllers|
        invariant |controllers| == |old(controllers)|
        invariant forall k :: 0 <= k < i ==>
                    controllers[k] == if own || old(controllers)[k].id != target then Tell(old(controllers)[k], action, target)
                                      else old(controllers)[k]
        invariant forall k :: i <= k < |controllers| ==> controllers[k] == old(controllers)[k]
      {
        if own || controllers[i].id != target {
          controllers := controllers[i := Tell(controllers[i], action, target)];
        }
      }
    }

    method TellProxies(action: Action, target: Id)
      modifies this`proxies
      ensures proxies == Announce(old(proxies), action, target)
    {
      for i := 0 to |proxies|
        invariant |proxies| == |old(proxies)|
        invariant forall k :: 0 <= k < i ==>
                    proxies[k] == if old(proxies)[k].writeable then Send(old(proxies)[k], action, old(proxies)[k].id, target, "")
                                  else old(proxies)[k]
        invariant forall k :: i <= k < |proxies| ==> proxies[k] == old(proxies)[k]
      {
        if proxies[i].writeable {
          proxies := proxies[i := Send(proxies[i], action, proxies[i].id, target, "")];
        }
      }
    }

    // ------------------------------------------------------------ peers

    method AddPeer(id: Id)
      modifies this
      ensures State() == After(old(State()), PeerArrives(id))
    {
      peers := peers + [Peer(id, [], [])];
      TellControllers(Connect, id, false);
      TellProxies(Connect, id);
    }

    method RemovePeer(id: Id)
      requires Enabled(State(), PeerLeaves(id))
      modifies this
      ensures State() == After(old(State()), PeerLeaves(id))
    {
      for i := 0 to |peers|
        invariant peers == old(peers)
        invariant forall k :: 0 <= k < i ==> peers[k].id != id
      {
        if peers[i].id == id {
          peers := peers[..i] + peers[i + 1..];
          break;
        }
      }
      RemoveController(id);
      TellControllers(Disconnect, id, false);
      TellProxies(Disconnect, id);
    }

    /** A peer's message goes to the buffer, which has room. */
    method PeerMessage(id: Id, payload: string)
      requires Enabled(State(), PeerSays(id, payload))
      modifies this`peers, this`broadcastBuffer
      ensures State() == After(old(State()), PeerSays(id, payload))
    {
      var k := FindPeer(peers, id);
      peers := peers[k := peers[k].(said := peers[k].said + [payload])];
      broadcastBuffer := broadcastBuffer + [Broadcast(id, payload, false)];
    }

    // ------------------------------------------------------------ controllers

    /** orders says in which order the map of each link's peers is walked through: any order will do. */
    method AddController(id: Id, orders: seq<seq<Id>>)
      requires Enabled(State(), ControllerArrives(id, orders))
      modifies this`controllers
      ensures State() == After(old(State()), ControllerArrives(id, orders))
    {
      hide WelcomePeers, WelcomeIds;
      var told := GreetPeers(id);
      assert orders[0..] == orders;
      for i := 0 to |proxies|
        invariant controllers == old(controllers)
        invariant told + WelcomeOrders(orders[i..], id) == Welcome(State(), id, orders)
      {
        assert orders[i..][0] == orders[i] && orders[i..][1..] == orders[i + 1..];
        told := GreetIds(told, orders[i], id);
      }
      assert orders[|proxies|..] == [] && told + [] == told;
      controllers := controllers + [Controller(id, told)];
    }

    /** A new controller hears about the local peers. */
    method GreetPeers(id: Id) returns (told: seq<Wire>)
      ensures told == WelcomePeers(peers, id)
    {
      told := [];
      assert peers[0..] == peers;
      for i := 0 to |peers|
        invariant told + WelcomePeers(peers[i..], id) == WelcomePeers(peers, id)
      {
        assert peers[i..][0] == peers[i] && peers[i..][1..] == peers[i + 1..];
        if id != peers[i].id {
          told := told + [Wire(Connect, id, peers[i].id, "")];
        }
      }
      assert peers[|peers|..] == [];
    }

    static method GreetIds(told: seq<Wire>, ids: seq<Id>, c: Id) returns (r: seq<Wire>)
      ensures r == told + WelcomeIds(ids, c)
    {
      r := told;
      for i := 0 to |ids|
        invariant r == told + WelcomeIds(ids, c)[..i]
      {
        r := r + [Wire(Connect, c, ids[i], "")];
      }
      assert WelcomeIds(ids, c)[..|ids|] == WelcomeIds(ids, c);
    }

    method RemoveController(id: Id)
      modifies this`controllers
      ensures controllers == Drop(old(controllers), id)
    {
      for i := 0 to |controllers|
        invariant controllers == old(controllers)
        invariant forall k :: 0 <= k < i ==> controllers[k].id != id
      {
        if controllers[i].id == id {
          controllers := controllers[..i] + controllers[i + 1..];
          break;
        }
      }
    }

    /** A controller sends a direct message. */
    method ControllerMessage(id: Id, target: Id, payload: string)
      modifies this`controllers, this`proxies
      ensures State() == After(old(State()), ControllerSays(id, target, payload))
    {
      var messageSent := HandOver(id, target, payload);
      if !messageSent {
        for i := 0 to |proxies|
          invariant proxies == old(proxies) && controllers == old(controllers)
          invariant forall k :: 0 <= k < i ==> target !in proxies[k].peers
        {
          if target in proxies[i].peers {
            proxies := proxies[i := Send(proxies[i], DirectMessage, id, target, payload)];
            break;
          }
        }
      }
    }

    /** The loop that relays a direct message to the controller that it is for. */
    method HandOver(source: Id, target: Id, payload: string) returns (messageSent: bool)
      modifies this`controllers
      ensures var k := FindController(old(controllers), target);
              && (messageSent <==> k < |old(controllers)|)
              && State() == if messageSent then Hand(old(State()), k, source, target, payload) else old(State())
    {
      messageSent := false;
      for i := 0 to |controllers|
        invariant controllers == old(controllers) && !messageSent
        invariant forall k :: 0 <= k < i ==> controllers[k].id != target
      {
        if controllers[i].id == target {
          controllers := controllers[i := controllers[i].(told := controllers[i].told + [Wire(Message, source, target, payload)])];
          messageSent := true;
          break;
        }
      }
    }

    // ------------------------------------------------------------ links to other proxies

    method AddProxy(id: Id, writeable: bool)
      modifies this`proxies
      ensures State() == After(old(State()), LinkOpens(id, writeable))
    {
      var out: seq<Wire> := [];
      if writeable {
        for i := 0 to |peers|
          invariant out == Roll(peers, Connect, id)[..i]
        {
          out := out + [Wire(Connect, id, peers[i].id, "")];
        }
        assert Roll(peers, Connect, id)[..|peers|] == Roll(peers, Connect, id);
      }
      proxies := proxies + [Proxy(id, writeable, {}, out)];
    }

    /** The end of a link goes; out is what it leaves to be read. */
    method RemoveProxy(id: Id) returns (out: seq<Wire>)
      requires Enabled(State(), LinkCloses(id))
      modifies this`proxies
      ensures State() == After(old(State()), LinkCloses(id)) && out == LastWords(old(State()), id)
    {
      var writeable := false;
      out := [];
      for i := 0 to |proxies|
        invariant proxies == old(proxies)
        invariant forall k :: 0 <= k < i ==> proxies[k].id != id
      {
        if proxies[i].id == id {
          out, writeable := proxies[i].out, proxies[i].writeable;
          proxies := proxies[..i] + proxies[i + 1..];
          break;
        }
      }
      ghost var before := out;
      if writeable {
        for i := 0 to |peers|
          invariant out == before + Roll(peers, Disconnect, id)[..i]
        {
          out := out + [Wire(Disconnect, id, peers[i].id, "")];
        }
      }
    }

    /** What the read pump of a link does with one message. */
    method ProxyMessage(id: Id, message: Wire)
      requires Enabled(State(), LinkDelivers(id, message))
      modifies this
      ensures State() == After(old(State()), LinkDelivers(id, message))
    {
      var j := FindProxy(proxies, id);
      match message.action
      case Connect =>
        proxies := proxies[j := proxies[j].(peers := proxies[j].peers + {message.target})];
        TellControllers(Connect, message.target, true);
      case Disconnect =>
        proxies := proxies[j := proxies[j].(peers := proxies[j].peers - {message.target})];
        TellControllers(Disconnect, message.target, true);
      case Message =>
        broadcastBuffer := broadcastBuffer + [Broadcast(message.source, message.payload, true)];
      case DirectMessage =>
        var _ := HandOver(message.source, message.target, message.payload);
    }
  }
}
