/**
 The event loop as it is written: fields updated in place by one handler per event or
 command. Every handler is proved to do what the state machine's function says.
 */
module EventLooping {
  import opened Sequences
  import opened Words
  import opened Addressing
  import opened SubnetLimiting
  import opened PeerStorage
  import opened Connections
  import opened ConnectionFrames
  import opened ConnectionTable
  import opened ConnectionProtection
  import opened ConnectionGuarantees

  ghost predicate PeerAskedToClose(before: seq<Connection>, after: seq<Connection>, peer: PeerId) {
    && |after| == |before|
    && forall i :: 0 <= i < |after| ==>
         after[i] == before[i].(closing := before[i].closing || before[i].peer == peer)
  }

  ghost predicate ConnectionAskedToClose(before: seq<Connection>, after: seq<Connection>, id: ConnectionId) {
    && |after| == |before|
    && forall i :: 0 <= i < |after| ==>
         after[i] == before[i].(closing := before[i].closing || before[i].id == id)
  }

  ghost predicate AdmissionNoted(before: seq<Connection>, after: seq<Connection>, id: ConnectionId, exempt: bool) {
    && |after| == |before|
    && forall i :: 0 <= i < |after| ==>
         after[i] == if before[i].id == id then before[i].(exempt := exempt) else before[i]
  }

  /**
   The swarm: the pool of live connections, the dials in flight and the scorer. The tags
   `exempt` and `listed` are history that the two `Note` methods write and nothing reads.
   */
  class Swarm {
    var live: seq<Connection>
    var dialing: set<PeerId>
    var scores: map<PeerId, int>

    constructor ()
      ensures live == [] && dialing == {} && scores == map[]
    {
      live, dialing, scores := [], {}, map[];
    }

    /** Asks for the close of all the peer's connections. */
    method DisconnectPeer(peer: PeerId)
      modifies this`live
      ensures PeerAskedToClose(old(live), live, peer)
    {
      live := Map(live, (c: Connection) => c.(closing := c.closing || c.peer == peer));
    }

    method CloseConnection(id: ConnectionId)
      modifies this`live
      ensures ConnectionAskedToClose(old(live), live, id)
    {
      live := Map(live, (c: Connection) => c.(closing := c.closing || c.id == id));
    }

    /** Only peers the scorer tracks have a score to set. */
    method SetApplicationScore(peer: PeerId, score: int)
      modifies this`scores
      ensures scores == Scored(old(scores), peer, score)
    {
      if peer in scores {
        scores := scores[peer := score];
      }
    }

    method Dial(peer: PeerId, outcome: DialOutcome) returns (result: DialOutcome)
      modifies this`dialing
      ensures result == outcome
      ensures dialing == if outcome.Started? then old(dialing) + {peer} else old(dialing)
    {
      if outcome.Started? {
        dialing := dialing + {peer};
      }
      result := outcome;
    }

    method NoteAdmission(id: ConnectionId, exempt: bool)
      modifies this`live
      ensures AdmissionNoted(old(live), live, id, exempt)
    {
      live := Map(live, (c: Connection) => if c.id == id then c.(exempt := exempt) else c);
    }

    method NoteUnlisted(peer: PeerId, addr: Multiaddr)
      modifies this`live
      ensures live == Map(old(live), (c: Connection) => Unlist(c, peer, addr))
    {
      live := Map(live, (c: Connection) => Unlist(c, peer, addr));
    }

    // What happens in the swarm before the loop hears of it.

    method Establish(peer: PeerId, id: ConnectionId, addr: Multiaddr, dialer: bool)
      modifies this
      ensures live == old(live) + [Connection(id, peer, addr, false, false, true)]
      ensures dialing == if dialer then old(dialing) - {peer} else old(dialing)
      ensures scores == if peer in old(scores) then old(scores) else old(scores)[peer := 0]
    {
      live := live + [Connection(id, peer, addr, false, false, true)];
      if dialer {
        dialing := dialing - {peer};
      }
      if peer !in scores {
        scores := scores[peer := 0];
      }
    }

    method Close(index: nat)
      requires index < |live|
      modifies this`live
      ensures live == Without(old(live), index)
    {
      live := Without(live, index);
    }

    method Forget(peer: PeerId)
      modifies this`scores
      ensures scores == old(scores) - {peer}
    {
      scores := scores - {peer};
    }
  }

  datatype PeerSnapshot = PeerSnapshot(peer: PeerId, addrs: seq<Multiaddr>, preferred: bool, score: int)

  class EventLoop {
    const cfg: Config
    const swarm: Swarm
    const subnetLimits: SubnetLimits
    const peerstore: PeerStore
    var connected: map<PeerId, seq<Multiaddr>>
    var pendingDials: map<PeerId, seq<Waiter>>
    var protected: set<PeerId>
    var dialHints: map<PeerId, seq<Multiaddr>>
    var gauge: int
    /** What was sent on the reply channels, in order. */
    var answers: seq<Answer>
    ghost var issued: seq<Request>

    ghost predicate Valid() {
      subnetLimits.cap == cfg.perSubnetCap
    }

    ghost function View(): World
      reads this, swarm, subnetLimits, peerstore
    {
      World(connected, pendingDials, protected, dialHints, subnetLimits.counts, gauge, peerstore.peers,
            swarm.live, swarm.dialing, swarm.scores, issued, answers)
    }

    constructor (cfg: Config)
      ensures this.cfg == cfg && Valid() && View() == Initial(cfg)
      ensures fresh(swarm) && fresh(subnetLimits) && fresh(peerstore)
    {
      this.cfg := cfg;
      swarm := new Swarm();
      subnetLimits := new SubnetLimits(cfg.perSubnetCap);
      peerstore := new PeerStore();
      connected, pendingDials, protected, dialHints := map[], map[], cfg.bootstrap, map[];
      gauge, answers, issued := 0, [], [];
    }

    /** Sends `verdict` to every waiter of a peer's dial. */
    method Resolve(peer: PeerId, verdict: DialVerdict)
      modifies this`pendingDials, this`answers
      ensures View() == Resolved(old(View()), peer, verdict)
    {
      var senders := if peer in pendingDials then pendingDials[peer] else [];
      pendingDials := pendingDials - {peer};
      for i := 0 to |senders|
        invariant answers == old(answers) + Map(senders[..i], (q: Waiter) => Answer(peer, q, verdict))
        invariant pendingDials == old(pendingDials) - {peer}
      {
        answers := answers + [Answer(peer, senders[i], verdict)];
      }
      assert senders[..|senders|] == senders;
    }

    method EnforceConnectionLimits(peer: PeerId, id: ConnectionId, remoteAddr: Multiaddr)
      requires Valid()
      modifies swarm, subnetLimits
      ensures View() == Enforced(cfg, old(View()), peer, id, remoteAddr)
    {
      hide Counted, OverCap, Enforced, PeerAskedToClose, ConnectionAskedToClose, AdmissionNoted;
      ghost var before := View();
      var exempt := peer in protected;
      var subnetVerdict := subnetLimits.OnConnection(remoteAddr, exempt);
      var overHighWater := |connected| > cfg.highWater && !exempt;
      swarm.NoteAdmission(id, exempt);
      ghost var noted := swarm.live;
      if overHighWater {
        swarm.DisconnectPeer(peer);
      } else if subnetVerdict == Reject {
        swarm.CloseConnection(id);
      }
      EnforcedInTwo(cfg, before, peer, id, remoteAddr, noted, swarm.live);
      EnforcementFrame(cfg, before, peer, id, remoteAddr);
    }

    /** All that a new connection brings about before the limits are looked at. */
    method AnnounceConnection(peer: PeerId, remoteAddr: Multiaddr, dialer: bool, now: nat)
      modifies this, swarm, peerstore
      ensures View() == BeforeEnforcement(cfg, old(View()), peer, remoteAddr, dialer, now)
      ensures unchanged(`issued)
    {
      hide Recorded, Scored, Map, Resolved;
      gauge := gauge + 1;
      if dialer {
        peerstore.Record(peer, [remoteAddr], now);
        Resolve(peer, Connected);
      }
      connected := connected[peer := (if peer in connected then connected[peer] else []) + [remoteAddr]];
      if peer in dialHints || peer in cfg.bootstrap {
        swarm.SetApplicationScore(peer, PREFERRED_PEER_APP_SCORE);
      }
    }

    method HandleConnectionEstablished(peer: PeerId, id: ConnectionId, remoteAddr: Multiaddr, dialer: bool, now: nat)
      requires Valid()
      modifies this, swarm, subnetLimits, peerstore
      ensures View() == HandleEstablished(cfg, old(View()), peer, id, remoteAddr, dialer, now)
      ensures unchanged(`issued)
    {
      hide BeforeEnforcement, Enforced;
      AnnounceConnection(peer, remoteAddr, dialer, now);
      EnforceConnectionLimits(peer, id, remoteAddr);
    }

    method HandleConnectionClosed(peer: PeerId, remoteAddr: Multiaddr, numEstablished: nat)
      requires Valid()
      modifies this, swarm, subnetLimits
      ensures View() == HandleClosed(old(View()), peer, remoteAddr, numEstablished)
      ensures unchanged(`issued)
    {
      gauge := gauge - 1;
      subnetLimits.OnDisconnection(remoteAddr);
      if numEstablished == 0 {
        connected := connected - {peer};
      } else if peer in connected {
        var kept := Retain(connected[peer], remoteAddr);
        connected := connected[peer := kept];
        swarm.NoteUnlisted(peer, remoteAddr);
      }
    }

    method HandleOutgoingConnectionError(failed: Option<PeerId>, error: DialError)
      modifies this`pendingDials, this`answers
      ensures View() == match failed
                        case None => old(View())
                        case Some(peer) => Resolved(old(View()), peer, Failed(error))
    {
      if failed.Some? {
        Resolve(failed.value, Failed(error));
      }
    }

    method HandleIdentifyReceived(peer: PeerId, listenAddrs: seq<Multiaddr>, now: nat)
      modifies peerstore
      ensures View() == HandleIdentified(old(View()), peer, listenAddrs, now)
    {
      var tcpAddrs := [];
      for i := 0 to |listenAddrs|
        invariant tcpAddrs == Collect(listenAddrs[..i], TcpOnly())
        invariant View() == old(View())
      {
        assert listenAddrs[..i + 1] == listenAddrs[..i] + [listenAddrs[i]];
        CollectSnoc(listenAddrs[..i], listenAddrs[i], TcpOnly());
        if HasTcp(listenAddrs[i]) {
          tcpAddrs := tcpAddrs + [listenAddrs[i]];
        }
      }
      assert listenAddrs[..|listenAddrs|] == listenAddrs;
      if tcpAddrs != [] {
        peerstore.Record(peer, tcpAddrs, now);
      }
    }

    /** `outcome` is what the swarm will say if it is asked. */
    method HandleDialCommand(peer: PeerId, waiter: Waiter, outcome: DialOutcome)
      modifies this, swarm
      ensures View() == OnDialCommand(old(View()), peer, waiter, outcome)
    {
      issued := issued + [Request(peer, waiter)];
      if peer in pendingDials {
        pendingDials := pendingDials[peer := pendingDials[peer] + [waiter]];
      } else {
        var result := swarm.Dial(peer, outcome);
        match result
        case Started => pendingDials := pendingDials[peer := [waiter]];
        case ConditionFalse => answers := answers + [Answer(peer, waiter, Connected)];
        case Refused(error) => answers := answers + [Answer(peer, waiter, Failed(error))];
      }
    }

    method Demote(newSet: set<PeerId>)
      modifies this`protected, swarm`scores
      ensures protected == set p | p in old(protected) && (p in newSet || p in cfg.bootstrap)
      ensures swarm.scores == map p | p in old(swarm.scores) ::
                if p in old(protected) && p !in newSet && p !in cfg.bootstrap then 0 else old(swarm.scores)[p]
    {
      var todo := protected;
      while todo != {}
        invariant todo <= old(protected)
        invariant protected == set p | p in old(protected) && (p in todo || p in newSet || p in cfg.bootstrap)
        invariant swarm.scores == map p | p in old(swarm.scores) ::
                    if p in old(protected) && p !in todo && p !in newSet && p !in cfg.bootstrap then 0
                    else old(swarm.scores)[p]
      {
        var oldPeer :| oldPeer in todo;
        todo := todo - {oldPeer};
        if oldPeer !in newSet && oldPeer !in cfg.bootstrap {
          protected := protected - {oldPeer};
          swarm.SetApplicationScore(oldPeer, 0);
        }
      }
    }

    method Promote(accepted: Hints)
      modifies this`protected, this`dialHints, swarm`scores
      ensures protected == old(protected) + Ids(accepted)
      ensures dialHints == HintTable(accepted)
      ensures swarm.scores == map p | p in old(swarm.scores) ::
                if p in Ids(accepted) then PREFERRED_PEER_APP_SCORE else old(swarm.scores)[p]
    {
      dialHints := map[];
      for i := 0 to |accepted|
        invariant protected == old(protected) + Ids(accepted[..i])
        invariant dialHints == HintTable(accepted[..i])
        invariant swarm.scores == map p | p in old(swarm.scores) ::
                    if p in Ids(accepted[..i]) then PREFERRED_PEER_APP_SCORE else old(swarm.scores)[p]
      {
        var (peer, addrs) := accepted[i];
        IdsGrow(accepted, i);
        protected := protected + {peer};
        swarm.SetApplicationScore(peer, PREFERRED_PEER_APP_SCORE);
        dialHints := dialHints[peer := addrs];
        assert accepted[..i + 1][..i] == accepted[..i];
      }
      assert accepted[..|accepted|] == accepted;
    }

    method HandleSetPreferredPeers(peers: Hints) returns (accepted: nat, truncated: nat)
      modifies this, swarm
      ensures View() == HandleSetPreferred(cfg, old(View()), peers)
      ensures unchanged(`issued)
      ensures (accepted, truncated) == Reply(cfg, peers)
    {
      ghost var before := View();
      var cap := ProtectedCap(cfg);
      truncated := (if |peers| > cap then |peers| - cap else 0) % U32;
      var acceptedPeers := peers[..Min(cap, |peers|)];
      accepted := |acceptedPeers| % U32;
      Demote(Ids(acceptedPeers));
      Promote(acceptedPeers);
      assert protected == HandleSetPreferred(cfg, before, peers).protected;
      assert swarm.scores == HandleSetPreferred(cfg, before, peers).scores;
    }

    method NetworkSnapshot() returns (snapshot: Snapshot)
      ensures snapshot.connected == connected.Keys
      ensures TableInvariant(View()) ==> snapshot.connected == Peers(swarm.live)
      ensures forall p, addrs :: (p, addrs) in snapshot.preferred <==> p in dialHints && dialHints[p] == addrs
      ensures forall i, j :: 0 <= i < j < |snapshot.preferred| ==> snapshot.preferred[i].0 != snapshot.preferred[j].0
    {
      var preferred: Hints := [];
      var todo := dialHints.Keys;
      while todo != {}
        invariant todo <= dialHints.Keys
        invariant forall p, addrs :: (p, addrs) in preferred <==> p in dialHints && p !in todo && dialHints[p] == addrs
        invariant forall i, j :: 0 <= i < j < |preferred| ==> preferred[i].0 != preferred[j].0
      {
        var peer :| peer in todo;
        assert forall i :: 0 <= i < |preferred| ==>
                 preferred[i] == (preferred[i].0, preferred[i].1) && preferred[i] in preferred;
        preferred := preferred + [(peer, dialHints[peer])];
        todo := todo - {peer};
      }
      snapshot := Snapshot(connected.Keys, preferred);
    }

    method GetPeers() returns (peers: seq<PeerSnapshot>)
      ensures forall s :: s in peers <==>
                && s.peer in connected && s.addrs == connected[s.peer]
                && s.preferred == (s.peer in protected)
                && s.score == (if s.peer in swarm.scores then swarm.scores[s.peer] else 0)
      ensures forall i, j :: 0 <= i < j < |peers| ==> peers[i].peer != peers[j].peer
      ensures TableInvariant(View()) && ProtectionMatches(cfg, View()) && ScoresMatch(View()) ==>
                forall s :: s in peers ==>
                  s.peer in Peers(swarm.live) && s.score == if s.preferred then 100 else 0
    {
      peers := [];
      var todo := connected.Keys;
      while todo != {}
        invariant todo <= connected.Keys
        invariant forall s :: s in peers <==>
                    && s.peer in connected && s.peer !in todo && s.addrs == connected[s.peer]
                    && s.preferred == (s.peer in protected)
                    && s.score == (if s.peer in swarm.scores then swarm.scores[s.peer] else 0)
        invariant forall i, j :: 0 <= i < j < |peers| ==> peers[i].peer != peers[j].peer
      {
        var peer :| peer in todo;
        assert forall i :: 0 <= i < |peers| ==> peers[i] in peers;
        peers := peers + [PeerSnapshot(peer, connected[peer], peer in protected,
                                       if peer in swarm.scores then swarm.scores[peer] else 0)];
        todo := todo - {peer};
      }
    }

    /** One event: what the swarm does first, then the loop's handler. */
    method Turn(e: Event)
      requires Valid() && Enabled(View(), e)
      modifies this, swarm, subnetLimits, peerstore
      ensures View() == Step(cfg, old(View()), e)
    {
      match e
      case Established(peer, id, addr, dialer, now) =>
        swarm.Establish(peer, id, addr, dialer);
        HandleConnectionEstablished(peer, id, addr, dialer, now);
      case Closed(index, forget) =>
        var closed := swarm.live[index];
        swarm.Close(index);
        var numEstablished := |ConnectionsOf(swarm.live, closed.peer)|;
        if forget && numEstablished == 0 {
          swarm.Forget(closed.peer);
        }
        HandleConnectionClosed(closed.peer, closed.addr, numEstablished);
      case OutgoingError(failed, error) =>
        if failed.Some? {
          swarm.dialing := swarm.dialing - {failed.value};
        }
        HandleOutgoingConnectionError(failed, error);
      case Identified(who, listenAddrs, seen) => HandleIdentifyReceived(who, listenAddrs, seen);
      case SwarmDial(target) => swarm.dialing := swarm.dialing + {target};
      case ScorerExpiry(expired) => swarm.Forget(expired);
      case DialCommand(wanted, waiter, outcome) => HandleDialCommand(wanted, waiter, outcome);
      case SetPreferred(preferred) =>
        var accepted, truncated := HandleSetPreferredPeers(preferred);
    }
  }

  /** Tagging the new connection and then asking for the closes is what enforcement does in one. */
  lemma EnforcedInTwo(cfg: Config, w: World, peer: PeerId, id: ConnectionId, addr: Multiaddr,
                      noted: seq<Connection>, after: seq<Connection>)
    requires AdmissionNoted(w.live, noted, id, peer in w.protected)
    requires if |w.connected| > cfg.highWater && peer !in w.protected then PeerAskedToClose(noted, after, peer)
             else if OverCap(w.counts, cfg.perSubnetCap, addr, peer in w.protected)
             then ConnectionAskedToClose(noted, after, id)
             else after == noted
    ensures after == Enforced(cfg, w, peer, id, addr).live
  {
    hide Enforced, OverCap, Counted;
    var exempt := peer in w.protected;
    EnforcedLive(cfg, w, peer, id, addr, exempt, |w.connected| > cfg.highWater && !exempt,
                 OverCap(w.counts, cfg.perSubnetCap, addr, exempt));
  }

  /** The loop from its creation on, over any events the environment can produce. */
  method Serve(cfg: Config, events: seq<Event>, ghost states: seq<World>) returns (server: EventLoop)
    requires Trace(cfg, events, states)
    ensures server.Valid() && server.View() == states[|events|]
    ensures Guaranteed(cfg, server.View())
  {
    hide Step, Enabled, Guaranteed, Initial;
    server := new EventLoop(cfg);
    for i := 0 to |events|
      invariant fresh(server) && fresh(server.swarm) && fresh(server.subnetLimits) && fresh(server.peerstore)
      invariant server.cfg == cfg && server.Valid() && server.View() == states[i]
    {
      assert Enabled(states[i], events[i]);
      server.Turn(events[i]);
    }
    EveryReachableState(cfg, events, states, |events|);
  }

  /** `addrs.retain(|a| a != addr)` */
  method Retain(addrs: seq<Multiaddr>, addr: Multiaddr) returns (kept: seq<Multiaddr>)
    ensures kept == Collect(addrs, Except(addr))
    ensures addr !in kept && forall a :: a in kept ==> a in addrs
  {
    kept := [];
    for i := 0 to |addrs|
      invariant kept == Collect(addrs[..i], Except(addr))
      invariant addr !in kept && forall a :: a in kept ==> a in addrs
    {
      assert addrs[..i + 1] == addrs[..i] + [addrs[i]];
      CollectSnoc(addrs[..i], addrs[i], Except(addr));
      if addrs[i] != addr {
        kept := kept + [addrs[i]];
      }
    }
    assert addrs[..|addrs|] == addrs;
  }

  lemma IdsGrow(accepted: Hints, i: nat)
    requires i < |accepted|
    ensures Ids(accepted[..i + 1]) == Ids(accepted[..i]) + {accepted[i].0}
  {
    assert forall j :: 0 <= j < i ==> accepted[..i + 1][j] == accepted[..i][j];
    assert accepted[..i + 1][i] == accepted[i];
  }
}
