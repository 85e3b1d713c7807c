/** Which fields each turn of the event loop leaves alone, and the closed form of those it sets. */
module ConnectionFrames {
  import opened Sequences
  import opened Addressing
  import opened SubnetLimiting
  import opened PeerStorage
  import opened Connections

  ghost predicate SameTable(w: World, w': World) {
    w'.live == w.live && w'.connected == w.connected && w'.counts == w.counts && w'.gauge == w.gauge
  }

  ghost predicate SameProtection(w: World, w': World) {
    w'.protected == w.protected && w'.dialHints == w.dialHints
  }

  ghost predicate SameRequests(w: World, w': World) {
    w'.pendingDials == w.pendingDials && w'.issued == w.issued && w'.answers == w.answers && w'.dialing == w.dialing
  }

  lemma EnforcementFrame(cfg: Config, w: World, peer: PeerId, id: ConnectionId, addr: Multiaddr)
    ensures var w' := Enforced(cfg, w, peer, id, addr);
            && SameProtection(w, w') && SameRequests(w, w')
            && w'.connected == w.connected && w'.gauge == w.gauge
            && w'.scores == w.scores && w'.store == w.store
            && w'.counts == Counted(w.counts, addr)
  {
    hide OverCap, Counted;
  }

  lemma AnnouncementFrame(cfg: Config, w: World, peer: PeerId, addr: Multiaddr, dialer: bool, now: nat)
    ensures var w' := BeforeEnforcement(cfg, w, peer, addr, dialer, now);
            && SameProtection(w, w')
            && w'.live == w.live && w'.dialing == w.dialing && w'.issued == w.issued && w'.counts == w.counts
            && w'.gauge == w.gauge + 1
            && w'.connected == w.connected[peer := TableEntry(w, peer) + [addr]]
            && w'.store == (if dialer then Recorded(w.store, peer, [addr], now) else w.store)
            && w'.scores == (if peer in w.dialHints || peer in cfg.bootstrap
                             then Scored(w.scores, peer, PREFERRED_PEER_APP_SCORE) else w.scores)
            && w'.pendingDials == (if dialer then w.pendingDials - {peer} else w.pendingDials)
            && w'.answers == (if dialer then Resolved(w, peer, Connected).answers else w.answers)
  {
    hide Recorded;
  }

  lemma EstablishedFrame(cfg: Config, w: World, e: Event)
    requires e.Established?
    ensures var w' := Step(cfg, w, e);
            var tracked := if e.peer in w.scores then w.scores else w.scores[e.peer := 0];
            && SameProtection(w, w')
            && w'.issued == w.issued
            && w'.connected == w.connected[e.peer := TableEntry(w, e.peer) + [e.addr]]
            && w'.counts == Counted(w.counts, e.addr) && w'.gauge == w.gauge + 1
            && w'.store == (if e.dialer then Recorded(w.store, e.peer, [e.addr], e.now) else w.store)
            && w'.scores == (if e.peer in w.dialHints || e.peer in cfg.bootstrap
                             then Scored(tracked, e.peer, PREFERRED_PEER_APP_SCORE) else tracked)
            && w'.dialing == (if e.dialer then w.dialing - {e.peer} else w.dialing)
            && w'.pendingDials == (if e.dialer then w.pendingDials - {e.peer} else w.pendingDials)
            && w'.answers == (if e.dialer then Resolved(w, e.peer, Connected).answers else w.answers)
  {
    hide BeforeEnforcement, Enforced, Recorded, OverCap, Counted;
    var w0 := SwarmEstablishes(w, e.peer, e.id, e.addr, e.dialer);
    AnnouncementFrame(cfg, w0, e.peer, e.addr, e.dialer, e.now);
    EnforcementFrame(cfg, BeforeEnforcement(cfg, w0, e.peer, e.addr, e.dialer, e.now), e.peer, e.id, e.addr);
  }

  lemma EnforcedLive(cfg: Config, w: World, peer: PeerId, id: ConnectionId, addr: Multiaddr,
                     exempt: bool, overHighWater: bool, overSubnetCap: bool)
    requires exempt == (peer in w.protected)
    requires overHighWater == (|w.connected| > cfg.highWater && !exempt)
    requires overSubnetCap == OverCap(w.counts, cfg.perSubnetCap, addr, exempt)
    ensures var live := Enforced(cfg, w, peer, id, addr).live;
            && |live| == |w.live|
            && forall i :: 0 <= i < |w.live| ==>
                 live[i] == AfterAdmission(w.live[i], peer, id, exempt, overHighWater, overSubnetCap)
  {
    hide OverCap, Counted;
  }

  lemma SwarmFrame(w: World, e: Event)
    requires e.Established?
    ensures var w' := SwarmEstablishes(w, e.peer, e.id, e.addr, e.dialer);
            && SameProtection(w, w') && w'.connected == w.connected && w'.counts == w.counts
            && w'.live == w.live + [Added(e)]
  {
  }

  lemma EstablishedIsEnforced(cfg: Config, w: World, e: Event)
    requires e.Established?
    ensures var w0 := SwarmEstablishes(w, e.peer, e.id, e.addr, e.dialer);
            Step(cfg, w, e)
            == Enforced(cfg, BeforeEnforcement(cfg, w0, e.peer, e.addr, e.dialer, e.now), e.peer, e.id, e.addr)
  {
    hide SwarmEstablishes, BeforeEnforcement, Enforced;
  }

  lemma EntriesAfter(connected: map<PeerId, seq<Multiaddr>>, peer: PeerId, addrs: seq<Multiaddr>)
    ensures |connected[peer := addrs]| == |connected.Keys + {peer}|
  {
    assert connected[peer := addrs].Keys == connected.Keys + {peer};
    assert |connected[peer := addrs]| == |connected[peer := addrs].Keys|;
  }

  /** The live connections after an admission: one more, and the tags as enforcement sets them. */
  lemma EstablishedLive(cfg: Config, w: World, e: Event, exempt: bool, overHighWater: bool, overSubnetCap: bool)
    requires e.Established?
    requires exempt == (e.peer in w.protected)
    requires overHighWater == OverHighWater(cfg, w, e) && overSubnetCap == OverSubnetCap(cfg, w, e)
    ensures var live, grown := Step(cfg, w, e).live, w.live + [Added(e)];
            && |live| == |grown|
            && forall i :: 0 <= i < |live| ==>
                 live[i] == AfterAdmission(grown[i], e.peer, e.id, exempt, overHighWater, overSubnetCap)
  {
    hide Step, SwarmEstablishes, BeforeEnforcement, Enforced, Recorded, Resolved, OverCap, Counted, AfterAdmission;
    EstablishedIsEnforced(cfg, w, e);
    var w0 := SwarmEstablishes(w, e.peer, e.id, e.addr, e.dialer);
    var w1 := BeforeEnforcement(cfg, w0, e.peer, e.addr, e.dialer, e.now);
    AnnouncementFrame(cfg, w0, e.peer, e.addr, e.dialer, e.now);
    SwarmFrame(w, e);
    EntriesAfter(w.connected, e.peer, TableEntry(w0, e.peer) + [e.addr]);
    EnforcedLive(cfg, w1, e.peer, e.id, e.addr, exempt, overHighWater, overSubnetCap);
  }

  lemma HandleClosedFrame(w: World, peer: PeerId, addr: Multiaddr, numEstablished: nat)
    ensures var w' := HandleClosed(w, peer, addr, numEstablished);
            && SameProtection(w, w') && SameRequests(w, w') && w'.store == w.store && w'.scores == w.scores
  {
    hide Uncounted, Collect, Unlist;
  }

  lemma LastCloseTable(w: World, peer: PeerId, addr: Multiaddr)
    ensures var w' := HandleClosed(w, peer, addr, 0);
            && w'.gauge == w.gauge - 1 && w'.counts == Uncounted(w.counts, addr)
            && w'.connected == w.connected - {peer} && w'.live == w.live
  {
    hide Uncounted, Collect, Unlist, Map;
  }

  lemma OtherCloseTable(w: World, peer: PeerId, addr: Multiaddr, numEstablished: nat)
    requires numEstablished > 0 && peer in w.connected
    ensures var w' := HandleClosed(w, peer, addr, numEstablished);
            && w'.gauge == w.gauge - 1 && w'.counts == Uncounted(w.counts, addr)
            && w'.connected == w.connected[peer := Collect(w.connected[peer], Except(addr))]
            && w'.live == Map(w.live, (c: Connection) => Unlist(c, peer, addr))
  {
    hide Uncounted, Collect, Unlist, Map;
  }

  lemma ClosedFrame(cfg: Config, w: World, e: Event)
    requires e.Closed? && e.index < |w.live|
    ensures var w' := Step(cfg, w, e);
            var c, rest := w.live[e.index], Without(w.live, e.index);
            && SameProtection(w, w') && SameRequests(w, w') && w'.store == w.store
            && w'.scores == (if e.forget && ConnectionsOf(rest, c.peer) == [] then w.scores - {c.peer} else w.scores)
  {
    hide HandleClosed;
    var c, after := w.live[e.index], SwarmCloses(w, e.index, e.forget);
    HandleClosedFrame(after, c.peer, c.addr, |ConnectionsOf(after.live, c.peer)|);
  }

  lemma DialFrame(w: World, peer: PeerId, waiter: Waiter, outcome: DialOutcome)
    ensures var w' := OnDialCommand(w, peer, waiter, outcome);
            && SameTable(w, w') && SameProtection(w, w') && w'.store == w.store && w'.scores == w.scores
            && w'.issued == w.issued + [Request(peer, waiter)]
  {
  }

  lemma QuietTable(cfg: Config, w: World, e: Event)
    requires !e.Established? && !e.Closed?
    ensures SameTable(w, Step(cfg, w, e))
  {
    hide OnDialCommand, Recorded, Collect;
    match e
    case OutgoingError(failed, error) => assert SameTable(w, OnOutgoingError(w, failed, error));
    case Identified(who, addrs, seen) => assert SameTable(w, HandleIdentified(w, who, addrs, seen));
    case SwarmDial(target) => assert SameTable(w, OnSwarmDial(w, target));
    case ScorerExpiry(expired) => assert SameTable(w, OnScorerExpiry(w, expired));
    case DialCommand(wanted, waiter, outcome) => DialFrame(w, wanted, waiter, outcome);
    case SetPreferred(preferred) => assert SameTable(w, HandleSetPreferred(cfg, w, preferred));
  }

  lemma QuietProtection(cfg: Config, w: World, e: Event)
    requires !e.SetPreferred?
    ensures SameProtection(w, Step(cfg, w, e))
  {
    hide OnEstablished, OnClosed, OnDialCommand, Recorded, Collect;
    match e
    case Established(_, _, _, _, _) => EstablishedFrame(cfg, w, e);
    case Closed(index, _) => if index < |w.live| { ClosedFrame(cfg, w, e); }
    case OutgoingError(failed, error) => assert SameProtection(w, OnOutgoingError(w, failed, error));
    case Identified(who, addrs, seen) => assert SameProtection(w, HandleIdentified(w, who, addrs, seen));
    case SwarmDial(target) => assert SameProtection(w, OnSwarmDial(w, target));
    case ScorerExpiry(expired) => assert SameProtection(w, OnScorerExpiry(w, expired));
    case DialCommand(wanted, waiter, outcome) => DialFrame(w, wanted, waiter, outcome);
  }
}
