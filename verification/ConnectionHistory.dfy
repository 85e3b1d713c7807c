/**
 How the connection table and the peer store relate to the run that produced them: when an
 entry lists all live addresses, where stored addresses come from, and runs that show where
 the obvious readings of the limits, the table and the dial answers fail.
 */
module ConnectionHistory {
  import opened Sequences
  import opened Addressing
  import opened SubnetLimiting
  import opened PeerStorage
  import opened Connections
  import opened ConnectionFrames
  import opened ConnectionTable
  import opened ConnectionLimits
  import opened DocumentedLimits

  // ---- When the table lists every live address ----

  /** Each connected peer's entry is all its live addresses, in order of establishment. */
  ghost predicate ListsComplete(w: World) {
    forall p :: p in w.connected ==> w.connected[p] == Collect(w.live, LiveAddr(p))
  }

  /** Another live connection of the same peer has the address of connection `k`. */
  predicate HasTwin(live: seq<Connection>, k: nat)
    requires k < |live|
  {
    exists i :: 0 <= i < |live| && i != k && live[i].peer == live[k].peer && live[i].addr == live[k].addr
  }

  lemma AdmissionCompletes(w: World, w': World, e: Event)
    requires KeysMatch(w) && ListsComplete(w) && e.Established? && Admits(w, w', e)
    ensures ListsComplete(w')
  {
    forall p | p in w'.connected ensures w'.connected[p] == Collect(w'.live, LiveAddr(p)) {
      CollectCongruent(w'.live, LiveAddr(p), w.live + [Added(e)], LiveAddr(p));
      CollectSnoc(w.live, Added(e), LiveAddr(p));
      if p !in w.connected && Collect(w.live, LiveAddr(p)) != [] {
        CollectMember(w.live, LiveAddr(p), Collect(w.live, LiveAddr(p))[0]);
      }
    }
  }

  function LiveExcept(peer: PeerId, addr: Multiaddr): Connection -> seq<Multiaddr> {
    (c: Connection) => if c.peer == peer && c.addr != addr then [c.addr] else []
  }

  lemma LiveFiltered(live: seq<Connection>, peer: PeerId, addr: Multiaddr)
    ensures Collect(Collect(live, LiveAddr(peer)), Except(addr)) == Collect(live, LiveExcept(peer, addr))
  {
    forall i | 0 <= i < |live|
      ensures LiveExcept(peer, addr)(live[i]) == Collect(LiveAddr(peer)(live[i]), Except(addr))
    {
      CollectOne(live[i].addr, Except(addr));
    }
    CollectCompose(live, LiveAddr(peer), Except(addr), LiveExcept(peer, addr));
  }

  lemma TwinLosesItsPlace(live: seq<Connection>, k: nat, i: nat)
    requires k < |live| && i < |live| && i != k && live[i].peer == live[k].peer && live[i].addr == live[k].addr
    ensures live[k].addr in Collect(Without(live, k), LiveAddr(live[k].peer))
    ensures live[k].addr !in Collect(Without(live, k), LiveExcept(live[k].peer, live[k].addr))
  {
    var peer, addr, rest := live[k].peer, live[k].addr, Without(live, k);
    var j := if i < k then i else i - 1;
    assert rest[j] == live[i] && addr in LiveAddr(peer)(rest[j]);
    CollectMember(rest, LiveAddr(peer), addr);
    CollectMember(rest, LiveExcept(peer, addr), addr);
  }

  lemma WithoutTwin(live: seq<Connection>, k: nat)
    requires k < |live| && !HasTwin(live, k)
    ensures Collect(Without(live, k), LiveExcept(live[k].peer, live[k].addr))
         == Collect(Without(live, k), LiveAddr(live[k].peer))
  {
    var peer, addr, rest := live[k].peer, live[k].addr, Without(live, k);
    forall j | 0 <= j < |rest| ensures LiveExcept(peer, addr)(rest[j]) == LiveAddr(peer)(rest[j]) {
      var i := if j < k then j else j + 1;
      assert rest[j] == live[i];
    }
    CollectCongruent(rest, LiveExcept(peer, addr), rest, LiveAddr(peer));
  }

  /** Filtering the closed address out of the peer's list removes exactly one entry iff it has no twin. */
  lemma FilteredListIsRest(live: seq<Connection>, k: nat)
    requires k < |live|
    ensures (Collect(Collect(live, LiveAddr(live[k].peer)), Except(live[k].addr))
             == Collect(Without(live, k), LiveAddr(live[k].peer)))
            <==> !HasTwin(live, k)
  {
    LiveFiltered(live, live[k].peer, live[k].addr);
    CollectWithout(live, k, LiveExcept(live[k].peer, live[k].addr));
    if HasTwin(live, k) {
      var i :| 0 <= i < |live| && i != k && live[i].peer == live[k].peer && live[i].addr == live[k].addr;
      TwinLosesItsPlace(live, k, i);
    } else {
      WithoutTwin(live, k);
    }
  }

  lemma LiveAddrsAfterDrop(w: World, w': World, k: nat, p: PeerId)
    requires k < |w.live| && Drops(w, w', k)
    ensures Collect(w'.live, LiveAddr(p)) == Collect(Without(w.live, k), LiveAddr(p))
    ensures p != w.live[k].peer ==> Collect(w'.live, LiveAddr(p)) == Collect(w.live, LiveAddr(p))
  {
    CollectCongruent(w'.live, LiveAddr(p), Without(w.live, k), LiveAddr(p));
    if p != w.live[k].peer {
      CollectWithout(w.live, k, LiveAddr(p));
    }
  }

  lemma DropCompletesExactly(w: World, w': World, k: nat)
    requires KeysMatch(w) && ListsComplete(w) && k < |w.live| && Drops(w, w', k)
    ensures ListsComplete(w') <==> !HasTwin(w.live, k)
  {
    hide Collect, Uncounted;
    var peer, rest := w.live[k].peer, Without(w.live, k);
    PeersWithout(w.live, k);
    forall p ensures Collect(w'.live, LiveAddr(p)) == Collect(rest, LiveAddr(p))
                  && (p != peer ==> Collect(rest, LiveAddr(p)) == Collect(w.live, LiveAddr(p))) {
      LiveAddrsAfterDrop(w, w', k, p);
    }
    if peer in Peers(rest) {
      FilteredListIsRest(w.live, k);
      assert ListsComplete(w') <==> w'.connected[peer] == Collect(w'.live, LiveAddr(peer));
    } else {
      TwinStays(w.live, k);
    }
  }

  lemma TwinStays(live: seq<Connection>, k: nat)
    requires k < |live|
    ensures HasTwin(live, k) ==> live[k].peer in Peers(Without(live, k))
  {
    if i :| 0 <= i < |live| && i != k && live[i].peer == live[k].peer && live[i].addr == live[k].addr {
      assert Without(live, k)[if i < k then i else i - 1] == live[i];
    }
  }

  /** Complete lists stay complete, except exactly when a connection closes that has a twin. */
  lemma ListsCompleteExactly(cfg: Config, w: World, e: Event)
    requires Enabled(w, e) && TableInvariant(w) && ListsComplete(w)
    ensures ListsComplete(Step(cfg, w, e)) <==> (e.Closed? ==> !HasTwin(w.live, e.index))
  {
    hide Step, Collect;
    if e.Established? {
      EstablishedAdmits(cfg, w, e);
      AdmissionCompletes(w, Step(cfg, w, e), e);
    } else if e.Closed? {
      ClosedDrops(cfg, w, e);
      DropCompletesExactly(w, Step(cfg, w, e), e.index);
    } else {
      QuietTable(cfg, w, e);
    }
  }

  lemma {:induction false} ListsCompleteInEveryTwinlessRun(cfg: Config, events: seq<Event>, states: seq<World>, i: nat)
    requires Trace(cfg, events, states) && i < |states|
    requires forall j :: 0 <= j < i && events[j].Closed? && events[j].index < |states[j].live| ==>
               !HasTwin(states[j].live, events[j].index)
    ensures ListsComplete(states[i])
  {
    hide Step, HasTwin;
    if i > 0 {
      ListsCompleteInEveryTwinlessRun(cfg, events, states, i - 1);
      TableInEveryRun(cfg, events, states, i - 1);
      assert Enabled(states[i - 1], events[i - 1]);
      ListsCompleteExactly(cfg, states[i - 1], events[i - 1]);
    }
  }

  // ---- Where stored addresses come from ----

  /** The store call an event makes, if any. */
  function StoreCall(e: Event): Option<Call> {
    match e
    case Established(peer, _, addr, true, now) => Some(Call(peer, [addr], now))
    case Identified(who, listenAddrs, seen) =>
      var tcp := Collect(listenAddrs, TcpOnly());
      if tcp == [] then None else Some(Call(who, tcp, seen))
    case _ => None
  }

  function StoreCalls(events: seq<Event>): seq<Call> {
    if events == [] then []
    else
      var before := StoreCalls(events[..|events| - 1]);
      match StoreCall(events[|events| - 1])
      case None => before
      case Some(call) => before + [call]
  }

  lemma StepStores(cfg: Config, w: World, e: Event)
    ensures Step(cfg, w, e).store
         == match StoreCall(e)
            case None => w.store
            case Some(call) => Recorded(w.store, call.peer, call.addrs, call.now)
  {
    hide OnEstablished, OnClosed, OnDialCommand, Recorded, Collect;
    match e
    case Established(_, _, _, _, _) => EstablishedFrame(cfg, w, e);
    case Closed(index, _) => if index < |w.live| { ClosedFrame(cfg, w, e); }
    case DialCommand(wanted, waiter, outcome) => DialFrame(w, wanted, waiter, outcome);
    case Identified(_, _, _) =>
    case OutgoingError(_, _) =>
    case SwarmDial(_) =>
    case ScorerExpiry(_) =>
    case SetPreferred(_) =>
  }

  /** The store of a run is the store of its successful dials and identify reports, replayed. */
  lemma {:induction false} StoreIsReplay(cfg: Config, events: seq<Event>, states: seq<World>, i: nat)
    requires Trace(cfg, events, states) && i < |states|
    ensures states[i].store == Replay(StoreCalls(events[..i]))
  {
    hide Step, Enabled;
    if i > 0 {
      var before, e := events[..i - 1], events[i - 1];
      assert events[..i][..i - 1] == before;
      StoreIsReplay(cfg, events, states, i - 1);
      assert Enabled(states[i - 1], e);
      StepStores(cfg, states[i - 1], e);
      if StoreCall(e).Some? {
        ReplaySnoc(StoreCalls(before), StoreCall(e).value);
      }
    }
  }

  /** What identify reports is recorded as far as it is a TCP address. */
  lemma IdentifyRecordsTcp(e: Event, a: Multiaddr)
    requires e.Identified?
    ensures StoreCall(e).Some? <==> exists b: Multiaddr :: b in e.listenAddrs && exists i :: 0 <= i < |b| && b[i].Tcp?
    ensures StoreCall(e).Some? ==>
              (a in StoreCall(e).value.addrs <==> a in e.listenAddrs && exists i :: 0 <= i < |a| && a[i].Tcp?)
  {
    hide Collect;
    var tcp := Collect(e.listenAddrs, TcpOnly());
    TcpAddresses(e.listenAddrs, a);
    if tcp != [] {
      TcpAddresses(e.listenAddrs, tcp[0]);
    }
    forall b: Multiaddr | b in e.listenAddrs && exists i :: 0 <= i < |b| && b[i].Tcp? ensures tcp != [] {
      TcpAddresses(e.listenAddrs, b);
    }
  }

  /** The last TCP address that identify reports is in the store then, seen at that time. */
  lemma IdentifyStoresTcp(cfg: Config, w: World, e: Event, k: nat)
    requires e.Identified? && WellKept(w.store) && k < |e.listenAddrs|
    requires exists i :: 0 <= i < |e.listenAddrs[k]| && e.listenAddrs[k][i].Tcp?
    requires forall l, i :: k < l < |e.listenAddrs| && 0 <= i < |e.listenAddrs[l]| ==> !e.listenAddrs[l][i].Tcp?
    ensures var store := Step(cfg, w, e).store;
            e.who in store && store[e.who].lastSeen == e.seen && e.listenAddrs[k] in store[e.who].addrs
  {
    hide Collect, PushAll;
    CollectSplit(e.listenAddrs, k, TcpOnly());
    CollectNothing(e.listenAddrs[k + 1..], TcpOnly());
    LastIsStored(AddrsOf(w.store, e.who), Collect(e.listenAddrs, TcpOnly()));
  }

  lemma TcpAddresses(addrs: seq<Multiaddr>, a: Multiaddr)
    ensures a in Collect(addrs, TcpOnly()) <==> a in addrs && exists i :: 0 <= i < |a| && a[i].Tcp?
  {
    CollectMember(addrs, TcpOnly(), a);
  }

  lemma LastIsStored(list: seq<Multiaddr>, added: seq<Multiaddr>)
    requires added != [] && Distinct(list) && |list| <= 8
    ensures added[|added| - 1] in PushAll(list, added)
  {
    PushedDistinct(list, added[..|added| - 1]);
    DistinctAfterPush(PushAll(list, added[..|added| - 1]), added[|added| - 1]);
  }

  lemma {:induction false} PushedDistinct(list: seq<Multiaddr>, added: seq<Multiaddr>)
    requires Distinct(list) && |list| <= 8
    ensures Distinct(PushAll(list, added)) && |PushAll(list, added)| <= 8
  {
    if added != [] {
      PushedDistinct(list, added[..|added| - 1]);
      DistinctAfterPush(PushAll(list, added[..|added| - 1]), added[|added| - 1]);
    }
  }

  lemma {:induction false} CallMade(events: seq<Event>, call: Call)
    requires call in StoreCalls(events)
    ensures exists i :: 0 <= i < |events| && StoreCall(events[i]) == Some(call)
  {
    var n := |events| - 1;
    if StoreCall(events[n]) != Some(call) {
      CallMade(events[..n], call);
      var i :| 0 <= i < n && StoreCall(events[..n][i]) == Some(call);
      assert events[i] == events[..n][i];
    }
  }

  lemma {:induction false} PushedFrom(added: seq<Multiaddr>, a: Multiaddr)
    requires a in PushAll([], added)
    ensures a in added
  {
    if added != [] {
      var n := |added| - 1;
      if a != added[n] {
        assert a in PushAll([], added[..n]);
        PushedFrom(added[..n], a);
      }
    }
  }

  /**
   An inbound connection's remote address never enters the store: each stored address was
   dialed with success, or its peer reported it as a TCP listen address.
   */
  lemma StoredAddressesAreDialable(cfg: Config, events: seq<Event>, states: seq<World>, n: nat,
                                   peer: PeerId, addr: Multiaddr)
    requires Trace(cfg, events, states) && n < |states| && addr in AddrsOf(states[n].store, peer)
    ensures exists i :: 0 <= i < n && Vouches(events[i], peer, addr)
  {
    hide Step, Enabled;
    var calls := StoreCalls(events[..n]);
    StoreIsReplay(cfg, events, states, n);
    ReplayLists(calls, peer);
    PushedFrom(Passed(calls, peer), addr);
    CollectMember(calls, PassedTo(peer), addr);
    var k :| 0 <= k < |calls| && addr in PassedTo(peer)(calls[k]);
    CallMade(events[..n], calls[k]);
    var i :| 0 <= i < n && StoreCall(events[..n][i]) == Some(calls[k]);
    CallVouches(events[i], calls[k], addr);
  }

  lemma CallVouches(e: Event, call: Call, addr: Multiaddr)
    requires StoreCall(e) == Some(call) && addr in call.addrs
    ensures Vouches(e, call.peer, addr)
  {
    if e.Identified? {
      CollectMember(e.listenAddrs, TcpOnly(), addr);
    }
  }

  predicate Vouches(e: Event, peer: PeerId, addr: Multiaddr) {
    match e
    case Established(p, _, a, dialer, _) => dialer && p == peer && a == addr
    case Identified(who, listenAddrs, _) => who == peer && addr in listenAddrs && HasTcp(addr)
    case _ => false
  }

  // ---- Particular runs ----

  lemma RunSnoc(cfg: Config, events: seq<Event>, e: Event)
    ensures Run(cfg, events + [e]) == Step(cfg, Run(cfg, events), e)
    ensures Legal(cfg, events + [e]) <==> Legal(cfg, events) && Enabled(Run(cfg, events), e)
  {
    hide Step, Enabled;
    assert (events + [e])[..|events|] == events;
  }

  lemma TwoTurns(cfg: Config, e1: Event, e2: Event)
    ensures Run(cfg, [e1, e2]) == Step(cfg, Step(cfg, Initial(cfg), e1), e2)
    ensures Legal(cfg, [e1, e2]) <==> Enabled(Initial(cfg), e1) && Enabled(Step(cfg, Initial(cfg), e1), e2)
  {
    hide Step, Enabled;
    RunSnoc(cfg, [], e1);
    RunSnoc(cfg, [e1], e2);
    assert [] + [e1] == [e1] && [e1] + [e2] == [e1, e2];
  }

  lemma ThreeTurns(cfg: Config, e1: Event, e2: Event, e3: Event)
    ensures Run(cfg, [e1, e2, e3]) == Step(cfg, Step(cfg, Step(cfg, Initial(cfg), e1), e2), e3)
    ensures Legal(cfg, [e1, e2, e3]) <==>
              && Enabled(Initial(cfg), e1)
              && Enabled(Step(cfg, Initial(cfg), e1), e2)
              && Enabled(Step(cfg, Step(cfg, Initial(cfg), e1), e2), e3)
  {
    hide Step, Enabled;
    RunSnoc(cfg, [], e1);
    RunSnoc(cfg, [e1], e2);
    RunSnoc(cfg, [e1, e2], e3);
    assert [] + [e1] == [e1] && [e1] + [e2] == [e1, e2] && [e1, e2] + [e3] == [e1, e2, e3];
  }

  lemma FourTurns(cfg: Config, e1: Event, e2: Event, e3: Event, e4: Event)
    ensures Run(cfg, [e1, e2, e3, e4]) == Step(cfg, Run(cfg, [e1, e2, e3]), e4)
    ensures Legal(cfg, [e1, e2, e3, e4]) <==> Legal(cfg, [e1, e2, e3]) && Enabled(Run(cfg, [e1, e2, e3]), e4)
  {
    hide Step, Enabled;
    RunSnoc(cfg, [e1, e2, e3], e4);
    assert [e1, e2, e3] + [e4] == [e1, e2, e3, e4];
  }

  /**
   The documented promise of a dial, to return once the connection is established or has
   failed, is not kept for a peer the swarm is dialing on its own: the request is told at
   once that it is connected, and the dial fails afterwards.
   */
  lemma ToldConnectedTooEarly(cfg: Config, p: PeerId, waiter: Waiter)
    ensures var events := [SwarmDial(p), DialCommand(p, waiter, ConditionFalse), OutgoingError(Some(p), Unreachable)];
            && Legal(cfg, events)
            && Run(cfg, events).answers == [Answer(p, waiter, Connected)]
            && Run(cfg, events).live == [] && Run(cfg, events).dialing == {}
  {
    var e1, e2, e3 := SwarmDial(p), DialCommand(p, waiter, ConditionFalse), OutgoingError(Some(p), Unreachable);
    ThreeTurns(cfg, e1, e2, e3);
    assert [Answer(p, waiter, Connected)] + [] == [Answer(p, waiter, Connected)];
  }

  /** Dial waiters are answered before the limits are looked at, which may close the same connection. */
  lemma AnsweredThenClosed(cfg: Config, w: World, e: Event)
    requires Enabled(w, e) && e.Established? && e.dialer
    ensures var w' := Step(cfg, w, e);
            && w'.answers == w.answers + Map(Queue(w, e.peer), (q: Waiter) => Answer(e.peer, q, Connected))
            && |w'.live| == |w.live| + 1 && w'.live[|w.live|].id == e.id
            && (w'.live[|w.live|].closing <==> OverHighWater(cfg, w, e) || OverSubnetCap(cfg, w, e))
  {
    hide Step, OverHighWater, OverSubnetCap;
    EstablishedFrame(cfg, w, e);
    EstablishedJudges(cfg, w, e);
  }

  /** Room for `highWater` peers, all of which may be preferred, and `perSubnetCap` connections per /24. */
  function Roomy(highWater: nat, perSubnetCap: nat): Config {
    Config(highWater, perSubnetCap, 1.0, {})
  }

  lemma OnePreferred(cfg: Config, p: PeerId)
    requires cfg == Roomy(cfg.highWater, cfg.perSubnetCap) && cfg.highWater >= 1
    ensures var w := Step(cfg, Initial(cfg), SetPreferred([(p, [])]));
            w.live == [] && w.connected == map[] && w.counts == map[] && w.protected == {p}
  {
    assert ProtectedCap(cfg) == cfg.highWater;
    assert Accepted(cfg, [(p, [])]) == [(p, [])];
  }

  lemma FirstUnprotected(cfg: Config, w: World, q: PeerId, b: Multiaddr)
    requires cfg.highWater >= 1 && cfg.perSubnetCap >= 1
    requires w.live == [] && w.connected == map[] && w.counts == map[] && q !in w.protected
    ensures var w' := Step(cfg, w, Established(q, 0, b, false, 0));
            w'.live == [Connection(0, q, b, false, false, true)] && w'.protected == w.protected
  {
    hide Step, Counted, Resolved, Recorded;
    EstablishedJudges(cfg, w, Established(q, 0, b, false, 0));
  }

  lemma ThenProtected(cfg: Config, w: World, p: PeerId, q: PeerId, a: Multiaddr, b: Multiaddr)
    requires w.live == [Connection(0, q, b, false, false, true)] && w.protected == {p}
    ensures Step(cfg, w, Established(p, 1, a, false, 0)).live
         == [Connection(0, q, b, false, false, true), Connection(1, p, a, true, false, true)]
  {
    hide Step, Counted, Resolved, Recorded;
    EstablishedJudges(cfg, w, Established(p, 1, a, false, 0));
  }

  lemma ThenDemoted(cfg: Config, w: World)
    requires cfg.bootstrap == {}
    ensures Step(cfg, w, SetPreferred([])).live == w.live && Step(cfg, w, SetPreferred([])).protected == {}
  {
  }

  function DemotionRun(p: PeerId, q: PeerId, a: Multiaddr, b: Multiaddr): seq<Event> {
    [SetPreferred([(p, [])]), Established(q, 0, b, false, 0), Established(p, 1, a, false, 0), SetPreferred([])]
  }

  /** `p` is preferred, `q` and `p` connect, `p` is preferred no more: both connections are kept. */
  lemma DemotedPeerStays(cfg: Config, p: PeerId, q: PeerId, a: Multiaddr, b: Multiaddr)
    requires cfg == Roomy(cfg.highWater, cfg.perSubnetCap) && cfg.highWater >= 1 && cfg.perSubnetCap >= 1 && p != q
    ensures Legal(cfg, DemotionRun(p, q, a, b))
    ensures var w := Run(cfg, DemotionRun(p, q, a, b));
            && w.live == [Connection(0, q, b, false, false, true), Connection(1, p, a, true, false, true)]
            && w.protected == {}
  {
    hide Step, Run;
    var e1, e2, e3 := SetPreferred([(p, [])]), Established(q, 0, b, false, 0), Established(p, 1, a, false, 0);
    var w1 := Step(cfg, Initial(cfg), e1);
    OnePreferred(cfg, p);
    FirstUnprotected(cfg, w1, q, b);
    ThenProtected(cfg, Step(cfg, w1, e2), p, q, a, b);
    ThreeTurns(cfg, e1, e2, e3);
    FourTurns(cfg, e1, e2, e3, SetPreferred([]));
    ThenDemoted(cfg, Run(cfg, [e1, e2, e3]));
  }

  /**
   The watermark does not bound the peers unprotected at a given moment: with room for one,
   a peer that was preferred when it came keeps its connection after it is dropped from the
   preferred set, next to the one unprotected peer.
   */
  lemma DemotionOverfills(p: PeerId, q: PeerId, a: Multiaddr, b: Multiaddr)
    requires p != q
    ensures Legal(Roomy(1, 1), DemotionRun(p, q, a, b))
    ensures !CurrentWithinHighWater(Roomy(1, 1), Run(Roomy(1, 1), DemotionRun(p, q, a, b)))
  {
    hide Run;
    var w := Run(Roomy(1, 1), DemotionRun(p, q, a, b));
    DemotedPeerStays(Roomy(1, 1), p, q, a, b);
    assert w.live[0] in w.live && w.live[1] in w.live;
    SubsetSize({p, q}, KeptPeers(w.live) - {});
  }

  /** Nor does the subnet cap: with one connection allowed per /24, the demoted peer's is a second one. */
  lemma DemotionOverfillsSubnet(p: PeerId, q: PeerId, a: Multiaddr, b: Multiaddr, s: Subnet24)
    requires p != q && SubnetOf(a) == SubnetOf(b) == Some(s)
    ensures Legal(Roomy(2, 1), DemotionRun(p, q, a, b))
    ensures !CurrentWithinSubnetCap(Roomy(2, 1), Run(Roomy(2, 1), DemotionRun(p, q, a, b)))
  {
    hide Run;
    var w, keep := Run(Roomy(2, 1), DemotionRun(p, q, a, b)), KeptUnprotectedIn(s, {});
    DemotedPeerStays(Roomy(2, 1), p, q, a, b);
    assert w.live == [w.live[0]] + [w.live[1]];
    CollectOne(w.live[0], keep);
    CollectSnoc([w.live[0]], w.live[1], keep);
    assert |Collect(w.live, KeptUnprotectedIn(s, w.protected))| == 2;
  }

  /** Peers are counted, not connections: with room for one, an unprotected peer keeps two connections. */
  lemma OnePeerTwoConnections(p: PeerId, a: Multiaddr, b: Multiaddr)
    requires SubnetOf(a) == SubnetOf(b) == None
    ensures var cfg, events := Roomy(1, 1), [Established(p, 0, a, false, 0), Established(p, 1, b, false, 0)];
            && Legal(cfg, events)
            && Run(cfg, events).live
               == [Connection(0, p, a, false, false, true), Connection(1, p, b, false, false, true)]
            && !ConnectionsWithinHighWater(cfg, Run(cfg, events))
  {
    hide Step, Counted, Resolved, Recorded;
    var cfg, e1, e2 := Roomy(1, 1), Established(p, 0, a, false, 0), Established(p, 1, b, false, 0);
    TwoTurns(cfg, e1, e2);
    FirstUnprotected(cfg, Initial(cfg), p, a);
    var w1 := Step(cfg, Initial(cfg), e1);
    EstablishedFrame(cfg, Initial(cfg), e1);
    EstablishedJudges(cfg, w1, e2);
    assert w1.connected.Keys + {p} == {p};
    BothKept(Step(cfg, w1, e2).live, p, a, b);
  }

  lemma BothKept(live: seq<Connection>, p: PeerId, a: Multiaddr, b: Multiaddr)
    requires live == [Connection(0, p, a, false, false, true), Connection(1, p, b, false, false, true)]
    ensures |KeptConnections(live)| == 2
  {
    assert live == [live[0]] + [live[1]];
    CollectOne(live[0], KeptUnprotectedConnection());
    CollectSnoc([live[0]], live[1], KeptUnprotectedConnection());
  }

  lemma TwoFromOneAddress(cfg: Config, p: PeerId, a: Multiaddr)
    ensures var w1 := Step(cfg, Initial(cfg), Established(p, 0, a, false, 0));
            var w2 := Step(cfg, w1, Established(p, 1, a, false, 0));
            && |w1.live| == 1 && w1.live[0].id == 0
            && |w2.live| == 2 && w2.live[0].peer == w2.live[1].peer == p && w2.live[0].addr == w2.live[1].addr == a
            && w2.connected == map[p := [a, a]]
  {
    hide OnEstablished, OverCap, Counted, Recorded, Resolved;
    var e1, e2 := Established(p, 0, a, false, 0), Established(p, 1, a, false, 0);
    var w1 := Step(cfg, Initial(cfg), e1);
    EstablishedFrame(cfg, Initial(cfg), e1);
    EstablishedJudges(cfg, Initial(cfg), e1);
    assert TableEntry(Initial(cfg), p) + [a] == [a];
    assert w1.connected == map[p := [a]];
    assert [a] + [a] == [a, a];
    EstablishedFrame(cfg, w1, e2);
    EstablishedJudges(cfg, w1, e2);
  }

  lemma OneOfTwoDropped(w: World, w': World, p: PeerId, a: Multiaddr)
    requires |w.live| == 2 && w.live[0].peer == w.live[1].peer == p && w.live[0].addr == w.live[1].addr == a
    requires w.connected == map[p := [a, a]] && Drops(w, w', 0)
    ensures Peers(w'.live) == {p} && w'.connected == map[p := []]
  {
    var rest := Without(w.live, 0);
    OnePeer(rest, p);
    SamePeers(w'.live, rest);
    CollectNothing([a, a], Except(a));
  }

  lemma OneOfTwoCloses(cfg: Config, w: World, p: PeerId, a: Multiaddr)
    requires |w.live| == 2 && w.live[0].peer == w.live[1].peer == p && w.live[0].addr == w.live[1].addr == a
    requires w.connected == map[p := [a, a]]
    ensures var w' := Step(cfg, w, Closed(0, false));
            Peers(w'.live) == {p} && w'.connected == map[p := []]
  {
    OnePeer(w.live, p);
    ClosedDrops(cfg, w, Closed(0, false));
    OneOfTwoDropped(w, Step(cfg, w, Closed(0, false)), p, a);
  }

  lemma OnePeer(live: seq<Connection>, p: PeerId)
    requires live != [] && forall i :: 0 <= i < |live| ==> live[i].peer == p
    ensures Peers(live) == {p}
  {
    assert live[0] in live;
  }

  /** Two connections of one peer from one address: when one closes, the table forgets the other's address. */
  lemma TwinAddressVanishes(cfg: Config, p: PeerId, a: Multiaddr)
    ensures var events := [Established(p, 0, a, false, 0), Established(p, 1, a, false, 0), Closed(0, false)];
            && Legal(cfg, events)
            && Peers(Run(cfg, events).live) == {p}
            && Run(cfg, events).connected == map[p := []]
  {
    var e1, e2, e3 := Established(p, 0, a, false, 0), Established(p, 1, a, false, 0), Closed(0, false);
    ThreeTurns(cfg, e1, e2, e3);
    TwoFromOneAddress(cfg, p, a);
    OneOfTwoCloses(cfg, Step(cfg, Step(cfg, Initial(cfg), e1), e2), p, a);
  }
}
