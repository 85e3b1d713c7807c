/** What every turn of the event loop keeps about the connection table and the subnet counts. */
module ConnectionTable {
  import opened Sequences
  import opened Addressing
  import opened SubnetLimiting
  import opened Connections
  import opened ConnectionFrames

  /** The address a live connection contributes to its peer's list in the table. */
  function ListedAddr(peer: PeerId): Connection -> seq<Multiaddr> {
    (c: Connection) => if c.peer == peer && c.listed then [c.addr] else []
  }

  function LiveAddr(peer: PeerId): Connection -> seq<Multiaddr> {
    (c: Connection) => if c.peer == peer then [c.addr] else []
  }

  function InSubnet(s: Subnet24): Connection -> seq<ConnectionId> {
    (c: Connection) => if SubnetOf(c.addr) == Some(s) then [c.id] else []
  }

  /** A peer has an entry exactly while it has a live connection. */
  ghost predicate KeysMatch(w: World) {
    w.connected.Keys == Peers(w.live)
  }

  /** An entry is the peer's live addresses in order of establishment, less the dropped equal ones. */
  ghost predicate ListsMatch(w: World) {
    forall p :: p in w.connected ==> w.connected[p] == Collect(w.live, ListedAddr(p))
  }

  /** The counter of a /24 is its number of live connections, rejected ones included; no zero is stored. */
  ghost predicate CountsMatch(w: World) {
    && (forall s :: Tally(w.counts, s) == |Collect(w.live, InSubnet(s))|)
    && (forall s :: s in w.counts ==> w.counts[s] > 0)
  }

  ghost predicate TableInvariant(w: World) {
    KeysMatch(w) && ListsMatch(w) && CountsMatch(w) && w.gauge == |w.live|
  }

  // ---- Facts about the live sequence ----

  /** The same connections in the same order, up to their tags. */
  ghost predicate SameConnections(a: seq<Connection>, b: seq<Connection>) {
    && |a| == |b|
    && forall i :: 0 <= i < |a| ==> a[i].id == b[i].id && a[i].peer == b[i].peer && a[i].addr == b[i].addr
  }

  lemma SamePeers(a: seq<Connection>, b: seq<Connection>)
    requires SameConnections(a, b)
    ensures Peers(a) == Peers(b)
  {
    forall p ensures p in Peers(a) <==> p in Peers(b) {
      if i :| 0 <= i < |a| && a[i].peer == p {
        assert b[i].peer == p;
      }
      if i :| 0 <= i < |b| && b[i].peer == p {
        assert a[i].peer == p;
      }
    }
  }

  lemma SameLoad(a: seq<Connection>, b: seq<Connection>, s: Subnet24)
    requires SameConnections(a, b)
    ensures Collect(a, InSubnet(s)) == Collect(b, InSubnet(s))
  {
    CollectCongruent(a, InSubnet(s), b, InSubnet(s));
  }

  lemma OwnsNothing(live: seq<Connection>, peer: PeerId)
    ensures ConnectionsOf(live, peer) == [] <==> peer !in Peers(live)
  {
    if i :| 0 <= i < |live| && live[i].peer == peer {
      assert live[i].id in OwnedBy(peer)(live[i]);
      CollectMember(live, OwnedBy(peer), live[i].id);
    }
    if ConnectionsOf(live, peer) != [] {
      CollectMember(live, OwnedBy(peer), ConnectionsOf(live, peer)[0]);
    }
  }

  lemma PeersWithout(live: seq<Connection>, k: nat)
    requires k < |live|
    ensures Peers(live) == Peers(Without(live, k)) + {live[k].peer}
  {
    assert forall c :: c in live <==> c in live[..k] || c == live[k] || c in live[k + 1..] by {
      assert live == live[..k] + [live[k]] + live[k + 1..];
    }
  }

  lemma PeersWith(live: seq<Connection>, c: Connection)
    ensures Peers(live + [c]) == Peers(live) + {c.peer}
  {
    assert forall x :: x in live + [c] <==> x in live || x == c;
  }

  lemma NothingListed(live: seq<Connection>, peer: PeerId)
    requires peer !in Peers(live)
    ensures Collect(live, ListedAddr(peer)) == []
  {
    if Collect(live, ListedAddr(peer)) != [] {
      CollectMember(live, ListedAddr(peer), Collect(live, ListedAddr(peer))[0]);
    }
  }

  // ---- Establishing ----

  /** Admission adds the connection at the end and changes no other thing but the tags. */
  ghost predicate Admits(w: World, w': World, e: Event)
    requires e.Established?
  {
    && SameConnections(w'.live, w.live + [Added(e)])
    && (forall i :: 0 <= i < |w'.live| ==> w'.live[i].listed == (w.live + [Added(e)])[i].listed)
    && w'.connected == w.connected[e.peer := TableEntry(w, e.peer) + [e.addr]]
    && w'.counts == Counted(w.counts, e.addr)
    && w'.gauge == w.gauge + 1
  }

  lemma EstablishedAdmits(cfg: Config, w: World, e: Event)
    requires e.Established?
    ensures Admits(w, Step(cfg, w, e), e)
  {
    hide Step, OverCap, Counted, OverHighWater, OverSubnetCap;
    EstablishedFrame(cfg, w, e);
    EstablishedLive(cfg, w, e, e.peer in w.protected, OverHighWater(cfg, w, e), OverSubnetCap(cfg, w, e));
  }

  lemma AdmittedList(w: World, w': World, e: Event, p: PeerId)
    requires e.Established? && Admits(w, w', e)
    ensures Collect(w'.live, ListedAddr(p)) == Collect(w.live, ListedAddr(p)) + (if p == e.peer then [e.addr] else [])
  {
    hide Collect, Counted;
    CollectCongruent(w'.live, ListedAddr(p), w.live + [Added(e)], ListedAddr(p));
    CollectSnoc(w.live, Added(e), ListedAddr(p));
  }

  lemma AdmissionKeepsLists(w: World, w': World, e: Event)
    requires KeysMatch(w) && ListsMatch(w) && e.Established? && Admits(w, w', e)
    ensures KeysMatch(w') && ListsMatch(w')
  {
    hide Collect, Counted, Peers;
    SamePeers(w'.live, w.live + [Added(e)]);
    PeersWith(w.live, Added(e));
    forall p | p in w'.connected ensures w'.connected[p] == Collect(w'.live, ListedAddr(p)) {
      AdmittedList(w, w', e, p);
      if p !in w.connected {
        NothingListed(w.live, p);
      }
    }
  }

  lemma AdmissionKeepsCounts(w: World, w': World, e: Event)
    requires CountsMatch(w) && e.Established? && Admits(w, w', e)
    ensures CountsMatch(w')
  {
    hide Collect;
    forall s ensures Tally(w'.counts, s) == |Collect(w'.live, InSubnet(s))| {
      SameLoad(w'.live, w.live + [Added(e)], s);
      CollectSnoc(w.live, Added(e), InSubnet(s));
    }
  }

  // ---- Closing ----

  /** A close takes one connection away; its equals lose their place in the table with it. */
  ghost predicate Drops(w: World, w': World, k: nat)
    requires k < |w.live|
  {
    var c, rest := w.live[k], Without(w.live, k);
    && w'.gauge == w.gauge - 1
    && w'.counts == Uncounted(w.counts, c.addr)
    && SameConnections(w'.live, rest)
    && if c.peer !in Peers(rest) then
         w'.connected == w.connected - {c.peer} && w'.live == rest
       else
         && c.peer in w.connected
         && w'.connected == w.connected[c.peer := Collect(w.connected[c.peer], Except(c.addr))]
         && forall i :: 0 <= i < |rest| ==> w'.live[i] == Unlist(rest[i], c.peer, c.addr)
  }

  lemma ClosedDrops(cfg: Config, w: World, e: Event)
    requires KeysMatch(w) && Enabled(w, e) && e.Closed?
    ensures Drops(w, Step(cfg, w, e), e.index)
  {
    hide HandleClosed, Uncounted, Collect, Peers;
    var c, after := w.live[e.index], SwarmCloses(w, e.index, e.forget);
    PeersWithout(w.live, e.index);
    OwnsNothing(after.live, c.peer);
    if ConnectionsOf(after.live, c.peer) == [] {
      LastCloseTable(after, c.peer, c.addr);
    } else {
      OtherCloseTable(after, c.peer, c.addr, |ConnectionsOf(after.live, c.peer)|);
    }
  }

  /** What is left of a connection's contribution when its peer's list is rid of `addr`. */
  function Kept(peer: PeerId, addr: Multiaddr): Connection -> seq<Multiaddr> {
    (c: Connection) => if c.peer == peer && c.listed && c.addr != addr then [c.addr] else []
  }

  lemma KeptIsFiltered(live: seq<Connection>, peer: PeerId, addr: Multiaddr)
    ensures Collect(Collect(live, ListedAddr(peer)), Except(addr)) == Collect(live, Kept(peer, addr))
  {
    forall i | 0 <= i < |live|
      ensures Kept(peer, addr)(live[i]) == Collect(ListedAddr(peer)(live[i]), Except(addr))
    {
      CollectOne(live[i].addr, Except(addr));
    }
    CollectCompose(live, ListedAddr(peer), Except(addr), Kept(peer, addr));
  }

  lemma CollectWithout<T, R>(s: seq<T>, k: nat, f: T -> seq<R>)
    requires k < |s| && f(s[k]) == []
    ensures Collect(Without(s, k), f) == Collect(s, f)
  {
    CollectSplit(s, k, f);
    CollectRemove(s, k, f);
  }

  /** The closed connection and its equals leave the list together. */
  lemma ClosedList(live: seq<Connection>, k: nat, after: seq<Connection>)
    requires k < |live| && |after| == |live| - 1
    requires forall i :: 0 <= i < |after| ==> after[i] == Unlist(Without(live, k)[i], live[k].peer, live[k].addr)
    ensures Collect(after, ListedAddr(live[k].peer))
         == Collect(Collect(live, ListedAddr(live[k].peer)), Except(live[k].addr))
  {
    var peer, addr := live[k].peer, live[k].addr;
    KeptIsFiltered(live, peer, addr);
    CollectWithout(live, k, Kept(peer, addr));
    CollectCongruent(after, ListedAddr(peer), Without(live, k), Kept(peer, addr));
  }

  lemma OtherList(live: seq<Connection>, k: nat, after: seq<Connection>, p: PeerId)
    requires k < |live| && |after| == |live| - 1 && p != live[k].peer
    requires forall i :: 0 <= i < |after| ==> after[i] == Unlist(Without(live, k)[i], live[k].peer, live[k].addr)
    ensures Collect(after, ListedAddr(p)) == Collect(live, ListedAddr(p))
  {
    CollectCongruent(after, ListedAddr(p), Without(live, k), ListedAddr(p));
    CollectWithout(live, k, ListedAddr(p));
  }

  lemma DropKeepsKeys(w: World, w': World, k: nat)
    requires KeysMatch(w) && k < |w.live| && Drops(w, w', k)
    ensures KeysMatch(w')
  {
    hide Collect, Uncounted, Peers;
    SamePeers(w'.live, Without(w.live, k));
    PeersWithout(w.live, k);
  }

  lemma DroppedList(w: World, w': World, k: nat, p: PeerId)
    requires k < |w.live| && Drops(w, w', k)
    ensures p != w.live[k].peer ==> Collect(w'.live, ListedAddr(p)) == Collect(w.live, ListedAddr(p))
    ensures p == w.live[k].peer && p in Peers(Without(w.live, k)) ==>
              Collect(w'.live, ListedAddr(p)) == Collect(Collect(w.live, ListedAddr(p)), Except(w.live[k].addr))
  {
    hide Collect, Uncounted, Peers;
    var peer := w.live[k].peer;
    if peer !in Peers(Without(w.live, k)) {
      if p != peer {
        CollectWithout(w.live, k, ListedAddr(p));
      }
    } else if p == peer {
      ClosedList(w.live, k, w'.live);
    } else {
      OtherList(w.live, k, w'.live, p);
    }
  }

  lemma DropKeepsLists(w: World, w': World, k: nat)
    requires KeysMatch(w) && ListsMatch(w) && k < |w.live| && Drops(w, w', k)
    ensures KeysMatch(w') && ListsMatch(w')
  {
    hide Collect, Uncounted, Peers, ListedAddr;
    DropKeepsKeys(w, w', k);
    PeersWithout(w.live, k);
    forall p | p in w'.connected ensures w'.connected[p] == Collect(w'.live, ListedAddr(p)) {
      DroppedList(w, w', k, p);
    }
  }

  lemma DropKeepsCounts(w: World, w': World, k: nat)
    requires CountsMatch(w) && k < |w.live| && Drops(w, w', k)
    ensures CountsMatch(w')
  {
    hide Collect;
    forall s ensures Tally(w'.counts, s) == |Collect(w'.live, InSubnet(s))| {
      SameLoad(w'.live, Without(w.live, k), s);
      CollectRemove(w.live, k, InSubnet(s));
    }
  }

  /** The decrement at a close never meets a missing or zero counter. */
  lemma ClosedConnectionIsCounted(w: World, k: nat)
    requires CountsMatch(w) && k < |w.live| && SubnetOf(w.live[k].addr).Some?
    ensures Tally(w.counts, SubnetOf(w.live[k].addr).value) >= 1
  {
    CollectRemove(w.live, k, InSubnet(SubnetOf(w.live[k].addr).value));
  }

  // ---- Every turn, every run ----

  lemma StepKeepsTable(cfg: Config, w: World, e: Event)
    requires TableInvariant(w) && Enabled(w, e)
    ensures TableInvariant(Step(cfg, w, e))
  {
    hide Step;
    var w' := Step(cfg, w, e);
    if e.Established? {
      EstablishedAdmits(cfg, w, e);
      AdmissionKeepsLists(w, w', e);
      AdmissionKeepsCounts(w, w', e);
    } else if e.Closed? {
      ClosedDrops(cfg, w, e);
      DropKeepsLists(w, w', e.index);
      DropKeepsCounts(w, w', e.index);
    } else {
      QuietTable(cfg, w, e);
    }
  }

  lemma {:induction false} TableInEveryRun(cfg: Config, events: seq<Event>, states: seq<World>, i: nat)
    requires Trace(cfg, events, states) && i < |states|
    ensures TableInvariant(states[i])
  {
    hide Step, Enabled;
    if i > 0 {
      TableInEveryRun(cfg, events, states, i - 1);
      assert Enabled(states[i - 1], events[i - 1]);
      StepKeepsTable(cfg, states[i - 1], events[i - 1]);
    }
  }
}
