/** The caps the event loop enforces although closes are late, and whom it never closes. */
module ConnectionLimits {
  import opened Sequences
  import opened Addressing
  import opened SubnetLimiting
  import opened Connections
  import opened ConnectionFrames
  import opened ConnectionTable

  /** Peers that keep a connection nobody asked to close. */
  function KeptPeers(live: seq<Connection>): set<PeerId> {
    set c | c in live && !c.closing :: c.peer
  }

  /** Peers that keep a connection they got without protection. */
  function KeptUnexempt(live: seq<Connection>): set<PeerId> {
    set c | c in live && !c.closing && !c.exempt :: c.peer
  }

  function KeptExempt(live: seq<Connection>): set<PeerId> {
    set c | c in live && !c.closing && c.exempt :: c.peer
  }

  function KeptUnexemptIn(s: Subnet24): Connection -> seq<ConnectionId> {
    (c: Connection) => if SubnetOf(c.addr) == Some(s) && !c.closing && !c.exempt then [c.id] else []
  }

  ghost predicate WithinHighWater(cfg: Config, w: World) {
    |KeptUnexempt(w.live)| <= cfg.highWater
  }

  ghost predicate WithinSubnetCap(cfg: Config, w: World) {
    forall s :: |Collect(w.live, KeptUnexemptIn(s))| <= cfg.perSubnetCap
  }

  // ---- What admission does to the tags ----

  /**
   Over the high watermark every connection of the new peer is asked to close; over the
   subnet cap only the new connection; no other tag changes.
   */
  ghost predicate Judged(cfg: Config, w: World, w': World, e: Event)
    requires e.Established?
  {
    && |w'.live| == |w.live| + 1
    && w'.protected == w.protected
    && w'.connected.Keys == w.connected.Keys + {e.peer}
    && (forall i :: 0 <= i < |w.live| ==>
          w'.live[i] == w.live[i].(closing := w.live[i].closing
                                              || (OverHighWater(cfg, w, e) && w.live[i].peer == e.peer)))
    && w'.live[|w.live|] == Connection(e.id, e.peer, e.addr, e.peer in w.protected,
                                       OverHighWater(cfg, w, e) || OverSubnetCap(cfg, w, e), true)
  }

  lemma EstablishedJudges(cfg: Config, w: World, e: Event)
    requires Enabled(w, e) && e.Established?
    ensures Judged(cfg, w, Step(cfg, w, e), e)
  {
    hide Step, OverCap, Counted, Resolved, OverHighWater, OverSubnetCap;
    EstablishedFrame(cfg, w, e);
    EstablishedLive(cfg, w, e, e.peer in w.protected, OverHighWater(cfg, w, e), OverSubnetCap(cfg, w, e));
    var grown := w.live + [Added(e)];
    assert grown[|w.live|] == Added(e);
    forall i | 0 <= i < |w.live| ensures grown[i] == w.live[i] && w.live[i].id != e.id {
      assert w.live[i] in w.live;
    }
  }

  /**
   Who is asked to close at an admission, told from the live connections alone. An unprotected
   newcomer is, exactly if with its peer there are more connected peers than `high_water`, or
   its /24 has `per_subnet_cap` live connections already; its peer's other connections are,
   exactly in the first case; nobody else's.
   */
  lemma AdmissionExactly(cfg: Config, w: World, e: Event)
    requires Enabled(w, e) && e.Established? && TableInvariant(w)
    ensures var live', n := Step(cfg, w, e).live, |w.live|;
            var crowded := e.peer !in w.protected && |Peers(w.live) + {e.peer}| > cfg.highWater;
            var full := exists s :: SubnetOf(e.addr) == Some(s) && |Collect(w.live, InSubnet(s))| >= cfg.perSubnetCap;
            && |live'| == n + 1
            && (live'[n].id, live'[n].peer, live'[n].addr) == (e.id, e.peer, e.addr)
            && (live'[n].closing <==> crowded || (e.peer !in w.protected && full))
            && forall i :: 0 <= i < n ==>
                 && (live'[i].id, live'[i].peer, live'[i].addr) == (w.live[i].id, w.live[i].peer, w.live[i].addr)
                 && (live'[i].closing <==> w.live[i].closing || (crowded && w.live[i].peer == e.peer))
  {
    hide Step, Collect;
    EstablishedJudges(cfg, w, e);
    match SubnetOf(e.addr)
    case None =>
    case Some(s) => assert Tally(w.counts, s) == |Collect(w.live, InSubnet(s))|;
  }

  // ---- The high watermark ----

  lemma EstablishedKeepsHighWater(cfg: Config, w: World, w': World, e: Event)
    requires e.Established? && Judged(cfg, w, w', e)
    requires WithinHighWater(cfg, w) && KeysMatch(w')
    ensures WithinHighWater(cfg, w')
  {
    var n := |w.live|;
    if e.peer in w.protected || OverHighWater(cfg, w, e) {
      forall p | p in KeptUnexempt(w'.live) ensures p in KeptUnexempt(w.live) {
        var i :| 0 <= i <= n && w'.live[i].peer == p && !w'.live[i].closing && !w'.live[i].exempt;
        assert i < n && w.live[i].peer == p;
      }
      SubsetSize(KeptUnexempt(w'.live), KeptUnexempt(w.live));
    } else {
      assert KeptUnexempt(w'.live) <= w'.connected.Keys;
      SubsetSize(KeptUnexempt(w'.live), w'.connected.Keys);
    }
  }

  predicate SameTags(b: Connection, c: Connection) {
    b.id == c.id && b.peer == c.peer && b.exempt == c.exempt && b.closing == c.closing
  }

  /** A close and a quiet turn only shrink the live connections and set no closing flag. */
  ghost predicate Shrinks(w: World, w': World) {
    forall c :: c in w'.live ==>
      exists b :: b in w.live && SameTags(b, c)
  }

  lemma OtherStepsShrink(cfg: Config, w: World, e: Event)
    requires KeysMatch(w) && Enabled(w, e) && !e.Established?
    ensures Shrinks(w, Step(cfg, w, e))
  {
    hide Step, Collect, Uncounted;
    var w' := Step(cfg, w, e);
    if e.Closed? {
      ClosedDrops(cfg, w, e);
      var rest := Without(w.live, e.index);
      forall c | c in w'.live
        ensures exists b :: b in w.live && SameTags(b, c)
      {
        var i :| 0 <= i < |w'.live| && w'.live[i] == c;
        assert rest[i] in w.live && SameTags(rest[i], c);
      }
    } else {
      QuietTable(cfg, w, e);
    }
  }

  lemma ShrinkingKeepsHighWater(cfg: Config, w: World, w': World)
    requires Shrinks(w, w') && WithinHighWater(cfg, w)
    ensures WithinHighWater(cfg, w')
  {
    assert KeptUnexempt(w'.live) <= KeptUnexempt(w.live);
    SubsetSize(KeptUnexempt(w'.live), KeptUnexempt(w.live));
  }

  // ---- The subnet cap ----

  /** A subnet the new connection does not use, or not for keeps, holds no more than before. */
  lemma NoMoreKept(cfg: Config, w: World, w': World, e: Event, s: Subnet24)
    requires e.Established? && Judged(cfg, w, w', e)
    requires KeptUnexemptIn(s)(w'.live[|w.live|]) == []
    ensures |Collect(w'.live, KeptUnexemptIn(s))| <= |Collect(w.live, KeptUnexemptIn(s))|
  {
    var earlier := w'.live[..|w.live|];
    assert w'.live == earlier + [w'.live[|w.live|]];
    CollectSnoc(earlier, w'.live[|w.live|], KeptUnexemptIn(s));
    CollectShrinks(earlier, KeptUnexemptIn(s), w.live, KeptUnexemptIn(s));
  }

  /** A connection admitted for keeps and without protection found its subnet below the cap. */
  lemma OneMoreKept(cfg: Config, w: World, w': World, e: Event, s: Subnet24)
    requires e.Established? && Judged(cfg, w, w', e)
    requires w'.counts == Counted(w.counts, e.addr) && CountsMatch(w')
    requires KeptUnexemptIn(s)(w'.live[|w.live|]) != []
    ensures |Collect(w'.live, KeptUnexemptIn(s))| <= cfg.perSubnetCap
  {
    CollectShrinks(w'.live, KeptUnexemptIn(s), w'.live, InSubnet(s));
    assert Tally(w'.counts, s) == Tally(w.counts, s) + 1 <= cfg.perSubnetCap;
  }

  lemma EstablishedKeepsSubnetCap(cfg: Config, w: World, w': World, e: Event)
    requires e.Established? && Judged(cfg, w, w', e)
    requires w'.counts == Counted(w.counts, e.addr) && CountsMatch(w')
    requires WithinSubnetCap(cfg, w)
    ensures WithinSubnetCap(cfg, w')
  {
    forall s ensures |Collect(w'.live, KeptUnexemptIn(s))| <= cfg.perSubnetCap {
      if KeptUnexemptIn(s)(w'.live[|w.live|]) == [] {
        NoMoreKept(cfg, w, w', e, s);
      } else {
        OneMoreKept(cfg, w, w', e, s);
      }
    }
  }

  lemma ClosedKeepsSubnetCap(cfg: Config, w: World, w': World, k: nat)
    requires WithinSubnetCap(cfg, w) && k < |w.live| && Drops(w, w', k)
    ensures WithinSubnetCap(cfg, w')
  {
    var rest := Without(w.live, k);
    forall s ensures |Collect(w'.live, KeptUnexemptIn(s))| <= cfg.perSubnetCap {
      CollectRemove(w.live, k, KeptUnexemptIn(s));
      CollectCongruent(w'.live, KeptUnexemptIn(s), rest, KeptUnexemptIn(s));
    }
  }

  lemma StepKeepsLimits(cfg: Config, w: World, e: Event)
    requires Enabled(w, e) && TableInvariant(w) && WithinHighWater(cfg, w) && WithinSubnetCap(cfg, w)
    ensures WithinHighWater(cfg, Step(cfg, w, e)) && WithinSubnetCap(cfg, Step(cfg, w, e))
  {
    hide Step;
    var w' := Step(cfg, w, e);
    StepKeepsTable(cfg, w, e);
    if e.Established? {
      EstablishedJudges(cfg, w, e);
      EstablishedAdmits(cfg, w, e);
      EstablishedKeepsHighWater(cfg, w, w', e);
      EstablishedKeepsSubnetCap(cfg, w, w', e);
    } else {
      OtherStepsShrink(cfg, w, e);
      ShrinkingKeepsHighWater(cfg, w, w');
      if e.Closed? {
        ClosedDrops(cfg, w, e);
        ClosedKeepsSubnetCap(cfg, w, w', e.index);
      } else {
        QuietTable(cfg, w, e);
      }
    }
  }

  /**
   In every run, the peers that keep a connection admitted without protection number at
   most `high_water`, and such connections of one /24 at most `per_subnet_cap`.
   */
  lemma {:induction false} LimitsInEveryRun(cfg: Config, events: seq<Event>, states: seq<World>, i: nat)
    requires Trace(cfg, events, states) && i < |states|
    ensures WithinHighWater(cfg, states[i]) && WithinSubnetCap(cfg, states[i])
  {
    hide Step, Enabled;
    if i > 0 {
      TableInEveryRun(cfg, events, states, i - 1);
      LimitsInEveryRun(cfg, events, states, i - 1);
      assert Enabled(states[i - 1], events[i - 1]);
      StepKeepsLimits(cfg, states[i - 1], events[i - 1]);
    }
  }

  /** Protection is the only way past the watermark. */
  lemma KeptPeersBound(cfg: Config, w: World)
    requires WithinHighWater(cfg, w)
    ensures |KeptPeers(w.live)| <= cfg.highWater + |KeptExempt(w.live)|
  {
    forall p | p in KeptPeers(w.live) ensures p in KeptUnexempt(w.live) + KeptExempt(w.live) {
      var c :| c in w.live && !c.closing && c.peer == p;
      assert if c.exempt then p in KeptExempt(w.live) else p in KeptUnexempt(w.live);
    }
    SubsetSize(KeptPeers(w.live), KeptUnexempt(w.live) + KeptExempt(w.live));
  }

  // ---- Protected peers are not evicted ----

  function Closing(live: seq<Connection>, peer: PeerId): set<ConnectionId> {
    set c | c in live && c.peer == peer && c.closing :: c.id
  }

  lemma AdmissionSparesProtected(cfg: Config, w: World, w': World, e: Event, peer: PeerId)
    requires e.Established? && Judged(cfg, w, w', e) && peer in w.protected
    ensures Closing(w'.live, peer) <= Closing(w.live, peer)
  {
    forall id | id in Closing(w'.live, peer) ensures id in Closing(w.live, peer) {
      var i :| 0 <= i < |w'.live| && w'.live[i].id == id && w'.live[i].peer == peer && w'.live[i].closing;
      assert i < |w.live|;
      assert w.live[i].closing;
    }
  }

  lemma ShrinkingSetsNoFlag(w: World, w': World, peer: PeerId)
    requires Shrinks(w, w')
    ensures Closing(w'.live, peer) <= Closing(w.live, peer)
  {
  }

  lemma ProtectedNotClosed(cfg: Config, w: World, e: Event, peer: PeerId)
    requires KeysMatch(w) && Enabled(w, e) && peer in w.protected
    ensures Closing(Step(cfg, w, e).live, peer) <= Closing(w.live, peer)
  {
    hide Step;
    var w' := Step(cfg, w, e);
    if e.Established? {
      EstablishedJudges(cfg, w, e);
      AdmissionSparesProtected(cfg, w, w', e, peer);
    } else {
      OtherStepsShrink(cfg, w, e);
      ShrinkingSetsNoFlag(w, w', peer);
    }
  }

  /**
   While a peer stays protected the loop asks for no close of any of its connections, be
   they there before or admitted meanwhile.
   */
  lemma {:induction false} ProtectedNeverEvicted(cfg: Config, events: seq<Event>, states: seq<World>,
                                                 from: nat, to: nat, peer: PeerId)
    requires Trace(cfg, events, states) && from <= to < |states|
    requires forall j :: from <= j < to ==> peer in states[j].protected
    ensures Closing(states[to].live, peer) <= Closing(states[from].live, peer)
  {
    hide Step, Enabled;
    if from < to {
      ProtectedNeverEvicted(cfg, events, states, from, to - 1, peer);
      TableInEveryRun(cfg, events, states, to - 1);
      assert Enabled(states[to - 1], events[to - 1]);
      ProtectedNotClosed(cfg, states[to - 1], events[to - 1], peer);
    }
  }
}
