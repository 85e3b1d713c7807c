/**
 The limits as the configuration's documentation words them, which is not what the event
 loop enforces: as a number of connections, and over the peers that are unprotected now.
 For each reading, the turns that break it are told exactly, and so are the runs.
 */
module DocumentedLimits {
  import opened Sequences
  import opened Addressing
  import opened SubnetLimiting
  import opened Connections
  import opened ConnectionFrames
  import opened ConnectionTable
  import opened ConnectionLimits
  import opened ConnectionProtection

  // ---- The high watermark as a number of connections ----

  function KeptUnprotectedConnection(): Connection -> seq<ConnectionId> {
    (c: Connection) => if !c.closing && !c.exempt then [c.id] else []
  }

  /** The connections that were admitted without protection and that nobody asked to close. */
  function KeptConnections(live: seq<Connection>): seq<ConnectionId> {
    Collect(live, KeptUnprotectedConnection())
  }

  ghost predicate ConnectionsWithinHighWater(cfg: Config, w: World) {
    |KeptConnections(w.live)| <= cfg.highWater
  }

  /** There is room for the connection, or it is not admitted for keeps, or protection admits it. */
  predicate RoomFor(cfg: Config, w: World, e: Event)
    requires e.Established?
  {
    || |KeptConnections(w.live)| < cfg.highWater
    || e.peer in w.protected
    || OverHighWater(cfg, w, e)
    || OverSubnetCap(cfg, w, e)
  }

  lemma KeptAfterAdmission(cfg: Config, w: World, w': World, e: Event)
    requires e.Established? && Judged(cfg, w, w', e)
    ensures var added := if e.peer in w.protected || OverHighWater(cfg, w, e) || OverSubnetCap(cfg, w, e) then 0 else 1;
            && |KeptConnections(w'.live)| <= |KeptConnections(w.live)| + added
            && (added == 1 ==> |KeptConnections(w'.live)| == |KeptConnections(w.live)| + 1)
  {
    hide OverHighWater, OverSubnetCap;
    var n, keep := |w.live|, KeptUnprotectedConnection();
    var earlier := w'.live[..n];
    assert w'.live == earlier + [w'.live[n]];
    CollectSnoc(earlier, w'.live[n], keep);
    CollectShrinks(earlier, keep, w.live, keep);
    if !OverHighWater(cfg, w, e) {
      CollectCongruent(earlier, keep, w.live, keep);
    }
  }

  lemma KeptAfterClose(w: World, w': World, k: nat)
    requires k < |w.live| && Drops(w, w', k)
    ensures |KeptConnections(w'.live)| <= |KeptConnections(w.live)|
  {
    hide Collect, Uncounted;
    var rest, keep := Without(w.live, k), KeptUnprotectedConnection();
    CollectRemove(w.live, k, keep);
    CollectCongruent(w'.live, keep, rest, keep);
  }

  /**
   Peers are counted, not connections: a turn keeps the number of connections within the
   watermark except exactly when it admits, for keeps and without protection, one more
   connection when there are as many already.
   */
  lemma ConnectionWatermarkExactly(cfg: Config, w: World, e: Event)
    requires Enabled(w, e) && KeysMatch(w) && ConnectionsWithinHighWater(cfg, w)
    ensures ConnectionsWithinHighWater(cfg, Step(cfg, w, e)) <==> (e.Established? ==> RoomFor(cfg, w, e))
  {
    hide Step, Collect, OverHighWater, OverSubnetCap;
    var w' := Step(cfg, w, e);
    if e.Established? {
      EstablishedJudges(cfg, w, e);
      KeptAfterAdmission(cfg, w, w', e);
    } else if e.Closed? {
      ClosedDrops(cfg, w, e);
      KeptAfterClose(w, w', e.index);
    } else {
      QuietTable(cfg, w, e);
    }
  }

  /** Over a run: never more connections than the watermark, iff every establishment found room. */
  lemma {:induction false} ConnectionWatermarkInRuns(cfg: Config, events: seq<Event>, states: seq<World>, n: nat)
    requires Trace(cfg, events, states) && n <= |events|
    ensures (forall i :: 0 <= i <= n ==> ConnectionsWithinHighWater(cfg, states[i]))
            <==> (forall i :: 0 <= i < n && events[i].Established? ==> RoomFor(cfg, states[i], events[i]))
  {
    hide Step, Enabled, Initial, ConnectionsWithinHighWater, RoomFor;
    if n == 0 {
      InitiallyWithin(cfg);
    } else {
      ConnectionWatermarkInRuns(cfg, events, states, n - 1);
      TableInEveryRun(cfg, events, states, n - 1);
      assert Enabled(states[n - 1], events[n - 1]);
      if ConnectionsWithinHighWater(cfg, states[n - 1]) {
        ConnectionWatermarkExactly(cfg, states[n - 1], events[n - 1]);
      }
    }
  }

  lemma InitiallyWithin(cfg: Config)
    ensures ConnectionsWithinHighWater(cfg, Initial(cfg))
    ensures CurrentWithinHighWater(cfg, Initial(cfg)) && CurrentWithinSubnetCap(cfg, Initial(cfg))
  {
    assert KeptPeers([]) == {};
  }

  // ---- The high watermark over the peers unprotected now ----

  ghost predicate CurrentWithinHighWater(cfg: Config, w: World) {
    |KeptPeers(w.live) - w.protected| <= cfg.highWater
  }

  /** The protected set that a replacement of the preferred peers leaves. */
  function ProtectedAfter(cfg: Config, preferred: Hints): set<PeerId> {
    cfg.bootstrap + Ids(Accepted(cfg, preferred))
  }

  lemma EstablishedKeepsCurrent(cfg: Config, w: World, w': World, e: Event)
    requires e.Established? && Judged(cfg, w, w', e)
    requires CurrentWithinHighWater(cfg, w) && KeysMatch(w')
    ensures CurrentWithinHighWater(cfg, w')
  {
    var n := |w.live|;
    if e.peer in w.protected || OverHighWater(cfg, w, e) {
      forall p | p in KeptPeers(w'.live) - w'.protected ensures p in KeptPeers(w.live) - w.protected {
        var i :| 0 <= i <= n && w'.live[i].peer == p && !w'.live[i].closing;
        assert i < n && w.live[i].peer == p;
      }
      SubsetSize(KeptPeers(w'.live) - w'.protected, KeptPeers(w.live) - w.protected);
    } else {
      assert KeptPeers(w'.live) - w'.protected <= w'.connected.Keys;
      SubsetSize(KeptPeers(w'.live) - w'.protected, w'.connected.Keys);
    }
  }

  lemma ReplacedProtection(cfg: Config, w: World, preferred: Hints)
    requires ProtectionMatches(cfg, w)
    ensures HandleSetPreferred(cfg, w, preferred).protected == ProtectedAfter(cfg, preferred)
  {
    assert w.protected * cfg.bootstrap == cfg.bootstrap;
  }

  /**
   Demotion does not re-run enforcement. Every other turn keeps the watermark over the
   currently unprotected peers; replacing the preferred set keeps it exactly when the kept
   peers it leaves without protection are few enough.
   */
  lemma CurrentHighWaterExactly(cfg: Config, w: World, e: Event)
    requires Enabled(w, e) && TableInvariant(w) && ProtectionMatches(cfg, w) && CurrentWithinHighWater(cfg, w)
    ensures CurrentWithinHighWater(cfg, Step(cfg, w, e)) <==>
              (e.SetPreferred? ==> |KeptPeers(w.live) - ProtectedAfter(cfg, e.preferred)| <= cfg.highWater)
  {
    var w' := Step(cfg, w, e);
    StepKeepsTable(cfg, w, e);
    if e.Established? {
      EstablishedJudges(cfg, w, e);
      EstablishedKeepsCurrent(cfg, w, w', e);
    } else if e.SetPreferred? {
      ReplacedProtection(cfg, w, e.preferred);
    } else {
      OtherStepsShrink(cfg, w, e);
      QuietProtection(cfg, w, e);
      assert KeptPeers(w'.live) - w'.protected <= KeptPeers(w.live) - w.protected;
      SubsetSize(KeptPeers(w'.live) - w'.protected, KeptPeers(w.live) - w.protected);
    }
  }

  /** Over a run: always within the watermark, iff each replacement left few enough kept peers without protection. */
  lemma {:induction false} CurrentHighWaterInRuns(cfg: Config, events: seq<Event>, states: seq<World>, n: nat)
    requires Trace(cfg, events, states) && n <= |events|
    ensures (forall i :: 0 <= i <= n ==> CurrentWithinHighWater(cfg, states[i]))
            <==> (forall i :: 0 <= i < n && events[i].SetPreferred? ==>
                    |KeptPeers(states[i].live) - ProtectedAfter(cfg, events[i].preferred)| <= cfg.highWater)
  {
    hide Step, Enabled, Initial, TableInvariant, ProtectionMatches, ScoresMatch;
    hide CurrentWithinHighWater, ProtectedAfter, KeptPeers;
    if n == 0 {
      InitiallyWithin(cfg);
    } else {
      CurrentHighWaterInRuns(cfg, events, states, n - 1);
      TableInEveryRun(cfg, events, states, n - 1);
      ProtectionInEveryRun(cfg, events, states, n - 1);
      assert Enabled(states[n - 1], events[n - 1]);
      if CurrentWithinHighWater(cfg, states[n - 1]) {
        CurrentHighWaterExactly(cfg, states[n - 1], events[n - 1]);
      }
    }
  }

  // ---- The subnet cap over the peers unprotected now ----

  function KeptUnprotectedIn(s: Subnet24, protected: set<PeerId>): Connection -> seq<ConnectionId> {
    (c: Connection) => if SubnetOf(c.addr) == Some(s) && !c.closing && c.peer !in protected then [c.id] else []
  }

  /** No /24 holds more kept connections of peers outside `protected` than the cap. */
  ghost predicate WithinCapOutside(cfg: Config, live: seq<Connection>, protected: set<PeerId>) {
    forall s :: |Collect(live, KeptUnprotectedIn(s, protected))| <= cfg.perSubnetCap
  }

  ghost predicate CurrentWithinSubnetCap(cfg: Config, w: World) {
    WithinCapOutside(cfg, w.live, w.protected)
  }

  lemma NoMoreUnprotected(cfg: Config, w: World, w': World, e: Event, s: Subnet24)
    requires e.Established? && Judged(cfg, w, w', e)
    requires KeptUnprotectedIn(s, w.protected)(w'.live[|w.live|]) == []
    ensures |Collect(w'.live, KeptUnprotectedIn(s, w.protected))|
         <= |Collect(w.live, KeptUnprotectedIn(s, w.protected))|
  {
    hide Collect, OverHighWater, OverSubnetCap;
    var n, keep := |w.live|, KeptUnprotectedIn(s, w.protected);
    var earlier := w'.live[..n];
    assert w'.live == earlier + [w'.live[n]];
    CollectSnoc(earlier, w'.live[n], keep);
    CollectShrinks(earlier, keep, w.live, keep);
  }

  lemma OneMoreUnprotected(cfg: Config, w: World, w': World, e: Event, s: Subnet24)
    requires e.Established? && Judged(cfg, w, w', e)
    requires w'.counts == Counted(w.counts, e.addr) && CountsMatch(w')
    requires KeptUnprotectedIn(s, w.protected)(w'.live[|w.live|]) != []
    ensures |Collect(w'.live, KeptUnprotectedIn(s, w.protected))| <= cfg.perSubnetCap
  {
    hide Collect, OverHighWater;
    CollectShrinks(w'.live, KeptUnprotectedIn(s, w.protected), w'.live, InSubnet(s));
    assert Tally(w'.counts, s) == Tally(w.counts, s) + 1 <= cfg.perSubnetCap;
  }

  lemma AdmissionKeepsCurrentCap(cfg: Config, w: World, w': World, e: Event)
    requires e.Established? && Judged(cfg, w, w', e)
    requires w'.counts == Counted(w.counts, e.addr) && CountsMatch(w')
    requires CurrentWithinSubnetCap(cfg, w)
    ensures CurrentWithinSubnetCap(cfg, w')
  {
    hide Collect, Counted, OverHighWater, OverSubnetCap, CountsMatch;
    forall s ensures |Collect(w'.live, KeptUnprotectedIn(s, w'.protected))| <= cfg.perSubnetCap {
      if KeptUnprotectedIn(s, w.protected)(w'.live[|w.live|]) == [] {
        NoMoreUnprotected(cfg, w, w', e, s);
      } else {
        OneMoreUnprotected(cfg, w, w', e, s);
      }
    }
  }

  lemma CloseKeepsCurrentCap(cfg: Config, w: World, w': World, k: nat)
    requires CurrentWithinSubnetCap(cfg, w) && k < |w.live| && Drops(w, w', k) && w'.protected == w.protected
    ensures CurrentWithinSubnetCap(cfg, w')
  {
    var rest := Without(w.live, k);
    forall s ensures |Collect(w'.live, KeptUnprotectedIn(s, w.protected))| <= cfg.perSubnetCap {
      CollectRemove(w.live, k, KeptUnprotectedIn(s, w.protected));
      CollectCongruent(w'.live, KeptUnprotectedIn(s, w.protected), rest, KeptUnprotectedIn(s, w.protected));
    }
  }

  /** The cap per /24 over the currently unprotected peers is lost to demotion in the same way, and exactly then. */
  lemma CurrentSubnetCapExactly(cfg: Config, w: World, e: Event)
    requires Enabled(w, e) && TableInvariant(w) && ProtectionMatches(cfg, w) && CurrentWithinSubnetCap(cfg, w)
    ensures CurrentWithinSubnetCap(cfg, Step(cfg, w, e)) <==>
              (e.SetPreferred? ==> WithinCapOutside(cfg, w.live, ProtectedAfter(cfg, e.preferred)))
  {
    hide Step, Collect, ProtectedAfter;
    var w' := Step(cfg, w, e);
    StepKeepsTable(cfg, w, e);
    if e.Established? {
      EstablishedJudges(cfg, w, e);
      EstablishedAdmits(cfg, w, e);
      AdmissionKeepsCurrentCap(cfg, w, w', e);
    } else if e.Closed? {
      ClosedDrops(cfg, w, e);
      QuietProtection(cfg, w, e);
      CloseKeepsCurrentCap(cfg, w, w', e.index);
    } else {
      QuietTable(cfg, w, e);
      if e.SetPreferred? {
        StepReplaces(cfg, w, e);
      } else {
        QuietProtection(cfg, w, e);
      }
    }
  }

  lemma StepReplaces(cfg: Config, w: World, e: Event)
    requires ProtectionMatches(cfg, w) && e.SetPreferred?
    ensures Step(cfg, w, e).protected == ProtectedAfter(cfg, e.preferred)
  {
    ReplacedProtection(cfg, w, e.preferred);
  }

  lemma {:induction false} CurrentSubnetCapInRuns(cfg: Config, events: seq<Event>, states: seq<World>, n: nat)
    requires Trace(cfg, events, states) && n <= |events|
    ensures (forall i :: 0 <= i <= n ==> CurrentWithinSubnetCap(cfg, states[i]))
            <==> (forall i :: 0 <= i < n && events[i].SetPreferred? ==>
                    WithinCapOutside(cfg, states[i].live, ProtectedAfter(cfg, events[i].preferred)))
  {
    hide Step, Enabled, Initial, TableInvariant, ProtectionMatches, ScoresMatch;
    hide CurrentWithinSubnetCap, WithinCapOutside, ProtectedAfter;
    if n == 0 {
      InitiallyWithin(cfg);
    } else {
      CurrentSubnetCapInRuns(cfg, events, states, n - 1);
      TableInEveryRun(cfg, events, states, n - 1);
      ProtectionInEveryRun(cfg, events, states, n - 1);
      assert Enabled(states[n - 1], events[n - 1]);
      if CurrentWithinSubnetCap(cfg, states[n - 1]) {
        CurrentSubnetCapExactly(cfg, states[n - 1], events[n - 1]);
      }
    }
  }
}
