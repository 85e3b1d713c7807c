/** The protected set, the preferred peers behind it, and the application scores that follow it. */
module ConnectionProtection {
  import opened Sequences
  import opened Addressing
  import opened SubnetLimiting
  import opened PeerStorage
  import opened Connections
  import opened ConnectionFrames
  import opened ConnectionTable
  import opened ConnectionLimits

  /** Protected are the bootstrap peers and the current preferred peers, no others, and these are few. */
  ghost predicate ProtectionMatches(cfg: Config, w: World) {
    && w.protected == cfg.bootstrap + w.dialHints.Keys
    && |w.dialHints| <= ProtectedCap(cfg)
  }

  /** Every connected peer is scored; a tracked peer has the bonus exactly while it is protected. */
  ghost predicate ScoresMatch(w: World) {
    && Peers(w.live) <= w.scores.Keys
    && forall p :: p in w.scores ==> w.scores[p] == if p in w.protected then 100 else 0
  }

  lemma {:induction false} HintKeys(preferred: Hints)
    ensures HintTable(preferred).Keys == Ids(preferred)
    ensures |Ids(preferred)| <= |preferred|
  {
    if preferred != [] {
      var n := |preferred| - 1;
      HintKeys(preferred[..n]);
      IdsOfLast(preferred);
    }
  }

  lemma IdsOfLast(preferred: Hints)
    requires preferred != []
    ensures Ids(preferred) == Ids(preferred[..|preferred| - 1]) + {preferred[|preferred| - 1].0}
  {
    var n := |preferred| - 1;
    assert forall i :: 0 <= i < n ==> preferred[..n][i] == preferred[i];
    forall p | p in Ids(preferred) ensures p in Ids(preferred[..n]) + {preferred[n].0} {
      var i :| 0 <= i <= n && preferred[i].0 == p;
      assert i < n ==> preferred[..n][i].0 == p;
    }
  }

  lemma {:induction false} HintOfDistinct(preferred: Hints, i: nat)
    requires i < |preferred| && forall j, k :: 0 <= j < k < |preferred| ==> preferred[j].0 != preferred[k].0
    ensures preferred[i].0 in HintTable(preferred) && HintTable(preferred)[preferred[i].0] == preferred[i].1
  {
    var n := |preferred| - 1;
    if i < n {
      HintOfDistinct(preferred[..n], i);
    }
  }

  lemma ShareOfHighWater(cfg: Config)
    requires Validated(cfg)
    ensures ProtectedCap(cfg) <= cfg.highWater
  {
    ScaledDown(cfg.highWater as real, cfg.maxProtectedShare);
    var product := cfg.highWater as real * cfg.maxProtectedShare;
    assert product.Floor as real <= product <= cfg.highWater as real;
  }

  /** The cap on preferred peers is the largest whole number within the configured share of `high_water`. */
  lemma CapIsShare(cfg: Config)
    ensures 0.0 <= cfg.highWater as real * cfg.maxProtectedShare ==>
              ProtectedCap(cfg) as real <= cfg.highWater as real * cfg.maxProtectedShare
    ensures (ProtectedCap(cfg) + 1) as real > cfg.highWater as real * cfg.maxProtectedShare
  {
    var product := cfg.highWater as real * cfg.maxProtectedShare;
    assert product.Floor as real <= product < product.Floor as real + 1.0;
  }

  /** In every run the preferred peers are within the configured share of `high_water`. */
  lemma ShareInEveryRun(cfg: Config, events: seq<Event>, states: seq<World>, i: nat)
    requires Validated(cfg) && Trace(cfg, events, states) && i < |states|
    ensures |states[i].dialHints| as real <= cfg.highWater as real * cfg.maxProtectedShare
  {
    hide Step, Enabled, ProtectedCap;
    ProtectionInEveryRun(cfg, events, states, i);
    CapIsShare(cfg);
    ScaledDown(cfg.highWater as real, cfg.maxProtectedShare);
  }

  /** A replacement accepts as many of the first entries as the share allows, and the hints are those. */
  lemma FirstEntriesAccepted(cfg: Config, w: World, preferred: Hints)
    requires Validated(cfg)
    ensures exists n: nat ::
              && n <= |preferred| && n as real <= cfg.highWater as real * cfg.maxProtectedShare
              && (n == |preferred| || (n + 1) as real > cfg.highWater as real * cfg.maxProtectedShare)
              && HandleSetPreferred(cfg, w, preferred).dialHints == HintTable(preferred[..n])
              && Reply(cfg, preferred) == (n % 0x1_0000_0000, (|preferred| - n) % 0x1_0000_0000)
  {
    hide ProtectedCap;
    CapIsShare(cfg);
    ScaledDown(cfg.highWater as real, cfg.maxProtectedShare);
    var n := |Accepted(cfg, preferred)|;
    assert Accepted(cfg, preferred) == preferred[..n];
  }

  lemma ScaledDown(a: real, share: real)
    requires a >= 0.0 && 0.0 <= share <= 1.0
    ensures 0.0 <= a * share <= a
  {
    assert a * (1.0 - share) >= 0.0;
    assert a * (1.0 - share) == a - a * share;
  }

  lemma ReplacementMatches(cfg: Config, w: World, preferred: Hints)
    requires ProtectionMatches(cfg, w)
    ensures ProtectionMatches(cfg, HandleSetPreferred(cfg, w, preferred))
  {
    var accepted := Accepted(cfg, preferred);
    HintKeys(accepted);
    assert |HintTable(accepted)| == |HintTable(accepted).Keys|;
    assert w.protected * cfg.bootstrap == cfg.bootstrap;
  }

  lemma ReplacementScores(cfg: Config, w: World, preferred: Hints)
    requires ProtectionMatches(cfg, w) && ScoresMatch(w)
    ensures ScoresMatch(HandleSetPreferred(cfg, w, preferred))
  {
  }

  /** The scores after a peer connects, which it starts at nothing if it is new. */
  function ScoresOnConnect(scores: map<PeerId, int>, peer: PeerId, bonus: bool): map<PeerId, int> {
    var tracked := if peer in scores then scores else scores[peer := 0];
    if bonus then Scored(tracked, peer, PREFERRED_PEER_APP_SCORE) else tracked
  }

  /** A newcomer gets the bonus at once if it is protected. */
  lemma ScoreOfConnected(scores: map<PeerId, int>, protected: set<PeerId>, peer: PeerId)
    requires forall p :: p in scores ==> scores[p] == if p in protected then 100 else 0
    ensures var after := ScoresOnConnect(scores, peer, peer in protected);
            && after.Keys == scores.Keys + {peer}
            && forall p :: p in after ==> after[p] == if p in protected then 100 else 0
  {
  }

  lemma ConnectedScores(cfg: Config, w: World, e: Event)
    requires ProtectionMatches(cfg, w) && e.Established?
    ensures Step(cfg, w, e).protected == w.protected
    ensures Step(cfg, w, e).scores == ScoresOnConnect(w.scores, e.peer, e.peer in w.protected)
  {
    hide Step, Resolved, Scored, Recorded, Counted;
    EstablishedFrame(cfg, w, e);
  }

  lemma AdmittedPeers(cfg: Config, w: World, e: Event)
    requires e.Established?
    ensures Peers(Step(cfg, w, e).live) == Peers(w.live) + {e.peer}
  {
    hide Step, Counted, Peers;
    EstablishedAdmits(cfg, w, e);
    SamePeers(Step(cfg, w, e).live, w.live + [Added(e)]);
    PeersWith(w.live, Added(e));
  }

  lemma EstablishedScores(cfg: Config, w: World, e: Event)
    requires ProtectionMatches(cfg, w) && ScoresMatch(w) && e.Established?
    ensures ScoresMatch(Step(cfg, w, e))
  {
    hide Step, Peers, ScoresOnConnect;
    ConnectedScores(cfg, w, e);
    AdmittedPeers(cfg, w, e);
    ScoreOfConnected(w.scores, w.protected, e.peer);
  }

  lemma ClosedScores(cfg: Config, w: World, e: Event)
    requires TableInvariant(w) && ScoresMatch(w) && e.Closed? && Enabled(w, e)
    ensures ScoresMatch(Step(cfg, w, e))
  {
    hide Step, Collect, Peers;
    ClosedFrame(cfg, w, e);
    ClosedDrops(cfg, w, e);
    var rest := Without(w.live, e.index);
    SamePeers(Step(cfg, w, e).live, rest);
    PeersWithout(w.live, e.index);
    OwnsNothing(rest, w.live[e.index].peer);
  }

  lemma QuietScores(cfg: Config, w: World, e: Event)
    requires ScoresMatch(w) && Enabled(w, e)
    requires !e.Established? && !e.Closed? && !e.SetPreferred?
    ensures ScoresMatch(Step(cfg, w, e))
  {
    QuietTable(cfg, w, e);
    QuietProtection(cfg, w, e);
    if e.DialCommand? {
      DialFrame(w, e.wanted, e.waiter, e.outcome);
    }
  }

  lemma StepKeepsProtection(cfg: Config, w: World, e: Event)
    requires Enabled(w, e) && TableInvariant(w) && ProtectionMatches(cfg, w) && ScoresMatch(w)
    ensures ProtectionMatches(cfg, Step(cfg, w, e)) && ScoresMatch(Step(cfg, w, e))
  {
    if e.SetPreferred? {
      ReplacementMatches(cfg, w, e.preferred);
      ReplacementScores(cfg, w, e.preferred);
    } else {
      QuietProtection(cfg, w, e);
      if e.Established? {
        EstablishedScores(cfg, w, e);
      } else if e.Closed? {
        ClosedScores(cfg, w, e);
      } else {
        QuietScores(cfg, w, e);
      }
    }
  }

  lemma InitiallyProtected(cfg: Config)
    ensures ProtectionMatches(cfg, Initial(cfg)) && ScoresMatch(Initial(cfg))
  {
  }

  /**
   In every run the protected set is the bootstrap peers and the preferred ones, a connected
   peer's score is the bonus if it is protected and nothing otherwise, and no peer the scorer
   remembers keeps a bonus it lost, be it demoted while connected or while away.
   */
  lemma {:induction false} ProtectionInEveryRun(cfg: Config, events: seq<Event>, states: seq<World>, i: nat)
    requires Trace(cfg, events, states) && i < |states|
    ensures ProtectionMatches(cfg, states[i]) && ScoresMatch(states[i])
  {
    hide Step, Enabled, Initial, ProtectionMatches, ScoresMatch;
    if i == 0 {
      InitiallyProtected(cfg);
    } else {
      ProtectionInEveryRun(cfg, events, states, i - 1);
      TableInEveryRun(cfg, events, states, i - 1);
      assert Enabled(states[i - 1], events[i - 1]);
      StepKeepsProtection(cfg, states[i - 1], events[i - 1]);
    }
  }

  lemma ProtectedAreFew(cfg: Config, w: World)
    requires Validated(cfg) && ProtectionMatches(cfg, w)
    ensures |w.protected| <= |cfg.bootstrap| + cfg.highWater
  {
    hide ProtectedCap;
    ShareOfHighWater(cfg);
    KeysCount(w.dialHints);
    UnionSize(cfg.bootstrap, w.dialHints.Keys);
  }

  lemma KeysCount(hints: map<PeerId, seq<Multiaddr>>)
    ensures |hints.Keys| == |hints|
  {
  }

  lemma UnionSize(a: set<PeerId>, b: set<PeerId>)
    ensures |a + b| <= |a| + |b|
  {
    assert a + b == a + (b - a);
    SubsetSize(b - a, b);
  }

  /** No run makes the loop ask for the close of a bootstrap peer's connection. */
  lemma BootstrapNeverEvicted(cfg: Config, events: seq<Event>, states: seq<World>, i: nat, peer: PeerId)
    requires Trace(cfg, events, states) && i < |states| && peer in cfg.bootstrap
    ensures Closing(states[i].live, peer) == {}
  {
    hide Step, Enabled;
    forall j | 0 <= j < i ensures peer in states[j].protected {
      ProtectionInEveryRun(cfg, events, states, j);
    }
    ProtectedNeverEvicted(cfg, events, states, 0, i, peer);
  }
}
