/** All that holds in every reachable state of the connection manager, in one place. */
module ConnectionGuarantees {
  import opened Connections
  import opened ConnectionTable
  import opened ConnectionLimits
  import opened ConnectionRequests
  import opened ConnectionProtection

  ghost predicate Guaranteed(cfg: Config, w: World) {
    && TableInvariant(w)
    && WithinHighWater(cfg, w) && WithinSubnetCap(cfg, w)
    && RequestInvariant(w)
    && ProtectionMatches(cfg, w) && ScoresMatch(w)
  }

  lemma {:induction false} TraceIsRun(cfg: Config, events: seq<Event>, states: seq<World>, i: nat)
    requires Trace(cfg, events, states) && i <= |events|
    ensures Legal(cfg, events[..i]) && states[i] == Run(cfg, events[..i])
  {
    hide Step, Enabled, Initial;
    if i > 0 {
      TraceIsRun(cfg, events, states, i - 1);
      assert events[..i][..i - 1] == events[..i - 1];
      assert Enabled(states[i - 1], events[i - 1]);
    }
  }

  lemma {:induction false} LegalSoFar(cfg: Config, events: seq<Event>, n: nat)
    requires Legal(cfg, events) && n < |events|
    ensures Enabled(Run(cfg, events[..n]), events[n])
    ensures Run(cfg, events[..n + 1]) == Step(cfg, Run(cfg, events[..n]), events[n])
  {
    hide Step, Enabled;
    var last := |events| - 1;
    assert events[..n + 1][..n] == events[..n];
    if n < last {
      LegalSoFar(cfg, events[..last], n);
      assert events[..last][..n] == events[..n];
    }
  }

  /** Every legal sequence of events has its trace. */
  lemma RunIsTrace(cfg: Config, events: seq<Event>)
    requires Legal(cfg, events)
    ensures Trace(cfg, events, seq(|events| + 1, i requires 0 <= i <= |events| => Run(cfg, events[..i])))
  {
    hide Step, Enabled, Legal;
    var states := seq(|events| + 1, i requires 0 <= i <= |events| => Run(cfg, events[..i]));
    forall i | 0 <= i < |events|
      ensures Enabled(states[i], events[i]) && states[i + 1] == Step(cfg, states[i], events[i])
    {
      LegalSoFar(cfg, events, i);
    }
  }

  /** Whatever the environment does, every state of every run has all the guarantees. */
  lemma EveryReachableState(cfg: Config, events: seq<Event>, states: seq<World>, i: nat)
    requires Trace(cfg, events, states) && i < |states|
    ensures Guaranteed(cfg, states[i])
  {
    hide Trace, TableInvariant, WithinHighWater, WithinSubnetCap, RequestInvariant, ProtectionMatches, ScoresMatch;
    TableInEveryRun(cfg, events, states, i);
    LimitsInEveryRun(cfg, events, states, i);
    RequestsInEveryRun(cfg, events, states, i);
    ProtectionInEveryRun(cfg, events, states, i);
  }
}
