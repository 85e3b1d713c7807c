/**
 The maintenance loop: which peers one tick dials, in which order and when. Shuffles are
 arbitrary permutations, dial outcomes are arbitrary, and the clock only never runs backwards.
 */
module Maintaining {
  import opened Sequences
  import opened Addressing
  import opened PeerStorage
  import opened DialBackoffs
  import Connections

  const DIAL_TIMEOUT: real := 10.0
  const BACKOFF_BASE: real := 1.0
  const BACKOFF_CAP: real := 300.0
  const PEERSTORE_MAX_AGE_SECS: nat := 7 * 24 * 3600
  const MAX_PREFERRED_DIALS_PER_TICK: nat := 16

  datatype Candidate = Candidate(peer: PeerId, addrs: seq<Multiaddr>)

  /**
   One dial of a tick: `at` is the candidate's place in the tick's order; the environment would
   answer after `took`, and whether the peer was reached; `ok` is what the loop makes of it.
   */
  datatype Dial = Dial(
    at: nat, peer: PeerId, addrs: seq<Multiaddr>, readyAt: real, took: real, reached: bool,
    ok: bool, doneAt: real, random: real)

  /** A dial that is not answered within ten seconds is given up. */
  predicate TimedOut(d: Dial) {
    && (d.ok <==> d.reached && d.took <= 10.0)
    && d.doneAt == d.readyAt + (if d.took <= 10.0 then d.took else 10.0)
  }

  /** What a tick looked at and did: bootstrap, then preferred, then refill candidates, and the dials. */
  datatype Report = Report(
    stored: seq<(PeerId, Multiaddr)>,
    bootstrap: seq<Candidate>,
    preferred: seq<Candidate>,
    refill: seq<Candidate>,
    dials: seq<Dial>)
  {
    function Order(): seq<Candidate> {
      bootstrap + preferred + refill
    }
  }

  // ---- Candidates ----

  function Splittable(): Multiaddr -> seq<(PeerId, Multiaddr)> {
    (a: Multiaddr) => match SplitPeer(a) case None => [] case Some(split) => [split]
  }

  function Dialable(): Multiaddr -> seq<Multiaddr> {
    (a: Multiaddr) => if Undialable(a) then [] else [a]
  }

  /** A preferred peer is a candidate if it is not connected and has an address worth dialing. */
  function PreferredCandidate(connected: set<PeerId>): ((PeerId, seq<Multiaddr>)) -> seq<Candidate> {
    (hint: (PeerId, seq<Multiaddr>)) =>
      var dialable := Collect(hint.1, Dialable());
      if hint.0 in connected || dialable == [] then [] else [Candidate(hint.0, dialable)]
  }

  function RefillCandidate(connected: set<PeerId>): ((PeerId, Multiaddr)) -> seq<Candidate> {
    (known: (PeerId, Multiaddr)) =>
      if known.0 in connected || Undialable(known.1) then [] else [Candidate(known.0, [known.1])]
  }

  predicate Isolated(bootstrap: seq<(PeerId, Multiaddr)>, connected: set<PeerId>) {
    forall i :: 0 <= i < |bootstrap| ==> bootstrap[i].0 !in connected
  }

  function BootstrapCandidates(bootstrap: seq<(PeerId, Multiaddr)>, connected: set<PeerId>): seq<Candidate> {
    if Isolated(bootstrap, connected)
    then Map(bootstrap, (b: (PeerId, Multiaddr)) => Candidate(b.0, [b.1]))
    else []
  }

  function RefillBudget(lowWater: nat, connected: set<PeerId>): nat {
    (if lowWater > |connected| then lowWater - |connected| else 0) + 2
  }

  /** `chosen` is a random selection of at most `limit` elements of `all`. */
  ghost predicate Picked(chosen: seq<Candidate>, all: seq<Candidate>, limit: nat) {
    |chosen| == Min(limit, |all|) && multiset(chosen) <= multiset(all)
  }

  ghost predicate Planned(bootstrap: seq<(PeerId, Multiaddr)>, lowWater: nat, snapshot: Connections.Snapshot,
                          r: Report) {
    && r.bootstrap == BootstrapCandidates(bootstrap, snapshot.connected)
    && Picked(r.preferred, Collect(snapshot.preferred, PreferredCandidate(snapshot.connected)),
              MAX_PREFERRED_DIALS_PER_TICK)
    && if |snapshot.connected| < lowWater
       then Picked(r.refill, Collect(r.stored, RefillCandidate(snapshot.connected)),
                   RefillBudget(lowWater, snapshot.connected))
       else r.refill == []
  }

  // ---- The dial loop ----

  function DialOp(d: Dial): Op {
    if d.ok then Success(d.peer) else Failure(d.peer, d.readyAt, d.doneAt, d.random)
  }

  function DialOps(dials: seq<Dial>): seq<Op> {
    Map(dials, (d: Dial) => DialOp(d))
  }

  function AfterDials(limits: Limits, table: Table, dials: seq<Dial>): Table {
    if dials == [] then table
    else Apply(limits, AfterDials(limits, table, dials[..|dials| - 1]), DialOp(dials[|dials| - 1]))
  }

  /** The dial is of the candidate at its place, at a time when the peer was ready by the given table. */
  predicate Proper(order: seq<Candidate>, table: Table, start: real, d: Dial) {
    && d.at < |order|
    && order[d.at] == Candidate(d.peer, d.addrs)
    && start <= d.readyAt <= d.doneAt && TimedOut(d)
    && 0.0 <= d.random < 1.0
    && IsReady(table, d.peer, d.readyAt)
  }

  /** One dial at a time, in the order of candidates. */
  predicate Sequential(dials: seq<Dial>) {
    forall i, j :: 0 <= i < j < |dials| ==> dials[i].at < dials[j].at && dials[i].doneAt <= dials[j].readyAt
  }

  predicate InTurn(order: seq<Candidate>, table: Table, start: real, dials: seq<Dial>) {
    (forall i :: 0 <= i < |dials| ==> Proper(order, table, start, dials[i])) && Sequential(dials)
  }

  /** No peer is dialed twice, and none that is connected. */
  predicate EachOnce(connected: set<PeerId>, dials: seq<Dial>) {
    && (forall i :: 0 <= i < |dials| ==> dials[i].peer !in connected)
    && (forall i, j :: 0 <= i < j < |dials| ==> dials[i].peer != dials[j].peer)
  }

  predicate IsDialed(dials: seq<Dial>, peer: PeerId, upTo: int) {
    exists i :: 0 <= i < |dials| && dials[i].peer == peer && dials[i].at <= upTo
  }

  /** Whoever among the first `n` candidates is unconnected and ready at the start is dialed, at its first place. */
  ghost predicate NoneForgotten(order: seq<Candidate>, connected: set<PeerId>, table: Table, start: real,
                                dials: seq<Dial>, n: nat)
    requires n <= |order|
  {
    forall k :: 0 <= k < n && order[k].peer !in connected && IsReady(table, order[k].peer, start)
      ==> IsDialed(dials, order[k].peer, k)
  }

  /** Recording one peer's outcome does not touch another's entry. */
  lemma {:induction false} OthersUntouched(limits: Limits, table: Table, dials: seq<Dial>, peer: PeerId)
    requires forall i :: 0 <= i < |dials| ==> dials[i].peer != peer
    ensures peer in AfterDials(limits, table, dials) <==> peer in table
    ensures peer in table ==> AfterDials(limits, table, dials)[peer] == table[peer]
  {
    if dials != [] {
      OthersUntouched(limits, table, dials[..|dials| - 1], peer);
    }
  }

  method Shuffle(all: seq<Candidate>) returns (shuffled: seq<Candidate>)
    ensures |shuffled| == |all| && multiset(shuffled) == multiset(all)
  {
    shuffled := all;
    var i := |all|;
    while i > 1
      invariant |shuffled| == |all| && multiset(shuffled) == multiset(all)
      decreases i
    {
      i := i - 1;
      var j :| 0 <= j <= i < |shuffled|;
      shuffled := shuffled[i := shuffled[j]][j := shuffled[i]];
    }
  }

  /** Shuffles and truncates. */
  method Pick(all: seq<Candidate>, limit: nat) returns (chosen: seq<Candidate>)
    ensures Picked(chosen, all, limit)
  {
    var shuffled := Shuffle(all);
    chosen := shuffled[..Min(limit, |all|)];
    assert shuffled == chosen + shuffled[Min(limit, |all|)..];
    assert multiset(shuffled) == multiset(chosen) + multiset(shuffled[Min(limit, |all|)..]);
  }

  method Now(clock: real) returns (t: real)
    ensures t >= clock
  {
    t := *;
    if t < clock {
      t := clock;
    }
  }

  method Random() returns (r: real)
    ensures 0.0 <= r < 1.0
  {
    r := *;
    if r < 0.0 || r >= 1.0 {
      r := 0.0;
    }
  }

  /** Dials one ready peer, waits no longer than the timeout, and records how it went. */
  method DialOne(backoff: DialBackoff, at: nat, c: Candidate, readyAt: real) returns (d: Dial)
    modifies backoff
    ensures d.at == at && d.peer == c.peer && d.addrs == c.addrs
    ensures d.readyAt == readyAt <= d.doneAt && TimedOut(d)
    ensures 0.0 <= d.random < 1.0
    ensures backoff.state == Apply(backoff.limits, old(backoff.state), DialOp(d))
  {
    var reached: bool := *;
    var took := Now(0.0);
    var timely := took <= DIAL_TIMEOUT;
    var ok, doneAt := timely && reached, readyAt + (if timely then took else DIAL_TIMEOUT);
    var random := Random();
    if ok {
      backoff.RecordSuccess(c.peer);
    } else {
      backoff.RecordFailure(c.peer, doneAt, random);
    }
    d := Dial(at, c.peer, c.addrs, readyAt, took, reached, ok, doneAt, random);
  }

  function DialedPeers(dials: seq<Dial>): set<PeerId> {
    set i | 0 <= i < |dials| :: dials[i].peer
  }

  /** What is known of the dials after the first `k` candidates, at time `clock`. */
  ghost predicate LogKept(order: seq<Candidate>, connected: set<PeerId>, table: Table, start: real,
                          dials: seq<Dial>, k: nat, clock: real)
    requires k <= |order|
  {
    && start <= clock
    && (forall i :: 0 <= i < |dials| ==> dials[i].at < k && dials[i].doneAt <= clock)
    && InTurn(order, table, start, dials)
    && EachOnce(connected, dials)
    && NoneForgotten(order, connected, table, start, dials, k)
  }

  method DialAll(backoff: DialBackoff, order: seq<Candidate>, connected: set<PeerId>, start: real)
    returns (dials: seq<Dial>, clock: real)
    modifies backoff
    ensures backoff.state == AfterDials(backoff.limits, old(backoff.state), dials)
    ensures LogKept(order, connected, old(backoff.state), start, dials, |order|, clock)
    ensures Outcomes(backoff.limits, old(backoff.state), dials, backoff.state)
  {
    hide Failed;
    ghost var table := backoff.state;
    dials := [];
    var attempted: set<PeerId> := {};
    clock := start;
    for k := 0 to |order|
      invariant attempted == DialedPeers(dials)
      invariant backoff.state == AfterDials(backoff.limits, table, dials)
      invariant LogKept(order, connected, table, start, dials, k, clock)
    {
      var c := order[k];
      if c.peer in connected || c.peer in attempted {
        PassedOver(order, connected, table, start, dials, k, clock, clock);
        continue;
      }
      var now := Now(clock);
      var ready := backoff.Ready(c.peer, now);
      SameReadiness(backoff.limits, table, dials, c.peer, now);
      if !ready {
        PassedOver(order, connected, table, start, dials, k, clock, now);
        clock := now;
        continue;
      }
      attempted := attempted + {c.peer};
      var d := DialOne(backoff, k, c, now);
      LogGrows(order, connected, table, start, dials, d, k, clock);
      AfterOneMore(backoff.limits, table, dials, d);
      dials, clock := dials + [d], d.doneAt;
    }
    OutcomesKept(backoff.limits, table, dials);
  }

  /**
   What a dial leaves in the table: nothing of a peer that was reached, one more failure and
   the wait for it of a peer that was not.
   */
  ghost predicate Outcome(limits: Limits, before: Table, d: Dial, after: Table) {
    if d.ok then d.peer !in after
    else
      && d.peer in after
      && after[d.peer].failures == (Failures(before, d.peer) + 1) % 0x1_0000_0000
      && after[d.peer].nextAttempt == d.doneAt + Delay(limits, after[d.peer].failures) * (0.5 + d.random)
  }

  ghost predicate Outcomes(limits: Limits, before: Table, dials: seq<Dial>, after: Table) {
    && (forall i :: 0 <= i < |dials| ==> Outcome(limits, before, dials[i], after))
    && (forall p :: p !in DialedPeers(dials) ==>
          (p in after <==> p in before) && (p in after ==> after[p] == before[p]))
  }

  lemma {:induction false} OutcomeKept(limits: Limits, table: Table, dials: seq<Dial>, i: nat)
    requires i < |dials| && forall j, k :: 0 <= j < k < |dials| ==> dials[j].peer != dials[k].peer
    ensures Outcome(limits, table, dials[i], AfterDials(limits, table, dials))
  {
    hide Delay;
    var n := |dials| - 1;
    if i == n {
      OthersUntouched(limits, table, dials[..n], dials[n].peer);
    } else {
      OutcomeKept(limits, table, dials[..n], i);
    }
  }

  lemma OutcomesKept(limits: Limits, table: Table, dials: seq<Dial>)
    requires forall i, j :: 0 <= i < j < |dials| ==> dials[i].peer != dials[j].peer
    ensures Outcomes(limits, table, dials, AfterDials(limits, table, dials))
  {
    hide Outcome, AfterDials;
    forall i | 0 <= i < |dials| ensures Outcome(limits, table, dials[i], AfterDials(limits, table, dials)) {
      OutcomeKept(limits, table, dials, i);
    }
    forall p | p !in DialedPeers(dials)
      ensures p in AfterDials(limits, table, dials) <==> p in table
      ensures p in table ==> AfterDials(limits, table, dials)[p] == table[p]
    {
      OthersUntouched(limits, table, dials, p);
    }
  }

  /** A peer that was not dialed is as ready as it was. */
  lemma SameReadiness(limits: Limits, table: Table, dials: seq<Dial>, peer: PeerId, now: real)
    requires peer !in DialedPeers(dials)
    ensures IsReady(AfterDials(limits, table, dials), peer, now) <==> IsReady(table, peer, now)
  {
    OthersUntouched(limits, table, dials, peer);
  }

  lemma LogGrows(order: seq<Candidate>, connected: set<PeerId>, table: Table, start: real,
                 dials: seq<Dial>, d: Dial, k: nat, clock: real)
    requires k < |order| && LogKept(order, connected, table, start, dials, k, clock)
    requires d.at == k && order[k] == Candidate(d.peer, d.addrs)
    requires clock <= d.readyAt <= d.doneAt && TimedOut(d) && 0.0 <= d.random < 1.0
    requires d.peer !in connected && d.peer !in DialedPeers(dials)
    requires IsReady(table, d.peer, d.readyAt)
    ensures LogKept(order, connected, table, start, dials + [d], k + 1, d.doneAt)
    ensures DialedPeers(dials + [d]) == DialedPeers(dials) + {d.peer}
  {
    Appended(order, table, start, dials, d);
    StillDialed(order, connected, table, start, dials, d, k);
    AppendedOnce(connected, dials, d);
    forall i | 0 <= i < |dials + [d]| ensures (dials + [d])[i].at < k + 1 && (dials + [d])[i].doneAt <= d.doneAt {
      assert i < |dials| ==> dials[i].doneAt <= clock;
    }
  }

  lemma AfterOneMore(limits: Limits, table: Table, dials: seq<Dial>, d: Dial)
    ensures AfterDials(limits, table, dials + [d]) == Apply(limits, AfterDials(limits, table, dials), DialOp(d))
  {
    hide Failed;
    assert (dials + [d])[..|dials|] == dials;
  }

  lemma Appended(order: seq<Candidate>, table: Table, start: real, dials: seq<Dial>, d: Dial)
    requires InTurn(order, table, start, dials) && Proper(order, table, start, d)
    requires forall i :: 0 <= i < |dials| ==> dials[i].at < d.at && dials[i].doneAt <= d.readyAt
    ensures InTurn(order, table, start, dials + [d])
  {
  }

  lemma AppendedOnce(connected: set<PeerId>, dials: seq<Dial>, d: Dial)
    requires EachOnce(connected, dials) && d.peer !in connected && d.peer !in DialedPeers(dials)
    ensures EachOnce(connected, dials + [d])
    ensures DialedPeers(dials + [d]) == DialedPeers(dials) + {d.peer}
  {
    var grown := dials + [d];
    assert grown[|dials|] == d;
    assert forall i :: 0 <= i < |dials| ==> grown[i] == dials[i] && dials[i].peer in DialedPeers(dials);
  }

  /** A candidate that is connected, dialed already or not ready needs no dial of its own. */
  lemma PassedOver(order: seq<Candidate>, connected: set<PeerId>, table: Table, start: real,
                   dials: seq<Dial>, k: nat, clock: real, now: real)
    requires k < |order| && LogKept(order, connected, table, start, dials, k, clock) && clock <= now
    requires || order[k].peer in connected
             || order[k].peer in DialedPeers(dials)
             || !IsReady(table, order[k].peer, now)
    ensures LogKept(order, connected, table, start, dials, k + 1, now)
  {
  }

  lemma StillDialed(order: seq<Candidate>, connected: set<PeerId>, table: Table, start: real,
                    dials: seq<Dial>, d: Dial, k: nat)
    requires k < |order| && NoneForgotten(order, connected, table, start, dials, k)
    requires d.peer == order[k].peer && d.at == k
    ensures NoneForgotten(order, connected, table, start, dials + [d], k + 1)
  {
    var grown := dials + [d];
    forall j | 0 <= j < k + 1 && order[j].peer !in connected && IsReady(table, order[j].peer, start)
      ensures IsDialed(grown, order[j].peer, j)
    {
      if j < k {
        assert IsDialed(dials, order[j].peer, j);
        var i :| 0 <= i < |dials| && dials[i].peer == order[j].peer && dials[i].at <= j;
        assert grown[i] == dials[i];
      } else {
        assert grown[|dials|] == d;
      }
    }
  }

  // ---- The loop and its ticks ----

  /** The dials of one tick, judged by the backoff table it started from. */
  ghost predicate WellDialed(connected: set<PeerId>, table: Table, start: real, r: Report) {
    exists clock :: LogKept(r.Order(), connected, table, start, r.dials, |r.Order()|, clock)
  }

  class Maintenance {
    const bootstrap: seq<(PeerId, Multiaddr)>
    const lowWater: nat
    const backoff: DialBackoff
    /** Everything that ever happened to the backoff table. */
    ghost var ops: seq<Op>

    ghost predicate Valid()
      reads this, backoff
    {
      && backoff.limits == Limits(1.0, 300.0)
      && backoff.state == History(backoff.limits, ops)
      && Disciplined(backoff.limits, ops)
    }

    constructor (bootstrapMultiaddrs: seq<Multiaddr>, lowWater: nat)
      ensures Valid() && ops == [] && fresh(backoff)
      ensures this.lowWater == lowWater
      ensures bootstrap == Collect(bootstrapMultiaddrs, Splittable())
      ensures forall p, a :: (p, a) in bootstrap <==> a + [P2p(p)] in bootstrapMultiaddrs
    {
      var peers := BootstrapPeers(bootstrapMultiaddrs);
      forall p, a ensures (p, a) in peers <==> a + [P2p(p)] in bootstrapMultiaddrs {
        SplitOff(bootstrapMultiaddrs, p, a);
      }
      bootstrap := peers;
      this.lowWater := lowWater;
      backoff := new DialBackoff(BACKOFF_BASE, BACKOFF_CAP);
      ops := [];
    }

    method BuildCandidates(snapshot: Connections.Snapshot, stored: seq<(PeerId, Multiaddr)>) returns (r: Report)
      ensures Planned(bootstrap, lowWater, snapshot, r) && r.dials == [] && r.stored == stored
    {
      var priority := [];
      var bootstrapConnected := exists i :: 0 <= i < |bootstrap| && bootstrap[i].0 in snapshot.connected;
      if !bootstrapConnected {
        priority := Map(bootstrap, (b: (PeerId, Multiaddr)) => Candidate(b.0, [b.1]));
      }
      var preferred := PreferredCandidates(snapshot);
      preferred := Pick(preferred, MAX_PREFERRED_DIALS_PER_TICK);
      var refill := [];
      if |snapshot.connected| < lowWater {
        refill := RefillCandidates(stored, snapshot.connected);
        refill := Pick(refill, RefillBudget(lowWater, snapshot.connected));
      }
      r := Report(stored, priority, preferred, refill, []);
    }

    /** One turn of the loop from the snapshot on; without a snapshot only the pruning happens. */
    method Tick(prunedAt: real, snapshot: Option<Connections.Snapshot>, start: real,
                peerstore: PeerStore, nowUnix: nat) returns (r: Report, end: real)
      requires Valid()
      modifies this, backoff
      ensures Valid()
      ensures ops == (old(ops) + [Prune(prunedAt)]) + DialOps(r.dials)
      ensures start <= end && forall i :: 0 <= i < |r.dials| ==> r.dials[i].doneAt <= end
      ensures snapshot.None? ==> r.dials == []
      ensures Outcomes(backoff.limits, Pruned(backoff.limits, old(backoff.state), prunedAt), r.dials, backoff.state)
      ensures snapshot.Some? ==>
                && Planned(bootstrap, lowWater, snapshot.value, r)
                && WellDialed(snapshot.value.connected, Pruned(backoff.limits, old(backoff.state), prunedAt), start, r)
      ensures snapshot.Some? && |snapshot.value.connected| < lowWater ==>
                forall p, a :: (p, a) in r.stored <==>
                  IsCandidate(peerstore.peers, 604800, nowUnix, p, a)
    {
      hide History, Disciplined, Pruned, AfterDials, Failed, IsReady, IsCandidate;
      hide InTurn, EachOnce, NoneForgotten, BootstrapCandidates, Picked, Collect, Outcomes;
      backoff.Prune(prunedAt);
      HistorySnoc(backoff.limits, ops, Prune(prunedAt));
      ops := ops + [Prune(prunedAt)];
      if snapshot.None? {
        r, end := Report([], [], [], [], []), start;
        OutcomesKept(backoff.limits, backoff.state, []);
        NoDials(backoff.limits, backoff.state);
        assert ops + DialOps(r.dials) == ops;
        return;
      }
      var stored := [];
      if |snapshot.value.connected| < lowWater {
        stored := peerstore.DialCandidates(PEERSTORE_MAX_AGE_SECS, nowUnix);
      }
      r := BuildCandidates(snapshot.value, stored);
      ghost var order := r.Order();
      var dials;
      dials, end := DialAll(backoff, r.Order(), snapshot.value.connected, start);
      HistoryOfDials(backoff.limits, ops, order, snapshot.value.connected, start, dials);
      r := r.(dials := dials);
      ops := ops + DialOps(dials);
      assert LogKept(r.Order(), snapshot.value.connected, Pruned(backoff.limits, old(backoff.state), prunedAt), start,
                     r.dials, |r.Order()|, end);
    }
  }

  /** The bootstrap peers are those whose addresses name them at the end, to be dialed at what comes before. */
  lemma SplitOff(multiaddrs: seq<Multiaddr>, p: PeerId, a: Multiaddr)
    ensures (p, a) in Collect(multiaddrs, Splittable()) <==> a + [P2p(p)] in multiaddrs
  {
    CollectMember(multiaddrs, Splittable(), (p, a));
    forall i | 0 <= i < |multiaddrs|
      ensures (p, a) in Splittable()(multiaddrs[i]) <==> multiaddrs[i] == a + [P2p(p)]
    {
      SplitInvertsAppend(multiaddrs[i], p, a);
    }
  }

  method BootstrapPeers(multiaddrs: seq<Multiaddr>) returns (peers: seq<(PeerId, Multiaddr)>)
    ensures peers == Collect(multiaddrs, Splittable())
  {
    peers := [];
    for i := 0 to |multiaddrs|
      invariant peers == Collect(multiaddrs[..i], Splittable())
    {
      assert multiaddrs[..i + 1] == multiaddrs[..i] + [multiaddrs[i]];
      CollectSnoc(multiaddrs[..i], multiaddrs[i], Splittable());
      var split := SplitPeer(multiaddrs[i]);
      if split.Some? {
        peers := peers + [split.value];
      }
    }
    assert multiaddrs[..|multiaddrs|] == multiaddrs;
  }

  method DialableAddrs(addrs: seq<Multiaddr>) returns (dialable: seq<Multiaddr>)
    ensures dialable == Collect(addrs, Dialable())
  {
    dialable := [];
    for i := 0 to |addrs|
      invariant dialable == Collect(addrs[..i], Dialable())
    {
      assert addrs[..i + 1] == addrs[..i] + [addrs[i]];
      CollectSnoc(addrs[..i], addrs[i], Dialable());
      if !Undialable(addrs[i]) {
        dialable := dialable + [addrs[i]];
      }
    }
    assert addrs[..|addrs|] == addrs;
  }

  method PreferredCandidates(snapshot: Connections.Snapshot) returns (candidates: seq<Candidate>)
    ensures candidates == Collect(snapshot.preferred, PreferredCandidate(snapshot.connected))
  {
    candidates := [];
    var hints := snapshot.preferred;
    for i := 0 to |hints|
      invariant candidates == Collect(hints[..i], PreferredCandidate(snapshot.connected))
    {
      assert hints[..i + 1] == hints[..i] + [hints[i]];
      CollectSnoc(hints[..i], hints[i], PreferredCandidate(snapshot.connected));
      if hints[i].0 in snapshot.connected {
        continue;
      }
      var dialable := DialableAddrs(hints[i].1);
      if dialable != [] {
        candidates := candidates + [Candidate(hints[i].0, dialable)];
      }
    }
    assert hints[..|hints|] == hints;
  }

  method RefillCandidates(stored: seq<(PeerId, Multiaddr)>, connected: set<PeerId>) returns (candidates: seq<Candidate>)
    ensures candidates == Collect(stored, RefillCandidate(connected))
  {
    candidates := [];
    for i := 0 to |stored|
      invariant candidates == Collect(stored[..i], RefillCandidate(connected))
    {
      assert stored[..i + 1] == stored[..i] + [stored[i]];
      CollectSnoc(stored[..i], stored[i], RefillCandidate(connected));
      if stored[i].0 !in connected && !Undialable(stored[i].1) {
        candidates := candidates + [Candidate(stored[i].0, [stored[i].1])];
      }
    }
    assert stored[..|stored|] == stored;
  }

  lemma NoDials(limits: Limits, table: Table)
    ensures AfterDials(limits, table, []) == table
  {
  }

  // ---- Ticks as part of the backoff's history ----

  /** One more dial of a ready peer keeps a disciplined history disciplined. */
  lemma HistoryOfOneMore(limits: Limits, ops: seq<Op>, earlier: seq<Op>, d: Dial)
    requires Disciplined(limits, ops + earlier) && 0.0 <= d.random < 1.0 && d.readyAt <= d.doneAt
    requires IsReady(History(limits, ops + earlier), d.peer, d.readyAt)
    ensures History(limits, ops + (earlier + [DialOp(d)])) == Apply(limits, History(limits, ops + earlier), DialOp(d))
    ensures Disciplined(limits, ops + (earlier + [DialOp(d)]))
  {
    hide Failed;
    assert ops + (earlier + [DialOp(d)]) == (ops + earlier) + [DialOp(d)];
    HistorySnoc(limits, ops + earlier, DialOp(d));
  }

  /** Each dial of a tick was begun when its peer was ready, as the table stood at that moment. */
  lemma ReadyWhenDialed(limits: Limits, order: seq<Candidate>, connected: set<PeerId>, table: Table, start: real,
                        dials: seq<Dial>, n: nat)
    requires InTurn(order, table, start, dials) && EachOnce(connected, dials) && n < |dials|
    ensures IsReady(AfterDials(limits, table, dials[..n]), dials[n].peer, dials[n].readyAt)
  {
    assert Proper(order, table, start, dials[n]);
    SameReadiness(limits, table, dials[..n], dials[n].peer, dials[n].readyAt);
  }

  lemma {:induction false} HistoryOfDials(limits: Limits, ops: seq<Op>, order: seq<Candidate>, connected: set<PeerId>,
                                          start: real, dials: seq<Dial>)
    requires Disciplined(limits, ops)
    requires InTurn(order, History(limits, ops), start, dials) && EachOnce(connected, dials)
    ensures History(limits, ops + DialOps(dials)) == AfterDials(limits, History(limits, ops), dials)
    ensures Disciplined(limits, ops + DialOps(dials))
  {
    hide Failed, Apply, IsReady, History, Disciplined;
    if dials == [] {
      assert ops + DialOps(dials) == ops;
    } else {
      var n, table := |dials| - 1, History(limits, ops);
      var earlier, d := DialOps(dials[..n]), dials[n];
      assert Proper(order, table, start, d);
      ReadyWhenDialed(limits, order, connected, table, start, dials, n);
      HistoryOfDials(limits, ops, order, connected, start, dials[..n]);
      HistoryOfOneMore(limits, ops, earlier, d);
      assert DialOps(dials) == earlier + [DialOp(d)];
    }
  }

  // ---- What a tick plans ----

  /** The bootstrap entries in order, each with its own address, if none of their peers is connected. */
  lemma PlanOfBootstrap(bootstrap: seq<(PeerId, Multiaddr)>, lowWater: nat, snapshot: Connections.Snapshot, r: Report)
    requires Planned(bootstrap, lowWater, snapshot, r)
    ensures if forall i :: 0 <= i < |bootstrap| ==> bootstrap[i].0 !in snapshot.connected then
              && |r.bootstrap| == |bootstrap|
              && forall i :: 0 <= i < |bootstrap| ==> r.bootstrap[i] == Candidate(bootstrap[i].0, [bootstrap[i].1])
            else
              r.bootstrap == []
  {
    hide Picked, Collect;
  }

  /** The hints of peers that are not connected and have an address worth dialing. */
  function MissingHints(snapshot: Connections.Snapshot): seq<PeerId> {
    Collect(snapshot.preferred, MissingHint(snapshot.connected))
  }

  function MissingHint(connected: set<PeerId>): ((PeerId, seq<Multiaddr>)) -> seq<PeerId> {
    (hint: (PeerId, seq<Multiaddr>)) =>
      if hint.0 !in connected && exists a :: a in hint.1 && !Undialable(a) then [hint.0] else []
  }

  /** The stored pairs of peers that are not connected, with an address worth dialing. */
  function KnownPairs(stored: seq<(PeerId, Multiaddr)>, connected: set<PeerId>): seq<(PeerId, Multiaddr)> {
    Collect(stored, KnownPair(connected))
  }

  function KnownPair(connected: set<PeerId>): ((PeerId, Multiaddr)) -> seq<(PeerId, Multiaddr)> {
    (known: (PeerId, Multiaddr)) => if known.0 !in connected && !Undialable(known.1) then [known] else []
  }

  lemma WorthDialing(addrs: seq<Multiaddr>, a: Multiaddr)
    ensures a in Collect(addrs, Dialable()) <==> a in addrs && !Undialable(a)
    ensures Collect(addrs, Dialable()) == [] <==> forall b :: b in addrs ==> Undialable(b)
    ensures (forall b :: b in addrs ==> !Undialable(b)) ==> Collect(addrs, Dialable()) == addrs
  {
    hide Undialable;
    CollectMember(addrs, Dialable(), a);
    if forall b :: b in addrs ==> Undialable(b) {
      CollectNothing(addrs, Dialable());
    }
    if b :| b in addrs && !Undialable(b) {
      CollectMember(addrs, Dialable(), b);
      assert b in Dialable()(b);
    }
    if forall b :: b in addrs ==> !Undialable(b) {
      CollectEverything(addrs, Dialable(), addrs);
    }
  }

  lemma MissingCount(snapshot: Connections.Snapshot)
    ensures |Collect(snapshot.preferred, PreferredCandidate(snapshot.connected))| == |MissingHints(snapshot)|
  {
    hide Undialable;
    var f := MissingHint(snapshot.connected);
    forall i | 0 <= i < |snapshot.preferred|
      ensures |f(snapshot.preferred[i])| == |PreferredCandidate(snapshot.connected)(snapshot.preferred[i])|
    {
      WorthDialing(snapshot.preferred[i].1, []);
    }
    CollectShrinks(snapshot.preferred, f, snapshot.preferred, PreferredCandidate(snapshot.connected));
    CollectShrinks(snapshot.preferred, PreferredCandidate(snapshot.connected), snapshot.preferred, f);
  }

  lemma KnownCount(stored: seq<(PeerId, Multiaddr)>, connected: set<PeerId>)
    ensures |Collect(stored, RefillCandidate(connected))| == |KnownPairs(stored, connected)|
  {
    hide Undialable;
    var f := KnownPair(connected);
    CollectShrinks(stored, f, stored, RefillCandidate(connected));
    CollectShrinks(stored, RefillCandidate(connected), stored, f);
  }

  lemma CandidateIsHint(snapshot: Connections.Snapshot, c: Candidate)
    requires c in Collect(snapshot.preferred, PreferredCandidate(snapshot.connected))
    ensures exists hint :: hint in snapshot.preferred && hint.0 == c.peer && c.peer !in snapshot.connected
                        && c.addrs == Collect(hint.1, Dialable())
  {
    hide Dialable;
    CollectMember(snapshot.preferred, PreferredCandidate(snapshot.connected), c);
    var i :| 0 <= i < |snapshot.preferred| && c in PreferredCandidate(snapshot.connected)(snapshot.preferred[i]);
    assert snapshot.preferred[i] in snapshot.preferred;
  }

  /** As many of the missing preferred peers as fit 16, each with all of its addresses that are worth dialing. */
  lemma PlanOfPreferred(bootstrap: seq<(PeerId, Multiaddr)>, lowWater: nat, snapshot: Connections.Snapshot, r: Report,
                        c: Candidate)
    requires Planned(bootstrap, lowWater, snapshot, r)
    ensures |r.preferred| == if |MissingHints(snapshot)| < 16 then |MissingHints(snapshot)| else 16
    ensures c in r.preferred ==>
              exists hint :: hint in snapshot.preferred && hint.0 == c.peer && c.peer !in snapshot.connected
                          && (forall a :: a in c.addrs <==> a in hint.1 && !Undialable(a))
                          && ((forall a :: a in hint.1 ==> !Undialable(a)) ==> c.addrs == hint.1)
  {
    hide Undialable, Collect, MissingHints;
    MissingCount(snapshot);
    if c in r.preferred {
      PickedIsElement(r.preferred, Collect(snapshot.preferred, PreferredCandidate(snapshot.connected)),
                      MAX_PREFERRED_DIALS_PER_TICK, c);
      CandidateIsHint(snapshot, c);
      var hint :| hint in snapshot.preferred && hint.0 == c.peer && c.peer !in snapshot.connected
               && c.addrs == Collect(hint.1, Dialable());
      forall a ensures a in c.addrs <==> a in hint.1 && !Undialable(a) {
        WorthDialing(hint.1, a);
      }
      WorthDialing(hint.1, []);
    }
  }

  /** Below low water, as many known pairs as peers are missing and two more; none otherwise. */
  lemma PlanOfRefill(bootstrap: seq<(PeerId, Multiaddr)>, lowWater: nat, snapshot: Connections.Snapshot, r: Report,
                     c: Candidate)
    requires Planned(bootstrap, lowWater, snapshot, r)
    ensures var known := |KnownPairs(r.stored, snapshot.connected)|;
            |r.refill| == if |snapshot.connected| >= lowWater then 0
                          else if known < lowWater - |snapshot.connected| + 2 then known
                          else lowWater - |snapshot.connected| + 2
    ensures c in r.refill ==>
              exists known :: known in r.stored && known.0 !in snapshot.connected && !Undialable(known.1)
                           && c == Candidate(known.0, [known.1])
  {
    hide Undialable;
    var all := Collect(r.stored, RefillCandidate(snapshot.connected));
    KnownCount(r.stored, snapshot.connected);
    if c in r.refill {
      PickedIsElement(r.refill, all, RefillBudget(lowWater, snapshot.connected), c);
      CollectMember(r.stored, RefillCandidate(snapshot.connected), c);
      var i :| 0 <= i < |r.stored| && c in RefillCandidate(snapshot.connected)(r.stored[i]);
      assert r.stored[i] in r.stored;
    }
  }

  /** Bootstrap peers are dialed first, then preferred peers, then refills. */
  lemma OrderOfDials(connected: set<PeerId>, table: Table, start: real, r: Report, i: nat)
    requires WellDialed(connected, table, start, r) && i < |r.dials|
    ensures var at, b, p := r.dials[i].at, |r.bootstrap|, |r.preferred|;
            && at < b + p + |r.refill|
            && Candidate(r.dials[i].peer, r.dials[i].addrs)
               == if at < b then r.bootstrap[at] else if at < b + p then r.preferred[at - b] else r.refill[at - b - p]
    ensures forall j :: i < j < |r.dials| ==>
              r.dials[i].at < r.dials[j].at && r.dials[i].doneAt <= r.dials[j].readyAt
  {
    assert Proper(r.Order(), table, start, r.dials[i]);
  }

  // ---- What a tick guarantees ----

  lemma {:induction false} DisciplinedIsDrawn(limits: Limits, ops: seq<Op>)
    requires Disciplined(limits, ops)
    ensures forall i :: 0 <= i < |ops| ==> Drawn(ops[i])
  {
    if ops != [] {
      var n := |ops| - 1;
      DisciplinedIsDrawn(limits, ops[..n]);
      assert forall i :: 0 <= i < n ==> ops[i] == ops[..n][i];
    }
  }

  /**
   An isolated node dials its bootstrap peers: one that has not failed, or not for one and
   a half caps, is dialed in this tick, before any preferred or refill candidate, whatever
   these are.
   */
  lemma BootstrapIsNotStarved(limits: Limits, ops: seq<Op>, prunedAt: real, bootstrap: seq<(PeerId, Multiaddr)>,
                              lowWater: nat, snapshot: Connections.Snapshot, start: real, r: Report, b: nat)
    requires Durations(limits) && Disciplined(limits, ops) && b < |bootstrap|
    requires Planned(bootstrap, lowWater, snapshot, r)
    requires WellDialed(snapshot.connected, Pruned(limits, History(limits, ops), prunedAt), start, r)
    requires forall i :: 0 <= i < |bootstrap| ==> bootstrap[i].0 !in snapshot.connected
    requires var last := LastFailure(ops, bootstrap[b].0); last.Some? ==> start >= last.value + 1.5 * limits.cap
    ensures exists i :: 0 <= i < |r.dials| && r.dials[i].peer == bootstrap[b].0 && r.dials[i].at <= b
                     && bootstrap[r.dials[i].at] == (bootstrap[b].0, r.dials[i].addrs[0]) && |r.dials[i].addrs| == 1
                     && forall j :: 0 <= j < i ==> r.dials[j].at < |bootstrap|
  {
    hide Planned, Disciplined, History;
    var peer, table := bootstrap[b].0, Pruned(limits, History(limits, ops), prunedAt);
    DisciplinedIsDrawn(limits, ops);
    ReadyInTheEnd(limits, ops, peer, start);
    assert IsReady(table, peer, start);
    PlanOfBootstrap(bootstrap, lowWater, snapshot, r);
    BootstrapIsDialed(bootstrap, snapshot.connected, table, start, r, b);
  }

  lemma BootstrapIsDialed(bootstrap: seq<(PeerId, Multiaddr)>, connected: set<PeerId>, table: Table, start: real,
                          r: Report, b: nat)
    requires b < |bootstrap| == |r.bootstrap| && WellDialed(connected, table, start, r)
    requires forall i :: 0 <= i < |bootstrap| ==> r.bootstrap[i] == Candidate(bootstrap[i].0, [bootstrap[i].1])
    requires bootstrap[b].0 !in connected && IsReady(table, bootstrap[b].0, start)
    ensures exists i :: 0 <= i < |r.dials| && r.dials[i].peer == bootstrap[b].0 && r.dials[i].at <= b
                     && bootstrap[r.dials[i].at] == (bootstrap[b].0, r.dials[i].addrs[0]) && |r.dials[i].addrs| == 1
                     && forall j :: 0 <= j < i ==> r.dials[j].at < |bootstrap|
  {
    hide IsReady;
    var peer := bootstrap[b].0;
    assert r.Order()[b] == r.bootstrap[b];
    assert IsDialed(r.dials, peer, b);
    var i :| 0 <= i < |r.dials| && r.dials[i].peer == peer && r.dials[i].at <= b;
    OrderOfDials(connected, table, start, r, i);
    forall j | 0 <= j < i ensures r.dials[j].at < |bootstrap| {
      OrderOfDials(connected, table, start, r, j);
    }
  }

  lemma {:induction false} SequentialIsShort(dials: seq<Dial>, bound: nat)
    requires Sequential(dials) && (forall i :: 0 <= i < |dials| ==> dials[i].at < bound)
    ensures |dials| <= bound
  {
    if dials != [] {
      var n := |dials| - 1;
      assert forall i :: 0 <= i < n ==> dials[i].at < dials[n].at;
      SequentialIsShort(dials[..n], dials[n].at);
    }
  }

  /** The number of dials of a tick is bounded whatever the stores and hints contain. */
  lemma TickBudget(bootstrap: seq<(PeerId, Multiaddr)>, lowWater: nat, snapshot: Connections.Snapshot,
                   table: Table, start: real, r: Report)
    requires Planned(bootstrap, lowWater, snapshot, r) && WellDialed(snapshot.connected, table, start, r)
    ensures |snapshot.connected| >= lowWater ==> |r.dials| <= |bootstrap| + 16
    ensures |snapshot.connected| < lowWater ==>
              |r.dials| <= |bootstrap| + 16 + (lowWater - |snapshot.connected|) + 2
    ensures (exists i :: 0 <= i < |bootstrap| && bootstrap[i].0 in snapshot.connected) ==>
              |r.dials| <= |r.preferred| + |r.refill|
  {
    forall i | 0 <= i < |r.dials| ensures r.dials[i].at < |r.Order()| {
      assert Proper(r.Order(), table, start, r.dials[i]);
    }
    SequentialIsShort(r.dials, |r.Order()|);
  }

  predicate Clean(c: Candidate) {
    c.addrs != [] && forall i :: 0 <= i < |c.addrs| ==> !Undialable(c.addrs[i])
  }

  lemma PreferredAreClean(snapshot: Connections.Snapshot, c: Candidate)
    requires c in Collect(snapshot.preferred, PreferredCandidate(snapshot.connected))
    ensures Clean(c)
  {
    hide Undialable;
    CollectMember(snapshot.preferred, PreferredCandidate(snapshot.connected), c);
    var k :| 0 <= k < |snapshot.preferred| && c in PreferredCandidate(snapshot.connected)(snapshot.preferred[k]);
    forall i | 0 <= i < |c.addrs| ensures !Undialable(c.addrs[i]) {
      CollectMember(snapshot.preferred[k].1, Dialable(), c.addrs[i]);
    }
  }

  lemma RefillsAreClean(stored: seq<(PeerId, Multiaddr)>, connected: set<PeerId>, c: Candidate)
    requires c in Collect(stored, RefillCandidate(connected))
    ensures Clean(c)
  {
    CollectMember(stored, RefillCandidate(connected), c);
  }

  lemma PickedIsElement(chosen: seq<Candidate>, all: seq<Candidate>, limit: nat, c: Candidate)
    requires Picked(chosen, all, limit) && c in chosen
    ensures c in all
  {
    assert c in multiset(chosen);
    assert c in multiset(all);
  }

  /** An address a registry or the store may suggest is never dialed if it is loopback or unspecified. */
  lemma SuggestedAddressesAreClean(bootstrap: seq<(PeerId, Multiaddr)>, lowWater: nat,
                                   snapshot: Connections.Snapshot, table: Table, start: real, r: Report, i: nat)
    requires Planned(bootstrap, lowWater, snapshot, r) && WellDialed(snapshot.connected, table, start, r)
    requires i < |r.dials| && r.dials[i].at >= |r.bootstrap|
    ensures r.dials[i].addrs != []
    ensures forall k, j :: 0 <= k < |r.dials[i].addrs| && 0 <= j < |r.dials[i].addrs[k]| ==>
              var part := r.dials[i].addrs[k][j];
              !(part.Ip4? && part.a == 127) && part !in {Ip4(0, 0, 0, 0), Ip6(0), Ip6(1)}
  {
    assert Proper(r.Order(), table, start, r.dials[i]);
    var c := Candidate(r.dials[i].peer, r.dials[i].addrs);
    assert c == r.Order()[r.dials[i].at];
    if c in r.preferred {
      PickedIsElement(r.preferred, Collect(snapshot.preferred, PreferredCandidate(snapshot.connected)),
                      MAX_PREFERRED_DIALS_PER_TICK, c);
      PreferredAreClean(snapshot, c);
    } else {
      PickedIsElement(r.refill, Collect(r.stored, RefillCandidate(snapshot.connected)),
                      RefillBudget(lowWater, snapshot.connected), c);
      RefillsAreClean(r.stored, snapshot.connected, c);
    }
    assert Clean(c);
    forall k, j | 0 <= k < |c.addrs| && 0 <= j < |c.addrs[k]|
      ensures !(c.addrs[k][j].Ip4? && c.addrs[k][j].a == 127)
      ensures c.addrs[k][j] !in {Ip4(0, 0, 0, 0), Ip6(0), Ip6(1)}
    {
      UndialableExactly(c.addrs[k]);
    }
  }

  lemma {:induction false} SameSizeSubset(a: multiset<Candidate>, b: multiset<Candidate>)
    requires a <= b && |a| == |b|
    ensures a == b
  {
    assert b == a + (b - a);
    assert |b - a| == 0;
  }

  /**
   While at most sixteen preferred peers are missing, a tick dials every one of them that is
   ready and has an address worth dialing.
   */
  lemma MissingPreferredAreDialed(bootstrap: seq<(PeerId, Multiaddr)>, lowWater: nat,
                                  snapshot: Connections.Snapshot, table: Table, start: real, r: Report, k: nat)
    requires Planned(bootstrap, lowWater, snapshot, r) && WellDialed(snapshot.connected, table, start, r)
    requires |MissingHints(snapshot)| <= 16
    requires k < |snapshot.preferred| && snapshot.preferred[k].0 !in snapshot.connected
    requires exists a :: a in snapshot.preferred[k].1 && !Undialable(a)
    requires IsReady(table, snapshot.preferred[k].0, start)
    ensures exists i :: 0 <= i < |r.dials| && r.dials[i].peer == snapshot.preferred[k].0
  {
    hide Collect, IsReady;
    var all := Collect(snapshot.preferred, PreferredCandidate(snapshot.connected));
    var c := Candidate(snapshot.preferred[k].0, Collect(snapshot.preferred[k].1, Dialable()));
    MissingIsCandidate(snapshot, k);
    MissingCount(snapshot);
    SameSizeSubset(multiset(r.preferred), multiset(all));
    assert c in multiset(all);
    var j :| 0 <= j < |r.preferred| && r.preferred[j] == c;
    assert r.Order()[|r.bootstrap| + j] == c;
    assert IsDialed(r.dials, c.peer, |r.bootstrap| + j);
  }

  lemma MissingIsCandidate(snapshot: Connections.Snapshot, k: nat)
    requires k < |snapshot.preferred| && snapshot.preferred[k].0 !in snapshot.connected
    requires exists a :: a in snapshot.preferred[k].1 && !Undialable(a)
    ensures Candidate(snapshot.preferred[k].0, Collect(snapshot.preferred[k].1, Dialable()))
         in Collect(snapshot.preferred, PreferredCandidate(snapshot.connected))
  {
    var hint := snapshot.preferred[k];
    var a :| a in hint.1 && !Undialable(a);
    assert a in Dialable()(a);
    CollectMember(hint.1, Dialable(), a);
    var c := Candidate(hint.0, Collect(hint.1, Dialable()));
    assert c in PreferredCandidate(snapshot.connected)(hint);
    CollectMember(snapshot.preferred, PreferredCandidate(snapshot.connected), c);
  }

  /** While the refill candidates fit the budget, a tick below low water reaches every known peer that is ready. */
  lemma KnownPeersAreDialed(bootstrap: seq<(PeerId, Multiaddr)>, lowWater: nat, snapshot: Connections.Snapshot,
                            table: Table, start: real, r: Report, k: nat)
    requires Planned(bootstrap, lowWater, snapshot, r) && WellDialed(snapshot.connected, table, start, r)
    requires |snapshot.connected| < lowWater
    requires |KnownPairs(r.stored, snapshot.connected)| <= lowWater - |snapshot.connected| + 2
    requires k < |r.stored| && r.stored[k].0 !in snapshot.connected && !Undialable(r.stored[k].1)
    requires IsReady(table, r.stored[k].0, start)
    ensures exists i :: 0 <= i < |r.dials| && r.dials[i].peer == r.stored[k].0
  {
    hide Collect, IsReady, Undialable;
    var all, c := Collect(r.stored, RefillCandidate(snapshot.connected)), Candidate(r.stored[k].0, [r.stored[k].1]);
    assert c in RefillCandidate(snapshot.connected)(r.stored[k]);
    CollectMember(r.stored, RefillCandidate(snapshot.connected), c);
    KnownCount(r.stored, snapshot.connected);
    SameSizeSubset(multiset(r.refill), multiset(all));
    assert c in multiset(all);
    var j :| 0 <= j < |r.refill| && r.refill[j] == c;
    var place := |r.bootstrap| + |r.preferred| + j;
    assert r.Order()[place] == c;
    assert IsDialed(r.dials, c.peer, place);
  }
}
