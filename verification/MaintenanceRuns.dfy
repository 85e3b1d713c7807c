/** Ticks one after the other: how long a bootstrap peer can go without being dialed. */
module MaintenanceRuns {
  import opened Sequences
  import opened Addressing
  import opened PeerStorage
  import opened DialBackoffs
  import opened Maintaining
  import Connections

  /** One turn of the loop, from `start` to `end`; then the loop sleeps. */
  datatype Turn = Turn(
    prunedAt: real, snapshot: Option<Connections.Snapshot>, start: real, end: real, report: Report)

  function OpsAfter(ops: seq<Op>, t: Turn): seq<Op> {
    (ops + [Prune(t.prunedAt)]) + DialOps(t.report.dials)
  }

  /** The turn that a backoff table with the history `ops` allows. */
  ghost predicate TurnOf(limits: Limits, bootstrap: seq<(PeerId, Multiaddr)>, lowWater: nat, ops: seq<Op>, t: Turn) {
    && t.start <= t.end && (forall i :: 0 <= i < |t.report.dials| ==> t.report.dials[i].doneAt <= t.end)
    && match t.snapshot
       case None => t.report.dials == []
       case Some(snapshot) =>
         && Planned(bootstrap, lowWater, snapshot, t.report)
         && WellDialed(snapshot.connected, Pruned(limits, History(limits, ops), t.prunedAt), t.start, t.report)
  }

  /** Turns from the empty backoff table on, and the history before each and after the last. */
  ghost predicate Turns(limits: Limits, bootstrap: seq<(PeerId, Multiaddr)>, lowWater: nat,
                        histories: seq<seq<Op>>, turns: seq<Turn>) {
    && |histories| == |turns| + 1 && histories[0] == []
    && (forall i :: 0 <= i < |turns| ==>
          && Disciplined(limits, histories[i])
          && TurnOf(limits, bootstrap, lowWater, histories[i], turns[i])
          && histories[i + 1] == OpsAfter(histories[i], turns[i]))
    && (forall i, j :: 0 <= i < |turns| && j == i + 1 < |turns| ==> turns[i].end <= turns[j].start)
  }

  /** Between one turn and the next the loop sleeps for the interval at least. */
  ghost predicate Spaced(turns: seq<Turn>, interval: real) {
    forall i, j :: 0 <= i < |turns| && j == i + 1 < |turns| ==> turns[j].start >= turns[i].end + interval
  }

  lemma OneMoreTurn(limits: Limits, bootstrap: seq<(PeerId, Multiaddr)>, lowWater: nat, histories: seq<seq<Op>>,
                    turns: seq<Turn>, t: Turn, interval: real)
    requires Turns(limits, bootstrap, lowWater, histories, turns) && Spaced(turns, interval) && interval >= 0.0
    requires Disciplined(limits, histories[|turns|])
    requires TurnOf(limits, bootstrap, lowWater, histories[|turns|], t)
    requires turns != [] ==> t.start >= turns[|turns| - 1].end + interval
    ensures Turns(limits, bootstrap, lowWater, histories + [OpsAfter(histories[|turns|], t)], turns + [t])
    ensures Spaced(turns + [t], interval)
  {
    hide Disciplined, TurnOf, OpsAfter;
  }

  /** The loop, for as many turns as there are snapshots. */
  method Loop(bootstrapMultiaddrs: seq<Multiaddr>, lowWater: nat, interval: real,
              snapshots: seq<Option<Connections.Snapshot>>, peerstore: PeerStore, nowUnix: nat)
      returns (turns: seq<Turn>, ghost histories: seq<seq<Op>>)
    requires interval >= 0.0
    ensures |turns| == |snapshots| && forall i :: 0 <= i < |turns| ==> turns[i].snapshot == snapshots[i]
    ensures Turns(Limits(1.0, 300.0), Collect(bootstrapMultiaddrs, Splittable()), lowWater,
                  histories, turns)
    ensures Spaced(turns, interval)
  {
    hide History, Disciplined, Planned, WellDialed, Pruned, Collect, DialOps, Turns, Spaced;
    var m := new Maintenance(bootstrapMultiaddrs, lowWater);
    ghost var limits := Limits(BACKOFF_BASE, BACKOFF_CAP);
    var clock: real := *;
    turns, histories := [], [[]];
    NoTurns(limits, m.bootstrap, lowWater, interval);
    for k := 0 to |snapshots|
      invariant fresh(m) && fresh(m.backoff) && m.Valid() && m.lowWater == lowWater
      invariant m.bootstrap == Collect(bootstrapMultiaddrs, Splittable())
      invariant |turns| == k && forall i :: 0 <= i < k ==> turns[i].snapshot == snapshots[i]
      invariant Turns(limits, m.bootstrap, lowWater, histories, turns) && Spaced(turns, interval)
      invariant |histories| == k + 1 && histories[k] == m.ops
      invariant k > 0 ==> clock >= turns[k - 1].end + interval
    {
      var prunedAt := Now(clock);
      var start := Now(prunedAt);
      ghost var ops := m.ops;
      var r, end := m.Tick(prunedAt, snapshots[k], start, peerstore, nowUnix);
      var turn := Turn(prunedAt, snapshots[k], start, end, r);
      OneMoreTurn(limits, m.bootstrap, lowWater, histories, turns, turn, interval);
      turns, histories := turns + [turn], histories + [OpsAfter(ops, turn)];
      clock := Now(end + interval);
    }
  }

  lemma NoTurns(limits: Limits, bootstrap: seq<(PeerId, Multiaddr)>, lowWater: nat, interval: real)
    ensures Turns(limits, bootstrap, lowWater, [[]], []) && Spaced([], interval)
  {
  }

  // ---- Failures on record ----

  /** Every recorded failure of the peer is at `t` or before. */
  predicate FailedBy(ops: seq<Op>, peer: PeerId, t: real) {
    forall i :: 0 <= i < |ops| && ops[i].Failure? && ops[i].peer == peer ==> ops[i].at <= t
  }

  predicate DialsPeer(t: Turn, peer: PeerId) {
    exists e :: 0 <= e < |t.report.dials| && t.report.dials[e].peer == peer
  }

  /** A turn adds failures of the peers it dials, each when its dial was done. */
  lemma TurnFailures(ops: seq<Op>, t: Turn, peer: PeerId, when: real)
    requires FailedBy(ops, peer, when)
    requires forall e :: 0 <= e < |t.report.dials| && t.report.dials[e].peer == peer ==>
               t.report.dials[e].doneAt <= when
    ensures FailedBy(OpsAfter(ops, t), peer, when)
  {
    var after, dials := OpsAfter(ops, t), t.report.dials;
    forall i | 0 <= i < |after| && after[i].Failure? && after[i].peer == peer ensures after[i].at <= when {
      if i > |ops| {
        assert after[i] == DialOps(dials)[i - |ops| - 1] == DialOp(dials[i - |ops| - 1]);
      }
    }
  }

  /** When a turn starts, all failures on record are past. */
  lemma {:induction false} FailuresArePast(limits: Limits, bootstrap: seq<(PeerId, Multiaddr)>, lowWater: nat,
                                           histories: seq<seq<Op>>, turns: seq<Turn>, i: nat, peer: PeerId)
    requires Turns(limits, bootstrap, lowWater, histories, turns) && i < |turns|
    ensures FailedBy(histories[i], peer, turns[i].start)
  {
    hide Disciplined, Planned, WellDialed, OpsAfter;
    if i > 0 {
      FailuresArePast(limits, bootstrap, lowWater, histories, turns, i - 1, peer);
      TurnFailures(histories[i - 1], turns[i - 1], peer, turns[i].start);
    }
  }

  lemma LastFailureBy(ops: seq<Op>, peer: PeerId, t: real)
    requires FailedBy(ops, peer, t)
    ensures LastFailure(ops, peer).Some? ==> LastFailure(ops, peer).value <= t
  {
    if LastFailure(ops, peer).Some? {
      LastFailureIsOne(ops, peer);
    }
  }

  lemma DialedTurn(limits: Limits, bootstrap: seq<(PeerId, Multiaddr)>, lowWater: nat, ops: seq<Op>, t: Turn, d: nat)
    requires TurnOf(limits, bootstrap, lowWater, ops, t) && d < |t.report.dials|
    ensures t.start <= t.report.dials[d].readyAt <= t.report.dials[d].doneAt <= t.end
    ensures forall e :: 0 <= e < |t.report.dials| && t.report.dials[e].peer == t.report.dials[d].peer ==> e == d
  {
    hide Planned, History, Pruned, Failed;
    assert Proper(t.report.Order(), Pruned(limits, History(limits, ops), t.prunedAt), t.start, t.report.dials[d]);
  }

  // ---- A bootstrap peer's next dial ----

  /** Between turns the loop pauses for so long at most, and a turn takes so long at most. */
  predicate Paced(turns: seq<Turn>, from: nat, to: nat, pause: real, duration: real)
    requires from <= to < |turns|
  {
    && (forall j :: from <= j <= to ==> turns[j].end - turns[j].start <= duration)
    && (forall j, k :: from <= j < to && k == j + 1 ==> turns[k].start <= turns[j].end + pause)
  }

  ghost predicate IsolatedAt(bootstrap: seq<(PeerId, Multiaddr)>, t: Turn) {
    t.snapshot.Some? && forall i :: 0 <= i < |bootstrap| ==> bootstrap[i].0 !in t.snapshot.value.connected
  }

  lemma DialedAtLast(limits: Limits, bootstrap: seq<(PeerId, Multiaddr)>, lowWater: nat, ops: seq<Op>, t: Turn,
                     b: nat, when: real)
    requires Durations(limits) && Disciplined(limits, ops) && TurnOf(limits, bootstrap, lowWater, ops, t)
    requires b < |bootstrap| && IsolatedAt(bootstrap, t)
    requires FailedBy(ops, bootstrap[b].0, when) && t.start >= when + 1.5 * limits.cap
    ensures DialsPeer(t, bootstrap[b].0)
  {
    hide Planned, Disciplined, WellDialed, History, Pruned;
    LastFailureBy(ops, bootstrap[b].0, when);
    BootstrapIsNotStarved(limits, ops, t.prunedAt, bootstrap, lowWater, t.snapshot.value, t.start, t.report, b);
  }

  /** The search for the next dial, from turn `j` on, none having been found before. */
  lemma {:induction false} NextDial(limits: Limits, bootstrap: seq<(PeerId, Multiaddr)>, lowWater: nat,
                                    histories: seq<seq<Op>>, turns: seq<Turn>, j: nat, n: nat, b: nat,
                                    done: real, pause: real, duration: real) returns (k: nat)
    requires Durations(limits) && Turns(limits, bootstrap, lowWater, histories, turns)
    requires 0 < j <= n < |turns| && b < |bootstrap|
    requires forall i :: j <= i <= n ==> IsolatedAt(bootstrap, turns[i])
    requires Paced(turns, j - 1, n, pause, duration)
    requires FailedBy(histories[j], bootstrap[b].0, done)
    requires turns[j - 1].start <= done + 1.5 * limits.cap <= turns[n].start
    ensures j <= k <= n && DialsPeer(turns[k], bootstrap[b].0)
    ensures turns[k].end <= done + 1.5 * limits.cap + pause + 2.0 * duration
    decreases n - j
  {
    hide TurnOf, Disciplined, FailedBy, IsolatedAt, OpsAfter;
    var peer, due := bootstrap[b].0, done + 1.5 * limits.cap;
    k := j;
    if DialsPeer(turns[j], peer) {
      return;
    }
    if turns[j].start >= due {
      DialedAtLast(limits, bootstrap, lowWater, histories[j], turns[j], b, done);
      return;
    }
    TurnFailures(histories[j], turns[j], peer, done);
    k := NextDial(limits, bootstrap, lowWater, histories, turns, j + 1, n, b, done, pause, duration);
  }

  /**
   While no bootstrap peer is connected, a bootstrap peer that was dialed is dialed again: the
   next dial begins at most one and a half caps, one pause and two turns after the last one
   was done, whatever else is dialed and however often it fails.
   */
  lemma BootstrapIsDialedAgain(limits: Limits, bootstrap: seq<(PeerId, Multiaddr)>, lowWater: nat,
                               histories: seq<seq<Op>>, turns: seq<Turn>, i: nat, d: nat, n: nat, b: nat,
                               pause: real, duration: real)
    requires Durations(limits) && Turns(limits, bootstrap, lowWater, histories, turns)
    requires i < n < |turns| && b < |bootstrap|
    requires d < |turns[i].report.dials| && turns[i].report.dials[d].peer == bootstrap[b].0
    requires forall j :: i < j <= n ==> IsolatedAt(bootstrap, turns[j])
    requires Paced(turns, i, n, pause, duration)
    requires turns[n].start >= turns[i].report.dials[d].doneAt + 1.5 * limits.cap
    ensures exists k, e ::
              && i < k <= n && 0 <= e < |turns[k].report.dials| && turns[k].report.dials[e].peer == bootstrap[b].0
              && turns[k].report.dials[e].readyAt
                 <= turns[i].report.dials[d].doneAt + 1.5 * limits.cap + pause + 2.0 * duration
  {
    hide TurnOf, Disciplined, FailedBy, IsolatedAt, OpsAfter;
    var peer, done := bootstrap[b].0, turns[i].report.dials[d].doneAt;
    DialedTurn(limits, bootstrap, lowWater, histories[i], turns[i], d);
    FailuresArePast(limits, bootstrap, lowWater, histories, turns, i, peer);
    FailedByLater(histories[i], peer, turns[i].start, done);
    TurnFailures(histories[i], turns[i], peer, done);
    var k := NextDial(limits, bootstrap, lowWater, histories, turns, i + 1, n, b, done, pause, duration);
    var e :| 0 <= e < |turns[k].report.dials| && turns[k].report.dials[e].peer == peer;
    DialedTurn(limits, bootstrap, lowWater, histories[k], turns[k], e);
  }

  lemma FailedByLater(ops: seq<Op>, peer: PeerId, t: real, later: real)
    requires FailedBy(ops, peer, t) && t <= later
    ensures FailedBy(ops, peer, later)
  {
  }

  // ---- The time a tick spends dialing ----

  function DialingTime(dials: seq<Dial>): real {
    if dials == [] then 0.0
    else
      var d := dials[|dials| - 1];
      DialingTime(dials[..|dials| - 1]) + (d.doneAt - d.readyAt)
  }

  lemma {:induction false} DialingIsBounded(order: seq<Candidate>, table: Table, start: real, dials: seq<Dial>)
    requires forall i :: 0 <= i < |dials| ==> Proper(order, table, start, dials[i])
    ensures DialingTime(dials) <= |dials| as real * 10.0
  {
    if dials != [] {
      var n := |dials| - 1;
      DialingIsBounded(order, table, start, dials[..n]);
      assert Proper(order, table, start, dials[n]);
    }
  }

  /** However many hints and stored peers there are, a tick's dialing takes no longer than its budget of timeouts. */
  lemma TickTime(bootstrap: seq<(PeerId, Multiaddr)>, lowWater: nat, snapshot: Connections.Snapshot,
                 table: Table, start: real, r: Report)
    requires Planned(bootstrap, lowWater, snapshot, r) && WellDialed(snapshot.connected, table, start, r)
    ensures var missing := if |snapshot.connected| < lowWater then lowWater - |snapshot.connected| + 2 else 0;
            DialingTime(r.dials)
            <= (|bootstrap| + 16 + missing) as real * 10.0
  {
    hide Planned;
    TickBudget(bootstrap, lowWater, snapshot, table, start, r);
    DialingIsBounded(r.Order(), table, start, r.dials);
  }
}
