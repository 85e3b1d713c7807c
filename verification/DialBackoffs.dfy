/**
 Exponential backoff of dial attempts. Instants and durations are reals; the jitter factor
 is a real in [0.5, 1.5). Saturation of the 32-bit power and of the duration product, and
 the wrap-around of the 32-bit failure count, are as in the code.
 */
module DialBackoffs {
  import opened Sequences
  import opened Words
  import opened Addressing

  const U32_MAX: nat := 0xFFFF_FFFF
  const DURATION_MAX: real := 18446744073709551615.999999999

  datatype Limits = Limits(base: real, cap: real)

  ghost predicate Durations(limits: Limits) {
    0.0 <= limits.base <= 18446744073709551615.999999999 && 0.0 <= limits.cap <= 18446744073709551615.999999999
  }

  datatype Entry = Entry(failures: nat, nextAttempt: real)

  type Table = map<PeerId, Entry>

  function Pow2(n: nat): nat {
    if n == 0 then 1 else 2 * Pow2(n - 1)
  }

  function SaturatingPow2(n: nat): nat {
    Min(Pow2(n), U32_MAX)
  }

  function SaturatingMul(d: real, k: nat): real {
    RealMin(d * k as real, DURATION_MAX)
  }

  function RealMin(a: real, b: real): real {
    if a <= b then a else b
  }

  /** The delay after `failures` failures, before the jitter. */
  function Delay(limits: Limits, failures: nat): real {
    RealMin(Exponential(limits, failures), limits.cap)
  }

  function Exponential(limits: Limits, failures: nat): real {
    SaturatingMul(limits.base, SaturatingPow2(if failures == 0 then 0 else failures - 1))
  }

  /** The documented delay: base * 2^(n-1), capped. */
  function ExactDelay(limits: Limits, n: nat): real
    requires n >= 1
  {
    RealMin(limits.base * Pow2(n - 1) as real, limits.cap)
  }

  /** `mul_f64` by the jitter factor; `random` is drawn from [0, 1). */
  function Jittered(delay: real, random: real): real {
    delay * (0.5 + random)
  }

  predicate IsReady(table: Table, peer: PeerId, now: real) {
    peer in table ==> now >= table[peer].nextAttempt
  }

  function Failures(table: Table, peer: PeerId): nat {
    if peer in table then table[peer].failures else 0
  }

  function Failed(limits: Limits, table: Table, peer: PeerId, now: real, random: real): Table {
    var failures := (Failures(table, peer) + 1) % U32;
    table[peer := Entry(failures, now + Jittered(Delay(limits, failures), random))]
  }

  function Pruned(limits: Limits, table: Table, now: real): Table {
    map p | p in table && now < table[p].nextAttempt + limits.cap :: table[p]
  }

  class DialBackoff {
    const limits: Limits
    var state: Table

    constructor (base: real, cap: real)
      ensures limits == Limits(base, cap) && state == map[]
    {
      limits := Limits(base, cap);
      state := map[];
    }

    method Ready(peer: PeerId, now: real) returns (ready: bool)
      ensures ready == IsReady(state, peer, now)
    {
      if peer !in state {
        ready := true;
      } else {
        ready := now >= state[peer].nextAttempt;
      }
    }

    /** `random` is the random number in [0, 1) drawn for the jitter. */
    method RecordFailure(peer: PeerId, now: real, random: real)
      modifies this
      ensures state == Failed(limits, old(state), peer, now, random)
      ensures state[peer].nextAttempt == now + Delay(limits, state[peer].failures) * (0.5 + random)
      ensures forall p :: p != peer ==> (p in state <==> p in old(state)) && (p in state ==> state[p] == old(state)[p])
      ensures Durations(limits) && 0.0 <= random < 1.0 ==>
                && (forall t :: IsReady(state, peer, t) ==> t >= now + 0.5 * Delay(limits, state[peer].failures))
                && (forall t :: t >= now + 1.5 * Delay(limits, state[peer].failures) ==> IsReady(state, peer, t))
    {
      hide Jittered, SaturatingMul, SaturatingPow2, RealMin;
      var failures := ((if peer in state then state[peer].failures else 0) + 1) % U32;
      var exponential := SaturatingMul(limits.base, SaturatingPow2(if failures >= 1 then failures - 1 else 0));
      var capped := RealMin(exponential, limits.cap);
      var delay := Jittered(capped, random);
      state := state[peer := Entry(failures, now + delay)];
      JitterIsProduct(capped, random);
      if Durations(limits) && 0.0 <= random < 1.0 {
        FailureWaits(limits, old(state), peer, now, random);
      }
    }

    method RecordSuccess(peer: PeerId)
      modifies this
      ensures state == old(state) - {peer}
      ensures forall t :: IsReady(state, peer, t)
    {
      state := state - {peer};
    }

    method Prune(now: real)
      modifies this
      ensures state == Pruned(limits, old(state), now)
      ensures limits.cap >= 0.0 ==>
                forall p, t :: t >= now ==> (IsReady(state, p, t) <==> IsReady(old(state), p, t))
    {
      state := map p | p in state && now < state[p].nextAttempt + limits.cap :: state[p];
    }
  }

  lemma JitterIsProduct(delay: real, random: real)
    ensures Jittered(delay, random) == delay * (0.5 + random)
  {
  }

  // ---- The arithmetic of one delay ----

  lemma {:induction false} Pow2Grows(m: nat, n: nat)
    requires m <= n
    ensures 1 <= Pow2(m) <= Pow2(n)
  {
    if m < n {
      Pow2Grows(m, n - 1);
    } else if m > 0 {
      Pow2Grows(m - 1, m - 1);
    }
  }

  lemma Pow2Of32()
    ensures Pow2(32) == U32
  {
    assert Pow2(8) == 256;
    assert Pow2(16) == 65536;
    assert Pow2(24) == 16777216;
  }

  lemma Scaled(d: real, j: nat, k: nat)
    requires d >= 0.0 && j <= k
    ensures 0.0 <= d * j as real <= d * k as real
  {
    assert d * (k as real - j as real) >= 0.0;
  }

  /** A power beyond 32 bits takes any base to the cap, if the largest 32-bit number does. */
  lemma BeyondCap(base: real, k: nat, cap: real)
    requires base >= 0.0 && k >= U32_MAX && cap <= base * U32_MAX as real
    ensures RealMin(base * k as real, cap) == cap
  {
    Scaled(base, U32_MAX, k);
  }

  lemma DelayIsExact(limits: Limits, n: nat)
    requires Durations(limits) && n >= 1 && limits.cap <= limits.base * U32_MAX as real
    ensures Delay(limits, n) == ExactDelay(limits, n)
  {
    DelayOfPower(limits, n, SaturatingPow2(n - 1));
    if Pow2(n - 1) > U32_MAX {
      BeyondCap(limits.base, Pow2(n - 1), limits.cap);
      BeyondCap(limits.base, U32_MAX, limits.cap);
    }
  }

  /** The 33rd delay falls short of a cap that is too high. */
  lemma DelayFallsShort(limits: Limits)
    requires Durations(limits) && limits.base > 0.0 && limits.cap > limits.base * U32_MAX as real
    ensures Delay(limits, 33) < ExactDelay(limits, 33)
  {
    Pow2Of32();
    DelayOfPower(limits, 33, U32_MAX);
    assert limits.base * U32 as real == limits.base * U32_MAX as real + limits.base;
  }

  /** The documented delay is what is computed, for every number of failures, exactly when the cap is low enough. */
  lemma DelayIsExactIff(limits: Limits)
    requires Durations(limits) && limits.base > 0.0
    ensures (forall n: nat :: n >= 1 ==> Delay(limits, n) == ExactDelay(limits, n))
            <==> limits.cap <= limits.base * U32_MAX as real
  {
    hide Delay, ExactDelay;
    if limits.cap <= limits.base * U32_MAX as real {
      forall n: nat | n >= 1 ensures Delay(limits, n) == ExactDelay(limits, n) {
        DelayIsExact(limits, n);
      }
    } else {
      DelayFallsShort(limits);
    }
  }

  lemma DelayOfPower(limits: Limits, failures: nat, factor: nat)
    requires Durations(limits)
    requires factor == SaturatingPow2(if failures == 0 then 0 else failures - 1)
    ensures Delay(limits, failures) == RealMin(limits.base * factor as real, limits.cap)
  {
  }

  lemma DelayBounds(limits: Limits, failures: nat)
    requires Durations(limits)
    ensures 0.0 <= Delay(limits, failures) <= limits.cap
  {
    hide Delay, SaturatingPow2;
    var factor := SaturatingPow2(if failures == 0 then 0 else failures - 1);
    Pow2Grows(0, if failures == 0 then 0 else failures - 1);
    Scaled(limits.base, 0, factor);
    DelayOfPower(limits, failures, factor);
  }

  /** More failures never shorten the delay. */
  lemma DelayGrows(limits: Limits, m: nat, n: nat)
    requires Durations(limits) && m <= n
    ensures Delay(limits, m) <= Delay(limits, n)
  {
    var i, j := if m == 0 then 0 else m - 1, if n == 0 then 0 else n - 1;
    Pow2Grows(i, j);
    ProductGrows(limits.base, SaturatingPow2(i), SaturatingPow2(j));
    MinGrows(Exponential(limits, m), Exponential(limits, n), limits.cap);
  }

  lemma ProductGrows(d: real, j: nat, k: nat)
    requires d >= 0.0 && j <= k
    ensures SaturatingMul(d, j) <= SaturatingMul(d, k)
  {
    Scaled(d, j, k);
  }

  lemma MinGrows(x: real, y: real, cap: real)
    requires x <= y
    ensures RealMin(x, cap) <= RealMin(y, cap)
  {
  }

  /** From the 33rd failure on the delay is the cap, if the saturated power reaches it. */
  lemma DelayReachesCap(limits: Limits, n: nat)
    requires Durations(limits) && n >= 33 && limits.cap <= limits.base * U32_MAX as real
    ensures Delay(limits, n) == limits.cap
  {
    Pow2Of32();
    Pow2Grows(32, n - 1);
    DelayOfPower(limits, n, U32_MAX);
  }

  lemma JitterBounds(delay: real, random: real)
    requires delay >= 0.0 && 0.0 <= random < 1.0
    ensures 0.5 * delay <= Jittered(delay, random) <= 1.5 * delay
    ensures delay > 0.0 ==> Jittered(delay, random) < 1.5 * delay
  {
    assert Jittered(delay, random) == 0.5 * delay + delay * random;
    assert 0.0 <= delay * random;
    assert 0.0 <= delay * (1.0 - random);
    assert delay * (1.0 - random) == delay - delay * random;
    if delay > 0.0 {
      assert delay * (1.0 - random) > 0.0;
    }
  }

  /** Every wait in the range has its one draw, so that draws spread the attempts over all of it. */
  lemma JitterSpreads(delay: real, wait: real)
    requires delay > 0.0
    ensures 0.5 * delay <= wait < 1.5 * delay <==>
              exists random :: 0.0 <= random < 1.0 && Jittered(delay, random) == wait
    ensures forall a, b :: Jittered(delay, a) == Jittered(delay, b) ==> a == b
  {
    hide Jittered;
    DrawOf(delay, wait);
    DrawInRange(delay, wait / delay - 0.5);
    forall r | Jittered(delay, r) == wait ensures 0.5 * delay <= wait < 1.5 * delay <==> 0.0 <= r < 1.0 {
      DrawInRange(delay, r);
    }
    forall a, b | Jittered(delay, a) == Jittered(delay, b) ensures a == b {
      DrawIsOne(delay, a, b);
    }
  }

  lemma DrawOf(delay: real, wait: real)
    requires delay > 0.0
    ensures Jittered(delay, wait / delay - 0.5) == wait
  {
    var share := wait / delay;
    assert delay * share == wait;
  }

  lemma DrawInRange(delay: real, random: real)
    requires delay > 0.0
    ensures 0.5 * delay <= Jittered(delay, random) < 1.5 * delay <==> 0.0 <= random < 1.0
  {
    assert Jittered(delay, random) - 0.5 * delay == delay * random;
    assert 1.5 * delay - Jittered(delay, random) == delay * (1.0 - random);
    SignOfProduct(delay, random);
    SignOfProduct(delay, 1.0 - random);
  }

  lemma DrawIsOne(delay: real, a: real, b: real)
    requires delay > 0.0 && Jittered(delay, a) == Jittered(delay, b)
    ensures a == b
  {
    assert delay * (a - b) == 0.0;
    SignOfProduct(delay, a - b);
    SignOfProduct(delay, b - a);
  }

  lemma SignOfProduct(a: real, b: real)
    requires a > 0.0
    ensures a * b > 0.0 <==> b > 0.0
    ensures a * b >= 0.0 <==> b >= 0.0
  {
  }

  // ---- Histories ----

  /** `attempted` is when the failed dial was begun, `at` when its failure was recorded. */
  datatype Op =
    | Failure(peer: PeerId, attempted: real, at: real, random: real)
    | Success(peer: PeerId)
    | Prune(at: real)

  predicate Drawn(op: Op) {
    op.Failure? ==> 0.0 <= op.random < 1.0
  }

  function Apply(limits: Limits, table: Table, op: Op): Table {
    match op
    case Failure(peer, _, at, random) => Failed(limits, table, peer, at, random)
    case Success(peer) => table - {peer}
    case Prune(at) => Pruned(limits, table, at)
  }

  function History(limits: Limits, ops: seq<Op>): Table {
    if ops == [] then map[] else Apply(limits, History(limits, ops[..|ops| - 1]), ops[|ops| - 1])
  }

  function LastFailure(ops: seq<Op>, peer: PeerId): Option<real> {
    if ops == [] then None
    else
      var op := ops[|ops| - 1];
      if op.Failure? && op.peer == peer then Some(op.at) else LastFailure(ops[..|ops| - 1], peer)
  }

  /** The failures of the peer since its last success. */
  function FailuresSinceSuccess(ops: seq<Op>, peer: PeerId): nat {
    if ops == [] || ops[|ops| - 1] == Success(peer) then 0
    else
      var op := ops[|ops| - 1];
      FailuresSinceSuccess(ops[..|ops| - 1], peer) + (if op.Failure? && op.peer == peer then 1 else 0)
  }

  /** A success takes back all that was held against the peer. */
  lemma SuccessForgives(limits: Limits, ops: seq<Op>, peer: PeerId, t: real)
    requires ops != [] && ops[|ops| - 1] == Success(peer)
    ensures peer !in History(limits, ops) && IsReady(History(limits, ops), peer, t)
  {
  }

  /**
   Only failures since the last success count, at most all of them, as prunings forget; and
   exactly all of them, but for the 32-bit wrap, if there was no pruning.
   */
  lemma {:induction false} OnlyFailuresSinceSuccess(limits: Limits, ops: seq<Op>, peer: PeerId)
    ensures peer in History(limits, ops) ==>
              && History(limits, ops)[peer].failures <= FailuresSinceSuccess(ops, peer)
              && FailuresSinceSuccess(ops, peer) > 0
    ensures (forall i :: 0 <= i < |ops| ==> !ops[i].Prune?) ==>
              && (peer in History(limits, ops) <==> FailuresSinceSuccess(ops, peer) > 0)
              && (peer in History(limits, ops) ==>
                    History(limits, ops)[peer].failures == FailuresSinceSuccess(ops, peer) % U32)
  {
    hide Delay;
    if ops != [] {
      var n := |ops| - 1;
      OnlyFailuresSinceSuccess(limits, ops[..n], peer);
      WrapSuccessor(FailuresSinceSuccess(ops[..n], peer));
      assert forall i :: 0 <= i < n ==> ops[..n][i] == ops[i];
    }
  }

  lemma FailureWaits(limits: Limits, table: Table, peer: PeerId, at: real, random: real)
    requires Durations(limits) && 0.0 <= random < 1.0
    ensures var entry := Failed(limits, table, peer, at, random)[peer];
            && entry.failures == (Failures(table, peer) + 1) % U32
            && at + 0.5 * Delay(limits, entry.failures) <= entry.nextAttempt
            && entry.nextAttempt <= at + 1.5 * Delay(limits, entry.failures)
            && entry.nextAttempt <= at + 1.5 * limits.cap
  {
    var delay := Delay(limits, (Failures(table, peer) + 1) % U32);
    DelayBounds(limits, (Failures(table, peer) + 1) % U32);
    JitterBounds(delay, random);
  }

  /** In every reachable state a peer's next attempt is within the jittered delay of its last failure. */
  lemma {:induction false} NextAttemptBound(limits: Limits, ops: seq<Op>, peer: PeerId)
    requires Durations(limits) && (forall i :: 0 <= i < |ops| ==> Drawn(ops[i]))
    requires peer in History(limits, ops)
    ensures LastFailure(ops, peer).Some?
    ensures var entry, last := History(limits, ops)[peer], LastFailure(ops, peer).value;
            && last + 0.5 * Delay(limits, entry.failures) <= entry.nextAttempt
            && entry.nextAttempt <= last + 1.5 * Delay(limits, entry.failures)
            && entry.nextAttempt <= last + 1.5 * limits.cap
  {
    var n := |ops| - 1;
    var op := ops[n];
    if op.Failure? && op.peer == peer {
      FailureWaits(limits, History(limits, ops[..n]), peer, op.at, op.random);
    } else {
      NextAttemptBound(limits, ops[..n], peer);
    }
  }

  /** Nobody is held back for longer than one and a half caps after the last failure. */
  lemma ReadyInTheEnd(limits: Limits, ops: seq<Op>, peer: PeerId, now: real)
    requires Durations(limits) && (forall i :: 0 <= i < |ops| ==> Drawn(ops[i]))
    requires LastFailure(ops, peer).Some? ==> now >= LastFailure(ops, peer).value + 1.5 * limits.cap
    ensures IsReady(History(limits, ops), peer, now)
  {
    if peer in History(limits, ops) {
      NextAttemptBound(limits, ops, peer);
    }
  }

  /** Every failed dial was begun when its peer was ready, and recorded no earlier. */
  ghost predicate Disciplined(limits: Limits, ops: seq<Op>) {
    ops != [] ==>
      var before, op := ops[..|ops| - 1], ops[|ops| - 1];
      && Disciplined(limits, before)
      && Drawn(op)
      && (op.Failure? ==> op.attempted <= op.at && IsReady(History(limits, before), op.peer, op.attempted))
  }

  lemma HistorySnoc(limits: Limits, ops: seq<Op>, op: Op)
    ensures History(limits, ops + [op]) == Apply(limits, History(limits, ops), op)
    ensures Disciplined(limits, ops + [op]) <==>
              (Disciplined(limits, ops) && Drawn(op)
               && (op.Failure? ==> op.attempted <= op.at && IsReady(History(limits, ops), op.peer, op.attempted)))
  {
    hide Failed;
    assert (ops + [op])[..|ops|] == ops;
  }

  // ---- Pruning ----

  /** From the moment of pruning on nobody can tell by readiness; before it, exactly the dropped peers differ. */
  lemma PruneIsInvisible(limits: Limits, table: Table, now: real, peer: PeerId, t: real)
    requires limits.cap >= 0.0
    ensures t >= now ==> (IsReady(Pruned(limits, table, now), peer, t) <==> IsReady(table, peer, t))
    ensures IsReady(Pruned(limits, table, now), peer, t) != IsReady(table, peer, t)
            <==> peer in table && now >= table[peer].nextAttempt + limits.cap && t < table[peer].nextAttempt
  {
  }

  // ---- What pruning forgets ----

  predicate Dropped(limits: Limits, table: Table, now: real, peer: PeerId) {
    peer in table && now >= table[peer].nextAttempt + limits.cap
  }

  /**
   Pruning is not without effect on what follows. With the service's limits, a peer that
   failed twice and fails a third time at 1000 waits until 1004, but only until 1001 if its
   entry was pruned just before.
   */
  lemma PruneShortensAWait(p: PeerId)
    ensures var limits := Limits(1.0, 300.0);
            var ops := [Failure(p, 0.0, 0.0, 0.5), Failure(p, 1.0, 1.0, 0.5)];
            var third := Failure(p, 1000.0, 1000.0, 0.5);
            && Disciplined(limits, ops + [third]) && Disciplined(limits, ops + [Prune(1000.0)] + [third])
            && History(limits, ops + [third])[p] == Entry(3, 1004.0)
            && History(limits, ops + [Prune(1000.0)] + [third])[p] == Entry(1, 1001.0)
  {
    hide Delay, History, Disciplined;
    var limits, first, second := Limits(1.0, 300.0), Failure(p, 0.0, 0.0, 0.5), Failure(p, 1.0, 1.0, 0.5);
    var third, prune := Failure(p, 1000.0, 1000.0, 0.5), Prune(1000.0);
    FirstDelays(limits);
    HistoryOfNothing(limits);
    HistorySnoc(limits, [], first);
    assert [] + [first] == [first];
    HistorySnoc(limits, [first], second);
    assert [first] + [second] == [first, second];
    HistorySnoc(limits, [first, second], third);
    HistorySnoc(limits, [first, second], prune);
    HistorySnoc(limits, [first, second] + [prune], third);
  }

  lemma FirstDelays(limits: Limits)
    requires limits == Limits(1.0, 300.0)
    ensures Delay(limits, 1) == 1.0 && Delay(limits, 2) == 2.0 && Delay(limits, 3) == 4.0
  {
    assert Pow2(2) == 4;
    DelayOfPower(limits, 1, 1);
    DelayOfPower(limits, 2, 2);
    DelayOfPower(limits, 3, 4);
  }

  lemma HistoryOfNothing(limits: Limits)
    ensures History(limits, []) == map[] && Disciplined(limits, [])
  {
  }

  lemma SameJitter(a: real, b: real, random: real)
    requires 0.0 <= random < 1.0
    ensures Jittered(a, random) == Jittered(b, random) <==> a == b
  {
    assert Jittered(a, random) - Jittered(b, random) == (a - b) * (0.5 + random);
  }

  /** The next failure's wait is that without the pruning exactly if the forgotten count makes no difference to it. */
  lemma PruneForgivesExactly(limits: Limits, table: Table, now: real, peer: PeerId, at: real, random: real)
    requires 0.0 <= random < 1.0
    ensures Failed(limits, Pruned(limits, table, now), peer, at, random)[peer].nextAttempt
            == Failed(limits, table, peer, at, random)[peer].nextAttempt
            <==> (Dropped(limits, table, now, peer) ==>
                    Delay(limits, (table[peer].failures + 1) % U32) == Delay(limits, 1))
  {
    hide Delay;
    SameJitter(Delay(limits, (Failures(table, peer) + 1) % U32), Delay(limits, 1), random);
  }

  /** Every delay is the first one. */
  predicate Flat(limits: Limits) {
    limits.base == 0.0 || limits.cap <= limits.base
  }

  lemma FlatProduct(limits: Limits, factor: nat)
    requires limits.base >= 0.0 && Flat(limits) && factor >= 1
    ensures RealMin(limits.base * factor as real, limits.cap) == RealMin(limits.base, limits.cap)
  {
    if limits.base == 0.0 {
      assert limits.base * factor as real == 0.0;
    } else {
      Scaled(limits.base, 1, factor);
    }
  }

  lemma FlatPower(limits: Limits, n: nat, factor: nat)
    requires Durations(limits) && Flat(limits) && factor >= 1
    requires factor == SaturatingPow2(if n == 0 then 0 else n - 1)
    ensures Delay(limits, n) == RealMin(limits.base, limits.cap)
  {
    hide Delay, RealMin, SaturatingPow2, Flat;
    DelayOfPower(limits, n, factor);
    FlatProduct(limits, factor);
  }

  lemma FlatDelay(limits: Limits, n: nat)
    requires Durations(limits) && Flat(limits)
    ensures Delay(limits, n) == Delay(limits, 1)
  {
    hide Delay, RealMin, Flat;
    var i := if n == 0 then 0 else n - 1;
    Pow2Grows(0, i);
    FlatPower(limits, n, SaturatingPow2(i));
    FlatPower(limits, 1, 1);
  }

  lemma SecondIsLonger(limits: Limits, n: nat)
    requires Durations(limits) && !Flat(limits) && n >= 2
    ensures Delay(limits, n) > Delay(limits, 1)
  {
    DelayGrows(limits, 2, n);
    assert Pow2(1) == 2;
    DelayOfPower(limits, 1, 1);
    DelayOfPower(limits, 2, 2);
  }

  function After(limits: Limits, table: Table, ops: seq<Op>): Table {
    if ops == [] then table else Apply(limits, After(limits, table, ops[..|ops| - 1]), ops[|ops| - 1])
  }

  predicate AllDrawn(ops: seq<Op>) {
    forall i :: 0 <= i < |ops| ==> Drawn(ops[i])
  }

  /** Whatever is done to either table later on, readiness does not tell them apart from `since` on. */
  ghost predicate Indistinguishable(limits: Limits, a: Table, b: Table, since: real) {
    forall later: seq<Op>, peer: PeerId, t: real {:trigger IsReady(After(limits, a, later), peer, t)} ::
      AllDrawn(later) && t >= since ==>
        (IsReady(After(limits, a, later), peer, t) <==> IsReady(After(limits, b, later), peer, t))
  }

  /** `a` is `b` without some entries of peers that are ready, and counts agree where they matter. */
  ghost predicate Shadows(limits: Limits, a: Table, b: Table, since: real) {
    && (forall p :: p in a ==>
          p in b && a[p].nextAttempt == b[p].nextAttempt && (Flat(limits) || a[p] == b[p]))
    && (forall p :: p in b && p !in a ==>
          b[p].nextAttempt <= since && (Flat(limits) || b[p].failures == 0))
  }

  lemma ApplyShadows(limits: Limits, a: Table, b: Table, since: real, op: Op)
    requires Durations(limits) && Shadows(limits, a, b, since)
    ensures Shadows(limits, Apply(limits, a, op), Apply(limits, b, op), since)
  {
    hide Delay;
    if op.Failure? && Flat(limits) {
      FlatDelay(limits, (Failures(a, op.peer) + 1) % U32);
      FlatDelay(limits, (Failures(b, op.peer) + 1) % U32);
    }
  }

  lemma {:induction false} AfterShadows(limits: Limits, a: Table, b: Table, since: real, later: seq<Op>)
    requires Durations(limits) && Shadows(limits, a, b, since)
    ensures Shadows(limits, After(limits, a, later), After(limits, b, later), since)
  {
    hide Apply, Shadows;
    if later != [] {
      var n := |later| - 1;
      AfterShadows(limits, a, b, since, later[..n]);
      ApplyShadows(limits, After(limits, a, later[..n]), After(limits, b, later[..n]), since, later[n]);
    }
  }

  lemma AfterOne(limits: Limits, table: Table, op: Op)
    ensures After(limits, table, [op]) == Apply(limits, table, op)
  {
    hide Apply;
    assert [op][..0] == [];
    assert After(limits, table, []) == table;
  }

  lemma AfterTwo(limits: Limits, table: Table, first: Op, second: Op)
    ensures After(limits, table, [first, second]) == Apply(limits, Apply(limits, table, first), second)
  {
    hide Apply;
    AfterOne(limits, table, first);
    assert [first, second][..1] == [first];
  }

  /** A forgotten count shows at the next failure, or at the one after it if the 32-bit count was about to wrap. */
  lemma ForgottenCountShows(limits: Limits, table: Table, now: real, peer: PeerId)
    requires Durations(limits) && !Flat(limits) && Dropped(limits, table, now, peer)
    requires 0 < table[peer].failures < U32
    ensures !Indistinguishable(limits, Pruned(limits, table, now), table, now)
  {
    hide Delay;
    var pruned, count := Pruned(limits, table, now), table[peer].failures;
    var failure := Failure(peer, now, now, 0.5);
    var t := now + Delay(limits, 1);
    DelayBounds(limits, 1);
    if count + 1 < U32 {
      SecondIsLonger(limits, count + 1);
      AfterOne(limits, pruned, failure);
      AfterOne(limits, table, failure);
      assert IsReady(After(limits, pruned, [failure]), peer, t) && !IsReady(After(limits, table, [failure]), peer, t);
    } else {
      SecondIsLonger(limits, 2);
      AfterTwo(limits, pruned, failure, failure);
      AfterTwo(limits, table, failure, failure);
      var twice := [failure, failure];
      assert !IsReady(After(limits, pruned, twice), peer, t) && IsReady(After(limits, table, twice), peer, t);
    }
  }

  /**
   Exactly when pruning changes nothing, whatever happens later: when all delays are the
   first one anyway, or no entry it drops counts a failure. With the service's limits any
   dropped entry shows, but for a count that has wrapped to zero.
   */
  lemma PruneChangesNothingExactly(limits: Limits, table: Table, now: real)
    requires Durations(limits) && forall p :: p in table ==> table[p].failures < U32
    ensures Indistinguishable(limits, Pruned(limits, table, now), table, now)
            <==> (Flat(limits) || forall p :: Dropped(limits, table, now, p) ==> table[p].failures == 0)
  {
    var pruned := Pruned(limits, table, now);
    if Flat(limits) || forall p :: Dropped(limits, table, now, p) ==> table[p].failures == 0 {
      forall later: seq<Op>, peer: PeerId, t: real | AllDrawn(later) && t >= now
        ensures IsReady(After(limits, pruned, later), peer, t) <==> IsReady(After(limits, table, later), peer, t)
      {
        hide After;
        AfterShadows(limits, pruned, table, now, later);
      }
    } else {
      var p :| Dropped(limits, table, now, p) && table[p].failures != 0;
      ForgottenCountShows(limits, table, now, p);
    }
  }

  /** What follows a history continues its table. */
  lemma {:induction false} HistoryContinues(limits: Limits, ops: seq<Op>, later: seq<Op>)
    ensures History(limits, ops + later) == After(limits, History(limits, ops), later)
  {
    hide Apply;
    if later == [] {
      assert ops + later == ops;
    } else {
      var n := |later| - 1;
      HistoryContinues(limits, ops, later[..n]);
      assert (ops + later)[..|ops + later| - 1] == ops + later[..n];
    }
  }

  /** Every history's table has 32-bit counts, as the above asks for. */
  lemma {:induction false} CountsAreWords(limits: Limits, ops: seq<Op>, peer: PeerId)
    requires peer in History(limits, ops)
    ensures History(limits, ops)[peer].failures < U32
  {
    hide Delay;
    if ops != [] {
      var before := History(limits, ops[..|ops| - 1]);
      if peer in before {
        CountsAreWords(limits, ops[..|ops| - 1], peer);
      }
    }
  }

  function FailedSince(ops: seq<Op>, since: real): set<PeerId> {
    set op | op in ops && op.Failure? && op.at > since :: op.peer
  }

  lemma {:induction false} LastFailureIsOne(ops: seq<Op>, peer: PeerId)
    requires LastFailure(ops, peer).Some?
    ensures exists op :: op in ops && op.Failure? && op.peer == peer && op.at == LastFailure(ops, peer).value
  {
    var n := |ops| - 1;
    if ops[n].Failure? && ops[n].peer == peer {
      assert ops[n] in ops;
    } else {
      LastFailureIsOne(ops[..n], peer);
      var op :| op in ops[..n] && op.Failure? && op.peer == peer && op.at == LastFailure(ops[..n], peer).value;
      assert op in ops;
    }
  }

  /** After pruning, only peers that failed within the last two and a half caps take up memory. */
  lemma PruneBoundsMemory(limits: Limits, ops: seq<Op>, now: real)
    requires Durations(limits) && (forall i :: 0 <= i < |ops| ==> Drawn(ops[i]))
    ensures var table := Pruned(limits, History(limits, ops), now);
            && table.Keys <= FailedSince(ops, now - 2.5 * limits.cap)
            && |table| <= |FailedSince(ops, now - 2.5 * limits.cap)|
  {
    var table := Pruned(limits, History(limits, ops), now);
    forall p | p in table ensures p in FailedSince(ops, now - 2.5 * limits.cap) {
      NextAttemptBound(limits, ops, p);
      LastFailureIsOne(ops, p);
    }
    SubsetSize(table.Keys, FailedSince(ops, now - 2.5 * limits.cap));
    assert |table| == |table.Keys|;
  }

  // ---- Spacing of attempts ----

  /** The recorded failures of a peer since it was last without an entry. */
  function Streak(limits: Limits, ops: seq<Op>, peer: PeerId): seq<real> {
    if ops == [] || peer !in History(limits, ops) then []
    else
      var before, op := ops[..|ops| - 1], ops[|ops| - 1];
      Streak(limits, before, peer) + (if op.Failure? && op.peer == peer then [op.at] else [])
  }

  /** The sum of the first k delays; the failure count wraps at 32 bits. */
  function TotalDelay(limits: Limits, k: nat): real {
    if k == 0 then 0.0 else TotalDelay(limits, k - 1) + Delay(limits, k % U32)
  }

  function TotalExactDelay(limits: Limits, k: nat): real {
    if k == 0 then 0.0 else TotalExactDelay(limits, k - 1) + ExactDelay(limits, k)
  }

  /**
   Along a streak of k failures the next attempt waits at least half of the sum of all k
   delays after the first failure, however other peers and prunings are interleaved.
   */
  lemma {:induction false} AttemptsAreSpaced(limits: Limits, ops: seq<Op>, peer: PeerId)
    requires Durations(limits) && Disciplined(limits, ops)
    requires peer in History(limits, ops)
    ensures var entry, streak := History(limits, ops)[peer], Streak(limits, ops, peer);
            && streak != []
            && entry.failures == |streak| % U32
            && entry.nextAttempt >= streak[0] + 0.5 * TotalDelay(limits, |streak|)
            && streak[|streak| - 1] >= streak[0] + 0.5 * TotalDelay(limits, |streak| - 1)
  {
    var before, op := ops[..|ops| - 1], ops[|ops| - 1];
    var table, streak := History(limits, before), Streak(limits, before, peer);
    if peer in table {
      AttemptsAreSpaced(limits, before, peer);
    }
    if op.Failure? && op.peer == peer {
      assert Streak(limits, ops, peer) == streak + [op.at];
      FailureWaits(limits, table, peer, op.at, op.random);
      WrapSuccessor(|streak|);
      assert TotalDelay(limits, |streak| + 1) == TotalDelay(limits, |streak|) + Delay(limits, (|streak| + 1) % U32);
    } else {
      assert Streak(limits, ops, peer) == streak;
    }
  }

  lemma WrapSuccessor(k: nat)
    ensures (k % U32 + 1) % U32 == (k + 1) % U32
  {
  }

  lemma {:induction false} TotalIsExact(limits: Limits, k: nat)
    requires Durations(limits) && limits.cap <= limits.base * U32_MAX as real && k < U32
    ensures TotalDelay(limits, k) == TotalExactDelay(limits, k)
  {
    hide Delay, ExactDelay;
    if k > 0 {
      TotalIsExact(limits, k - 1);
      DelayIsExact(limits, k);
    }
  }

  /** With the service's base and cap and fewer than 2^32 failures the sum is the documented one. */
  lemma AttemptsAreSpacedExactly(limits: Limits, ops: seq<Op>, peer: PeerId, now: real)
    requires Durations(limits) && limits.cap <= limits.base * U32_MAX as real
    requires Disciplined(limits, ops) && peer in History(limits, ops)
    requires |Streak(limits, ops, peer)| < U32 && IsReady(History(limits, ops), peer, now)
    ensures Streak(limits, ops, peer) != []
    ensures now >= Streak(limits, ops, peer)[0] + 0.5 * TotalExactDelay(limits, |Streak(limits, ops, peer)|)
  {
    AttemptsAreSpaced(limits, ops, peer);
    TotalIsExact(limits, |Streak(limits, ops, peer)|);
  }
}
