/** The per-/24 connection limiter. */
module SubnetLimiting {
  import opened Sequences
  import opened Addressing

  datatype Verdict = Allow | Reject

  type Counts = map<Subnet24, nat>

  function Tally(counts: Counts, s: Subnet24): nat {
    if s in counts then counts[s] else 0
  }

  /** Whether a connection from `addr` is over the cap, judged before it is counted. */
  predicate OverCap(counts: Counts, cap: nat, addr: Multiaddr, exempt: bool) {
    && !exempt
    && SubnetOf(addr).Some?
    && Tally(counts, SubnetOf(addr).value) >= cap
  }

  function Counted(counts: Counts, addr: Multiaddr): Counts {
    match SubnetOf(addr)
    case None => counts
    case Some(s) => counts[s := Tally(counts, s) + 1]
  }

  function Uncounted(counts: Counts, addr: Multiaddr): Counts {
    match SubnetOf(addr)
    case None => counts
    case Some(s) =>
      if s !in counts then counts
      else if counts[s] <= 1 then counts - {s}
      else counts[s := counts[s] - 1]
  }

  class SubnetLimits {
    const cap: nat
    var counts: Counts

    constructor (cap: nat)
      ensures this.cap == cap && counts == map[]
    {
      this.cap := cap;
      counts := map[];
    }

    /** A rejected connection is counted too: its close is reported later like any other. */
    method OnConnection(addr: Multiaddr, exempt: bool) returns (verdict: Verdict)
      modifies this
      ensures counts == Counted(old(counts), addr)
      ensures verdict == Reject <==> OverCap(old(counts), cap, addr, exempt)
      ensures verdict == match SubnetOf(addr)
                         case None => Allow
                         case Some(s) =>
                           if !exempt && (if s in old(counts) then old(counts)[s] else 0) >= cap then Reject else Allow
    {
      var subnet := SubnetOf(addr);
      if subnet.None? {
        return Allow;
      }
      var count := Tally(counts, subnet.value);
      verdict := if !exempt && count >= cap then Reject else Allow;
      counts := counts[subnet.value := count + 1];
    }

    method OnDisconnection(addr: Multiaddr)
      modifies this
      ensures counts == Uncounted(old(counts), addr)
    {
      var subnet := SubnetOf(addr);
      if subnet.Some? && subnet.value in counts {
        var count := counts[subnet.value];
        count := if count == 0 then 0 else count - 1;
        counts := counts[subnet.value := count];
        if count == 0 {
          counts := counts - {subnet.value};
        }
      }
    }
  }

  /** A close undoes its connection's count, whatever happened in between to other subnets. */
  lemma CountedThenUncounted(counts: Counts, addr: Multiaddr)
    requires forall s :: s in counts ==> counts[s] > 0
    ensures Uncounted(Counted(counts, addr), addr) == counts
  {
    match SubnetOf(addr)
    case None =>
    case Some(s) => if s in counts { assert Tally(counts, s) + 1 > 1; }
  }
}
