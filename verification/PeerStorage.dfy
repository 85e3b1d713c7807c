/**
 The store of known peers. Peers and addresses stand for their printed forms,
 which the library prints and parses back without loss.
 */
module PeerStorage {
  import opened Sequences
  import opened Addressing

  const MAX_ADDRS_PER_PEER: nat := 8

  datatype PeerRecord = PeerRecord(addrs: seq<Multiaddr>, lastSeen: nat)

  type Store = map<PeerId, PeerRecord>

  /** One new address: known ones are left where they are, the oldest falls out over the limit. */
  function Push(addrs: seq<Multiaddr>, a: Multiaddr): seq<Multiaddr> {
    if a in addrs then addrs
    else if |addrs| < MAX_ADDRS_PER_PEER then addrs + [a]
    else (addrs + [a])[1..]
  }

  function PushAll(addrs: seq<Multiaddr>, added: seq<Multiaddr>): seq<Multiaddr> {
    if added == [] then addrs
    else Push(PushAll(addrs, added[..|added| - 1]), added[|added| - 1])
  }

  function AddrsOf(store: Store, peer: PeerId): seq<Multiaddr> {
    if peer in store then store[peer].addrs else []
  }

  function Recorded(store: Store, peer: PeerId, addrs: seq<Multiaddr>, now: nat): Store {
    store[peer := PeerRecord(PushAll(AddrsOf(store, peer), addrs), now)]
  }

  /** `now.saturating_sub(last) > maxAge` is not the case. */
  predicate Fresh(record: PeerRecord, maxAge: nat, now: nat) {
    (if now >= record.lastSeen then now - record.lastSeen else 0) <= maxAge
  }

  predicate IsCandidate(store: Store, maxAge: nat, now: nat, peer: PeerId, addr: Multiaddr) {
    peer in store && Fresh(store[peer], maxAge, now) && addr in store[peer].addrs
  }

  /** What `record` keeps: short lists without duplicates. Loading a file does not restore it. */
  ghost predicate WellKept(store: Store) {
    forall p :: p in store ==> Distinct(store[p].addrs) && |store[p].addrs| <= MAX_ADDRS_PER_PEER
  }

  class PeerStore {
    var peers: Store

    constructor ()
      ensures peers == map[]
    {
      peers := map[];
    }

    method Record(peer: PeerId, addrs: seq<Multiaddr>, now: nat)
      modifies this
      ensures peers == Recorded(old(peers), peer, addrs, now)
    {
      var record := if peer in peers then peers[peer] else PeerRecord([], now);
      record := record.(lastSeen := now);
      ghost var before := record.addrs;
      for i := 0 to |addrs|
        invariant record.addrs == PushAll(before, addrs[..i])
        invariant record.lastSeen == now
      {
        var addr := addrs[i];
        assert addrs[..i + 1][..i] == addrs[..i];
        if addr !in record.addrs {
          ghost var list := record.addrs;
          record := record.(addrs := record.addrs + [addr]);
          if |record.addrs| > MAX_ADDRS_PER_PEER {
            // A list loaded from a file may already be over the limit; only one entry goes.
            record := record.(addrs := record.addrs[1..]);
          }
        }
      }
      assert addrs[..|addrs|] == addrs;
      peers := peers[peer := record];
    }

    method DialCandidates(maxAge: nat, now: nat) returns (candidates: seq<(PeerId, Multiaddr)>)
      ensures forall p, a :: (p, a) in candidates <==> IsCandidate(peers, maxAge, now, p, a)
      ensures WellKept(peers) ==> Distinct(candidates)
    {
      candidates := [];
      var todo := peers.Keys;
      while todo != {}
        invariant todo <= peers.Keys
        invariant forall p, a :: (p, a) in candidates <==> p !in todo && IsCandidate(peers, maxAge, now, p, a)
        invariant WellKept(peers) ==> Distinct(candidates)
      {
        var peer :| peer in todo;
        var record := peers[peer];
        if Fresh(record, maxAge, now) {
          ghost var before := candidates;
          for i := 0 to |record.addrs|
            invariant |candidates| == |before| + i
            invariant candidates[..|before|] == before
            invariant forall j :: 0 <= j < i ==> candidates[|before| + j] == (peer, record.addrs[j])
          {
            candidates := candidates + [(peer, record.addrs[i])];
          }
          AppendedMembers(before, peer, record.addrs, candidates);
          if WellKept(peers) {
            assert Distinct(record.addrs);
            assert forall i :: 0 <= i < |before| ==> before[i] in before;
            assert forall i :: 0 <= i < |before| ==> before[i].0 != peer;
            assert forall i :: 0 <= i < |before| ==> candidates[i] == before[i];
            assert Distinct(candidates) by {
              forall i, j | 0 <= i < j < |candidates| ensures candidates[i] != candidates[j] {
                if i >= |before| {
                  assert candidates[i] == (peer, record.addrs[i - |before|]);
                  assert candidates[j] == (peer, record.addrs[j - |before|]);
                } else if j >= |before| {
                  assert candidates[j] == (peer, record.addrs[j - |before|]);
                }
              }
            }
          }
        }
        todo := todo - {peer};
      }
    }
  }

  lemma AppendedMembers(before: seq<(PeerId, Multiaddr)>, peer: PeerId, addrs: seq<Multiaddr>,
                        after: seq<(PeerId, Multiaddr)>)
    requires |after| == |before| + |addrs|
    requires after[..|before|] == before
    requires forall j :: 0 <= j < |addrs| ==> after[|before| + j] == (peer, addrs[j])
    ensures forall p, a :: (p, a) in after <==> (p, a) in before || (p == peer && a in addrs)
  {
    forall p, a ensures (p, a) in after <==> (p, a) in before || (p == peer && a in addrs) {
      if (p, a) in after {
        var i :| 0 <= i < |after| && after[i] == (p, a);
        if i >= |before| {
          assert after[|before| + (i - |before|)] == (peer, addrs[i - |before|]);
        } else {
          assert before[i] == after[..|before|][i];
        }
      }
      if (p, a) in before {
        var i :| 0 <= i < |before| && before[i] == (p, a);
        assert after[..|before|][i] == (p, a);
        assert after[i] == (p, a);
      }
      if p == peer && a in addrs {
        var j :| 0 <= j < |addrs| && addrs[j] == a;
        assert after[|before| + j] == (p, a);
      }
    }
  }

  // ---- Histories ----

  /**
   The addresses that were actually appended when `added` is pushed on a list: each one is
   compared with the list of that moment, so an evicted address is appended anew.
   */
  function Appended(addrs: seq<Multiaddr>, added: seq<Multiaddr>): seq<Multiaddr> {
    if added == [] then []
    else
      var n := |added| - 1;
      Appended(addrs, added[..n]) + (if added[n] in PushAll(addrs, added[..n]) then [] else [added[n]])
  }

  function Newest(log: seq<Multiaddr>): seq<Multiaddr> {
    if |log| <= MAX_ADDRS_PER_PEER then log else log[|log| - MAX_ADDRS_PER_PEER..]
  }

  lemma NewestEight(log: seq<Multiaddr>)
    ensures Newest(log) == log[if |log| <= 8 then 0 else |log| - 8..]
    ensures |Newest(log)| <= 8
  {
  }

  lemma NewestAfterAppending(log: seq<Multiaddr>, a: Multiaddr)
    requires a !in Newest(log)
    ensures Newest(log + [a]) == Push(Newest(log), a)
  {
    var list := Newest(log);
    if |log| < MAX_ADDRS_PER_PEER {
    } else {
      assert |list| == MAX_ADDRS_PER_PEER;
      assert log + [a] == log[..|log| - MAX_ADDRS_PER_PEER] + list + [a];
    }
  }

  lemma DistinctAfterPush(list: seq<Multiaddr>, a: Multiaddr)
    requires Distinct(list) && |list| <= MAX_ADDRS_PER_PEER
    ensures Distinct(Push(list, a)) && |Push(list, a)| <= MAX_ADDRS_PER_PEER && a in Push(list, a)
  {
    if a !in list {
      assert Push(list, a)[|Push(list, a)| - 1] == a;
      assert forall i :: 0 <= i < |list| ==> list[i] in list;
    }
  }

  /** From the empty list, the list is always the newest eight of all appended addresses. */
  lemma {:induction false} ListIsNewestAppended(added: seq<Multiaddr>)
    ensures PushAll([], added) == Newest(Appended([], added))
    ensures var log := Appended([], added); PushAll([], added) == log[if |log| <= 8 then 0 else |log| - 8..]
    ensures Distinct(PushAll([], added)) && |PushAll([], added)| <= 8
    ensures added != [] ==> added[|added| - 1] in PushAll([], added)
  {
    hide Newest;
    if added == [] {
      NewestEight([]);
    } else {
      var n := |added| - 1;
      ListIsNewestAppended(added[..n]);
      NewestEight(Appended([], added));
      DistinctAfterPush(PushAll([], added[..n]), added[n]);
      if added[n] in PushAll([], added[..n]) {
        assert Appended([], added) == Appended([], added[..n]);
      } else {
        NewestAfterAppending(Appended([], added[..n]), added[n]);
      }
    }
  }

  /** Pushing in several calls is pushing once: a peer's list depends on its whole history only. */
  lemma {:induction false} PushAllInTwoCalls(addrs: seq<Multiaddr>, first: seq<Multiaddr>, second: seq<Multiaddr>)
    ensures PushAll(addrs, first + second) == PushAll(PushAll(addrs, first), second)
  {
    if second == [] {
      assert first + second == first;
    } else {
      var n := |second| - 1;
      PushAllInTwoCalls(addrs, first, second[..n]);
      assert (first + second)[..|first + second| - 1] == first + second[..n];
    }
  }

  datatype Call = Call(peer: PeerId, addrs: seq<Multiaddr>, now: nat)

  function Replay(calls: seq<Call>): Store {
    if calls == [] then map[]
    else
      var c := calls[|calls| - 1];
      Recorded(Replay(calls[..|calls| - 1]), c.peer, c.addrs, c.now)
  }

  lemma ReplaySnoc(calls: seq<Call>, c: Call)
    ensures Replay(calls + [c]) == Recorded(Replay(calls), c.peer, c.addrs, c.now)
  {
    assert (calls + [c])[..|calls|] == calls;
  }

  /** Every address passed to `record` for one peer, in order. */
  function Passed(calls: seq<Call>, peer: PeerId): seq<Multiaddr> {
    Collect(calls, PassedTo(peer))
  }

  function PassedTo(peer: PeerId): Call -> seq<Multiaddr> {
    (c: Call) => if c.peer == peer then c.addrs else []
  }

  function LastCall(calls: seq<Call>, peer: PeerId): Option<Call> {
    if calls == [] then None
    else if calls[|calls| - 1].peer == peer then Some(calls[|calls| - 1])
    else LastCall(calls[..|calls| - 1], peer)
  }

  lemma NothingPassed(peer: PeerId)
    ensures PushAll([], Passed([], peer)) == []
  {
  }

  lemma {:induction false} ReplayLists(calls: seq<Call>, peer: PeerId)
    ensures AddrsOf(Replay(calls), peer) == PushAll([], Passed(calls, peer))
    ensures peer in Replay(calls) <==> LastCall(calls, peer).Some?
    ensures peer in Replay(calls) ==> Replay(calls)[peer].lastSeen == LastCall(calls, peer).value.now
  {
    hide Push, Collect;
    if calls == [] {
      NothingPassed(peer);
    } else {
      var rest, c := calls[..|calls| - 1], calls[|calls| - 1];
      ReplayLists(rest, peer);
      assert calls == rest + [c];
      CollectSnoc(rest, c, PassedTo(peer));
      if c.peer == peer {
        assert Passed(calls, peer) == Passed(rest, peer) + c.addrs;
        PushAllInTwoCalls([], Passed(rest, peer), c.addrs);
      } else {
        assert Passed(calls, peer) == Passed(rest, peer);
      }
    }
  }

  /**
   After any calls from the empty store, a peer's list is the newest eight addresses
   appended for it, without duplicates, and holds the last address passed; and a pair is a
   dial candidate exactly when the peer's latest call is recent enough and its list has it.
   */
  lemma StoreRefinesHistory(calls: seq<Call>, peer: PeerId, addr: Multiaddr, maxAge: nat, now: nat)
    ensures AddrsOf(Replay(calls), peer) == Newest(Appended([], Passed(calls, peer)))
    ensures |AddrsOf(Replay(calls), peer)| <= 8
    ensures WellKept(Replay(calls))
    ensures Passed(calls, peer) != [] ==>
              Passed(calls, peer)[|Passed(calls, peer)| - 1] in AddrsOf(Replay(calls), peer)
    ensures IsCandidate(Replay(calls), maxAge, now, peer, addr) <==>
              && LastCall(calls, peer).Some?
              && now - LastCall(calls, peer).value.now <= maxAge
              && addr in Newest(Appended([], Passed(calls, peer)))
  {
    ReplayLists(calls, peer);
    ListIsNewestAppended(Passed(calls, peer));
    forall p | p in Replay(calls)
      ensures Distinct(Replay(calls)[p].addrs) && |Replay(calls)[p].addrs| <= MAX_ADDRS_PER_PEER
    {
      ReplayLists(calls, p);
      ListIsNewestAppended(Passed(calls, p));
    }
  }
}
