/** The lenient parsing of a preferred-peers request, and its effect through the event loop. */
module PreferredRequests {
  import opened Sequences
  import opened Words
  import opened Addressing
  import opened Connections
  import opened ConnectionProtection

  datatype PreferredPeer = PreferredPeer(peerId: string, multiaddrs: seq<string>)

  /** The library's parsers. */
  datatype Parsers = Parsers(peerId: string -> Option<PeerId>, multiaddr: string -> Option<Multiaddr>)

  function Parseable(parse: Parsers): string -> seq<Multiaddr> {
    (a: string) => match parse.multiaddr(a) case None => [] case Some(addr) => [addr]
  }

  /** Entry `i` is the first of the request that names `id`. */
  predicate IsFirst(parse: Parsers, request: seq<PreferredPeer>, i: int, id: PeerId) {
    && 0 <= i < |request|
    && parse.peerId(request[i].peerId) == Some(id)
    && forall j :: 0 <= j < i ==> parse.peerId(request[j].peerId) != Some(id)
  }

  /** The distinct valid peer ids of a request. */
  ghost function ValidIds(parse: Parsers, request: seq<PreferredPeer>): set<PeerId> {
    set i | 0 <= i < |request| && parse.peerId(request[i].peerId).Some? :: parse.peerId(request[i].peerId).value
  }

  /** What a request means: its valid ids in order of first mention, each with the valid addresses given there. */
  ghost predicate Means(parse: Parsers, request: seq<PreferredPeer>, peers: Hints) {
    && Ids(peers) == ValidIds(parse, request)
    && (forall k :: 0 <= k < |peers| ==>
          exists i :: IsFirst(parse, request, i, peers[k].0)
                   && peers[k].1 == Collect(request[i].multiaddrs, Parseable(parse)))
    && (forall k, l, i, j ::
          (0 <= k < l < |peers| && IsFirst(parse, request, i, peers[k].0) && IsFirst(parse, request, j, peers[l].0))
          ==> i < j)
  }

  /** An invalid id or one already mentioned leaves the meaning as it was. */
  lemma SkippedEntry(parse: Parsers, request: seq<PreferredPeer>, n: nat, peers: Hints)
    requires n < |request| && Means(parse, request[..n], peers)
    requires parse.peerId(request[n].peerId).None? || parse.peerId(request[n].peerId).value in Ids(peers)
    ensures Means(parse, request[..n + 1], peers)
  {
    FirstsStay(parse, request, n, peers);
    IdsUpTo(parse, request, n);
  }

  lemma IdsUpTo(parse: Parsers, request: seq<PreferredPeer>, n: nat)
    requires n < |request|
    ensures ValidIds(parse, request[..n + 1]) == ValidIds(parse, request[..n]) +
              (match parse.peerId(request[n].peerId) case None => {} case Some(id) => {id})
  {
    var a, b := request[..n], request[..n + 1];
    assert forall i :: 0 <= i < n ==> a[i] == b[i];
    assert b[n] == request[n];
    forall id | id in ValidIds(parse, a) ensures id in ValidIds(parse, b) {
      var i :| 0 <= i < n && parse.peerId(a[i].peerId) == Some(id);
      assert parse.peerId(b[i].peerId) == Some(id);
    }
  }

  /** An id mentioned before keeps its first mention when an entry is appended. */
  lemma FirstsStay(parse: Parsers, request: seq<PreferredPeer>, n: nat, peers: Hints)
    requires n < |request| && Ids(peers) <= ValidIds(parse, request[..n])
    ensures forall k, i :: 0 <= k < |peers| ==>
              (IsFirst(parse, request[..n + 1], i, peers[k].0) <==> IsFirst(parse, request[..n], i, peers[k].0))
  {
    var a, b := request[..n], request[..n + 1];
    assert forall i :: 0 <= i < n ==> a[i] == b[i];
    forall k, i | 0 <= k < |peers|
      ensures IsFirst(parse, b, i, peers[k].0) <==> IsFirst(parse, a, i, peers[k].0)
    {
      assert peers[k].0 in Ids(peers);
      var m :| 0 <= m < n && parse.peerId(a[m].peerId) == Some(peers[k].0);
      assert parse.peerId(b[m].peerId) == Some(peers[k].0);
    }
  }

  lemma NewEntry(parse: Parsers, request: seq<PreferredPeer>, n: nat, peers: Hints, id: PeerId)
    requires n < |request| && Means(parse, request[..n], peers)
    requires parse.peerId(request[n].peerId) == Some(id) && id !in Ids(peers)
    ensures Means(parse, request[..n + 1], peers + [(id, Collect(request[n].multiaddrs, Parseable(parse)))])
  {
    var a, b := request[..n], request[..n + 1];
    var grown := peers + [(id, Collect(request[n].multiaddrs, Parseable(parse)))];
    FirstsStay(parse, request, n, peers);
    IdsUpTo(parse, request, n);
    assert forall k :: 0 <= k < |peers| ==> grown[k] == peers[k];
    assert Ids(grown) == Ids(peers) + {id} by {
      assert grown[|peers|].0 == id;
      forall x | x in Ids(peers) ensures x in Ids(grown) {
        var k :| 0 <= k < |peers| && peers[k].0 == x;
        assert grown[k].0 == x;
      }
    }
    assert forall j :: 0 <= j < n ==> a[j] == b[j];
    assert IsFirst(parse, b, n, id) by {
      forall j | 0 <= j < n ensures parse.peerId(b[j].peerId) != Some(id) {
        assert a[j] == b[j];
        assert parse.peerId(a[j].peerId) == Some(id) ==> id in ValidIds(parse, a);
      }
    }
    forall k | 0 <= k < |grown|
      ensures exists i :: IsFirst(parse, b, i, grown[k].0) && grown[k].1 == Collect(b[i].multiaddrs, Parseable(parse))
    {
      if k < |peers| {
        var i :| IsFirst(parse, a, i, peers[k].0) && peers[k].1 == Collect(a[i].multiaddrs, Parseable(parse));
        assert IsFirst(parse, b, i, grown[k].0);
      } else {
        assert b[n] == request[n];
      }
    }
    forall k, l, i, j | 0 <= k < l < |grown| && IsFirst(parse, b, i, grown[k].0) && IsFirst(parse, b, j, grown[l].0)
      ensures i < j
    {
      assert IsFirst(parse, a, i, peers[k].0);
      if l < |peers| {
        assert IsFirst(parse, a, j, peers[l].0);
      }
    }
  }

  method ParseAddrs(parse: Parsers, given: seq<string>) returns (addrs: seq<Multiaddr>)
    ensures addrs == Collect(given, Parseable(parse))
  {
    addrs := [];
    for i := 0 to |given|
      invariant addrs == Collect(given[..i], Parseable(parse))
    {
      assert given[..i + 1] == given[..i] + [given[i]];
      CollectSnoc(given[..i], given[i], Parseable(parse));
      match parse.multiaddr(given[i])
      case Some(addr) => addrs := addrs + [addr];
      case None =>
    }
    assert given[..|given|] == given;
  }

  method ParseRequest(parse: Parsers, request: seq<PreferredPeer>) returns (peers: Hints)
    ensures Means(parse, request, peers)
    ensures |peers| == |ValidIds(parse, request)|
  {
    peers := [];
    var seen: set<PeerId> := {};
    for n := 0 to |request|
      invariant seen == Ids(peers) && |seen| == |peers|
      invariant Means(parse, request[..n], peers)
    {
      var parsed := parse.peerId(request[n].peerId);
      if parsed.None? || parsed.value in seen {
        SkippedEntry(parse, request, n, peers);
        continue;
      }
      seen := seen + {parsed.value};
      var addrs := ParseAddrs(parse, request[n].multiaddrs);
      NewEntry(parse, request, n, peers, parsed.value);
      IdsWithLast(peers, parsed.value, addrs);
      peers := peers + [(parsed.value, addrs)];
    }
    assert request[..|request|] == request;
  }

  lemma IdsWithLast(peers: Hints, id: PeerId, addrs: seq<Multiaddr>)
    ensures Ids(peers + [(id, addrs)]) == Ids(peers) + {id}
  {
    var grown := peers + [(id, addrs)];
    assert grown[|peers|].0 == id;
    assert forall k :: 0 <= k < |peers| ==> grown[k] == peers[k];
    forall x | x in Ids(peers) ensures x in Ids(grown) {
      var k :| 0 <= k < |peers| && peers[k].0 == x;
      assert grown[k].0 == x;
    }
  }

  /** The meaning lists each id once: two mentions cannot both be first at different places. */
  lemma MeaningIsDistinct(parse: Parsers, request: seq<PreferredPeer>, peers: Hints)
    requires Means(parse, request, peers)
    ensures forall k, l :: 0 <= k < l < |peers| ==> peers[k].0 != peers[l].0
    ensures |peers| == |ValidIds(parse, request)|
  {
    forall k, l | 0 <= k < l < |peers| ensures peers[k].0 != peers[l].0 {
      var i :| IsFirst(parse, request, i, peers[k].0) && peers[k].1 == Collect(request[i].multiaddrs, Parseable(parse));
      assert IsFirst(parse, request, i, peers[k].0);
    }
    IdsCount(peers);
  }

  lemma MeaningOf(parse: Parsers, request: seq<PreferredPeer>, peers: Hints, k: nat, i: nat)
    requires Means(parse, request, peers) && k < |peers| && IsFirst(parse, request, i, peers[k].0)
    ensures peers[k].1 == Collect(request[i].multiaddrs, Parseable(parse))
  {
    var m :| IsFirst(parse, request, m, peers[k].0) && peers[k].1 == Collect(request[m].multiaddrs, Parseable(parse));
    assert m == i;
  }

  /**
   From request to table: the dial hints are the first `cap` distinct valid ids of the
   request, each with the valid addresses of its first mention, and they are what the reply
   counts as accepted. No id is left out while the share of `high_water` has room, and none
   for one that is mentioned later.
   */
  lemma RequestToHints(cfg: Config, w: World, parse: Parsers, request: seq<PreferredPeer>, peers: Hints)
    requires Means(parse, request, peers)
    ensures var hints, accepted := HandleSetPreferred(cfg, w, peers).dialHints, Accepted(cfg, peers);
            && hints.Keys == Ids(accepted)
            && |hints| == |accepted| == Min(ProtectedCap(cfg), |ValidIds(parse, request)|)
            && Reply(cfg, peers).0 == |hints| % U32
            && (|hints| == |ValidIds(parse, request)|
                || (|hints| + 1) as real > cfg.highWater as real * cfg.maxProtectedShare)
            && (forall i, j, x, y ::
                  x in hints && y !in hints && IsFirst(parse, request, i, x) && IsFirst(parse, request, j, y) ==> i < j)
            && (forall k, i :: 0 <= k < |accepted| && IsFirst(parse, request, i, accepted[k].0) ==>
                  hints[accepted[k].0] == Collect(request[i].multiaddrs, Parseable(parse)))
  {
    var accepted := Accepted(cfg, peers);
    MeaningIsDistinct(parse, request, peers);
    IdsCount(accepted);
    HintKeys(accepted);
    assert |HintTable(accepted)| == |HintTable(accepted).Keys|;
    CapIsShare(cfg);
    forall i, j, x, y | x in HintTable(accepted) && y !in HintTable(accepted)
                        && IsFirst(parse, request, i, x) && IsFirst(parse, request, j, y)
      ensures i < j
    {
      AcceptedFirst(cfg, parse, request, peers, i, j, x, y);
    }
    forall k, i | 0 <= k < |accepted| && IsFirst(parse, request, i, accepted[k].0)
      ensures HintTable(accepted)[accepted[k].0] == Collect(request[i].multiaddrs, Parseable(parse))
    {
      HintOfDistinct(accepted, k);
      MeaningOf(parse, request, peers, k, i);
    }
  }

  lemma AcceptedFirst(cfg: Config, parse: Parsers, request: seq<PreferredPeer>, peers: Hints, i: nat, j: nat,
                      x: PeerId, y: PeerId)
    requires Means(parse, request, peers)
    requires x in Ids(Accepted(cfg, peers)) && y !in Ids(Accepted(cfg, peers))
    requires IsFirst(parse, request, i, x) && IsFirst(parse, request, j, y)
    ensures i < j
  {
    hide IsFirst, ValidIds, ProtectedCap;
    var accepted := Accepted(cfg, peers);
    var k :| 0 <= k < |accepted| && accepted[k].0 == x;
    FirstIsValid(parse, request, j, y);
    var l :| 0 <= l < |peers| && peers[l].0 == y;
    assert accepted == peers[..|accepted|];
    assert forall m :: 0 <= m < |accepted| ==> accepted[m].0 != y && peers[m] == accepted[m];
    assert peers[k].0 == x && k < l;
  }

  lemma FirstIsValid(parse: Parsers, request: seq<PreferredPeer>, i: nat, id: PeerId)
    requires IsFirst(parse, request, i, id)
    ensures id in ValidIds(parse, request)
  {
  }

  /** The valid addresses of an entry are those of its strings that parse, one each, in order. */
  lemma {:induction false} AddrsAreParsed(parse: Parsers, given: seq<string>, a: Multiaddr)
    ensures a in Collect(given, Parseable(parse)) <==>
              exists i :: 0 <= i < |given| && parse.multiaddr(given[i]) == Some(a)
    ensures |Collect(given, Parseable(parse))| <= |given|
    ensures (forall i :: 0 <= i < |given| ==> parse.multiaddr(given[i]).Some?) ==>
              && |Collect(given, Parseable(parse))| == |given|
              && forall i :: 0 <= i < |given| ==> Collect(given, Parseable(parse))[i] == parse.multiaddr(given[i]).value
  {
    CollectMember(given, Parseable(parse), a);
    if given != [] {
      AddrsAreParsed(parse, given[1..], a);
      var rest := Collect(given[1..], Parseable(parse));
      assert Collect(given, Parseable(parse)) == Parseable(parse)(given[0]) + rest;
      if forall i :: 0 <= i < |given| ==> parse.multiaddr(given[i]).Some? {
        forall i | 0 <= i < |given|
          ensures Collect(given, Parseable(parse))[i] == parse.multiaddr(given[i]).value
        {
          assert i > 0 ==> rest[i - 1] == parse.multiaddr(given[1..][i - 1]).value;
        }
      }
    }
  }

  /** The two counts of the reply add up to the distinct valid ids, exactly while both fit 32 bits. */
  lemma ReplyCountsValidIds(cfg: Config, parse: Parsers, request: seq<PreferredPeer>, peers: Hints)
    requires Means(parse, request, peers)
    ensures var valid := |ValidIds(parse, request)|;
            (Reply(cfg, peers).0 + Reply(cfg, peers).1 == valid)
            <==> (Min(ProtectedCap(cfg), valid) < U32 && valid - ProtectedCap(cfg) < U32)
  {
    MeaningIsDistinct(parse, request, peers);
    var a, b := |Accepted(cfg, peers)|, |peers| - |Accepted(cfg, peers)|;
    assert a % U32 <= a && b % U32 <= b;
    assert (a % U32 == a <==> a < U32) && (b % U32 == b <==> b < U32);
  }

  lemma {:induction false} IdsCount(peers: Hints)
    requires forall k, l :: 0 <= k < l < |peers| ==> peers[k].0 != peers[l].0
    ensures |Ids(peers)| == |peers|
  {
    if peers != [] {
      var n := |peers| - 1;
      IdsCount(peers[..n]);
      IdsWithLast(peers[..n], peers[n].0, peers[n].1);
      assert peers[..n] + [(peers[n].0, peers[n].1)] == peers;
    }
  }
}
