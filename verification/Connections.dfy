/**
 The connection manager as a state machine: the event loop's fields, the swarm it drives
 and the history of dial requests, with one transition per swarm event or command.

 The swarm is an adversarial environment. It announces connections in any order and
 number, closes any live connection at any time, starts dials of its own, and carries out
 a requested close at some later moment or never.
 */
module Connections {
  import opened Sequences
  import opened Words
  import opened Addressing
  import opened SubnetLimiting
  import opened PeerStorage

  datatype Config = Config(highWater: nat, perSubnetCap: nat, maxProtectedShare: real, bootstrap: set<PeerId>)

  /** What start-up validation guarantees of the limits. */
  ghost predicate Validated(cfg: Config) {
    cfg.perSubnetCap >= 1 && 0.0 <= cfg.maxProtectedShare <= 1.0
  }

  /** The truncating cast of `high_water * max_protected_share`; a negative product becomes 0. */
  function ProtectedCap(cfg: Config): nat {
    var product := cfg.highWater as real * cfg.maxProtectedShare;
    if product < 0.0 then 0 else product.Floor
  }

  type ConnectionId = nat
  type Waiter = nat

  const PREFERRED_PEER_APP_SCORE: int := 100

  /**
   A live connection. `closing` says a close was requested; `exempt` says its peer was
   protected when it was admitted; `listed` says no equal address of its peer has been
   dropped from the connection table since.
   */
  datatype Connection = Connection(
    id: ConnectionId, peer: PeerId, addr: Multiaddr, exempt: bool, closing: bool, listed: bool)

  datatype DialError = WrongPeerId | Unreachable
  datatype DialVerdict = Connected | Failed(error: DialError)
  datatype Request = Request(peer: PeerId, waiter: Waiter)
  datatype Answer = Answer(peer: PeerId, waiter: Waiter, verdict: DialVerdict)

  type Hints = seq<(PeerId, seq<Multiaddr>)>

  /** The view of the connection table that the maintenance loop works from. */
  datatype Snapshot = Snapshot(connected: set<PeerId>, preferred: Hints)

  datatype World = World(
    // The event loop.
    connected: map<PeerId, seq<Multiaddr>>,
    pendingDials: map<PeerId, seq<Waiter>>,
    protected: set<PeerId>,
    dialHints: map<PeerId, seq<Multiaddr>>,
    counts: Counts,
    gauge: int,
    store: Store,
    // The swarm: live connections in the order of establishment, dials in flight, the scorer.
    live: seq<Connection>,
    dialing: set<PeerId>,
    scores: map<PeerId, int>,
    // The history of dial requests.
    issued: seq<Request>,
    answers: seq<Answer>)

  /** What `swarm.dial` returns. */
  datatype DialOutcome = Started | ConditionFalse | Refused(error: DialError)

  datatype Event =
    | Established(peer: PeerId, id: ConnectionId, addr: Multiaddr, dialer: bool, now: nat)
    | Closed(index: nat, forget: bool)
    | OutgoingError(failed: Option<PeerId>, error: DialError)
    | Identified(who: PeerId, listenAddrs: seq<Multiaddr>, seen: nat)
    | SwarmDial(target: PeerId)
    | ScorerExpiry(expired: PeerId)
    | DialCommand(wanted: PeerId, waiter: Waiter, outcome: DialOutcome)
    | SetPreferred(preferred: Hints)

  function Peers(live: seq<Connection>): set<PeerId> {
    set c | c in live :: c.peer
  }

  function ConnectionsOf(live: seq<Connection>, peer: PeerId): seq<ConnectionId> {
    Collect(live, OwnedBy(peer))
  }

  function OwnedBy(peer: PeerId): Connection -> seq<ConnectionId> {
    (c: Connection) => if c.peer == peer then [c.id] else []
  }

  function Without<T>(s: seq<T>, k: nat): seq<T>
    requires k < |s|
  {
    s[..k] + s[k + 1..]
  }

  function Queue(w: World, peer: PeerId): seq<Waiter> {
    if peer in w.pendingDials then w.pendingDials[peer] else []
  }

  function TableEntry(w: World, peer: PeerId): seq<Multiaddr> {
    if peer in w.connected then w.connected[peer] else []
  }

  function Scored(scores: map<PeerId, int>, peer: PeerId, score: int): map<PeerId, int> {
    if peer in scores then scores[peer := score] else scores
  }

  function Initial(cfg: Config): World {
    World(map[], map[], cfg.bootstrap, map[], map[], 0, map[], [], {}, map[], [], [])
  }

  /** What the environment may do next. */
  predicate Enabled(w: World, e: Event) {
    match e
    case Established(_, id, _, _, _) => forall c :: c in w.live ==> c.id != id
    case Closed(index, _) => index < |w.live|
    case SwarmDial(target) => target !in w.dialing
    case ScorerExpiry(expired) => expired !in Peers(w.live)
    case DialCommand(wanted, _, outcome) => wanted !in w.pendingDials ==> MayReturn(w, wanted, outcome)
    case _ => true
  }

  /** A dial starts only if the peer is neither connected nor being dialed. */
  predicate MayReturn(w: World, peer: PeerId, outcome: DialOutcome) {
    var busy := peer in w.dialing || peer in Peers(w.live);
    match outcome
    case Started => !busy
    case ConditionFalse => busy
    case Refused(_) => true
  }

  /** The connection as the swarm announces it. */
  function Added(e: Event): Connection
    requires e.Established?
  {
    Connection(e.id, e.peer, e.addr, false, false, true)
  }

  // ---- The swarm's part of an event, done before the loop sees it ----

  function SwarmEstablishes(w: World, peer: PeerId, id: ConnectionId, addr: Multiaddr, dialer: bool): World {
    w.(live := w.live + [Connection(id, peer, addr, false, false, true)],
       dialing := if dialer then w.dialing - {peer} else w.dialing,
       scores := if peer in w.scores then w.scores else w.scores[peer := 0])
  }

  /** The scorer may forget or keep a peer whose last connection closes. */
  function SwarmCloses(w: World, index: nat, forget: bool): World
    requires index < |w.live|
  {
    var peer, rest := w.live[index].peer, Without(w.live, index);
    w.(live := rest,
       scores := if forget && ConnectionsOf(rest, peer) == [] then w.scores - {peer} else w.scores)
  }

  // ---- The loop's part ----

  /** Every queued request for `peer` is answered, in order. */
  function Resolved(w: World, peer: PeerId, verdict: DialVerdict): World {
    w.(answers := w.answers + Map(Queue(w, peer), (q: Waiter) => Answer(peer, q, verdict)),
       pendingDials := w.pendingDials - {peer})
  }

  function AfterAdmission(c: Connection, peer: PeerId, id: ConnectionId, exempt: bool, overHighWater: bool,
                          overSubnetCap: bool): Connection {
    c.(exempt := if c.id == id then exempt else c.exempt,
       closing := c.closing || (if overHighWater then c.peer == peer else overSubnetCap && c.id == id))
  }

  /** `enforce_connection_limits` */
  function Enforced(cfg: Config, w: World, peer: PeerId, id: ConnectionId, addr: Multiaddr): World {
    var exempt := peer in w.protected;
    var overSubnetCap := OverCap(w.counts, cfg.perSubnetCap, addr, exempt);
    var overHighWater := |w.connected| > cfg.highWater && !exempt;
    w.(counts := Counted(w.counts, addr),
       live := Map(w.live, c => AfterAdmission(c, peer, id, exempt, overHighWater, overSubnetCap)))
  }

  /** Up to the limits: the store, the waiters, the table, the score. */
  function BeforeEnforcement(cfg: Config, w: World, peer: PeerId, addr: Multiaddr, dialer: bool, now: nat): World {
    var w0 := w.(gauge := w.gauge + 1);
    var w1 := if dialer
              then Resolved(w0.(store := Recorded(w.store, peer, [addr], now)), peer, Connected)
              else w0;
    var bonus := peer in w1.dialHints || peer in cfg.bootstrap;
    w1.(connected := w1.connected[peer := TableEntry(w1, peer) + [addr]],
        scores := if bonus then Scored(w1.scores, peer, PREFERRED_PEER_APP_SCORE) else w1.scores)
  }

  // How a connection about to be admitted will be judged.

  predicate OverHighWater(cfg: Config, w: World, e: Event)
    requires e.Established?
  {
    e.peer !in w.protected && |w.connected.Keys + {e.peer}| > cfg.highWater
  }

  predicate OverSubnetCap(cfg: Config, w: World, e: Event)
    requires e.Established?
  {
    OverCap(w.counts, cfg.perSubnetCap, e.addr, e.peer in w.protected)
  }

  function HandleEstablished(cfg: Config, w: World, peer: PeerId, id: ConnectionId, addr: Multiaddr,
                             dialer: bool, now: nat): World {
    Enforced(cfg, BeforeEnforcement(cfg, w, peer, addr, dialer, now), peer, id, addr)
  }

  /** An equal address of the same peer leaves the table together with the closed one. */
  function Unlist(c: Connection, peer: PeerId, addr: Multiaddr): Connection {
    if c.peer == peer && c.addr == addr then c.(listed := false) else c
  }

  function HandleClosed(w: World, peer: PeerId, addr: Multiaddr, numEstablished: nat): World {
    var w1 := w.(gauge := w.gauge - 1, counts := Uncounted(w.counts, addr));
    if numEstablished == 0 then
      w1.(connected := w1.connected - {peer})
    else if peer in w1.connected then
      w1.(connected := w1.connected[peer := Collect(w1.connected[peer], Except(addr))],
          live := Map(w1.live, (c: Connection) => Unlist(c, peer, addr)))
    else
      w1
  }

  function TcpOnly(): Multiaddr -> seq<Multiaddr> {
    (a: Multiaddr) => if HasTcp(a) then [a] else []
  }

  function HandleIdentified(w: World, peer: PeerId, listenAddrs: seq<Multiaddr>, now: nat): World {
    var tcpAddrs := Collect(listenAddrs, TcpOnly());
    if tcpAddrs == [] then w else w.(store := Recorded(w.store, peer, tcpAddrs, now))
  }

  function HandleDial(w: World, peer: PeerId, waiter: Waiter, outcome: DialOutcome): World {
    if peer in w.pendingDials then
      w.(pendingDials := w.pendingDials[peer := w.pendingDials[peer] + [waiter]])
    else
      match outcome
      case Started => w.(pendingDials := w.pendingDials[peer := [waiter]], dialing := w.dialing + {peer})
      case ConditionFalse => w.(answers := w.answers + [Answer(peer, waiter, Connected)])
      case Refused(error) => w.(answers := w.answers + [Answer(peer, waiter, Failed(error))])
  }

  function Accepted(cfg: Config, preferred: Hints): Hints {
    preferred[..Min(ProtectedCap(cfg), |preferred|)]
  }

  /** How many entries were accepted and how many truncated, as 32-bit counts. */
  function Reply(cfg: Config, preferred: Hints): (nat, nat) {
    (|Accepted(cfg, preferred)| % U32, (|preferred| - |Accepted(cfg, preferred)|) % U32)
  }

  function Ids(preferred: Hints): set<PeerId> {
    set i | 0 <= i < |preferred| :: preferred[i].0
  }

  /** Later entries for the same peer replace earlier ones. */
  function HintTable(preferred: Hints): map<PeerId, seq<Multiaddr>> {
    if preferred == [] then map[]
    else
      var last := preferred[|preferred| - 1];
      HintTable(preferred[..|preferred| - 1])[last.0 := last.1]
  }

  function HandleSetPreferred(cfg: Config, w: World, preferred: Hints): World {
    var accepted := Accepted(cfg, preferred);
    var ids := Ids(accepted);
    w.(protected := (w.protected * cfg.bootstrap) + ids,
       dialHints := HintTable(accepted),
       scores := map p | p in w.scores ::
                   if p in ids then PREFERRED_PEER_APP_SCORE
                   else if p in w.protected && p !in cfg.bootstrap then 0
                   else w.scores[p])
  }

  // ---- Whole turns: the swarm's part, then the loop's ----

  function OnEstablished(cfg: Config, w: World, peer: PeerId, id: ConnectionId, addr: Multiaddr,
                         dialer: bool, now: nat): World {
    HandleEstablished(cfg, SwarmEstablishes(w, peer, id, addr, dialer), peer, id, addr, dialer, now)
  }

  function OnClosed(w: World, index: nat, forget: bool): World
    requires index < |w.live|
  {
    var c := w.live[index];
    var after := SwarmCloses(w, index, forget);
    HandleClosed(after, c.peer, c.addr, |ConnectionsOf(after.live, c.peer)|)
  }

  function OnOutgoingError(w: World, failed: Option<PeerId>, error: DialError): World {
    match failed
    case None => w
    case Some(peer) => Resolved(w.(dialing := w.dialing - {peer}), peer, Failed(error))
  }

  function OnDialCommand(w: World, peer: PeerId, waiter: Waiter, outcome: DialOutcome): World {
    HandleDial(w.(issued := w.issued + [Request(peer, waiter)]), peer, waiter, outcome)
  }

  function OnSwarmDial(w: World, peer: PeerId): World {
    w.(dialing := w.dialing + {peer})
  }

  function OnScorerExpiry(w: World, peer: PeerId): World {
    w.(scores := w.scores - {peer})
  }

  /** One turn of the event loop. A close of a connection that is not there changes nothing. */
  function Step(cfg: Config, w: World, e: Event): World {
    match e
    case Established(peer, id, addr, dialer, now) => OnEstablished(cfg, w, peer, id, addr, dialer, now)
    case Closed(index, forget) => if index < |w.live| then OnClosed(w, index, forget) else w
    case OutgoingError(failed, error) => OnOutgoingError(w, failed, error)
    case Identified(who, listenAddrs, seen) => HandleIdentified(w, who, listenAddrs, seen)
    case SwarmDial(target) => OnSwarmDial(w, target)
    case ScorerExpiry(expired) => OnScorerExpiry(w, expired)
    case DialCommand(wanted, waiter, outcome) => OnDialCommand(w, wanted, waiter, outcome)
    case SetPreferred(preferred) => HandleSetPreferred(cfg, w, preferred)
  }

  // ---- Runs ----

  /** The states a run passes through, each event being enabled when it happens. */
  ghost predicate Trace(cfg: Config, events: seq<Event>, states: seq<World>) {
    && |states| == |events| + 1
    && states[0] == Initial(cfg)
    && forall i {:trigger Enabled(states[i], events[i])} :: 0 <= i < |events| ==>
         Enabled(states[i], events[i]) && states[i + 1] == Step(cfg, states[i], events[i])
  }

  /** Where events lead, one after the other. */
  function Run(cfg: Config, events: seq<Event>): World {
    if events == [] then Initial(cfg)
    else Step(cfg, Run(cfg, events[..|events| - 1]), events[|events| - 1])
  }

  /** Every event was enabled when it happened. */
  ghost predicate Legal(cfg: Config, events: seq<Event>) {
    events != [] ==>
      var before := events[..|events| - 1];
      Legal(cfg, before) && Enabled(Run(cfg, before), events[|events| - 1])
  }
}
