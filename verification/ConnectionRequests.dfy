/** Dial requests: every one is answered once, in its turn, and none is forgotten. */
module ConnectionRequests {
  import opened Sequences
  import opened Addressing
  import opened Connections
  import opened ConnectionFrames

  function AnsweredFor(peer: PeerId): Answer -> seq<Waiter> {
    (a: Answer) => if a.peer == peer then [a.waiter] else []
  }

  function IssuedFor(peer: PeerId): Request -> seq<Waiter> {
    (r: Request) => if r.peer == peer then [r.waiter] else []
  }

  /** The waiters of one peer that got an answer, in the order of the answers. */
  function Served(w: World, peer: PeerId): seq<Waiter> {
    Collect(w.answers, AnsweredFor(peer))
  }

  function Asked(w: World, peer: PeerId): seq<Waiter> {
    Collect(w.issued, IssuedFor(peer))
  }

  /** First come, first served, per peer: the answered waiters and then the queued ones are all that asked. */
  ghost predicate ServedInOrder(w: World) {
    forall p :: Served(w, p) + Queue(w, p) == Asked(w, p)
  }

  /** Whoever waits, waits for a dial that is in flight. */
  ghost predicate WaitsForDial(w: World) {
    forall p :: p in w.pendingDials ==> w.pendingDials[p] != [] && p in w.dialing
  }

  ghost predicate RequestInvariant(w: World) {
    ServedInOrder(w) && WaitsForDial(w)
  }

  lemma QueueAnswered(queue: seq<Waiter>, peer: PeerId, verdict: DialVerdict, p: PeerId)
    ensures Collect(Map(queue, (q: Waiter) => Answer(peer, q, verdict)), AnsweredFor(p))
         == if p == peer then queue else []
  {
    var block := Map(queue, (q: Waiter) => Answer(peer, q, verdict));
    if p == peer {
      CollectEverything(block, AnsweredFor(p), queue);
    } else {
      CollectNothing(block, AnsweredFor(p));
    }
  }

  /** Resolving a peer's dial moves its whole queue behind the answered ones. */
  lemma ResolvedServes(w: World, peer: PeerId, verdict: DialVerdict, p: PeerId)
    ensures var w' := Resolved(w, peer, verdict);
            Served(w', p) + Queue(w', p) == Served(w, p) + Queue(w, p)
  {
    hide Collect;
    var block := Map(Queue(w, peer), (q: Waiter) => Answer(peer, q, verdict));
    CollectAppend(w.answers, block, AnsweredFor(p));
    QueueAnswered(Queue(w, peer), peer, verdict, p);
  }

  /** A request that meets a dial in flight goes to the end of the queue. */
  lemma QueuedServes(w: World, peer: PeerId, waiter: Waiter, p: PeerId)
    requires RequestInvariant(w) && peer in w.pendingDials
    ensures var queue := if p == peer then Queue(w, p) + [waiter] else Queue(w, p);
            Served(w, p) + queue == Collect(w.issued + [Request(peer, waiter)], IssuedFor(p))
  {
    hide Collect;
    CollectSnoc(w.issued, Request(peer, waiter), IssuedFor(p));
    assert Served(w, p) + Queue(w, p) == Asked(w, p);
    if p == peer {
      assert (Served(w, p) + Queue(w, p)) + [waiter] == Served(w, p) + (Queue(w, p) + [waiter]);
    }
  }

  /** A request that meets none is answered at once or starts a queue. */
  lemma UnqueuedServes(w: World, a: Answer, p: PeerId)
    requires RequestInvariant(w) && a.peer !in w.pendingDials
    ensures Collect(w.issued + [Request(a.peer, a.waiter)], IssuedFor(p))
         == Collect(w.answers + [a], AnsweredFor(p)) + Queue(w, p)
    ensures Collect(w.issued + [Request(a.peer, a.waiter)], IssuedFor(p))
         == Served(w, p) + (if p == a.peer then [a.waiter] else Queue(w, p))
  {
    hide Collect;
    CollectSnoc(w.issued, Request(a.peer, a.waiter), IssuedFor(p));
    CollectSnoc(w.answers, a, AnsweredFor(p));
    assert Served(w, p) + Queue(w, p) == Asked(w, p);
    if p == a.peer {
      assert Served(w, p) + [] == Served(w, p);
      assert (Served(w, p) + [a.waiter]) + [] == Served(w, p) + [a.waiter];
    }
  }

  lemma DialServes(w: World, peer: PeerId, waiter: Waiter, outcome: DialOutcome)
    requires RequestInvariant(w)
    ensures RequestInvariant(OnDialCommand(w, peer, waiter, outcome))
  {
    hide Collect;
    var w' := OnDialCommand(w, peer, waiter, outcome);
    forall p ensures Served(w', p) + Queue(w', p) == Asked(w', p) {
      if peer in w.pendingDials {
        QueuedServes(w, peer, waiter, p);
      } else {
        UnqueuedServes(w, Answer(peer, waiter, if outcome.Refused? then Failed(outcome.error) else Connected), p);
      }
    }
  }

  lemma ResolutionKeepsRequests(w: World, w': World, peer: PeerId, verdict: DialVerdict)
    requires RequestInvariant(w)
    requires w'.answers == Resolved(w, peer, verdict).answers
    requires w'.pendingDials == w.pendingDials - {peer} && w'.dialing == w.dialing - {peer}
    requires w'.issued == w.issued
    ensures RequestInvariant(w')
  {
    forall p ensures Served(w', p) + Queue(w', p) == Asked(w', p) {
      ResolvedServes(w, peer, verdict, p);
    }
  }

  lemma StepKeepsRequests(cfg: Config, w: World, e: Event)
    requires RequestInvariant(w)
    ensures RequestInvariant(Step(cfg, w, e))
  {
    hide OnEstablished, OnClosed, OnDialCommand, Collect;
    var w' := Step(cfg, w, e);
    match e
    case Established(peer, _, _, dialer, _) =>
      EstablishedFrame(cfg, w, e);
      if dialer {
        ResolutionKeepsRequests(w, w', peer, Connected);
      } else {
        RequestsUntouched(w, w');
      }
    case Closed(index, _) =>
      if index < |w.live| {
        ClosedFrame(cfg, w, e);
        RequestsUntouched(w, w');
      }
    case OutgoingError(failed, error) =>
      if failed.Some? {
        ResolutionKeepsRequests(w, w', failed.value, Failed(error));
      }
    case DialCommand(wanted, waiter, outcome) => DialServes(w, wanted, waiter, outcome);
    case SwarmDial(target) =>
      RequestsUntouched(w, w'.(dialing := w.dialing));
      assert forall p :: Queue(w', p) == Queue(w, p) && Served(w', p) == Served(w, p) && Asked(w', p) == Asked(w, p);
    case _ =>
      QuietRequests(cfg, w, e);
      RequestsUntouched(w, w');
  }

  lemma RequestsUntouched(w: World, w': World)
    requires RequestInvariant(w) && SameRequests(w, w')
    ensures RequestInvariant(w')
  {
    assert forall p :: Served(w', p) == Served(w, p) && Queue(w', p) == Queue(w, p) && Asked(w', p) == Asked(w, p);
  }

  lemma QuietRequests(cfg: Config, w: World, e: Event)
    requires e.Identified? || e.ScorerExpiry? || e.SetPreferred?
    ensures SameRequests(w, Step(cfg, w, e))
  {
    hide Collect;
  }

  lemma {:induction false} RequestsInEveryRun(cfg: Config, events: seq<Event>, states: seq<World>, i: nat)
    requires Trace(cfg, events, states) && i < |states|
    ensures RequestInvariant(states[i])
  {
    hide Step, Enabled;
    if i > 0 {
      RequestsInEveryRun(cfg, events, states, i - 1);
      assert Enabled(states[i - 1], events[i - 1]);
      StepKeepsRequests(cfg, states[i - 1], events[i - 1]);
    }
  }

  /** Once no dial is in flight every request has its answer, in the order of asking. */
  lemma IdleMeansAnswered(w: World, peer: PeerId)
    requires RequestInvariant(w) && w.dialing == {}
    ensures Served(w, peer) == Asked(w, peer)
  {
    hide Collect;
    assert Queue(w, peer) == [];
    assert Served(w, peer) + [] == Served(w, peer);
  }

  // ---- Coalesced requests ----

  /** All who wait on one dial are answered together, alike and in order. */
  ghost predicate AnsweredTogether(w: World, w': World, peer: PeerId, verdict: DialVerdict) {
    && peer !in w'.pendingDials
    && w'.answers == w.answers + Map(Queue(w, peer), (q: Waiter) => Answer(peer, q, verdict))
  }

  /** They still wait, in the same order, perhaps with a newcomer behind them. */
  ghost predicate StillWaiting(w: World, w': World, peer: PeerId) {
    && Queue(w, peer) <= Queue(w', peer)
    && Served(w', peer) == Served(w, peer)
  }

  /** What ends the dial that `peer`'s waiters wait for, and with which verdict. */
  function Ending(e: Event, peer: PeerId): Option<DialVerdict> {
    match e
    case Established(p, _, _, dialer, _) => if dialer && p == peer then Some(Connected) else None
    case OutgoingError(failed, error) => if failed == Some(peer) then Some(Failed(error)) else None
    case _ => None
  }

  lemma QueueFate(cfg: Config, w: World, e: Event, peer: PeerId)
    requires peer in w.pendingDials
    ensures match Ending(e, peer)
            case Some(verdict) => AnsweredTogether(w, Step(cfg, w, e), peer, verdict)
            case None => StillWaiting(w, Step(cfg, w, e), peer)
  {
    hide OnEstablished, OnClosed, OnDialCommand, Collect;
    var w' := Step(cfg, w, e);
    match e
    case Established(p, _, _, dialer, _) =>
      EstablishedFrame(cfg, w, e);
      if dialer && p != peer {
        ResolvedServes(w, p, Connected, peer);
        OthersUnserved(w, p, Connected, peer);
      }
    case OutgoingError(failed, error) =>
      if failed.Some? && failed.value != peer {
        OthersUnserved(w, failed.value, Failed(error), peer);
      }
    case Closed(index, _) => if index < |w.live| { ClosedFrame(cfg, w, e); }
    case DialCommand(wanted, waiter, outcome) => WaitingThroughDial(w, wanted, waiter, outcome, peer);
    case SwarmDial(target) =>
    case _ => QuietRequests(cfg, w, e);
  }

  lemma WaitingThroughDial(w: World, wanted: PeerId, waiter: Waiter, outcome: DialOutcome, peer: PeerId)
    requires peer in w.pendingDials
    ensures StillWaiting(w, OnDialCommand(w, wanted, waiter, outcome), peer)
  {
    hide Collect;
    var w' := OnDialCommand(w, wanted, waiter, outcome);
    if |w'.answers| > |w.answers| {
      CollectSnoc(w.answers, w'.answers[|w.answers|], AnsweredFor(peer));
    }
  }

  lemma OthersUnserved(w: World, p: PeerId, verdict: DialVerdict, peer: PeerId)
    requires p != peer
    ensures Served(Resolved(w, p, verdict), peer) == Served(w, peer)
  {
    var block := Map(Queue(w, p), (q: Waiter) => Answer(p, q, verdict));
    CollectAppend(w.answers, block, AnsweredFor(peer));
    QueueAnswered(Queue(w, p), p, verdict, peer);
  }

  // ---- What a positive answer means ----

  /** The command meets no queue, is not dialed for, and its peer is being dialed but not connected. */
  predicate FindsOnlyADial(w: World, e: Event) {
    && e.DialCommand?
    && e.wanted !in w.pendingDials
    && e.outcome == ConditionFalse
    && e.wanted in w.dialing
    && e.wanted !in Peers(w.live)
  }

  lemma ConnectedByCommand(w: World, wanted: PeerId, waiter: Waiter, outcome: DialOutcome, i: nat)
    requires wanted !in w.pendingDials ==> MayReturn(w, wanted, outcome)
    requires var after := OnDialCommand(w, wanted, waiter, outcome).answers;
             |w.answers| <= i < |after| && after[i].verdict.Connected?
    ensures var w' := OnDialCommand(w, wanted, waiter, outcome);
            && w'.live == w.live && w'.dialing == w.dialing && w'.answers[i].peer == wanted
            && wanted in Peers(w.live) + w.dialing
            && wanted !in w.pendingDials && outcome == ConditionFalse
  {
    hide Peers;
  }

  /**
   A request is told it is connected only when the peer has a connection or a dial on the
   way, for a command one that was there before; and it has a connection except exactly when
   the request finds it only being dialed.
   */
  lemma ConnectedIsJustified(cfg: Config, w: World, e: Event, i: nat)
    requires Enabled(w, e)
    requires |w.answers| <= i < |Step(cfg, w, e).answers| && Step(cfg, w, e).answers[i].verdict.Connected?
    ensures var w' := Step(cfg, w, e);
            && w'.answers[i].peer in Peers(w'.live) + w'.dialing
            && (e.DialCommand? ==> e.wanted in Peers(w.live) + w.dialing)
            && (w'.answers[i].peer in Peers(w'.live) <==> !FindsOnlyADial(w, e))
  {
    hide OnEstablished, OnClosed, OnDialCommand, Peers, Collect;
    var w' := Step(cfg, w, e);
    match e
    case Established(peer, _, _, dialer, _) =>
      EstablishedFrame(cfg, w, e);
      AddedIsLive(cfg, w, e);
    case Closed(index, _) => if index < |w.live| { ClosedFrame(cfg, w, e); }
    case DialCommand(wanted, waiter, outcome) => ConnectedByCommand(w, wanted, waiter, outcome, i);
    case OutgoingError(_, _) =>
    case SwarmDial(_) =>
    case _ => QuietRequests(cfg, w, e);
  }

  /** A request is told that it failed only by the error of its peer's dial, or of its own refusal. */
  lemma FailedIsJustified(cfg: Config, w: World, e: Event, i: nat)
    requires |w.answers| <= i < |Step(cfg, w, e).answers| && Step(cfg, w, e).answers[i].verdict.Failed?
    ensures var answer := Step(cfg, w, e).answers[i];
            || e == OutgoingError(Some(answer.peer), answer.verdict.error)
            || e == DialCommand(answer.peer, answer.waiter, Refused(answer.verdict.error))
  {
    hide OnEstablished, OnClosed, OnDialCommand, Collect;
    match e
    case Established(_, _, _, _, _) => EstablishedFrame(cfg, w, e);
    case Closed(index, _) => if index < |w.live| { ClosedFrame(cfg, w, e); }
    case DialCommand(wanted, waiter, outcome) => FailedByCommand(w, wanted, waiter, outcome, i);
    case OutgoingError(_, _) =>
    case SwarmDial(_) =>
    case _ => QuietRequests(cfg, w, e);
  }

  lemma FailedByCommand(w: World, wanted: PeerId, waiter: Waiter, outcome: DialOutcome, i: nat)
    requires var after := OnDialCommand(w, wanted, waiter, outcome).answers;
             |w.answers| <= i < |after| && after[i].verdict.Failed?
    ensures var answer := OnDialCommand(w, wanted, waiter, outcome).answers[i];
            outcome == Refused(answer.verdict.error) && answer.peer == wanted && answer.waiter == waiter
  {
  }

  lemma AddedIsLive(cfg: Config, w: World, e: Event)
    requires e.Established?
    ensures e.peer in Peers(Step(cfg, w, e).live)
  {
    hide Step, OverHighWater, OverSubnetCap;
    EstablishedLive(cfg, w, e, e.peer in w.protected, OverHighWater(cfg, w, e), OverSubnetCap(cfg, w, e));
    assert Step(cfg, w, e).live[|w.live|].peer == e.peer;
  }

  // ---- At most one answer ----

  lemma AskedIsIssued(issued: seq<Request>, peer: PeerId, waiter: Waiter)
    requires waiter in Collect(issued, IssuedFor(peer))
    ensures Request(peer, waiter) in issued
  {
    CollectMember(issued, IssuedFor(peer), waiter);
  }

  lemma {:induction false} AskedDistinct(issued: seq<Request>, peer: PeerId)
    requires Distinct(issued)
    ensures Distinct(Collect(issued, IssuedFor(peer)))
  {
    if issued != [] {
      var first, rest := issued[0], issued[1..];
      AskedDistinct(rest, peer);
      if first.peer == peer && first.waiter in Collect(rest, IssuedFor(peer)) {
        AskedIsIssued(rest, peer, first.waiter);
      }
    }
  }

  /** When requests are told apart, no request is answered twice, nor answered while it still waits. */
  lemma AnsweredOnce(w: World, i: nat, j: nat)
    requires RequestInvariant(w) && Distinct(w.issued) && i < j < |w.answers|
    ensures (w.answers[i].peer, w.answers[i].waiter) != (w.answers[j].peer, w.answers[j].waiter)
    ensures w.answers[i].waiter !in Queue(w, w.answers[i].peer)
  {
    hide Collect;
    var a, peer := w.answers[i], w.answers[i].peer;
    AskedDistinct(w.issued, peer);
    assert Served(w, peer) + Queue(w, peer) == Asked(w, peer);
    CollectSplit(w.answers, i, AnsweredFor(peer));
    var before, after := Collect(w.answers[..i], AnsweredFor(peer)), Collect(w.answers[i + 1..], AnsweredFor(peer));
    assert Asked(w, peer) == before + [a.waiter] + after + Queue(w, peer);
    assert Asked(w, peer)[|before|] == a.waiter;
    var later := after + Queue(w, peer);
    assert forall k :: 0 <= k < |later| ==> Asked(w, peer)[|before| + 1 + k] == later[k];
    assert a.waiter !in later;
    if w.answers[j].peer == peer && w.answers[j].waiter == a.waiter {
      assert w.answers[i + 1..][j - i - 1] == w.answers[j];
      assert a.waiter in AnsweredFor(peer)(w.answers[i + 1..][j - i - 1]);
      CollectMember(w.answers[i + 1..], AnsweredFor(peer), a.waiter);
    }
  }
}
