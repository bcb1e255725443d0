/** A one-shot delegate: session events pass a filtering forwarder, a bounded
    channel, a bridge that watches for the end of the turn, and a second bounded
    channel to the caller; ops pass the other way. The tasks interleave freely
    and may be cancelled at any time. */
module DelegatePipeline {

  datatype Kind =
    | TokenCount | SessionConfigured | McpStartupUpdate | McpStartupComplete
    | TurnComplete | TurnAborted
    | Public

  datatype Event = Event(kind: Kind, payload: nat)

  predicate Hidden(e: Event) {
    e.kind.TokenCount? || e.kind.SessionConfigured? || e.kind.McpStartupUpdate? || e.kind.McpStartupComplete?
  }

  predicate EndsTurn(e: Event) {
    e.kind.TurnComplete? || e.kind.TurnAborted?
  }

  datatype Op = Input | Interrupt | Shutdown

  /** Who submits an op to the session: `forward_ops`, or `shutdown_delegate`. */
  datatype Sender = OpsTask | ShutdownTask

  datatype Submission = Submission(who: Sender, op: Op)

  /** `forward_events`, with the two submissions and the drain of
      `shutdown_delegate`. */
  datatype Forwarder =
    | Selecting
    | Sending(event: Event)
    | Interrupting
    | ShuttingDown
    | Draining
    | Stopped(shut: bool)

  /** The bridge loop of the one-shot variant. */
  datatype Bridge =
    | Receiving
    | Passing(event: Event)
    | Checking(event: Event)
    | Requesting
    | Cancelling
    | Finished(ended: bool)

  /** `forward_ops`. */
  datatype OpsForwarder = Idle | Submitting(op: Op) | Quit

  /** `emitted` is what the session produced and `consumed` how much of it the
      forwarder took, `drainFrom` how much when it began to drain; `taken` is what
      the bridge received, `requested` whether its shutdown request was taken, and
      `submitted` what the machinery sent to the session. */
  datatype State = State(
    emitted: seq<Event>, consumed: nat, drainFrom: nat, sessionClosed: bool,
    forwarder: Forwarder, subQueue: seq<Event>,
    bridge: Bridge, taken: seq<Event>, bridgeQueue: seq<Event>, requested: bool,
    callerOpen: bool, received: seq<Event>,
    ops: OpsForwarder, opsQueue: seq<Op>, submitted: seq<Submission>,
    parentCancelled: bool, cancelled: bool)

  /** The start of the bridge: the initial input was handed to the op channel. */
  const INITIAL :=
    State([], 0, 0, false, Selecting, [], Receiving, [], [], false, true, [], Idle, [Input], [], false, false)

  datatype Step =
    | Emit(event: Event) | CloseSession | CancelParent
    | ForwardReceive | ForwardEnd | ForwardSeeCancel | ForwardSend | ForwardSendFails
    | SubmitInterrupt | SubmitShutdown | Drain | DrainEnds
    | BridgeReceive | BridgeEnd | BridgeSend | BridgeSendFails
    | BridgeCheck | BridgeRequest | BridgeRequestFails | BridgeCancel
    | OpsReceive | OpsQuit | OpsSubmit
    | CallerReceive | CallerDrop

  predicate BridgeDone(s: State) {
    s.bridge.Finished?
  }

  predicate Enabled(cap: nat, s: State, step: Step) {
    match step
    case Emit(_) => !s.sessionClosed
    case CloseSession => true
    case CancelParent => true
    case ForwardReceive => s.forwarder.Selecting? && s.consumed < |s.emitted|
    case ForwardEnd => s.forwarder.Selecting? && s.consumed == |s.emitted| && s.sessionClosed
    case ForwardSeeCancel => s.forwarder.Selecting? && s.cancelled
    case ForwardSend => s.forwarder.Sending? && !BridgeDone(s) && |s.subQueue| < cap
    case ForwardSendFails => s.forwarder.Sending? && (s.cancelled || BridgeDone(s))
    case SubmitInterrupt => s.forwarder.Interrupting?
    case SubmitShutdown => s.forwarder.ShuttingDown?
    case Drain => s.forwarder.Draining? && s.consumed < |s.emitted|
    case DrainEnds => s.forwarder.Draining?
    case BridgeReceive => s.bridge.Receiving? && s.subQueue != []
    case BridgeEnd => s.bridge.Receiving? && s.subQueue == [] && s.forwarder.Stopped?
    case BridgeSend => s.bridge.Passing? && s.callerOpen && |s.bridgeQueue| < cap
    case BridgeSendFails => s.bridge.Passing? && !s.callerOpen
    case BridgeCheck => s.bridge.Checking?
    case BridgeRequest => s.bridge.Requesting? && !s.ops.Quit? && |s.opsQueue| < cap
    case BridgeRequestFails => s.bridge.Requesting? && s.ops.Quit?
    case BridgeCancel => s.bridge.Cancelling?
    case OpsReceive => s.ops.Idle? && s.opsQueue != []
    case OpsQuit => s.ops.Idle? && (s.cancelled || (s.opsQueue == [] && BridgeDone(s)))
    case OpsSubmit => s.ops.Submitting?
    case CallerReceive => s.callerOpen && s.bridgeQueue != []
    case CallerDrop => true
  }

  function Do(cap: nat, s: State, step: Step): State
    requires Enabled(cap, s, step)
  {
    match step
    case Emit(e) => s.(emitted := s.emitted + [e])
    case CloseSession => s.(sessionClosed := true)
    case CancelParent => s.(parentCancelled := true, cancelled := true)
    case ForwardReceive =>
      var e := s.emitted[s.consumed];
      s.(consumed := s.consumed + 1, forwarder := if Hidden(e) then Selecting else Sending(e))
    case ForwardEnd => s.(forwarder := Stopped(false))
    case ForwardSeeCancel => s.(forwarder := Interrupting)
    case ForwardSend => s.(subQueue := s.subQueue + [s.forwarder.event], forwarder := Selecting)
    case ForwardSendFails => s.(forwarder := Interrupting)
    case SubmitInterrupt =>
      s.(submitted := s.submitted + [Submission(ShutdownTask, Interrupt)], forwarder := ShuttingDown)
    case SubmitShutdown =>
      s.(submitted := s.submitted + [Submission(ShutdownTask, Shutdown)],
         forwarder := Draining, drainFrom := s.consumed)
    case Drain =>
      s.(consumed := s.consumed + 1, forwarder := if EndsTurn(s.emitted[s.consumed]) then Stopped(true) else Draining)
    case DrainEnds => s.(forwarder := Stopped(true))
    case BridgeReceive =>
      s.(subQueue := s.subQueue[1..], taken := s.taken + [s.subQueue[0]], bridge := Passing(s.subQueue[0]))
    case BridgeEnd => s.(bridge := Finished(false))
    case BridgeSend => s.(bridgeQueue := s.bridgeQueue + [s.bridge.event], bridge := Checking(s.bridge.event))
    case BridgeSendFails => s.(bridge := Checking(s.bridge.event))
    case BridgeCheck => s.(bridge := if EndsTurn(s.bridge.event) then Requesting else Receiving)
    case BridgeRequest => s.(opsQueue := s.opsQueue + [Shutdown], bridge := Cancelling, requested := true)
    case BridgeRequestFails => s.(bridge := Cancelling)
    case BridgeCancel => s.(cancelled := true, bridge := Finished(true))
    case OpsReceive => s.(ops := Submitting(s.opsQueue[0]), opsQueue := s.opsQueue[1..])
    case OpsQuit => s.(ops := Quit)
    case OpsSubmit => s.(submitted := s.submitted + [Submission(OpsTask, s.ops.op)], ops := Idle)
    case CallerReceive => s.(received := s.received + [s.bridgeQueue[0]], bridgeQueue := s.bridgeQueue[1..])
    case CallerDrop => s.(callerOpen := false)
  }

  ghost predicate Run(cap: nat, s: State, steps: seq<Step>)
    decreases |steps|
  {
    steps == [] || (Enabled(cap, s, steps[0]) && Run(cap, Do(cap, s, steps[0]), steps[1..]))
  }

  ghost function After(cap: nat, s: State, steps: seq<Step>): State
    requires Run(cap, s, steps)
    decreases |steps|
  {
    if steps == [] then s else After(cap, Do(cap, s, steps[0]), steps[1..])
  }

  // ---- what the caller may expect -------------------------------------------

  /** The events a caller is meant to see. */
  function Visible(events: seq<Event>): seq<Event> {
    if events == [] then []
    else
      var last := |events| - 1;
      Visible(events[..last]) + (if Hidden(events[last]) then [] else [events[last]])
  }

  /** Up to and including the first event that ends the turn. */
  function Cut(events: seq<Event>): seq<Event> {
    if events == [] then []
    else if EndsTurn(events[0]) then [events[0]]
    else [events[0]] + Cut(events[1..])
  }

  predicate NoEnd(events: seq<Event>) {
    forall i :: 0 <= i < |events| ==> !EndsTurn(events[i])
  }

  lemma {:induction false} VisibleGrows(events: seq<Event>, n: nat)
    requires n <= |events|
    ensures Visible(events[..n]) <= Visible(events)
    decreases |events|
  {
    if n == |events| {
      assert events[..n] == events;
    } else {
      assert events[..|events| - 1][..n] == events[..n];
      VisibleGrows(events[..|events| - 1], n);
    }
  }

  /** A prefix whose only turn end, if any, is its last event is a prefix of the
      cut; and it is the whole cut once it has that turn end. */
  lemma {:induction false} PrefixOfCut(part: seq<Event>, all: seq<Event>)
    requires part <= all && (part == [] || NoEnd(part[..|part| - 1]))
    ensures part <= Cut(all)
    ensures part != [] && EndsTurn(part[|part| - 1]) ==> part == Cut(all)
  {
    if part != [] {
      if |part| > 1 {
        assert part[..|part| - 1][0] == part[0];
        assert part[1..][..|part| - 2] == part[..|part| - 1][1..];
        PrefixOfCut(part[1..], all[1..]);
        assert part == [part[0]] + part[1..];
      } else {
        assert part == [all[0]];
      }
    }
  }

  // ---- invariants -----------------------------------------------------------

  predicate Shutting(f: Forwarder) {
    f.Interrupting? || f.ShuttingDown? || f.Draining? || f == Stopped(true)
  }

  /** The bridge has received the end of the turn. */
  predicate SawEnd(b: Bridge) {
    b.Requesting? || b.Cancelling? || b == Finished(true) ||
    ((b.Passing? || b.Checking?) && EndsTurn(b.event))
  }

  function InFlight(f: Forwarder): seq<Event> {
    if f.Sending? then [f.event] else []
  }

  /** Upstream, where `forwarded` is what has passed the forwarder: before a
      shutdown everything visible is accounted for; after it nothing is out of
      order. */
  predicate Upstream(f: Forwarder, forwarded: seq<Event>, visible: seq<Event>) {
    if Shutting(f) then forwarded <= visible else forwarded + InFlight(f) == visible
  }

  predicate UpstreamInvariant(s: State) {
    s.consumed <= |s.emitted| && Upstream(s.forwarder, s.taken + s.subQueue, Visible(s.emitted[..s.consumed]))
  }

  /** The bridge holds at most one event and stops at the end of the turn. */
  predicate Taken(b: Bridge, taken: seq<Event>) {
    && (b.Passing? || b.Checking? ==> taken != [] && taken[|taken| - 1] == b.event)
    && (if SawEnd(b) then taken != [] && EndsTurn(taken[|taken| - 1]) && NoEnd(taken[..|taken| - 1])
        else NoEnd(taken))
  }

  /** The bridge passes everything on while the caller listens. */
  predicate Delivery(b: Bridge, taken: seq<Event>, delivered: seq<Event>, listening: bool) {
    && (b.Passing? ==> taken != [] && taken[|taken| - 1] == b.event)
    && delivered <= taken
    && (listening ==> delivered == if b.Passing? then taken[..|taken| - 1] else taken)
  }

  predicate DeliveryInvariant(s: State) {
    Delivery(s.bridge, s.taken, s.received + s.bridgeQueue, s.callerOpen)
  }

  /** Who shut down, and why. */
  predicate Causes(s: State) {
    && (s.parentCancelled ==> s.cancelled)
    && (s.cancelled ==> s.parentCancelled || s.bridge == Finished(true))
    && (s.bridge == Finished(true) ==> s.cancelled)
    && (Shutting(s.forwarder) ==> s.cancelled)
    && (s.bridge == Finished(false) ==> s.forwarder.Stopped? && s.subQueue == [])
    && (s.forwarder == Stopped(false) ==> s.sessionClosed && s.consumed == |s.emitted|)
  }

  predicate Capacities(cap: nat, s: State) {
    |s.subQueue| <= cap && |s.bridgeQueue| <= cap && |s.opsQueue| <= cap
  }

  /** What one sender submitted, in order. */
  function Sent(submitted: seq<Submission>, who: Sender): seq<Op> {
    if submitted == [] then []
    else
      var last := |submitted| - 1;
      Sent(submitted[..last], who) + (if submitted[last].who == who then [submitted[last].op] else [])
  }

  /** What a shutdown has submitted by the time it stands where it does. */
  function ShutdownOps(f: Forwarder): seq<Op> {
    match f
    case ShuttingDown => [Interrupt]
    case Draining => [Interrupt, Shutdown]
    case Stopped(shut) => if shut then [Interrupt, Shutdown] else []
    case _ => []
  }

  function InHand(o: OpsForwarder): seq<Op> {
    if o.Submitting? then [o.op] else []
  }

  /** What entered the op channel: the initial input, and the bridge's request. */
  function Entered(requested: bool): seq<Op> {
    [Input] + (if requested then [Shutdown] else [])
  }

  predicate TurnOver(b: Bridge) {
    b.Cancelling? || b == Finished(true)
  }

  /** Ops are conserved, in order: what entered the channel was submitted, is in the
      forwarder's hands or waits. */
  predicate Conserved(submitted: seq<Submission>, ops: OpsForwarder, queue: seq<Op>, requested: bool) {
    Sent(submitted, OpsTask) + InHand(ops) + queue == Entered(requested)
  }

  /** A shutdown submits what it must. */
  predicate ShutdownSent(submitted: seq<Submission>, f: Forwarder) {
    Sent(submitted, ShutdownTask) == ShutdownOps(f)
  }

  predicate Requests(s: State) {
    && (s.requested ==> TurnOver(s.bridge))
    && (TurnOver(s.bridge) && !s.requested ==> s.ops.Quit?)
    && (s.ops.Quit? && s.opsQueue != [] ==> s.cancelled)
  }

  predicate Submissions(s: State) {
    Conserved(s.submitted, s.ops, s.opsQueue, s.requested) && ShutdownSent(s.submitted, s.forwarder) && Requests(s)
  }

  /** Draining stops at the first end of the turn. */
  predicate Drained(s: State) {
    && (s.forwarder.Draining? ==>
          s.drainFrom <= s.consumed <= |s.emitted| && NoEnd(s.emitted[s.drainFrom..s.consumed]))
    && (s.forwarder == Stopped(true) ==>
          s.drainFrom <= s.consumed <= |s.emitted| &&
          (s.drainFrom < s.consumed ==> NoEnd(s.emitted[s.drainFrom..s.consumed - 1])))
  }

  predicate Invariant(cap: nat, s: State) {
    && UpstreamInvariant(s) && Taken(s.bridge, s.taken) && DeliveryInvariant(s)
    && Causes(s) && Capacities(cap, s) && Submissions(s) && Drained(s)
  }

  lemma UpstreamMoves(f: Forwarder, g: Forwarder, forwarded: seq<Event>, visible: seq<Event>)
    requires Upstream(f, forwarded, visible) && (Shutting(g) || InFlight(g) == InFlight(f))
    requires Shutting(f) ==> Shutting(g)
    ensures Upstream(g, forwarded, visible)
  {
  }

  lemma UpstreamConsumes(f: Forwarder, forwarded: seq<Event>, visible: seq<Event>, e: Event, g: Forwarder)
    requires Upstream(f, forwarded, visible)
    requires (Shutting(f) && Shutting(g)) || (f.Selecting? && g == if Hidden(e) then Selecting else Sending(e))
    ensures Upstream(g, forwarded, visible + if Hidden(e) then [] else [e])
  {
    assert forwarded + [] == forwarded && visible + [] == visible;
  }

  lemma UpstreamKept(cap: nat, s: State, step: Step)
    requires UpstreamInvariant(s) && Enabled(cap, s, step)
    ensures UpstreamInvariant(Do(cap, s, step))
  {
    hide Upstream, Visible;
    var t := Do(cap, s, step);
    var forwarded, visible := s.taken + s.subQueue, Visible(s.emitted[..s.consumed]);
    match step {
      case Emit(e) => assert t.emitted[..s.consumed] == s.emitted[..s.consumed];
      case ForwardReceive | Drain =>
        ConsumeOne(s);
        UpstreamConsumes(s.forwarder, forwarded, visible, s.emitted[s.consumed], t.forwarder);
      case ForwardEnd | ForwardSeeCancel | ForwardSendFails | SubmitInterrupt | SubmitShutdown | DrainEnds =>
        UpstreamMoves(s.forwarder, t.forwarder, forwarded, visible);
      case ForwardSend =>
        assert s.taken + (s.subQueue + [s.forwarder.event]) == forwarded + [s.forwarder.event];
        UpstreamSends(s.forwarder, forwarded, visible);
      case BridgeReceive => assert s.taken + [s.subQueue[0]] + s.subQueue[1..] == forwarded;
      case _ =>
    }
  }

  lemma UpstreamSends(f: Forwarder, forwarded: seq<Event>, visible: seq<Event>)
    requires f.Sending? && Upstream(f, forwarded, visible)
    ensures Upstream(Selecting, forwarded + [f.event], visible)
  {
    assert forwarded + [f.event] + [] == forwarded + [f.event];
  }

  lemma ConsumeOne(s: State)
    requires s.consumed < |s.emitted|
    ensures var e := s.emitted[s.consumed];
            Visible(s.emitted[..s.consumed + 1]) == Visible(s.emitted[..s.consumed]) + (if Hidden(e) then [] else [e])
  {
    assert s.emitted[..s.consumed + 1][..s.consumed] == s.emitted[..s.consumed];
  }

  lemma TakenKept(cap: nat, s: State, step: Step)
    requires Taken(s.bridge, s.taken) && Enabled(cap, s, step)
    ensures var t := Do(cap, s, step); Taken(t.bridge, t.taken)
  {
    var t := Do(cap, s, step);
    hide Taken, SawEnd;
    match step {
      case BridgeReceive => TakenGrows(s.bridge, s.taken, s.subQueue[0]);
      case BridgeEnd | BridgeSend | BridgeSendFails | BridgeCheck | BridgeRequest | BridgeRequestFails | BridgeCancel =>
        TakenMoves(s.bridge, s.taken, t.bridge);
      case _ =>
    }
  }

  lemma TakenGrows(b: Bridge, taken: seq<Event>, e: Event)
    requires b.Receiving? && Taken(b, taken)
    ensures Taken(Passing(e), taken + [e])
  {
    assert (taken + [e])[..|taken|] == taken;
  }

  lemma TakenMoves(b: Bridge, taken: seq<Event>, c: Bridge)
    requires Taken(b, taken)
    requires match b
             case Receiving => c == Finished(false)
             case Passing(e) => c == Checking(e)
             case Checking(e) => c == if EndsTurn(e) then Requesting else Receiving
             case Requesting => c == Cancelling
             case Cancelling => c == Finished(true)
             case Finished(_) => c == b
    ensures Taken(c, taken)
  {
  }

  lemma DeliveryKept(cap: nat, s: State, step: Step)
    requires DeliveryInvariant(s) && Enabled(cap, s, step)
    ensures DeliveryInvariant(Do(cap, s, step))
  {
    var t := Do(cap, s, step);
    var delivered := s.received + s.bridgeQueue;
    hide Delivery;
    match step {
      case BridgeReceive => DeliveryStarts(s.bridge, s.taken, delivered, s.callerOpen, s.subQueue[0]);
      case BridgeSend =>
        assert s.received + (s.bridgeQueue + [s.bridge.event]) == delivered + [s.bridge.event];
        DeliveryPasses(s.bridge, s.taken, delivered);
      case BridgeEnd | BridgeSendFails | BridgeCheck | BridgeRequest | BridgeRequestFails | BridgeCancel =>
        DeliveryMoves(s.bridge, s.taken, delivered, s.callerOpen, t.bridge);
      case CallerReceive => assert s.received + [s.bridgeQueue[0]] + s.bridgeQueue[1..] == delivered;
      case CallerDrop => DeliveryIgnored(s.bridge, s.taken, delivered, s.callerOpen);
      case _ =>
    }
  }

  lemma DeliveryStarts(b: Bridge, taken: seq<Event>, delivered: seq<Event>, listening: bool, e: Event)
    requires b.Receiving? && Delivery(b, taken, delivered, listening)
    ensures Delivery(Passing(e), taken + [e], delivered, listening)
  {
    assert (taken + [e])[..|taken|] == taken;
  }

  lemma DeliveryPasses(b: Bridge, taken: seq<Event>, delivered: seq<Event>)
    requires b.Passing? && Delivery(b, taken, delivered, true)
    ensures Delivery(Checking(b.event), taken, delivered + [b.event], true)
  {
    assert taken == taken[..|taken| - 1] + [b.event];
  }

  lemma DeliveryMoves(b: Bridge, taken: seq<Event>, delivered: seq<Event>, listening: bool, c: Bridge)
    requires Delivery(b, taken, delivered, listening) && !c.Passing? && (b.Passing? ==> !listening)
    ensures Delivery(c, taken, delivered, listening)
  {
  }

  lemma DeliveryIgnored(b: Bridge, taken: seq<Event>, delivered: seq<Event>, listening: bool)
    requires Delivery(b, taken, delivered, listening)
    ensures Delivery(b, taken, delivered, false)
  {
  }

  lemma CausesKept(cap: nat, s: State, step: Step)
    requires Causes(s) && Enabled(cap, s, step)
    ensures Causes(Do(cap, s, step))
  {
    match step {
      case Emit(_) | CloseSession | CancelParent =>
      case ForwardReceive | ForwardEnd | ForwardSeeCancel | ForwardSend | ForwardSendFails =>
      case SubmitInterrupt | SubmitShutdown | Drain | DrainEnds =>
      case BridgeReceive | BridgeEnd | BridgeSend | BridgeSendFails =>
      case BridgeCheck | BridgeRequest | BridgeRequestFails | BridgeCancel =>
      case OpsReceive | OpsQuit | OpsSubmit | CallerReceive | CallerDrop =>
    }
  }

  lemma CapacitiesKept(cap: nat, s: State, step: Step)
    requires Capacities(cap, s) && Enabled(cap, s, step)
    ensures Capacities(cap, Do(cap, s, step))
  {
    match step {
      case Emit(_) | CloseSession | CancelParent =>
      case ForwardReceive | ForwardEnd | ForwardSeeCancel | ForwardSend | ForwardSendFails =>
      case SubmitInterrupt | SubmitShutdown | Drain | DrainEnds =>
      case BridgeReceive | BridgeEnd | BridgeSend | BridgeSendFails =>
      case BridgeCheck | BridgeRequest | BridgeRequestFails | BridgeCancel =>
      case OpsReceive | OpsQuit | OpsSubmit | CallerReceive | CallerDrop =>
    }
  }

  lemma SentNext(submitted: seq<Submission>, x: Submission, who: Sender)
    ensures Sent(submitted + [x], who) == Sent(submitted, who) + (if x.who == who then [x.op] else [])
  {
    assert (submitted + [x])[..|submitted|] == submitted;
  }

  lemma OpReceived(submitted: seq<Submission>, queue: seq<Op>, requested: bool)
    requires Conserved(submitted, Idle, queue, requested) && queue != []
    ensures Conserved(submitted, Submitting(queue[0]), queue[1..], requested)
  {
    hide Sent;
    var sent := Sent(submitted, OpsTask);
    assert sent + [] + queue == sent + [queue[0]] + queue[1..];
  }

  lemma OpSubmitted(submitted: seq<Submission>, op: Op, queue: seq<Op>, requested: bool)
    requires Conserved(submitted, Submitting(op), queue, requested)
    ensures Conserved(submitted + [Submission(OpsTask, op)], Idle, queue, requested)
  {
    SentNext(submitted, Submission(OpsTask, op), OpsTask);
    hide Sent;
    assert Sent(submitted, OpsTask) + [op] + [] + queue == Sent(submitted, OpsTask) + [op] + queue;
  }

  lemma OpRequested(submitted: seq<Submission>, ops: OpsForwarder, queue: seq<Op>)
    requires Conserved(submitted, ops, queue, false)
    ensures Conserved(submitted, ops, queue + [Shutdown], true)
  {
    hide Sent;
    var sent := Sent(submitted, OpsTask);
    assert sent + InHand(ops) + (queue + [Shutdown]) == sent + InHand(ops) + queue + [Shutdown];
  }

  /** What the other sender submits changes nothing. */
  lemma OthersSubmit(submitted: seq<Submission>, x: Submission, who: Sender)
    requires x.who != who
    ensures Sent(submitted + [x], who) == Sent(submitted, who)
  {
    SentNext(submitted, x, who);
    hide Sent;
    assert Sent(submitted, who) + [] == Sent(submitted, who);
  }

  lemma ConservedKept(cap: nat, s: State, step: Step)
    requires Conserved(s.submitted, s.ops, s.opsQueue, s.requested) && Requests(s) && Enabled(cap, s, step)
    ensures var t := Do(cap, s, step); Conserved(t.submitted, t.ops, t.opsQueue, t.requested)
  {
    hide Sent;
    match step {
      case SubmitInterrupt => OthersSubmit(s.submitted, Submission(ShutdownTask, Interrupt), OpsTask);
      case SubmitShutdown => OthersSubmit(s.submitted, Submission(ShutdownTask, Shutdown), OpsTask);
      case BridgeRequest => OpRequested(s.submitted, s.ops, s.opsQueue);
      case OpsReceive => OpReceived(s.submitted, s.opsQueue, s.requested);
      case OpsSubmit => OpSubmitted(s.submitted, s.ops.op, s.opsQueue, s.requested);
      case _ =>
    }
  }

  lemma ShutdownSentKept(cap: nat, s: State, step: Step)
    requires ShutdownSent(s.submitted, s.forwarder) && Enabled(cap, s, step)
    ensures var t := Do(cap, s, step); ShutdownSent(t.submitted, t.forwarder)
  {
    hide Sent;
    match step {
      case SubmitInterrupt => SentNext(s.submitted, Submission(ShutdownTask, Interrupt), ShutdownTask);
      case SubmitShutdown => SentNext(s.submitted, Submission(ShutdownTask, Shutdown), ShutdownTask);
      case OpsSubmit => OthersSubmit(s.submitted, Submission(OpsTask, s.ops.op), ShutdownTask);
      case _ =>
    }
  }

  lemma RequestsKept(cap: nat, s: State, step: Step)
    requires Requests(s) && Enabled(cap, s, step)
    ensures Requests(Do(cap, s, step))
  {
    match step {
      case Emit(_) | CloseSession | CancelParent =>
      case ForwardReceive | ForwardEnd | ForwardSeeCancel | ForwardSend | ForwardSendFails =>
      case SubmitInterrupt | SubmitShutdown | Drain | DrainEnds =>
      case BridgeReceive | BridgeEnd | BridgeSend | BridgeSendFails =>
      case BridgeCheck | BridgeRequest | BridgeRequestFails | BridgeCancel =>
      case OpsReceive | OpsQuit | OpsSubmit | CallerReceive | CallerDrop =>
    }
  }

  lemma SubmissionsKept(cap: nat, s: State, step: Step)
    requires Submissions(s) && Enabled(cap, s, step)
    ensures Submissions(Do(cap, s, step))
  {
    ConservedKept(cap, s, step);
    ShutdownSentKept(cap, s, step);
    RequestsKept(cap, s, step);
    hide Conserved, ShutdownSent, Requests, Enabled, Do;
  }

  lemma NoEndShorter(events: seq<Event>, from: nat, to: nat)
    requires from < to <= |events| && NoEnd(events[from..to])
    ensures NoEnd(events[from..to - 1])
  {
    var long, short := events[from..to], events[from..to - 1];
    assert forall i :: 0 <= i < |short| ==> short[i] == long[i];
  }

  lemma DrainedKept(cap: nat, s: State, step: Step)
    requires Drained(s) && s.consumed <= |s.emitted| && Enabled(cap, s, step)
    ensures Drained(Do(cap, s, step))
  {
    var t := Do(cap, s, step);
    match step {
      case Emit(e) =>
        if s.forwarder.Draining? || s.forwarder == Stopped(true) {
          assert t.emitted[s.drainFrom..s.consumed] == s.emitted[s.drainFrom..s.consumed];
          assert s.drainFrom < s.consumed ==>
              t.emitted[s.drainFrom..s.consumed - 1] == s.emitted[s.drainFrom..s.consumed - 1];
        }
      case Drain =>
        assert s.emitted[s.drainFrom..s.consumed + 1] == s.emitted[s.drainFrom..s.consumed] + [s.emitted[s.consumed]];
      case DrainEnds =>
        if s.drainFrom < s.consumed { NoEndShorter(s.emitted, s.drainFrom, s.consumed); }
      case SubmitShutdown => assert s.emitted[s.consumed..s.consumed] == [];
      case _ =>
    }
  }

  lemma {:induction false} RunKeeps(cap: nat, s: State, steps: seq<Step>)
    requires Invariant(cap, s) && Run(cap, s, steps)
    ensures Invariant(cap, After(cap, s, steps))
    decreases |steps|
  {
    if steps != [] {
      var step := steps[0];
      ConsumedIsThere(s);
      hide UpstreamInvariant, Taken, DeliveryInvariant, Causes, Capacities, Submissions, Drained, Enabled;
      UpstreamKept(cap, s, step);
      TakenKept(cap, s, step);
      DeliveryKept(cap, s, step);
      CausesKept(cap, s, step);
      CapacitiesKept(cap, s, step);
      SubmissionsKept(cap, s, step);
      DrainedKept(cap, s, step);
      RunKeeps(cap, Do(cap, s, step), steps[1..]);
    }
  }

  lemma ConsumedIsThere(s: State)
    requires UpstreamInvariant(s)
    ensures s.consumed <= |s.emitted|
  {
  }

  lemma InitialIsFine(cap: nat)
    requires cap >= 1
    ensures Invariant(cap, INITIAL)
  {
    assert INITIAL.emitted[..0] == [];
    assert [] + [] + [Input] == [Input] + [];
  }

  // ---- what it comes to -----------------------------------------------------

  /** In every run the caller's events are a prefix of the session's events with
      the hidden kinds removed and cut after the first end of the turn; and both
      event channels and the op channel stay within their capacity. */
  lemma CallerSeesPrefix(cap: nat, steps: seq<Step>)
    requires cap >= 1 && Run(cap, INITIAL, steps)
    ensures var s := After(cap, INITIAL, steps);
            s.received <= Cut(Visible(s.emitted)) && Capacities(cap, s)
  {
    InitialIsFine(cap);
    RunKeeps(cap, INITIAL, steps);
    TakenIsCut(cap, After(cap, INITIAL, steps));
  }

  lemma TakenIsCut(cap: nat, s: State)
    requires Invariant(cap, s)
    ensures s.taken <= Visible(s.emitted) && s.taken <= Cut(Visible(s.emitted))
    ensures SawEnd(s.bridge) ==> s.taken == Cut(Visible(s.emitted))
    ensures s.received <= s.taken
  {
    hide Causes, Capacities, Submissions, Drained;
    VisibleGrows(s.emitted, s.consumed);
    hide Visible;
    assert s.taken <= s.taken + s.subQueue;
    assert NoEnd(s.taken) && s.taken != [] ==> NoEnd(s.taken[..|s.taken| - 1]);
    PrefixOfCut(s.taken, Visible(s.emitted));
  }

  /** What the caller has or is about to get. */
  function Delivered(s: State): seq<Event> {
    s.received + s.bridgeQueue + (if s.bridge.Passing? then [s.bridge.event] else [])
  }

  /** Nothing is lost while the parent does not cancel and the caller listens:
      once the turn has ended, the caller has, or still has queued, exactly the
      cut; until then every visible event the forwarder consumed is at the
      caller, in a channel or in a task's hands, in order. */
  lemma NothingIsLost(cap: nat, steps: seq<Step>)
    requires cap >= 1 && Run(cap, INITIAL, steps)
    requires var s := After(cap, INITIAL, steps); !s.parentCancelled && s.callerOpen
    ensures var s := After(cap, INITIAL, steps);
            if SawEnd(s.bridge) then Delivered(s) == Cut(Visible(s.emitted))
            else s.consumed <= |s.emitted| &&
                 Delivered(s) + s.subQueue + InFlight(s.forwarder) == Visible(s.emitted[..s.consumed])
  {
    InitialIsFine(cap);
    RunKeeps(cap, INITIAL, steps);
    var s := After(cap, INITIAL, steps);
    TakenIsCut(cap, s);
    DeliveredIsTaken(s);
  }

  lemma DeliveredIsTaken(s: State)
    requires DeliveryInvariant(s) && s.callerOpen
    ensures Delivered(s) == s.taken
  {
    assert s.bridge.Passing? ==> s.taken == s.taken[..|s.taken| - 1] + [s.bridge.event];
  }

  /** No task has anything left to do and the caller has nothing to pick up. */
  ghost predicate Quiet(cap: nat, s: State) {
    forall step :: Enabled(cap, s, step) ==> !Internal(step)
  }

  /** The pipeline does not get stuck: when it is quiet, a listening caller whose
      parent did not cancel has received the whole cut. */
  lemma QuietCallerHasAll(cap: nat, steps: seq<Step>)
    requires cap >= 1 && Run(cap, INITIAL, steps)
    requires var s := After(cap, INITIAL, steps); !s.parentCancelled && s.callerOpen && Quiet(cap, s)
    ensures var s := After(cap, INITIAL, steps); s.received == Cut(Visible(s.emitted))
  {
    InitialIsFine(cap);
    RunKeeps(cap, INITIAL, steps);
    NothingIsLost(cap, steps);
    var s := After(cap, INITIAL, steps);
    hide Quiet, UpstreamInvariant, Submissions, Visible, Cut, Run, After;
    QuietMeans(cap, s);
    assert Delivered(s) == s.received;
    if !SawEnd(s.bridge) {
      assert s.emitted[..|s.emitted|] == s.emitted;
      assert s.received + [] + [] == s.received;
      QuietHeldNothing(s);
      CutKeepsAll(s.received);
    }
  }

  /** Steps of the machinery itself and of a caller that reads. */
  predicate Internal(step: Step) {
    !step.Emit? && !step.CloseSession? && !step.CancelParent? && !step.CallerDrop?
  }

  function ForwarderWork(f: Forwarder): nat {
    match f
    case Sending(_) => 9
    case Selecting => 4
    case Interrupting => 3
    case ShuttingDown => 2
    case Draining => 1
    case Stopped(_) => 0
  }

  function BridgeWork(b: Bridge): nat {
    match b
    case Passing(_) => 7
    case Checking(_) => 5
    case Receiving => 4
    case Requesting => 4
    case Cancelling => 1
    case Finished(_) => 0
  }

  function OpsWork(o: OpsForwarder): nat {
    match o
    case Submitting(_) => 2
    case Idle => 1
    case Quit => 0
  }

  /** What is left to do for the events and ops that are there. */
  function Work(s: State): nat
    requires s.consumed <= |s.emitted|
  {
    6 * (|s.emitted| - s.consumed) + ForwarderWork(s.forwarder) + 4 * |s.subQueue| + BridgeWork(s.bridge) +
    |s.bridgeQueue| + 2 * |s.opsQueue| + OpsWork(s.ops)
  }

  /** Every internal step leaves less to do. */
  lemma InternalStepsLower(cap: nat, s: State, step: Step)
    requires s.consumed <= |s.emitted| && Internal(step) && Enabled(cap, s, step)
    ensures var t := Do(cap, s, step);
            && t.consumed <= |t.emitted| && Work(t) < Work(s)
            && t.parentCancelled == s.parentCancelled && t.callerOpen == s.callerOpen && t.emitted == s.emitted
  {
    match step {
      case ForwardReceive | ForwardEnd | ForwardSeeCancel | ForwardSend | ForwardSendFails =>
      case SubmitInterrupt | SubmitShutdown | Drain | DrainEnds =>
      case BridgeReceive | BridgeEnd | BridgeSend | BridgeSendFails =>
      case BridgeCheck | BridgeRequest | BridgeRequestFails | BridgeCancel =>
      case OpsReceive | OpsQuit | OpsSubmit | CallerReceive =>
    }
  }

  predicate AllInternal(steps: seq<Step>) {
    forall i :: 0 <= i < |steps| ==> Internal(steps[i])
  }

  /** However the internal steps go, there are at most as many as there is work. */
  lemma {:induction false} InternalRunsAreShort(cap: nat, s: State, steps: seq<Step>)
    requires s.consumed <= |s.emitted| && AllInternal(steps) && Run(cap, s, steps)
    ensures var t := After(cap, s, steps);
            && t.consumed <= |t.emitted| && |steps| + Work(t) <= Work(s)
            && t.parentCancelled == s.parentCancelled && t.callerOpen == s.callerOpen && t.emitted == s.emitted
    decreases |steps|
  {
    if steps != [] {
      InternalStepsLower(cap, s, steps[0]);
      hide Enabled, Work, Internal;
      assert AllInternal(steps[1..]);
      InternalRunsAreShort(cap, Do(cap, s, steps[0]), steps[1..]);
    }
  }

  lemma {:induction false} RunJoins(cap: nat, s: State, one: seq<Step>, two: seq<Step>)
    requires Run(cap, s, one) && Run(cap, After(cap, s, one), two)
    ensures Run(cap, s, one + two) && After(cap, s, one + two) == After(cap, After(cap, s, one), two)
    decreases |one|
  {
    hide Enabled, Do;
    if one == [] {
      assert one + two == two;
    } else {
      assert (one + two)[0] == one[0] && (one + two)[1..] == one[1..] + two;
      RunJoins(cap, Do(cap, s, one[0]), one[1..], two);
    }
  }

  /** From every state a quiet one is reached by internal steps alone. */
  lemma {:induction false} QuietIsReached(cap: nat, s: State) returns (steps: seq<Step>)
    requires s.consumed <= |s.emitted|
    ensures AllInternal(steps) && Run(cap, s, steps) && Quiet(cap, After(cap, s, steps))
    decreases Work(s)
  {
    steps := [];
    if !Quiet(cap, s) {
      var step :| Enabled(cap, s, step) && Internal(step);
      InternalStepsLower(cap, s, step);
      hide Enabled, Quiet, Internal;
      var rest := QuietIsReached(cap, Do(cap, s, step));
      steps := [step] + rest;
      assert steps[1..] == rest;
    }
  }

  /** The pipeline delivers: from every state of every run in which the parent has
      not cancelled and the caller listens, internal steps lead to a state in which
      the caller has received the whole cut, at most as many as there is work; and
      so does every run of internal steps that goes on until none is left. */
  lemma CallerGetsAll(cap: nat, steps: seq<Step>, more: seq<Step>) returns (finish: seq<Step>)
    requires cap >= 1 && Run(cap, INITIAL, steps)
    requires var s := After(cap, INITIAL, steps);
             !s.parentCancelled && s.callerOpen && AllInternal(more) && Run(cap, s, more)
    ensures var s := After(cap, INITIAL, steps);
            var t := After(cap, s, more);
            && s.consumed <= |s.emitted| && |more| + |finish| <= Work(s)
            && AllInternal(finish) && Run(cap, t, finish)
            && After(cap, t, finish).received == Cut(Visible(s.emitted))
            && (Quiet(cap, t) ==> finish == [])
  {
    var s := After(cap, INITIAL, steps);
    InitialIsFine(cap);
    RunKeeps(cap, INITIAL, steps);
    assert s.consumed <= |s.emitted|;
    hide Invariant, Work, Enabled, Quiet, Run, After, Internal;
    InternalRunsAreShort(cap, s, more);
    var t := After(cap, s, more);
    if Quiet(cap, t) {
      finish := [];
      NoSteps(cap, t);
    } else {
      finish := QuietIsReached(cap, t);
    }
    InternalRunsAreShort(cap, t, finish);
    RunJoins(cap, INITIAL, steps, more);
    RunJoins(cap, INITIAL, steps + more, finish);
    QuietCallerHasAll(cap, steps + more + finish);
  }

  lemma NoSteps(cap: nat, s: State)
    ensures Run(cap, s, []) && After(cap, s, []) == s
  {
  }

  lemma QuietMeans(cap: nat, s: State)
    requires Quiet(cap, s) && s.callerOpen && Causes(s) && cap >= 1 && s.consumed <= |s.emitted|
    ensures s.bridgeQueue == [] && !s.bridge.Passing? && !s.bridge.Checking?
    ensures !SawEnd(s.bridge) && !s.parentCancelled ==>
              s.subQueue == [] && s.consumed == |s.emitted| && InFlight(s.forwarder) == []
  {
    hide Quiet;
    QuietStep(cap, s, CallerReceive); QuietStep(cap, s, BridgeSend); QuietStep(cap, s, BridgeCheck);
    QuietStep(cap, s, BridgeReceive); QuietStep(cap, s, BridgeEnd);
    QuietStep(cap, s, ForwardReceive); QuietStep(cap, s, ForwardSend);
  }

  lemma QuietStep(cap: nat, s: State, step: Step)
    requires Quiet(cap, s) && Internal(step)
    ensures !Enabled(cap, s, step)
  {
  }

  lemma QuietHeldNothing(s: State)
    requires Taken(s.bridge, s.taken) && DeliveryInvariant(s) && s.callerOpen && s.bridgeQueue == []
    requires !SawEnd(s.bridge) && !s.bridge.Passing?
    ensures NoEnd(s.received)
  {
    assert s.received + [] == s.received;
  }

  lemma {:induction false} CutKeepsAll(events: seq<Event>)
    requires NoEnd(events)
    ensures Cut(events) == events
  {
    if events != [] {
      CutKeepsAll(events[1..]);
      assert events == [events[0]] + events[1..];
    }
  }

  function Count(ops: seq<Op>, op: Op): nat {
    if ops == [] then 0 else (if ops[0] == op then 1 else 0) + Count(ops[1..], op)
  }

  /** How often an op was submitted by anyone. */
  function Submitted(submitted: seq<Submission>, op: Op): nat {
    if submitted == [] then 0
    else
      var last := |submitted| - 1;
      Submitted(submitted[..last], op) + (if submitted[last].op == op then 1 else 0)
  }

  lemma {:induction false} CountJoins(a: seq<Op>, b: seq<Op>, op: Op)
    ensures Count(a + b, op) == Count(a, op) + Count(b, op)
  {
    if a == [] {
      assert a + b == b;
    } else {
      assert (a + b)[1..] == a[1..] + b && (a + b)[0] == a[0];
      CountJoins(a[1..], b, op);
    }
  }

  lemma {:induction false} SubmittedBySomeone(submitted: seq<Submission>, op: Op)
    ensures Submitted(submitted, op) == Count(Sent(submitted, OpsTask), op) + Count(Sent(submitted, ShutdownTask), op)
  {
    if submitted != [] {
      var last := |submitted| - 1;
      var before, x := submitted[..last], submitted[last];
      SubmittedBySomeone(before, op);
      CountJoins(Sent(before, x.who), [x.op], op);
      assert [x.op][1..] == [] && Count([x.op], op) == (if x.op == op then 1 else 0);
      assert Sent(before, OpsTask) + [] == Sent(before, OpsTask);
      assert Sent(before, ShutdownTask) + [] == Sent(before, ShutdownTask);
    }
  }

  /** In every run the ops that the forwarder submitted, the one in its hands and
      those that wait are together the initial input and the bridge's request, in
      that order; a shutdown submits one Interrupt and then one Shutdown, and all of
      it when it has stopped; and it drained nothing behind an end of the turn. */
  lemma OpsAreConserved(cap: nat, steps: seq<Step>)
    requires cap >= 1 && Run(cap, INITIAL, steps)
    ensures var s := After(cap, INITIAL, steps);
            && Sent(s.submitted, OpsTask) + InHand(s.ops) + s.opsQueue == Entered(s.requested)
            && Sent(s.submitted, ShutdownTask) == ShutdownOps(s.forwarder)
            && (s.forwarder == Stopped(true) ==> Sent(s.submitted, ShutdownTask) == [Interrupt, Shutdown])
            && Drained(s)
  {
    InitialIsFine(cap);
    RunKeeps(cap, INITIAL, steps);
  }

  /** The session gets its input: once nothing moves, and nobody cancelled, the
      initial input was submitted. */
  lemma QuietSessionHasInput(cap: nat, steps: seq<Step>)
    requires cap >= 1 && Run(cap, INITIAL, steps)
    requires var s := After(cap, INITIAL, steps); Quiet(cap, s) && !s.cancelled
    ensures var s := After(cap, INITIAL, steps); Sent(s.submitted, OpsTask) == Entered(s.requested)
  {
    InitialIsFine(cap);
    RunKeeps(cap, INITIAL, steps);
    hide Quiet, UpstreamInvariant, Taken, DeliveryInvariant, Causes, Capacities, Submissions, Drained;
    QuietOps(cap, After(cap, INITIAL, steps));
  }

  lemma QuietOps(cap: nat, s: State)
    requires Submissions(s) && Quiet(cap, s) && !s.cancelled
    ensures Sent(s.submitted, OpsTask) == Entered(s.requested)
  {
    QuietStep(cap, s, OpsReceive);
    QuietStep(cap, s, OpsSubmit);
    hide Quiet, Sent;
    assert s.opsQueue == [] && InHand(s.ops) == [];
    assert Sent(s.submitted, OpsTask) + [] + [] == Sent(s.submitted, OpsTask);
  }

  /** The machinery submits at most one input, one Interrupt and two Shutdowns. */
  lemma FewSubmissions(cap: nat, steps: seq<Step>)
    requires cap >= 1 && Run(cap, INITIAL, steps)
    ensures var s := After(cap, INITIAL, steps);
            && Sent(s.submitted, OpsTask) <= [Input, Shutdown]
            && Sent(s.submitted, ShutdownTask) <= [Interrupt, Shutdown]
            && Submitted(s.submitted, Input) <= 1 && Submitted(s.submitted, Interrupt) <= 1
            && Submitted(s.submitted, Shutdown) <= 2
  {
    OpsAreConserved(cap, steps);
    var s := After(cap, INITIAL, steps);
    var ops, shutdown := Sent(s.submitted, OpsTask), Sent(s.submitted, ShutdownTask);
    hide Sent, Run, After, Drained;
    assert ops <= Entered(s.requested) <= [Input, Shutdown];
    FewOf(ops, Input);
    FewOf(shutdown, Interrupt);
    SubmittedBySomeone(s.submitted, Input);
    SubmittedBySomeone(s.submitted, Interrupt);
    SubmittedBySomeone(s.submitted, Shutdown);
  }

  lemma FewOf(ops: seq<Op>, first: Op)
    requires ops <= [first, Shutdown] && first != Shutdown
    ensures forall op :: Count(ops, op) <= if op == first || op == Shutdown then 1 else 0
  {
    if |ops| == 2 { assert ops[1..] == [Shutdown] && [Shutdown][1..] == []; }
    if |ops| == 1 { assert ops[1..] == []; }
  }

  // ---- what is visible ------------------------------------------------------

  /** Exactly the other kinds are visible, each as often as it was emitted. */
  lemma {:induction false} VisibleMeans(events: seq<Event>, e: Event)
    ensures multiset(Visible(events))[e] ==
            if e.kind == TurnComplete || e.kind == TurnAborted || e.kind == Public then multiset(events)[e] else 0
  {
    if events != [] {
      var last := |events| - 1;
      var before, x := events[..last], events[last];
      VisibleMeans(before, e);
      OneMore(before, x, e);
      OneMore(Visible(before), x, e);
      assert events == before + [x] && Visible(before) + [] == Visible(before);
      assert Visible(events) == if Hidden(x) then Visible(before) else Visible(before) + [x];
    }
  }

  lemma OneMore(events: seq<Event>, x: Event, e: Event)
    ensures multiset(events + [x])[e] == multiset(events)[e] + (if e == x then 1 else 0)
  {
  }

  /** The cut ends with the first TurnComplete or TurnAborted, or nowhere. */
  lemma {:induction false} CutMeans(events: seq<Event>)
    ensures Cut(events) <= events
    ensures forall i :: 0 <= i < |Cut(events)| - 1 ==> Cut(events)[i].kind !in {TurnComplete, TurnAborted}
    ensures Cut(events) == events ||
            (Cut(events) != [] && Cut(events)[|Cut(events)| - 1].kind in {TurnComplete, TurnAborted})
  {
    if events != [] && !EndsTurn(events[0]) {
      CutMeans(events[1..]);
      var cut, rest := Cut(events), Cut(events[1..]);
      assert forall i :: 0 < i < |cut| ==> cut[i] == rest[i - 1];
      assert events == [events[0]] + events[1..];
    }
  }
}
