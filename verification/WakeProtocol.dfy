// The wake-up protocol between the producers of work and the main loop, as an
// interleaving of the atomic steps the two sides take.

module WakeProtocol {

  /** The two bits kept in the shared atomic byte. */
  datatype Flags = Flags(runtime: bool, ui: bool)

  const NO_FLAGS := Flags(false, false)

  /** Where a producer stands between pushing its payload and ringing the bell. */
  datatype ProducerPc = Idle | AboutToFlag(ui: bool) | AboutToRing

  /** Program points of one round of the main loop. */
  datatype ConsumerPc = Top | Swap | Check | Drain | Finish | Select

  /** A channel that the loop selects on directly, with the buffer that holds what the
      selection took out. `sent` and `handled` are the histories of both ends. */
  datatype Lane = Lane(sent: seq<int>, handled: seq<int>, buffered: seq<int>, queue: seq<int>) {
    function Push(v: int): Lane {
      this.(sent := sent + [v], queue := queue + [v])
    }

    function BufferOne(): Lane
      requires queue != []
    {
      this.(buffered := buffered + [queue[0]], queue := queue[1..])
    }

    /** One update consumes the whole buffer and at most `budget` queued values. */
    function Consume(budget: nat): Lane {
      var n := if |queue| <= budget then |queue| else budget;
      Lane(sent, handled + buffered + queue[..n], [], queue[n..])
    }

    ghost predicate Conserved() {
      sent == handled + buffered + queue
    }
  }

  /** `input_ingress_system` takes at most this many queued inputs in one update. */
  const INPUT_BUDGET := 256

  datatype State = State(
    producers: map<nat, ProducerPc>,
    sentPayloads: seq<int>,
    delivered: seq<int>,
    payloads: seq<int>,
    flags: Flags,
    bell: bool,
    inputs: Lane,
    actions: Lane,
    pc: ConsumerPc,
    reason: Flags,
    bootstrap: bool)

  function Pc(s: State, p: nat): ProducerPc {
    if p in s.producers then s.producers[p] else Idle
  }

  const INIT := State(map[], [], [], [], NO_FLAGS, false, Lane([], [], [], []), Lane([], [], [], []),
                      Top, NO_FLAGS, true)

  datatype Step =
    // producers
    | PushPayload(p: nat, value: int)  // WakeSender::send: the queue accepted the value
    | StartNotify(p: nat, ui: bool)    // notify or notify_ui without a payload
    | SetFlag(p: nat)                  // fetch_or
    | Ring(p: nat)                     // try_send on the one-slot bell
    | PushInput(value: int)
    | PushAction(value: int)
    // main loop
    | ClearBell                        // take: try_recv
    | SwapFlags                        // take: swap
    | CheckReady(due: bool)            // due: a deadline or a legacy poll is due
    | DrainQueues                      // app.update reaches the queues
    | FinishUpdate                     // the rest of app.update
    | SelectBell
    | SelectInput
    | SelectAction
    | SelectTimeout

  predicate IsConsumerStep(step: Step) {
    !(step.PushPayload? || step.StartNotify? || step.SetFlag? || step.Ring? || step.PushInput? || step.PushAction?)
  }

  predicate Enabled(s: State, step: Step) {
    match step
    case PushPayload(p, _) => Pc(s, p) == Idle
    case StartNotify(p, _) => Pc(s, p) == Idle
    case SetFlag(p) => Pc(s, p).AboutToFlag?
    case Ring(p) => Pc(s, p) == AboutToRing
    case PushInput(_) => true
    case PushAction(_) => true
    case ClearBell => s.pc == Top
    case SwapFlags => s.pc == Swap
    case CheckReady(_) => s.pc == Check
    case DrainQueues => s.pc == Drain
    case FinishUpdate => s.pc == Finish
    case SelectBell => s.pc == Select && s.bell
    case SelectInput => s.pc == Select && s.inputs.queue != []
    case SelectAction => s.pc == Select && s.actions.queue != []
    case SelectTimeout => s.pc == Select
  }

  predicate Ready(s: State, due: bool) {
    || s.bootstrap
    || s.reason.runtime
    || due
    || s.inputs.buffered != []
    || s.actions.buffered != []
    || s.inputs.queue != []
    || s.actions.queue != []
  }

  function Apply(s: State, step: Step): State
    requires Enabled(s, step)
  {
    match step
    case PushPayload(p, v) =>
      s.(producers := s.producers[p := AboutToFlag(false)], sentPayloads := s.sentPayloads + [v], payloads := s.payloads + [v])
    case StartNotify(p, ui) => s.(producers := s.producers[p := AboutToFlag(ui)])
    case SetFlag(p) =>
      var flags := if Pc(s, p).ui then s.flags.(ui := true) else s.flags.(runtime := true);
      s.(producers := s.producers[p := AboutToRing], flags := flags)
    case Ring(p) => s.(producers := s.producers[p := Idle], bell := true)
    case PushInput(v) => s.(inputs := s.inputs.Push(v))
    case PushAction(v) => s.(actions := s.actions.Push(v))
    case ClearBell => s.(bell := false, pc := Swap)
    case SwapFlags => s.(reason := s.flags, flags := NO_FLAGS, pc := Check)
    case CheckReady(due) => if Ready(s, due) then s.(pc := Drain, bootstrap := false) else s.(pc := Select)
    case DrainQueues =>
      s.(delivered := s.delivered + s.payloads, payloads := [], inputs := s.inputs.Consume(INPUT_BUDGET),
         actions := s.actions.Consume(|s.actions.queue|), pc := Finish)
    case FinishUpdate => s.(pc := Select)
    case SelectBell => s.(bell := false, pc := Top)
    case SelectInput => s.(inputs := s.inputs.BufferOne(), pc := Top)
    case SelectAction => s.(actions := s.actions.BufferOne(), pc := Top)
    case SelectTimeout => s.(pc := Top)
  }

  ghost predicate CanRun(s: State, steps: seq<Step>)
    decreases |steps|
  {
    steps == [] || (Enabled(s, steps[0]) && CanRun(Apply(s, steps[0]), steps[1..]))
  }

  ghost function Run(s: State, steps: seq<Step>): State
    requires CanRun(s, steps)
    decreases |steps|
  {
    if steps == [] then s else Run(Apply(s, steps[0]), steps[1..])
  }

  // ---- the invariant -------------------------------------------------------------

  ghost predicate SomeoneAboutToFlagRuntime(s: State) {
    exists p :: Pc(s, p) == AboutToFlag(false)
  }

  ghost predicate SomeoneAboutToRing(s: State) {
    exists p :: Pc(s, p) == AboutToRing
  }

  /** A pending payload is announced by a producer that still has to set the flag, by the
      flag, or by a reason that the loop has taken and is about to act on. */
  ghost predicate PayloadAnnounced(s: State) {
    s.payloads != [] ==>
      || SomeoneAboutToFlagRuntime(s)
      || s.flags.runtime
      || (s.reason.runtime && s.pc == Check)
      || s.pc == Drain
  }

  /** A set flag is backed by a full bell or by a producer about to ring it, except while the
      loop stands between the bell and the swap. */
  ghost predicate FlagBacked(s: State) {
    (s.flags.runtime || s.flags.ui) ==> s.bell || SomeoneAboutToRing(s) || s.pc == Top || s.pc == Swap
  }

  ghost predicate BufferShortLived(s: State) {
    s.inputs.buffered != [] || s.actions.buffered != [] ==> s.pc != Finish && s.pc != Select
  }

  ghost predicate Inv(s: State) {
    && PayloadAnnounced(s)
    && FlagBacked(s)
    && BufferShortLived(s)
    && s.sentPayloads == s.delivered + s.payloads
    && s.inputs.Conserved()
    && s.actions.Conserved()
  }

  lemma StepKeepsPayloadAnnounced(s: State, step: Step)
    requires Enabled(s, step) && PayloadAnnounced(s)
    ensures PayloadAnnounced(Apply(s, step))
  {
    var t := Apply(s, step);
    if step.PushPayload? {
      assert Pc(t, step.p) == AboutToFlag(false);
    } else if SomeoneAboutToFlagRuntime(s) && !t.flags.runtime {
      var q :| Pc(s, q) == AboutToFlag(false);
      assert Pc(t, q) == Pc(s, q);
    }
  }

  lemma StepKeepsFlagBacked(s: State, step: Step)
    requires Enabled(s, step) && FlagBacked(s)
    ensures FlagBacked(Apply(s, step))
  {
    var t := Apply(s, step);
    if step.SetFlag? {
      assert Pc(t, step.p) == AboutToRing;
    } else if SomeoneAboutToRing(s) && !step.Ring? {
      var q :| Pc(s, q) == AboutToRing;
      assert Pc(t, q) == AboutToRing;
    }
  }

  lemma StepKeepsInv(s: State, step: Step)
    requires Enabled(s, step) && Inv(s)
    ensures Inv(Apply(s, step))
  {
    StepKeepsPayloadAnnounced(s, step);
    StepKeepsFlagBacked(s, step);
  }

  lemma {:induction false} RunKeepsInv(s: State, steps: seq<Step>)
    requires CanRun(s, steps) && Inv(s)
    ensures Inv(Run(s, steps))
    decreases |steps|
  {
    if steps != [] {
      StepKeepsInv(s, steps[0]);
      RunKeepsInv(Apply(s, steps[0]), steps[1..]);
    }
  }

  // ---- the theorems --------------------------------------------------------------

  /** The loop waits in the selection and nothing it selects on is ready. */
  predicate Blocked(s: State) {
    s.pc == Select && !s.bell && s.inputs.queue == [] && s.actions.queue == []
  }

  ghost predicate Quiet(s: State) {
    forall p :: Pc(s, p) == Idle
  }

  /** No lost wake-up: whenever the loop is blocked and no producer is in the middle of a
      send, every payload, input and action ever sent has been handed over, in order. */
  lemma NoLostWakeup(steps: seq<Step>)
    requires CanRun(INIT, steps)
    ensures var s := Run(INIT, steps);
            Blocked(s) && Quiet(s) ==>
              && s.flags == NO_FLAGS
              && s.delivered == s.sentPayloads
              && s.inputs.handled == s.inputs.sent
              && s.actions.handled == s.actions.sent
  {
    RunKeepsInv(INIT, steps);
  }

  /** At every moment, what was handed over is a prefix of what was sent. */
  lemma HandoverIsFifo(steps: seq<Step>)
    requires CanRun(INIT, steps)
    ensures var s := Run(INIT, steps);
            && s.delivered <= s.sentPayloads
            && s.inputs.handled <= s.inputs.sent
            && s.actions.handled <= s.actions.sent
  {
    RunKeepsInv(INIT, steps);
  }

  /** Main-loop steps that are certain to deliver the pending payloads once producers rest. */
  function Distance(s: State): nat {
    match s.pc
    case Drain => 1
    case Check => if s.reason.runtime then 2 else 6
    case Swap => 3
    case Top => 4
    case Select => 5
    case Finish => 6
  }

  lemma {:induction false} ConsumerAloneDelivers(s: State, steps: seq<Step>)
    requires Inv(s) && Quiet(s)
    requires CanRun(s, steps) && forall k :: 0 <= k < |steps| ==> IsConsumerStep(steps[k])
    requires |steps| >= Distance(s) || s.payloads == []
    ensures Run(s, steps).payloads == []
    decreases |steps|
  {
    if steps != [] {
      var t := Apply(s, steps[0]);
      StepKeepsInv(s, steps[0]);
      assert IsConsumerStep(steps[0]);
      assert t.producers == s.producers;
      assert forall p :: Pc(t, p) == Pc(s, p);
      ConsumerAloneDelivers(t, steps[1..]);
    }
  }

  /** Bounded delivery: from every reachable state in which the producers rest, any six steps
      of the main loop hand over every payload, and the loop is never stuck before that. */
  lemma SixStepsDeliver(before: seq<Step>, steps: seq<Step>)
    requires CanRun(INIT, before) && Quiet(Run(INIT, before))
    requires CanRun(Run(INIT, before), steps) && forall k :: 0 <= k < |steps| ==> IsConsumerStep(steps[k])
    requires |steps| >= 6
    ensures var s := Run(INIT, before);
            var t := Run(s, steps);
            t.payloads == [] && t.delivered == s.sentPayloads
  {
    RunKeepsInv(INIT, before);
    var s := Run(INIT, before);
    ConsumerAloneDelivers(s, steps);
    RunKeepsInv(s, steps);
    ConsumerSendsNothing(s, steps);
  }

  lemma {:induction false} ConsumerSendsNothing(s: State, steps: seq<Step>)
    requires CanRun(s, steps) && forall k :: 0 <= k < |steps| ==> IsConsumerStep(steps[k])
    ensures Run(s, steps).sentPayloads == s.sentPayloads
    decreases |steps|
  {
    if steps != [] {
      assert IsConsumerStep(steps[0]);
      ConsumerSendsNothing(Apply(s, steps[0]), steps[1..]);
    }
  }

  /** A payload that is fully sent keeps the loop awake: it has a step other than a timeout. */
  lemma PendingPayloadKeepsLoopAwake(steps: seq<Step>)
    requires CanRun(INIT, steps)
    requires Quiet(Run(INIT, steps)) && Run(INIT, steps).payloads != []
    ensures exists step :: IsConsumerStep(step) && step != SelectTimeout && Enabled(Run(INIT, steps), step)
  {
    RunKeepsInv(INIT, steps);
    var s := Run(INIT, steps);
    var step := match s.pc
      case Top => ClearBell
      case Swap => SwapFlags
      case Check => CheckReady(false)
      case Drain => DrainQueues
      case Finish => FinishUpdate
      case Select => SelectBell;
    assert Enabled(s, step);
  }

  /** Whether the loop updates: exactly when it starts, was woken for work, has a deadline or poll that
      is due, or holds input or actions. A deadline alone is enough, and the update that it brings
      hands over everything that is pending. */
  lemma UpdateRunsIff(s: State, due: bool)
    requires s.pc == Check
    ensures var t := Apply(s, CheckReady(due));
            && (t.pc == Drain || t.pc == Select)
            && (t.pc == Drain <==> due || s.bootstrap || s.reason.runtime
                                   || s.inputs.buffered + s.inputs.queue != [] || s.actions.buffered + s.actions.queue != [])
            && (t.pc == Drain ==>
                  var u := Apply(t, DrainQueues);
                  u.payloads == [] && u.delivered == s.delivered + s.payloads && u.actions.handled == s.actions.handled + s.actions.buffered + s.actions.queue)
  {
    assert s.inputs.buffered + s.inputs.queue == [] <==> s.inputs.buffered == [] && s.inputs.queue == [];
    assert s.actions.buffered + s.actions.queue == [] <==> s.actions.buffered == [] && s.actions.queue == [];
    assert s.actions.queue[..|s.actions.queue|] == s.actions.queue;
  }

  /** The order inside `take` matters: with the swap before the clearing of the bell, whenever a
      producer sends in between and nothing else is ready, the loop ends up blocked on a silent
      bell with the payload pending. */
  lemma SwapBeforeClearWouldLoseTheWakeup(s: State, p: nat, value: int)
    requires s.pc == Swap && Quiet(s) && Pc(s, p) == Idle && !s.flags.runtime && !Ready(s.(reason := s.flags), false)
    ensures var swapped := s.(reason := s.flags, flags := NO_FLAGS);
            var sent := Apply(Apply(Apply(swapped, PushPayload(p, value)), SetFlag(p)), Ring(p));
            var waiting := sent.(bell := false, pc := Check);
            var blocked := Apply(waiting, CheckReady(false));
            Blocked(blocked) && Quiet(blocked) && blocked.payloads == s.payloads + [value]
  {
    var swapped := s.(reason := s.flags, flags := NO_FLAGS);
    var pushed := Apply(swapped, PushPayload(p, value));
    var flagged := Apply(pushed, SetFlag(p));
    var sent := Apply(flagged, Ring(p));
    assert forall q :: Pc(sent, q) == if q == p then Idle else Pc(s, q);
    var blocked := Apply(sent.(bell := false, pc := Check), CheckReady(false));
    assert forall q :: Pc(blocked, q) == Pc(sent, q);
  }
}
