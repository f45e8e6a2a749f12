// The outbound side of the channel manager: senders that enqueue entries, a supervisor that
// delivers them one at a time, and a shutdown that may come at any moment.

module OutboundManager {
  import opened Base

  /** An outbound entry; the two flags say which callbacks it carries. */
  datatype Entry = Entry(id: nat, channel: string, onSent: bool, onResult: bool)

  datatype Outcome =
    | Sent
    | ChannelError
    | TimedOut
    | InterruptedByShutdown  // delivery unknown
    | ShutdownBeforeDelivery
    | ChannelMissing

  datatype Event = CalledOnSent(id: nat) | CalledOnResult(id: nat, outcome: Outcome)

  /** An entry that is finished: whether the channel was asked to send it, and what came out. */
  datatype Done = Done(entry: Entry, started: bool, outcome: Outcome)

  /** A caller between two atomic steps of `enqueue` or `shutdown`. */
  datatype CallerPc = Idle | AboutToLookUp(entry: Entry) | AboutToSend(entry: Entry) | AboutToBroadcast

  datatype After = ToTop | ToClose | ToDrain

  datatype Pc =
    | Top
    | Select
    | SelectPolled                            // the shutdown arm was polled, the queue arm is next
    | Recheck(entry: Entry)
    | InFlight(entry: Entry, started: bool)
    | InFlightPolled(entry: Entry, started: bool)
    | Finish(entry: Entry, started: bool, outcome: Outcome, sentCalled: bool, after: After)
    | Close
    | Drain
    | Stopped

  datatype State = State(
    channels: set<string>,
    callers: map<nat, CallerPc>,
    used: set<nat>,
    accepted: seq<Entry>,
    rejected: seq<Entry>,
    queue: seq<Entry>,
    receiverClosed: bool,
    sendersGone: bool,
    closing: bool,
    signal: bool,
    pc: Pc,
    done: seq<Done>,
    events: seq<Event>,
    attempts: seq<nat>,
    lateSuccesses: nat)

  function CallerAt(callers: map<nat, CallerPc>, p: nat): CallerPc {
    if p in callers then callers[p] else Idle
  }

  function Init(channels: set<string>): State {
    State(channels, map[], {}, [], [], [], false, false, false, false, Top, [], [], [], 0)
  }

  datatype Step =
    // callers
    | CheckClosing(p: nat, entry: Entry)   // enqueue
    | LookUpChannel(p: nat)
    | SendToQueue(p: nat)
    | DirectSend(p: nat, entry: Entry)     // a frontend or an on_sent callback, without the checks
    | StoreClosing(p: nat)                 // shutdown
    | Broadcast(p: nat)
    | DropSenders
    // supervisor
    | CheckTop
    | PollShutdown
    | PollQueue
    | CheckAgain
    | PollSend(reply: Option<Outcome>)
    | CallOnSent
    | CallOnResult
    | CloseReceiver
    | DrainOne

  predicate IsSupervisorStep(step: Step) {
    !(step.CheckClosing? || step.LookUpChannel? || step.SendToQueue? || step.DirectSend? || step.StoreClosing?
      || step.Broadcast? || step.DropSenders?)
  }

  ghost predicate Quiet(s: State) {
    forall p :: CallerAt(s.callers, p) == Idle
  }

  predicate FreeCaller(s: State, p: nat) {
    CallerAt(s.callers, p) == Idle && !s.sendersGone
  }

  ghost predicate Enabled(s: State, step: Step) {
    match step
    case CheckClosing(p, e) => FreeCaller(s, p) && e.id !in s.used
    case LookUpChannel(p) => CallerAt(s.callers, p).AboutToLookUp?
    case SendToQueue(p) => CallerAt(s.callers, p).AboutToSend?
    case DirectSend(p, e) => FreeCaller(s, p) && e.id !in s.used
    case StoreClosing(p) => FreeCaller(s, p)
    case Broadcast(p) => CallerAt(s.callers, p) == AboutToBroadcast
    case DropSenders => Quiet(s)
    case CheckTop => s.pc == Top
    case PollShutdown => s.pc == Select || s.pc.InFlight?
    case PollQueue => s.pc == SelectPolled
    case CheckAgain => s.pc.Recheck?
    case PollSend(reply) => s.pc.InFlightPolled? && (reply.Some? ==> reply.value in {Sent, ChannelError, TimedOut})
    case CallOnSent => s.pc.Finish? && !s.pc.sentCalled
    case CallOnResult => s.pc.Finish? && s.pc.sentCalled
    case CloseReceiver => s.pc == Close
    case DrainOne => s.pc == Drain
  }

  function FinishWith(e: Entry, started: bool, outcome: Outcome, after: After): Pc {
    Finish(e, started, outcome, false, after)
  }

  function Resume(after: After): Pc {
    match after
    case ToTop => Top
    case ToClose => Close
    case ToDrain => Drain
  }

  function Call(s: State, step: Step): State
    requires !IsSupervisorStep(step)
  {
    match step
    case CheckClosing(p, e) =>
      if s.closing then s.(used := s.used + {e.id}, rejected := s.rejected + [e])
      else s.(used := s.used + {e.id}, callers := s.callers[p := AboutToLookUp(e)])
    case LookUpChannel(p) =>
      if !CallerAt(s.callers, p).AboutToLookUp? then s
      else
        var e := CallerAt(s.callers, p).entry;
        if e.channel in s.channels then s.(callers := s.callers[p := AboutToSend(e)])
        else s.(callers := s.callers[p := Idle], rejected := s.rejected + [e])
    case SendToQueue(p) =>
      if !CallerAt(s.callers, p).AboutToSend? then s
      else
        var e := CallerAt(s.callers, p).entry;
        if s.receiverClosed then s.(callers := s.callers[p := Idle], rejected := s.rejected + [e])
        else s.(callers := s.callers[p := Idle], queue := s.queue + [e], accepted := s.accepted + [e])
    case DirectSend(p, e) => s.(used := s.used + {e.id}, callers := s.callers[p := AboutToSend(e)])
    case StoreClosing(p) => s.(closing := true, callers := s.callers[p := AboutToBroadcast])
    case Broadcast(p) => s.(signal := true, callers := s.callers[p := Idle])
    case DropSenders => s.(sendersGone := true)
  }

  ghost function Supervise(s: State, step: Step): State
    requires IsSupervisorStep(step) && Enabled(s, step)
  {
    match step
    case CheckTop => s.(pc := if s.closing then Close else Select)
    case PollShutdown =>
      if s.pc == Select then
        if s.signal then s.(signal := false, pc := Close) else s.(pc := SelectPolled)
      else
        if s.signal then s.(signal := false, pc := FinishWith(s.pc.entry, s.pc.started, InterruptedByShutdown, ToTop))
        else s.(pc := InFlightPolled(s.pc.entry, s.pc.started))
    case PollQueue =>
      if s.queue != [] then s.(pc := Recheck(s.queue[0]), queue := s.queue[1..])
      else if s.sendersGone then s.(pc := Close)
      else s.(pc := Select)
    case CheckAgain =>
      var e := s.pc.entry;
      if s.closing then s.(pc := FinishWith(e, false, ShutdownBeforeDelivery, ToClose))
      else if e.channel in s.channels then s.(pc := InFlight(e, false))
      else s.(pc := FinishWith(e, false, ChannelMissing, ToTop))
    case PollSend(reply) =>
      var e := s.pc.entry;
      var t := if s.pc.started then s else s.(attempts := s.attempts + [e.id]);
      if reply.None? then t.(pc := InFlight(e, true)) else t.(pc := FinishWith(e, true, reply.value, ToTop))
    case CallOnSent =>
      var e := s.pc.entry;
      s.(pc := s.pc.(sentCalled := true), events := s.events + SentCalls(e, s.pc.outcome))
    case CallOnResult =>
      var e := s.pc.entry;
      s.(pc := Resume(s.pc.after), events := s.events + ResultCalls(e, s.pc.outcome),
         done := s.done + [Done(e, s.pc.started, s.pc.outcome)],
         lateSuccesses := s.lateSuccesses + if s.closing && s.pc.outcome == Sent then 1 else 0)
    case CloseReceiver => s.(pc := Drain, receiverClosed := true)
    case DrainOne =>
      if s.queue != [] then s.(pc := FinishWith(s.queue[0], false, ShutdownBeforeDelivery, ToDrain), queue := s.queue[1..])
      else s.(pc := Stopped)
  }

  ghost function Apply(s: State, step: Step): State
    requires Enabled(s, step)
  {
    if IsSupervisorStep(step) then Supervise(s, step) else Call(s, step)
  }

  function SentCalls(e: Entry, outcome: Outcome): seq<Event> {
    if outcome == Sent && e.onSent then [CalledOnSent(e.id)] else []
  }

  function ResultCalls(e: Entry, outcome: Outcome): seq<Event> {
    if e.onResult then [CalledOnResult(e.id, outcome)] else []
  }

  ghost predicate CanRun(s: State, steps: seq<Step>)
    decreases |steps|
  {
    steps == [] || (Enabled(s, steps[0]) && CanRun(Apply(s, steps[0]), steps[1..]))
  }

  ghost function Run(s: State, steps: seq<Step>): State
    requires CanRun(s, steps)
    decreases |steps|
  {
    if steps == [] then s else Run(Apply(s, steps[0]), steps[1..])
  }

  // ---- conservation: accepted = finished, then held, then queued ------------------------

  function Entries(done: seq<Done>): seq<Entry> {
    seq(|done|, i requires 0 <= i < |done| => done[i].entry)
  }

  function Held(pc: Pc): seq<Entry> {
    if pc.Recheck? || pc.InFlight? || pc.InFlightPolled? || pc.Finish? then [pc.entry] else []
  }

  ghost predicate AddsUp(accepted: seq<Entry>, done: seq<Done>, held: seq<Entry>, queue: seq<Entry>) {
    accepted == Entries(done) + held + queue
  }

  ghost predicate Conserved(s: State) {
    AddsUp(s.accepted, s.done, Held(s.pc), s.queue)
  }

  lemma Finished(accepted: seq<Entry>, done: seq<Done>, d: Done, queue: seq<Entry>)
    requires AddsUp(accepted, done, [d.entry], queue)
    ensures AddsUp(accepted, done + [d], [], queue)
  {
    assert Entries(done + [d]) == Entries(done) + [d.entry];
  }

  lemma Taken(accepted: seq<Entry>, done: seq<Done>, queue: seq<Entry>)
    requires queue != [] && AddsUp(accepted, done, [], queue)
    ensures AddsUp(accepted, done, [queue[0]], queue[1..])
  {
  }

  lemma Queued(accepted: seq<Entry>, done: seq<Done>, held: seq<Entry>, queue: seq<Entry>, e: Entry)
    requires AddsUp(accepted, done, held, queue)
    ensures AddsUp(accepted + [e], done, held, queue + [e])
  {
  }

  /** Supervisor steps that neither take nor finish an entry. */
  lemma HeldUntouched(s: State, step: Step)
    requires IsSupervisorStep(step) && Enabled(s, step)
    requires !step.CallOnResult? && (step.PollQueue? || step.DrainOne? ==> s.queue == [])
    ensures var t := Supervise(s, step);
            t.accepted == s.accepted && t.done == s.done && Held(t.pc) == Held(s.pc) && t.queue == s.queue
  {
    match step
    case CheckTop =>
    case PollShutdown =>
    case PollQueue =>
    case CheckAgain =>
    case PollSend(_) =>
    case CallOnSent =>
    case CloseReceiver =>
    case DrainOne =>
  }

  lemma StepConserves(s: State, step: Step)
    requires Enabled(s, step) && Conserved(s)
    ensures Conserved(Apply(s, step))
  {
    if step.CallOnResult? {
      Finished(s.accepted, s.done, Done(s.pc.entry, s.pc.started, s.pc.outcome), s.queue);
    } else if (step.PollQueue? || step.DrainOne?) && s.queue != [] {
      Taken(s.accepted, s.done, s.queue);
    } else if IsSupervisorStep(step) {
      HeldUntouched(s, step);
    } else if step.SendToQueue? && !s.receiverClosed {
      Queued(s.accepted, s.done, Held(s.pc), s.queue, CallerAt(s.callers, step.p).entry);
    } else {
      CallersLogNothing(s, step);
    }
  }

  // ---- the callback log is exactly what the finished entries ask for ---------------------

  function CallsOf(done: seq<Done>): seq<Event> {
    if done == [] then []
    else
      var last := done[|done| - 1];
      CallsOf(done[..|done| - 1]) + SentCalls(last.entry, last.outcome) + ResultCalls(last.entry, last.outcome)
  }

  function PartialCalls(pc: Pc): seq<Event> {
    if pc.Finish? && pc.sentCalled then SentCalls(pc.entry, pc.outcome) else []
  }

  ghost predicate LogMatches(events: seq<Event>, done: seq<Done>, partial: seq<Event>) {
    events == CallsOf(done) + partial
  }

  ghost predicate Logged(s: State) {
    LogMatches(s.events, s.done, PartialCalls(s.pc))
  }

  lemma CallsPush(events: seq<Event>, done: seq<Done>, d: Done)
    requires LogMatches(events, done, SentCalls(d.entry, d.outcome))
    ensures LogMatches(events + ResultCalls(d.entry, d.outcome), done + [d], [])
  {
    assert (done + [d])[..|done|] == done;
  }

  lemma SentPush(events: seq<Event>, done: seq<Done>, e: Entry, outcome: Outcome)
    requires LogMatches(events, done, [])
    ensures LogMatches(events + SentCalls(e, outcome), done, SentCalls(e, outcome))
  {
  }

  /** Only the two callback steps write the log. */
  lemma LogUntouched(s: State, step: Step)
    requires IsSupervisorStep(step) && Enabled(s, step) && !step.CallOnResult? && !step.CallOnSent?
    ensures var t := Supervise(s, step);
            t.done == s.done && t.events == s.events && PartialCalls(t.pc) == PartialCalls(s.pc) == []
  {
    match step
    case CheckTop =>
    case PollShutdown =>
    case PollQueue =>
    case CheckAgain =>
    case PollSend(_) =>
    case CloseReceiver =>
    case DrainOne =>
  }

  lemma CallersLogNothing(s: State, step: Step)
    requires !IsSupervisorStep(step)
    ensures var t := Call(s, step);
            && t.done == s.done && t.events == s.events && t.attempts == s.attempts && t.pc == s.pc
            && t.lateSuccesses == s.lateSuccesses && (s.closing ==> t.closing)
            && (!step.SendToQueue? ==> t.accepted == s.accepted && t.queue == s.queue)
  {
  }

  lemma StepKeepsLog(s: State, step: Step)
    requires Enabled(s, step) && Logged(s)
    ensures Logged(Apply(s, step))
  {
    var t := Apply(s, step);
    if step.CallOnResult? {
      CallsPush(s.events, s.done, Done(s.pc.entry, s.pc.started, s.pc.outcome));
    } else if step.CallOnSent? {
      SentPush(s.events, s.done, s.pc.entry, s.pc.outcome);
    } else if IsSupervisorStep(step) {
      LogUntouched(s, step);
    } else {
      CallersLogNothing(s, step);
    }
  }

  // ---- send attempts ---------------------------------------------------------------------

  function AttemptsOf(done: seq<Done>): seq<nat> {
    if done == [] then []
    else
      var last := done[|done| - 1];
      AttemptsOf(done[..|done| - 1]) + if last.started then [last.entry.id] else []
  }

  function PendingAttempt(pc: Pc): seq<nat> {
    if (pc.InFlight? || pc.InFlightPolled? || pc.Finish?) && pc.started then [pc.entry.id] else []
  }

  /** What an outcome says about whether the channel was asked to send. */
  predicate Honest(started: bool, outcome: Outcome) {
    && (outcome == ShutdownBeforeDelivery || outcome == ChannelMissing ==> !started)
    && (outcome == Sent || outcome == ChannelError || outcome == TimedOut ==> started)
  }

  ghost predicate AttemptsMatch(attempts: seq<nat>, done: seq<Done>, pending: seq<nat>) {
    attempts == AttemptsOf(done) + pending
  }

  ghost predicate AttemptsLogged(s: State) {
    && AttemptsMatch(s.attempts, s.done, PendingAttempt(s.pc))
    && (s.pc.Finish? ==> Honest(s.pc.started, s.pc.outcome))
    && (forall i :: 0 <= i < |s.done| ==> Honest(s.done[i].started, s.done[i].outcome))
  }

  lemma AttemptsPush(attempts: seq<nat>, done: seq<Done>, d: Done)
    requires AttemptsMatch(attempts, done, if d.started then [d.entry.id] else [])
    ensures AttemptsMatch(attempts, done + [d], [])
  {
    assert (done + [d])[..|done|] == done;
  }

  lemma AttemptStarts(attempts: seq<nat>, done: seq<Done>, id: nat)
    requires AttemptsMatch(attempts, done, [])
    ensures AttemptsMatch(attempts + [id], done, [id])
  {
  }

  lemma AttemptUntouched(s: State, step: Step)
    requires IsSupervisorStep(step) && Enabled(s, step) && !step.CallOnResult? && (step.PollSend? ==> s.pc.started)
    requires s.pc.Finish? ==> Honest(s.pc.started, s.pc.outcome)
    ensures var t := Supervise(s, step);
            && t.done == s.done && t.attempts == s.attempts && PendingAttempt(t.pc) == PendingAttempt(s.pc)
            && (t.pc.Finish? ==> Honest(t.pc.started, t.pc.outcome))
  {
    match step
    case CheckTop =>
    case PollShutdown =>
    case PollQueue =>
    case CheckAgain =>
    case PollSend(_) =>
    case CallOnSent =>
    case CloseReceiver =>
    case DrainOne =>
  }

  lemma StepKeepsAttempts(s: State, step: Step)
    requires Enabled(s, step) && AttemptsLogged(s)
    ensures AttemptsLogged(Apply(s, step))
  {
    var t := Apply(s, step);
    if step.CallOnResult? {
      AttemptsPush(s.attempts, s.done, Done(s.pc.entry, s.pc.started, s.pc.outcome));
    } else if step.PollSend? && !s.pc.started {
      AttemptStarts(s.attempts, s.done, s.pc.entry.id);
    } else if IsSupervisorStep(step) {
      AttemptUntouched(s, step);
    } else {
      CallersLogNothing(s, step);
    }
  }

  // ---- identities ------------------------------------------------------------------------

  predicate HasEntry(c: CallerPc) {
    c.AboutToLookUp? || c.AboutToSend?
  }

  ghost predicate NewTo(e: Entry, entries: seq<Entry>) {
    forall i :: 0 <= i < |entries| ==> entries[i].id != e.id
  }

  ghost predicate DistinctIds(entries: seq<Entry>) {
    forall i, j :: 0 <= i < j < |entries| ==> entries[i].id != entries[j].id
  }

  ghost predicate AllUsed(entries: seq<Entry>, used: set<nat>) {
    forall i :: 0 <= i < |entries| ==> entries[i].id in used
  }

  /** Entries that callers still hold are new and differ from each other. */
  ghost predicate CallersHoldNew(callers: map<nat, CallerPc>, settled: seq<Entry>, used: set<nat>) {
    && (forall p :: HasEntry(CallerAt(callers, p)) ==> CallerAt(callers, p).entry.id in used && NewTo(CallerAt(callers, p).entry, settled))
    && (forall p, q :: p != q && HasEntry(CallerAt(callers, p)) && HasEntry(CallerAt(callers, q))
          ==> CallerAt(callers, p).entry.id != CallerAt(callers, q).entry.id)
  }

  /** Every entry is accepted or rejected at most once, never both. */
  ghost predicate Identified(s: State) {
    && AllUsed(s.accepted + s.rejected, s.used)
    && DistinctIds(s.accepted + s.rejected)
    && CallersHoldNew(s.callers, s.accepted + s.rejected, s.used)
  }

  lemma PushKeepsDistinct(a: seq<Entry>, r: seq<Entry>, e: Entry, used: set<nat>)
    requires DistinctIds(a + r) && NewTo(e, a + r) && AllUsed(a + r, used)
    ensures DistinctIds(a + (r + [e])) && DistinctIds((a + [e]) + r)
    ensures AllUsed(a + (r + [e]), used + {e.id}) && AllUsed((a + [e]) + r, used + {e.id})
  {
    var all := a + r;
    var late := a + (r + [e]);
    assert late == all + [e];
    var early := (a + [e]) + r;
    assert forall i :: 0 <= i < |a| ==> early[i] == all[i];
    assert forall i :: |a| < i < |early| ==> early[i] == all[i - 1];
    assert early[|a|] == e;
  }

  lemma StillNew(a: seq<Entry>, r: seq<Entry>, e: Entry, f: Entry)
    requires NewTo(f, a + r) && e.id != f.id
    ensures NewTo(f, a + (r + [e])) && NewTo(f, (a + [e]) + r)
  {
    var all := a + r;
    assert a + (r + [e]) == all + [e];
    var early := (a + [e]) + r;
    assert forall i :: 0 <= i < |a| ==> early[i] == all[i];
    assert forall i :: |a| < i < |early| ==> early[i] == all[i - 1];
    assert early[|a|] == e;
  }

  /** Settling one entry, accepted or rejected. */
  lemma Settle(s: State, t: State, e: Entry, p: nat)
    requires Identified(s) && NewTo(e, s.accepted + s.rejected)
    requires t.used == s.used + {e.id}
    requires (t.accepted == s.accepted && t.rejected == s.rejected + [e]) || (t.accepted == s.accepted + [e] && t.rejected == s.rejected)
    requires forall q :: CallerAt(t.callers, q) == if q == p then Idle else CallerAt(s.callers, q)
    requires forall q :: q != p && HasEntry(CallerAt(s.callers, q)) ==> CallerAt(s.callers, q).entry.id != e.id
    ensures Identified(t)
  {
    PushKeepsDistinct(s.accepted, s.rejected, e, s.used);
    forall q | HasEntry(CallerAt(t.callers, q)) ensures CallerAt(t.callers, q).entry.id in t.used && NewTo(CallerAt(t.callers, q).entry, t.accepted + t.rejected) {
      StillNew(s.accepted, s.rejected, e, CallerAt(s.callers, q).entry);
    }
  }

  /** Taking up a fresh entry. */
  lemma TakeUp(s: State, t: State, e: Entry, p: nat)
    requires Identified(s) && e.id !in s.used
    requires t.used == s.used + {e.id} && t.accepted == s.accepted && t.rejected == s.rejected
    requires forall q :: q != p ==> CallerAt(t.callers, q) == CallerAt(s.callers, q)
    requires HasEntry(CallerAt(t.callers, p)) && CallerAt(t.callers, p).entry == e
    ensures Identified(t)
  {
  }

  /** A caller goes on without settling its entry, if it has one. */
  lemma MoveOn(s: State, t: State, p: nat)
    requires Identified(s)
    requires t.used == s.used && t.accepted == s.accepted && t.rejected == s.rejected
    requires forall q :: q != p ==> CallerAt(t.callers, q) == CallerAt(s.callers, q)
    requires HasEntry(CallerAt(t.callers, p)) ==>
               HasEntry(CallerAt(s.callers, p)) && CallerAt(t.callers, p).entry == CallerAt(s.callers, p).entry
    ensures Identified(t)
  {
  }

  lemma CallKeepsIdentified(s: State, step: Step)
    requires Enabled(s, step) && !IsSupervisorStep(step) && Identified(s)
    ensures Identified(Call(s, step))
  {
    var t := Call(s, step);
    match step
    case CheckClosing(p, e) => {
      if s.closing { Settle(s, t, e, p); } else { TakeUp(s, t, e, p); }
    }
    case LookUpChannel(p) => {
      var e := CallerAt(s.callers, p).entry;
      if e.channel in s.channels {
        MoveOn(s, t, p);
      } else {
        assert s.used + {e.id} == s.used;
        Settle(s, t, e, p);
      }
    }
    case SendToQueue(p) => {
      var e := CallerAt(s.callers, p).entry;
      assert s.used + {e.id} == s.used;
      Settle(s, t, e, p);
    }
    case DirectSend(p, e) => TakeUp(s, t, e, p);
    case StoreClosing(p) => MoveOn(s, t, p);
    case Broadcast(p) => MoveOn(s, t, p);
    case DropSenders => assert t.callers == s.callers;
  }

  lemma StepKeepsIdentified(s: State, step: Step)
    requires Enabled(s, step) && Identified(s)
    ensures Identified(Apply(s, step))
  {
    if IsSupervisorStep(step) {
      var t := Supervise(s, step);
      assert t.accepted == s.accepted && t.rejected == s.rejected && t.used == s.used && t.callers == s.callers;
    } else {
      CallKeepsIdentified(s, step);
    }
  }

  // ---- shutdown --------------------------------------------------------------------------

  predicate PastTheLoop(pc: Pc) {
    pc == Close || pc == Drain || pc == Stopped || (pc.Finish? && pc.after != ToTop)
  }

  ghost predicate SomeoneAboutToBroadcast(callers: map<nat, CallerPc>) {
    exists p :: CallerAt(callers, p) == AboutToBroadcast
  }

  /** At most one success is reported once `closing` is set, and the loop ends behind it. */
  predicate AtMostOneLate(closing: bool, late: nat, pc: Pc) {
    && (!closing ==> late == 0)
    && late <= 1
    && (late == 1 ==> pc == Top || PastTheLoop(pc))
    && (pc.Finish? && pc.after != ToTop ==> pc.outcome == ShutdownBeforeDelivery)
  }

  ghost predicate LateInv(s: State) {
    AtMostOneLate(s.closing, s.lateSuccesses, s.pc)
  }

  /** A shutdown is never missed: its signal is pending, about to come, or no longer needed. */
  ghost predicate SignalInv(s: State) {
    && (!s.closing ==> !s.signal && !SomeoneAboutToBroadcast(s.callers))
    && (s.closing ==> s.signal || SomeoneAboutToBroadcast(s.callers) || s.pc == Top || s.pc.Recheck? || s.pc.Finish? || PastTheLoop(s.pc))
  }

  ghost predicate CloseInv(s: State) {
    && (PastTheLoop(s.pc) ==> s.closing || s.sendersGone)
    && (s.receiverClosed <==> s.pc == Drain || s.pc == Stopped || (s.pc.Finish? && s.pc.after == ToDrain))
    && (s.pc == Stopped ==> s.queue == [])
  }

  lemma PollsKeepLate(s: State, step: Step)
    requires Enabled(s, step) && LateInv(s)
    requires step.CheckTop? || step.PollShutdown? || step.PollQueue? || step.CheckAgain? || step.PollSend?
    ensures LateInv(Supervise(s, step))
  {
    match step
    case CheckTop =>
    case PollShutdown =>
    case PollQueue =>
    case CheckAgain =>
    case PollSend(_) =>
  }

  lemma StepKeepsLate(s: State, step: Step)
    requires Enabled(s, step) && LateInv(s)
    ensures LateInv(Apply(s, step))
  {
    if !IsSupervisorStep(step) {
      CallersLogNothing(s, step);
    } else if !step.CallOnSent? && !step.CallOnResult? && !step.CloseReceiver? && !step.DrainOne? {
      PollsKeepLate(s, step);
    }
  }

  lemma StepKeepsSignal(s: State, step: Step)
    requires Enabled(s, step) && SignalInv(s)
    ensures SignalInv(Apply(s, step))
  {
    var t := Apply(s, step);
    if step.StoreClosing? {
      assert CallerAt(t.callers, step.p) == AboutToBroadcast;
    } else if !t.closing {
      assert forall q :: CallerAt(t.callers, q) == AboutToBroadcast ==> CallerAt(s.callers, q) == AboutToBroadcast;
    } else if !step.Broadcast? && SomeoneAboutToBroadcast(s.callers) {
      var q :| CallerAt(s.callers, q) == AboutToBroadcast;
      assert CallerAt(t.callers, q) == AboutToBroadcast;
    }
  }

  lemma StepKeepsClose(s: State, step: Step)
    requires Enabled(s, step) && CloseInv(s) && SignalInv(s)
    ensures CloseInv(Apply(s, step))
  {
  }

  ghost predicate Inv(s: State) {
    Conserved(s) && Logged(s) && AttemptsLogged(s) && Identified(s) && LateInv(s) && SignalInv(s) && CloseInv(s)
  }

  lemma StepKeepsInv(s: State, step: Step)
    requires Enabled(s, step) && Inv(s)
    ensures Inv(Apply(s, step))
  {
    StepConserves(s, step);
    StepKeepsLog(s, step);
    StepKeepsAttempts(s, step);
    StepKeepsIdentified(s, step);
    StepKeepsLate(s, step);
    StepKeepsSignal(s, step);
    StepKeepsClose(s, step);
  }

  lemma {:induction false} RunKeepsInv(s: State, steps: seq<Step>)
    requires CanRun(s, steps) && Inv(s)
    ensures Inv(Run(s, steps))
    decreases |steps|
  {
    if steps != [] {
      StepKeepsInv(s, steps[0]);
      RunKeepsInv(Apply(s, steps[0]), steps[1..]);
    }
  }

  lemma InitInv(channels: set<string>)
    ensures Inv(Init(channels))
  {
    var s := Init(channels);
    assert Entries([]) == [] && s.accepted + s.rejected == [];
  }

  // ---- the theorems ----------------------------------------------------------------------

  predicate Answers(event: Event, id: nat) {
    event.CalledOnResult? && event.id == id
  }

  /** How often `on_result` of an entry was called. */
  function Results(events: seq<Event>, id: nat): nat {
    if events == [] then 0
    else Results(events[..|events| - 1], id) + if Answers(events[|events| - 1], id) then 1 else 0
  }

  lemma ResultsPush(events: seq<Event>, more: seq<Event>, id: nat)
    requires |more| <= 1
    ensures Results(events + more, id) == Results(events, id) + if more != [] && Answers(more[0], id) then 1 else 0
  {
    if more == [] {
      assert events + more == events;
    } else {
      assert (events + more)[..|events|] == events;
    }
  }

  /** A finished entry has this identity and wants its result. */
  ghost predicate Owes(done: seq<Done>, id: nat) {
    exists k :: 0 <= k < |done| && done[k].entry.id == id && done[k].entry.onResult
  }

  /** Among finished entries with distinct identities, an entry with a callback gets one result,
      and an identity that is not among them gets none. */
  lemma {:induction false} ResultsOfDone(done: seq<Done>, id: nat)
    requires DistinctIds(Entries(done))
    ensures Results(CallsOf(done), id) <= 1
    ensures Results(CallsOf(done), id) == 1 <==> Owes(done, id)
  {
    if done != [] {
      var init, last := done[..|done| - 1], done[|done| - 1];
      assert done == init + [last];
      EntriesPush(init, last);
      DistinctPrefix(Entries(init), [last.entry]);
      ResultsOfDone(init, id);
      ResultsPushDone(CallsOf(init), last, id);
      OneMoreResult(init, last, id);
    }
  }

  lemma ResultsPushDone(calls: seq<Event>, d: Done, id: nat)
    ensures Results(calls + SentCalls(d.entry, d.outcome) + ResultCalls(d.entry, d.outcome), id)
         == Results(calls, id) + if d.entry.id == id && d.entry.onResult then 1 else 0
  {
    ResultsPush(calls, SentCalls(d.entry, d.outcome), id);
    ResultsPush(calls + SentCalls(d.entry, d.outcome), ResultCalls(d.entry, d.outcome), id);
  }

  lemma EntriesPush(done: seq<Done>, d: Done)
    ensures Entries(done + [d]) == Entries(done) + [d.entry]
  {
  }

  lemma OneMoreResult(init: seq<Done>, last: Done, id: nat)
    requires DistinctIds(Entries(init + [last]))
    ensures Owes(init + [last], id) <==> Owes(init, id) || (last.entry.id == id && last.entry.onResult)
    ensures !(Owes(init, id) && last.entry.id == id)
  {
    var done := init + [last];
    assert done[|init|] == last;
    assert forall k :: 0 <= k < |init| ==> done[k] == init[k];
    assert forall k :: 0 <= k < |done| ==> Entries(done)[k] == done[k].entry;
  }

  /** Exactly-once receipts, over every interleaving: once the supervisor has stopped, every
      accepted entry is finished, in the order of acceptance, with exactly the callbacks it asks
      for; an accepted entry with `on_result` was answered once, every other identity never. */
  lemma StoppedMeansAnswered(channels: set<string>, steps: seq<Step>, id: nat)
    requires CanRun(Init(channels), steps) && Run(Init(channels), steps).pc == Stopped
    ensures var s := Run(Init(channels), steps);
            && s.accepted == Entries(s.done) && s.events == CallsOf(s.done)
            && Results(s.events, id) <= 1
            && (Results(s.events, id) == 1 <==> Expects(s.accepted, id))
            && (forall e :: e in s.rejected ==> Results(s.events, e.id) == 0)
  {
    InitInv(channels);
    RunKeepsInv(Init(channels), steps);
    Answered(Run(Init(channels), steps), id);
  }

  /** One of the entries has this identity and wants its result. */
  ghost predicate Expects(entries: seq<Entry>, id: nat) {
    exists e :: e in entries && e.id == id && e.onResult
  }

  lemma Answered(s: State, id: nat)
    requires Inv(s) && s.pc == Stopped
    ensures s.accepted == Entries(s.done) && s.events == CallsOf(s.done)
    ensures Results(s.events, id) <= 1
    ensures Results(s.events, id) == 1 <==> Expects(s.accepted, id)
    ensures forall e :: e in s.rejected ==> Results(s.events, e.id) == 0
  {
    assert s.accepted == Entries(s.done) && s.events == CallsOf(s.done);
    DistinctPrefix(s.accepted, s.rejected);
    ResultsOfDone(s.done, id);
    DoneIsAccepted(s.done, id);
    forall e | e in s.rejected ensures Results(s.events, e.id) == 0 {
      ResultsOfDone(s.done, e.id);
      DoneIsAccepted(s.done, e.id);
      RejectedIsNotAccepted(s.accepted, s.rejected, e);
    }
  }

  lemma RejectedIsNotAccepted(accepted: seq<Entry>, rejected: seq<Entry>, e: Entry)
    requires DistinctIds(accepted + rejected) && e in rejected
    ensures !Expects(accepted, e.id)
  {
    var j :| 0 <= j < |rejected| && rejected[j] == e;
    assert (accepted + rejected)[|accepted| + j] == e;
    assert forall i :: 0 <= i < |accepted| ==> (accepted + rejected)[i] == accepted[i];
  }

  lemma DoneIsAccepted(done: seq<Done>, id: nat)
    ensures Owes(done, id) <==> Expects(Entries(done), id)
  {
    if Owes(done, id) {
      var k :| 0 <= k < |done| && done[k].entry.id == id && done[k].entry.onResult;
      assert Entries(done)[k] in Entries(done);
    }
    if Expects(Entries(done), id) {
      var e :| e in Entries(done) && e.id == id && e.onResult;
      var k :| 0 <= k < |Entries(done)| && Entries(done)[k] == e;
      assert done[k].entry == e;
    }
  }

  lemma DistinctPrefix(a: seq<Entry>, b: seq<Entry>)
    requires DistinctIds(a + b)
    ensures DistinctIds(a)
  {
    assert forall i :: 0 <= i < |a| ==> (a + b)[i] == a[i];
  }

  /** Before the supervisor stops, no entry is answered twice and no rejected entry is answered. */
  lemma NeverAnsweredTwice(channels: set<string>, steps: seq<Step>, id: nat)
    requires CanRun(Init(channels), steps)
    ensures Results(Run(Init(channels), steps).events, id) <= 1
    ensures forall e :: e in Run(Init(channels), steps).rejected ==> Results(Run(Init(channels), steps).events, e.id) == 0
  {
    InitInv(channels);
    RunKeepsInv(Init(channels), steps);
    var s := Run(Init(channels), steps);
    AnsweredOnce(s, id);
    forall e | e in s.rejected ensures Results(s.events, e.id) == 0 {
      RejectedIsNotAnswered(s, e);
    }
  }

  lemma RejectedIsNotAnswered(s: State, e: Entry)
    requires Inv(s) && e in s.rejected
    ensures Results(s.events, e.id) == 0
  {
    AnsweredOnce(s, e.id);
    DoneIsAccepted(s.done, e.id);
    RejectedIsNotAccepted(s.accepted, s.rejected, e);
    assert forall d :: d in Entries(s.done) ==> d in s.accepted;
  }

  lemma AnsweredOnce(s: State, id: nat)
    requires Inv(s)
    ensures Results(s.events, id) <= 1
    ensures Results(s.events, id) == 1 <==> Owes(s.done, id)
  {
    DoneIsDistinct(s);
    ResultsOfDone(s.done, id);
    ResultsPush(CallsOf(s.done), PartialCalls(s.pc), id);
  }

  lemma DoneIsDistinct(s: State)
    requires Inv(s)
    ensures DistinctIds(Entries(s.done))
  {
    var known := Entries(s.done) + Held(s.pc);
    DistinctPrefix(s.accepted, s.rejected);
    assert s.accepted == known + s.queue;
    DistinctPrefix(known, s.queue);
    DistinctPrefix(Entries(s.done), Held(s.pc));
  }

  lemma {:induction false} CallsComeFromDone(done: seq<Done>, event: Event)
    requires event in CallsOf(done)
    ensures event.CalledOnSent? ==> exists k :: 0 <= k < |done| && done[k].entry.id == event.id && done[k].outcome == Sent
    ensures event.CalledOnResult? ==> exists k :: 0 <= k < |done| && done[k].entry.id == event.id && done[k].outcome == event.outcome
  {
    var init, last := done[..|done| - 1], done[|done| - 1];
    if event in CallsOf(init) {
      CallsComeFromDone(init, event);
      assert forall k :: 0 <= k < |init| ==> done[k] == init[k];
    } else {
      assert done[|done| - 1] == last;
    }
  }

  /** How often `on_sent` of an entry was called. */
  function Sents(events: seq<Event>, id: nat): nat {
    if events == [] then 0
    else Sents(events[..|events| - 1], id) + if events[|events| - 1] == CalledOnSent(id) then 1 else 0
  }

  lemma SentsPush(events: seq<Event>, more: seq<Event>, id: nat)
    requires |more| <= 1
    ensures Sents(events + more, id) == Sents(events, id) + if more == [CalledOnSent(id)] then 1 else 0
  {
    if more == [] {
      assert events + more == events;
    } else {
      assert (events + more)[..|events|] == events;
    }
  }

  predicate WasSent(d: Done, id: nat) {
    d.entry.id == id && d.entry.onSent && d.outcome == Sent
  }

  ghost predicate SomeSent(done: seq<Done>, id: nat) {
    exists k :: 0 <= k < |done| && WasSent(done[k], id)
  }

  lemma OneMoreSent(init: seq<Done>, last: Done, id: nat)
    requires DistinctIds(Entries(init + [last]))
    ensures SomeSent(init + [last], id) <==> SomeSent(init, id) || WasSent(last, id)
    ensures !(SomeSent(init, id) && WasSent(last, id))
  {
    var done := init + [last];
    assert done[|init|] == last;
    assert forall k :: 0 <= k < |init| ==> done[k] == init[k];
    assert forall k :: 0 <= k < |done| ==> Entries(done)[k] == done[k].entry;
  }

  lemma SentsPushDone(calls: seq<Event>, d: Done, id: nat)
    ensures Sents(calls + SentCalls(d.entry, d.outcome) + ResultCalls(d.entry, d.outcome), id)
         == Sents(calls + SentCalls(d.entry, d.outcome), id)
         == Sents(calls, id) + if WasSent(d, id) then 1 else 0
  {
    SentsPush(calls, SentCalls(d.entry, d.outcome), id);
    SentsPush(calls + SentCalls(d.entry, d.outcome), ResultCalls(d.entry, d.outcome), id);
  }

  lemma {:induction false} SentsOfDone(done: seq<Done>, id: nat)
    requires DistinctIds(Entries(done))
    ensures Sents(CallsOf(done), id) == if SomeSent(done, id) then 1 else 0
  {
    if done != [] {
      var init, last := done[..|done| - 1], done[|done| - 1];
      assert done == init + [last];
      EntriesPush(init, last);
      DistinctPrefix(Entries(init), [last.entry]);
      SentsOfDone(init, id);
      SentsPushDone(CallsOf(init), last, id);
      OneMoreSent(init, last, id);
    }
  }

  /** The entries whose outcome is settled: the finished ones, and one between its callbacks. */
  function Settled(s: State): seq<Done> {
    s.done + if s.pc.Finish? && s.pc.sentCalled then [Done(s.pc.entry, s.pc.started, s.pc.outcome)] else []
  }

  lemma SettledIsDistinct(s: State)
    requires Inv(s)
    ensures DistinctIds(Entries(Settled(s)))
  {
    DistinctPrefix(s.accepted, s.rejected);
    var known := Entries(s.done) + Held(s.pc);
    assert s.accepted == known + s.queue;
    DistinctPrefix(known, s.queue);
    if s.pc.Finish? && s.pc.sentCalled {
      EntriesPush(s.done, Done(s.pc.entry, s.pc.started, s.pc.outcome));
    } else {
      assert Settled(s) == s.done;
      DistinctPrefix(Entries(s.done), Held(s.pc));
    }
  }

  lemma SentsOfState(s: State, id: nat)
    requires Inv(s)
    ensures Sents(s.events, id) == if SomeSent(Settled(s), id) then 1 else 0
  {
    SettledIsDistinct(s);
    if s.pc.Finish? && s.pc.sentCalled {
      var last := Done(s.pc.entry, s.pc.started, s.pc.outcome);
      DoneIsDistinct(s);
      SentsOfDone(s.done, id);
      SentsPushDone(CallsOf(s.done), last, id);
      OneMoreSent(s.done, last, id);
    } else {
      assert Settled(s) == s.done && s.events == CallsOf(s.done);
      SentsOfDone(s.done, id);
    }
  }

  lemma {:induction false} StartedIsAttempted(done: seq<Done>, k: nat)
    requires k < |done| && done[k].started
    ensures done[k].entry.id in AttemptsOf(done)
  {
    if k < |done| - 1 {
      StartedIsAttempted(done[..|done| - 1], k);
    }
  }

  /** At every moment of every run, `on_sent` of an entry has been called at most once, and exactly
      when the channel has accepted that entry and it has such a callback; and a result that was
      reported is the outcome of that entry. */
  lemma OnSentMeansSent(channels: set<string>, steps: seq<Step>, id: nat)
    requires CanRun(Init(channels), steps)
    ensures var s := Run(Init(channels), steps);
            && Sents(s.events, id) == (if SomeSent(Settled(s), id) then 1 else 0)
            && (SomeSent(Settled(s), id) ==> id in s.attempts)
            && forall outcome :: CalledOnResult(id, outcome) in s.events ==>
                 exists k :: 0 <= k < |s.done| && s.done[k].entry.id == id && s.done[k].outcome == outcome
  {
    InitInv(channels);
    RunKeepsInv(Init(channels), steps);
    var s := Run(Init(channels), steps);
    SentsOfState(s, id);
    if SomeSent(Settled(s), id) {
      SentIsAttempted(s, id);
    }
    forall outcome | CalledOnResult(id, outcome) in s.events
      ensures exists k :: 0 <= k < |s.done| && s.done[k].entry.id == id && s.done[k].outcome == outcome
    {
      CallsComeFromDone(s.done, CalledOnResult(id, outcome));
    }
  }

  lemma SentIsAttempted(s: State, id: nat)
    requires Inv(s) && SomeSent(Settled(s), id)
    ensures id in s.attempts
  {
    var k :| 0 <= k < |Settled(s)| && WasSent(Settled(s)[k], id);
    if k < |s.done| {
      StartedIsAttempted(s.done, k);
    }
  }

  /** The loop reports at most one success after shutdown has been requested. */
  lemma AtMostOneLateSuccess(channels: set<string>, steps: seq<Step>)
    requires CanRun(Init(channels), steps)
    ensures Run(Init(channels), steps).lateSuccesses <= 1
  {
    InitInv(channels);
    RunKeepsInv(Init(channels), steps);
  }

  lemma {:induction false} AttemptedOnce(done: seq<Done>)
    requires DistinctIds(Entries(done))
    ensures NoDuplicates(AttemptsOf(done))
    ensures forall a :: a in AttemptsOf(done) ==> exists k :: 0 <= k < |done| && done[k].entry.id == a
  {
    if done != [] {
      var init, last := done[..|done| - 1], done[|done| - 1];
      assert forall k :: 0 <= k < |done| ==> Entries(done)[k] == done[k].entry;
      assert forall k :: 0 <= k < |init| ==> Entries(init)[k] == Entries(done)[k] && init[k] == done[k];
      AttemptedOnce(init);
      assert forall i :: 0 <= i < |AttemptsOf(init)| ==> AttemptsOf(init)[i] in AttemptsOf(init);
      assert done[|init|] == last;
    }
  }

  /** A failure that says "before delivery" or "channel not found" means that the channel was
      never asked, a success means that it was, and no entry is handed to a channel twice. */
  lemma ReasonsAreHonest(channels: set<string>, steps: seq<Step>)
    requires CanRun(Init(channels), steps)
    ensures var s := Run(Init(channels), steps);
            && NoDuplicates(s.attempts)
            && forall i :: 0 <= i < |s.done| ==> Honest(s.done[i].started, s.done[i].outcome)
  {
    InitInv(channels);
    RunKeepsInv(Init(channels), steps);
    AttemptsDistinct(Run(Init(channels), steps));
  }

  lemma AttemptsDistinct(s: State)
    requires Inv(s)
    ensures NoDuplicates(s.attempts)
  {
    DistinctPrefix(s.accepted, s.rejected);
    var known := Entries(s.done) + Held(s.pc);
    assert s.accepted == known + s.queue;
    DistinctPrefix(known, s.queue);
    DistinctPrefix(Entries(s.done), Held(s.pc));
    AttemptedOnce(s.done);
    assert forall i :: 0 <= i < |AttemptsOf(s.done)| ==> AttemptsOf(s.done)[i] in AttemptsOf(s.done);
    assert forall k :: 0 <= k < |s.done| ==> known[k] == s.done[k].entry;
    if Held(s.pc) != [] {
      assert known[|s.done|] == s.pc.entry;
    }
  }

  // ---- what becomes of an entry for a registered channel -----------------------------------

  /** What an outcome says about the channel of its entry. */
  predicate Routed(channels: set<string>, d: Done) {
    && (d.outcome == ChannelMissing ==> d.entry.channel !in channels)
    && (d.started ==> d.entry.channel in channels)
    && (d.entry.channel in channels && !d.started ==> d.outcome == ShutdownBeforeDelivery || d.outcome == InterruptedByShutdown)
  }

  /** An outcome that only a shutdown gives. */
  predicate ByShutdown(outcome: Outcome) {
    outcome == ShutdownBeforeDelivery || outcome == InterruptedByShutdown
  }

  ghost predicate RouteInv(s: State) {
    PcRouted(s.channels, s.pc) && forall i :: 0 <= i < |s.done| ==> Routed(s.channels, s.done[i])
  }

  predicate PcRouted(channels: set<string>, pc: Pc) {
    && (pc.InFlight? || pc.InFlightPolled? ==> pc.entry.channel in channels)
    && (pc.Finish? ==> Routed(channels, Done(pc.entry, pc.started, pc.outcome)))
  }

  /** Without a shutdown, the loop ends only when nobody can send any more and nothing is queued. */
  ghost predicate UntilShutdown(s: State) {
    && (s.sendersGone ==> Quiet(s))
    && (!s.closing && PastTheLoop(s.pc) ==> s.sendersGone && s.queue == [])
    && (!s.closing && s.pc.Finish? ==> !ByShutdown(s.pc.outcome))
    && (!s.closing ==> forall i :: 0 <= i < |s.done| ==> !ByShutdown(s.done[i].outcome))
  }

  lemma StepKeepsRoute(s: State, step: Step)
    requires Enabled(s, step) && RouteInv(s)
    ensures RouteInv(Apply(s, step)) && Apply(s, step).channels == s.channels
  {
    if IsSupervisorStep(step) {
      SupervisorKeepsRoute(s, step);
    } else {
      CallersLogNothing(s, step);
    }
  }

  lemma SupervisorKeepsRoute(s: State, step: Step)
    requires IsSupervisorStep(step) && Enabled(s, step) && RouteInv(s)
    ensures RouteInv(Supervise(s, step)) && Supervise(s, step).channels == s.channels
  {
    SupervisorRoutes(s, step);
    SupervisorAddsDone(s, step);
  }

  lemma SupervisorRoutes(s: State, step: Step)
    requires IsSupervisorStep(step) && Enabled(s, step) && PcRouted(s.channels, s.pc)
    ensures PcRouted(s.channels, Supervise(s, step).pc)
  {
    match step
    case CheckTop =>
    case PollShutdown =>
    case PollQueue =>
    case CheckAgain =>
    case PollSend(_) =>
    case CallOnSent =>
    case CallOnResult =>
    case CloseReceiver =>
    case DrainOne =>
  }

  lemma SupervisorAddsDone(s: State, step: Step)
    requires IsSupervisorStep(step) && Enabled(s, step)
    ensures Supervise(s, step).channels == s.channels
    ensures Supervise(s, step).done == s.done + if step.CallOnResult? then [Done(s.pc.entry, s.pc.started, s.pc.outcome)] else []
  {
    match step
    case CheckTop =>
    case PollShutdown =>
    case PollQueue =>
    case CheckAgain =>
    case PollSend(_) =>
    case CallOnSent =>
    case CallOnResult =>
    case CloseReceiver =>
    case DrainOne =>
  }

  lemma CallKeepsUntilShutdown(s: State, step: Step)
    requires !IsSupervisorStep(step) && Enabled(s, step) && UntilShutdown(s)
    ensures UntilShutdown(Call(s, step))
  {
    var t := Call(s, step);
    CallersLogNothing(s, step);
    assert s.sendersGone ==> step.DropSenders?;
    if step.DropSenders? {
      assert t.callers == s.callers;
    }
  }

  lemma SupervisorKeepsUntilShutdown(s: State, step: Step)
    requires IsSupervisorStep(step) && Enabled(s, step) && UntilShutdown(s) && SignalInv(s)
    ensures UntilShutdown(Supervise(s, step))
  {
    var t := Supervise(s, step);
    SupervisorLeavesSenders(s, step);
    assert forall p :: CallerAt(t.callers, p) == CallerAt(s.callers, p);
    match step
    case CallOnResult => assert forall i :: 0 <= i < |s.done| ==> t.done[i] == s.done[i];
    case _ =>
  }

  lemma SupervisorLeavesSenders(s: State, step: Step)
    requires IsSupervisorStep(step) && Enabled(s, step)
    ensures var t := Supervise(s, step); t.callers == s.callers && t.sendersGone == s.sendersGone && t.closing == s.closing
  {
    match step
    case CheckTop =>
    case PollShutdown =>
    case PollQueue =>
    case CheckAgain =>
    case PollSend(_) =>
    case CallOnSent =>
    case CallOnResult =>
    case CloseReceiver =>
    case DrainOne =>
  }

  lemma {:induction false} RunKeepsRoute(s: State, steps: seq<Step>)
    requires CanRun(s, steps) && RouteInv(s) && UntilShutdown(s) && SignalInv(s)
    ensures RouteInv(Run(s, steps)) && UntilShutdown(Run(s, steps)) && Run(s, steps).channels == s.channels
    decreases |steps|
  {
    if steps != [] {
      StepKeepsRoute(s, steps[0]);
      StepKeepsSignal(s, steps[0]);
      if IsSupervisorStep(steps[0]) {
        SupervisorKeepsUntilShutdown(s, steps[0]);
      } else {
        CallKeepsUntilShutdown(s, steps[0]);
      }
      RunKeepsRoute(Apply(s, steps[0]), steps[1..]);
    }
  }

  /** Over every run: "channel not found" is reported only for a channel that is not registered,
      only registered channels are asked, and an entry for a registered channel that was not handed
      over was finished by a shutdown. So before a shutdown every finished entry for a registered
      channel was handed to it. */
  lemma RegisteredChannelsAreAsked(channels: set<string>, steps: seq<Step>)
    requires CanRun(Init(channels), steps)
    ensures var s := Run(Init(channels), steps);
            forall d :: d in s.done ==>
              && (d.outcome == ChannelMissing ==> d.entry.channel !in channels)
              && (d.started ==> d.entry.channel in channels && d.entry.id in s.attempts)
              && (d.entry.channel in channels && !d.started ==> d.outcome == ShutdownBeforeDelivery || d.outcome == InterruptedByShutdown)
              && (!s.closing && d.entry.channel in channels ==> d.started && d.entry.id in s.attempts)
  {
    InitInv(channels);
    RunKeepsInv(Init(channels), steps);
    RunKeepsRoute(Init(channels), steps);
    var s := Run(Init(channels), steps);
    forall d | d in s.done && d.started ensures d.entry.id in s.attempts {
      var k :| 0 <= k < |s.done| && s.done[k] == d;
      StartedIsAttempted(s.done, k);
    }
  }

  // ---- termination -----------------------------------------------------------------------

  /** An upper bound on the supervisor's remaining steps once shutdown is on its way. */
  function Remaining(s: State): nat {
    var drain := 1 + 3 * |s.queue|;
    match s.pc
    case Stopped => 0
    case Drain => drain
    case Close => drain + 1
    case Top => drain + 2
    case Select => drain + 2
    case SelectPolled => drain + 3
    case Recheck(_) => drain + 4
    case Finish(_, _, _, sentCalled, after) =>
      (if sentCalled then 1 else 2) + drain + (if after == ToTop then 2 else if after == ToClose then 1 else 0)
    case InFlight(_, _) => drain + 5
    case InFlightPolled(_, _) => drain + 6
  }

  /** The supervisor is on its way out: it has the signal, or will look at `closing` again before
      it waits. From here on it needs nothing from anybody. */
  predicate Heading(s: State) {
    s.closing && (s.signal || s.pc == Top || s.pc.Recheck? || s.pc.Finish? || PastTheLoop(s.pc))
  }

  /** That is so as soon as a shutdown is under way and its signal is not still to come. */
  lemma ShutdownIsHeading(s: State)
    requires Inv(s) && s.closing && (!SomeoneAboutToBroadcast(s.callers) || s.signal || s.receiverClosed)
    ensures Heading(s)
  {
  }

  /** Otherwise the caller of the shutdown is about to send the signal, and sending it is enough. */
  lemma SignalIsComing(s: State)
    requires Inv(s) && s.closing && !Heading(s)
    ensures exists p :: Enabled(s, Broadcast(p))
    ensures forall p :: Enabled(s, Broadcast(p)) ==> Heading(Apply(s, Broadcast(p)))
  {
    var p :| CallerAt(s.callers, p) == AboutToBroadcast;
    assert Enabled(s, Broadcast(p));
  }

  /** Nothing turns it back: not even further calls of `shutdown`. */
  lemma StepKeepsHeading(s: State, step: Step)
    requires Enabled(s, step) && Heading(s)
    ensures Heading(Apply(s, step))
  {
    if !IsSupervisorStep(step) {
      CallersLogNothing(s, step);
      CallersKeepSignal(s, step);
    } else if step.CheckTop? || step.PollShutdown? || step.PollQueue? || step.CheckAgain? || step.PollSend? {
      PollsKeepHeading(s, step);
    }
  }

  lemma CallersKeepSignal(s: State, step: Step)
    requires !IsSupervisorStep(step)
    ensures s.signal ==> Call(s, step).signal
  {
  }

  lemma PollsKeepHeading(s: State, step: Step)
    requires Enabled(s, step) && Heading(s)
    requires step.CheckTop? || step.PollShutdown? || step.PollQueue? || step.CheckAgain? || step.PollSend?
    ensures Heading(Supervise(s, step))
  {
    match step
    case CheckTop =>
    case PollShutdown =>
    case PollQueue =>
    case CheckAgain =>
    case PollSend(_) =>
  }

  /** Supervisor steps until the receiver is closed, whatever is in the queue. */
  function StepsToClose(pc: Pc): nat {
    match pc
    case Stopped => 0
    case Drain => 0
    case Close => 1
    case Top => 2
    case Select => 2
    case Recheck(_) => 4
    case SelectPolled => 5
    case Finish(_, _, _, sentCalled, after) =>
      if after == ToDrain then 0 else (if sentCalled then 1 else 2) + if after == ToTop then 2 else 1
    case InFlight(_, _) => 5
    case InFlightPolled(_, _) => 6
  }

  lemma StepsRunOut(s: State, step: Step)
    requires CloseInv(s) && (Heading(s) || s.receiverClosed) && IsSupervisorStep(step) && Enabled(s, step)
    requires LateInv(s)
    ensures Remaining(Supervise(s, step)) < Remaining(s)
    ensures StepsToClose(s.pc) > 0 ==> StepsToClose(Supervise(s, step).pc) < StepsToClose(s.pc)
    ensures StepsToClose(s.pc) == 0 ==> StepsToClose(Supervise(s, step).pc) == 0
  {
    match step
    case CheckTop =>
    case PollShutdown =>
    case PollQueue =>
    case CheckAgain =>
    case PollSend(_) =>
    case CallOnSent =>
    case CallOnResult =>
    case CloseReceiver =>
    case DrainOne =>
  }

  /** A caller adds three steps for an entry that is accepted, and nothing once the receiver is
      closed. */
  lemma CallersAddLittle(s: State, step: Step)
    requires !IsSupervisorStep(step) && Enabled(s, step) && CloseInv(s)
    ensures var t := Call(s, step);
            && t.pc == s.pc && t.receiverClosed == s.receiverClosed && |s.accepted| <= |t.accepted|
            && Remaining(t) == Remaining(s) + 3 * (|t.accepted| - |s.accepted|)
            && (s.receiverClosed ==> t.accepted == s.accepted)
  {
    CallersLogNothing(s, step);
  }

  lemma SupervisorAcceptsNothing(s: State, step: Step)
    requires IsSupervisorStep(step) && Enabled(s, step)
    ensures Supervise(s, step).accepted == s.accepted && (s.receiverClosed ==> Supervise(s, step).receiverClosed)
  {
    match step
    case CheckTop =>
    case PollShutdown =>
    case PollQueue =>
    case CheckAgain =>
    case PollSend(_) =>
    case CallOnSent =>
    case CallOnResult =>
    case CloseReceiver =>
    case DrainOne =>
  }

  function SupervisorSteps(steps: seq<Step>): nat {
    if steps == [] then 0 else (if IsSupervisorStep(steps[0]) then 1 else 0) + SupervisorSteps(steps[1..])
  }

  /** What the supervisor has done and still has to do, against what it had to do. */
  predicate WithinBound(s: State, t: State, steps: nat) {
    && |s.accepted| <= |t.accepted|
    && steps + Remaining(t) <= Remaining(s) + 3 * (|t.accepted| - |s.accepted|)
    && (StepsToClose(t.pc) == 0 || steps + StepsToClose(t.pc) <= StepsToClose(s.pc))
  }

  lemma OneStepWithinBound(s: State, step: Step)
    requires Inv(s) && (Heading(s) || s.receiverClosed) && Enabled(s, step)
    ensures WithinBound(s, Apply(s, step), if IsSupervisorStep(step) then 1 else 0)
    ensures s.receiverClosed ==> Apply(s, step).receiverClosed && Apply(s, step).accepted == s.accepted
    ensures StepsToClose(s.pc) == 0 ==> StepsToClose(Apply(s, step).pc) == 0
  {
    if IsSupervisorStep(step) {
      StepsRunOut(s, step);
      SupervisorAcceptsNothing(s, step);
    } else {
      CallersAddLittle(s, step);
    }
  }

  lemma {:induction false} RunWithinBound(s: State, steps: seq<Step>)
    requires Inv(s) && (Heading(s) || s.receiverClosed) && CanRun(s, steps)
    ensures WithinBound(s, Run(s, steps), SupervisorSteps(steps)) && Inv(Run(s, steps))
    ensures s.receiverClosed ==> Run(s, steps).accepted == s.accepted
    ensures StepsToClose(s.pc) == 0 ==> StepsToClose(Run(s, steps).pc) == 0
    decreases |steps|
  {
    if steps != [] {
      var t := Apply(s, steps[0]);
      OneStepWithinBound(s, steps[0]);
      StepKeepsInv(s, steps[0]);
      if Heading(s) {
        StepKeepsHeading(s, steps[0]);
      }
      RunWithinBound(t, steps[1..]);
    }
  }

  /** After a shutdown, over every interleaving with callers that go on enqueueing, sending and
      shutting down: the receiver is closed after at most six steps of the supervisor; all its
      steps together are bounded by what was queued and what is accepted until then; and until it
      stops it always has a step. */
  lemma ShutdownTerminates(s: State, steps: seq<Step>)
    requires Inv(s) && s.closing && (!SomeoneAboutToBroadcast(s.callers) || s.signal || s.receiverClosed) && CanRun(s, steps)
    ensures var t := Run(s, steps);
            && |s.accepted| <= |t.accepted|
            && SupervisorSteps(steps) + Remaining(t) <= Remaining(s) + 3 * (|t.accepted| - |s.accepted|)
            && (SupervisorSteps(steps) >= 6 ==> t.receiverClosed)
            && (t.pc != Stopped ==> exists step :: IsSupervisorStep(step) && Enabled(t, step))
  {
    ShutdownIsHeading(s);
    RunWithinBound(s, steps);
    if Run(s, steps).pc != Stopped {
      SupervisorCanMove(Run(s, steps));
    }
  }

  /** Once the receiver is closed, nothing is accepted any more, and the drain ends within a bound
      given by the queue, whatever callers do. */
  lemma DrainTerminates(s: State, steps: seq<Step>)
    requires Inv(s) && s.receiverClosed && CanRun(s, steps)
    ensures var t := Run(s, steps);
            && t.accepted == s.accepted
            && SupervisorSteps(steps) + Remaining(t) <= Remaining(s) <= 3 + 3 * |s.queue|
            && (t.pc != Stopped ==> exists step :: IsSupervisorStep(step) && Enabled(t, step))
  {
    RunWithinBound(s, steps);
    if Run(s, steps).pc != Stopped {
      SupervisorCanMove(Run(s, steps));
    }
  }

  lemma SupervisorCanMove(s: State)
    requires s.pc != Stopped
    ensures exists step :: IsSupervisorStep(step) && Enabled(s, step)
  {
    var step := match s.pc
      case Top => CheckTop
      case Select => PollShutdown
      case SelectPolled => PollQueue
      case Recheck(_) => CheckAgain
      case InFlight(_, _) => PollShutdown
      case InFlightPolled(_, _) => PollSend(None)
      case Finish(_, _, _, sentCalled, _) => if sentCalled then CallOnResult else CallOnSent
      case Close => CloseReceiver
      case Drain => DrainOne
      case Stopped => DrainOne;
    assert Enabled(s, step);
  }
}
