// Requests and responses of one task around its protocol history: what is dispatched, what a late
// response carries back, and what the tool loop and attached context add in between.

module RequestLoop {
  import opened Base
  import opened Conversation
  import opened RuntimeConversation

  datatype Reply = Reply(id: string, content: string)

  /** The history of a task, and the conversation of every request that was ever made for it. */
  datatype World = World(conv: Conv, requests: seq<Option<seq<Message>>>)

  datatype Turn =
    | Local(op: Op)                                // a tool result, a user message, a compression
    | Send(budget: U32)                            // dispatch from the history
    | Respond(k: nat, output: Option<Output>, prompt: string)
    | FollowUp(k: nat, system: Option<string>, prompt: string, calling: Output, replies: seq<Reply>)
    | Attach(k: nat, text: string)                 // context appended to a request
    | Prune(k: nat, pruned: seq<Message>)          // older tool results are shortened

  const START := World(EMPTY, [])

  ghost predicate DistinctCalls(output: Output) {
    NoDuplicates(Ids(output.AllCalls()))
  }

  function ReplyIds(replies: seq<Reply>): seq<string> {
    seq(|replies|, i requires 0 <= i < |replies| => replies[i].id)
  }

  /** Every call has one reply, in any order. */
  ghost predicate RepliesTo(replies: seq<Reply>, calls: seq<Call>) {
    NoDuplicates(ReplyIds(replies)) && forall id :: id in ReplyIds(replies) <==> id in Ids(calls)
  }

  /** The same messages with other tool results in them. */
  ghost predicate SameShape(a: seq<Message>, b: seq<Message>) {
    && |a| == |b|
    && forall i :: 0 <= i < |a| ==> a[i] == b[i] || (a[i].Tool? && b[i].Tool? && a[i].callId == b[i].callId)
  }

  ghost predicate Enabled(w: World, turn: Turn) {
    match turn
    case Local(op) => !op.Remember?
    case Send(_) => true
    case Respond(k, output, _) => k < |w.requests| && (output.Some? ==> DistinctCalls(output.value))
    case FollowUp(k, _, _, output, replies) => k < |w.requests| && DistinctCalls(output) && RepliesTo(replies, output.AllCalls())
    case Attach(k, _) => k < |w.requests| && w.requests[k].Some?
    case Prune(k, pruned) => k < |w.requests| && w.requests[k].Some? && SameShape(w.requests[k].value, pruned)
  }

  /** What a dispatch sends: the restored history, cut to the budget. */
  ghost function Outgoing(est: Estimator, s: Conv, budget: U32): Option<seq<Message>> {
    if Restored(s).None? then None
    else Some(Restored(s).value[CutFrom(est, Restored(s).value, 0, budget)..])
  }

  function Tools(replies: seq<Reply>): seq<Message> {
    if replies == [] then [] else [Tool(replies[0].id, replies[0].content)] + Tools(replies[1..])
  }

  /** Where the tool loop starts: the conversation of its request, or the prompt when that had none. */
  function LoopBase(request: Option<seq<Message>>, system: Option<string>, prompt: string): seq<Message> {
    if request.Some? && request.value != [] then request.value
    else if system.Some? then [System(system.value), User(prompt)]
    else [User(prompt)]
  }

  function PushText(ms: seq<Message>, text: string): seq<Message> {
    if ms != [] && ms[|ms| - 1].User? then ms[..|ms| - 1] + [User(ms[|ms| - 1].content + "\n\n" + text)]
    else ms + [User(text)]
  }

  ghost function Apply(est: Estimator, w: World, turn: Turn): World
    requires Enabled(w, turn)
  {
    match turn
    case Local(op) => w.(conv := Step(est, w.conv, op))
    case Send(budget) => w.(requests := w.requests + [Outgoing(est, w.conv, budget)])
    case Respond(k, output, prompt) => w.(conv := Step(est, w.conv, Remember(Response(output, w.requests[k], prompt))))
    case FollowUp(k, system, prompt, output, replies) =>
      w.(requests := w.requests + [Some(LoopBase(w.requests[k], system, prompt) + [output.AsMessage()] + Tools(replies))])
    case Attach(k, text) => w.(requests := w.requests + [Some(PushText(w.requests[k].value, text))])
    case Prune(k, pruned) => w.(requests := w.requests + [Some(pruned)])
  }

  ghost predicate CanRun(est: Estimator, w: World, turns: seq<Turn>)
    decreases |turns|
  {
    turns == [] || (Enabled(w, turns[0]) && CanRun(est, Apply(est, w, turns[0]), turns[1..]))
  }

  ghost function After(est: Estimator, w: World, turns: seq<Turn>): World
    requires CanRun(est, w, turns)
    decreases |turns|
  {
    if turns == [] then w else After(est, Apply(est, w, turns[0]), turns[1..])
  }

  ghost predicate AllValid(requests: seq<Option<seq<Message>>>) {
    forall r :: r in requests && r.Some? ==> ProtocolValid(r.value)
  }

  ghost predicate LoopInv(est: Estimator, w: World) {
    Inv(est, w.conv) && AllValid(w.requests)
  }

  // ---- nothing is forgotten ---------------------------------------------------------------------

  /** Behind a response that is neither failed nor stale, the history is the conversation of the
      request with the answer behind it: all of the conversation is kept. */
  lemma RespondKeepsTheRequest(est: Estimator, w: World, k: nat, output: Output, prompt: string)
    requires Enabled(w, Respond(k, Some(output), prompt)) && !(w.requests[k].Some? && w.conv.invalidated)
    ensures var stored := Apply(est, w, Respond(k, Some(output), prompt)).conv.messages;
            && stored.Some? && |stored.value| > 0
            && Says(stored.value[|stored.value| - 1], output)
            && (w.requests[k].Some? ==> w.requests[k].value < stored.value && |stored.value| == |w.requests[k].value| + 1)
            && (w.requests[k].None? ==> stored.value[..|stored.value| - 1] == [User(prompt)])
  {
    ResponseIsStored(est, w.conv, Response(Some(output), w.requests[k], prompt));
  }

  lemma {:induction false} ToolsAre(replies: seq<Reply>)
    ensures |Tools(replies)| == |replies|
    ensures forall i :: 0 <= i < |replies| ==> Tools(replies)[i] == Tool(replies[i].id, replies[i].content)
  {
    if replies != [] {
      ToolsAre(replies[1..]);
    }
  }

  /** A follow-up carries the conversation of its request, the calls, and every reply with its own
      content, in this order. */
  lemma FollowUpCarriesAll(est: Estimator, w: World, k: nat, system: Option<string>, prompt: string, calling: Output, replies: seq<Reply>)
    requires Enabled(w, FollowUp(k, system, prompt, calling, replies))
    ensures var requests := Apply(est, w, FollowUp(k, system, prompt, calling, replies)).requests;
            && |requests| == |w.requests| + 1 && requests[..|w.requests|] == w.requests && requests[|w.requests|].Some?
            && var ms := requests[|w.requests|].value;
               && |ms| > |replies|
               && Says(ms[|ms| - |replies| - 1], calling)
               && (forall i :: 0 <= i < |replies| ==> ms[|ms| - |replies| + i] == Tool(replies[i].id, replies[i].content))
               && var base := ms[..|ms| - |replies| - 1];
                  if w.requests[k].Some? && w.requests[k].value != [] then base == w.requests[k].value
                  else base == (if system.Some? then [System(system.value)] else []) + [User(prompt)]
  {
    ToolsAre(replies);
    var base := LoopBase(w.requests[k], system, prompt);
    var ms := base + [calling.AsMessage()] + Tools(replies);
    assert ms[..|ms| - |replies| - 1] == base;
  }

  // ---- each source of requests ---------------------------------------------------------------

  lemma OutgoingIsValid(est: Estimator, s: Conv, budget: U32)
    requires Inv(est, s)
    ensures var r := Outgoing(est, s, budget);
            (r.Some? <==> s.messages.Some?)
            && (r.Some? ==> ProtocolValid(r.value) && (r.value == [] || Cost(est, r.value) <= budget))
  {
    if s.messages.Some? {
      ClosedIsValid(s.messages.value);
      var ms := Closed(s.messages.value);
      assert ms[..0] == [];
      CutIsValid(est, ms, 0, budget);
    }
  }

  /** Replies to all open calls, in any order, close the turn. */
  lemma {:induction false} RepliesClose(ms: seq<Message>, replies: seq<Reply>)
    requires Open(ms).Some? && NoDuplicates(ReplyIds(replies))
    requires forall id :: id in ReplyIds(replies) <==> id in Open(ms).value
    ensures ProtocolValid(ms + Tools(replies))
    decreases |replies|
  {
    if replies == [] {
      assert ms + Tools(replies) == ms && ReplyIds(replies) == [];
      assert Open(ms).value == {};
    } else {
      var answer := Tool(replies[0].id, replies[0].content);
      var ids, rest := ReplyIds(replies), ReplyIds(replies[1..]);
      assert ids == [replies[0].id] + rest;
      assert forall j :: 0 <= j < |rest| ==> rest[j] == ids[j + 1];
      assert ids[0] in ids && ids[0] !in rest && NoDuplicates(rest);
      OpenPush(ms, answer);
      forall id ensures id in rest <==> id in Open(ms + [answer]).value {
        assert id in ids <==> id == ids[0] || id in rest;
      }
      RepliesClose(ms + [answer], replies[1..]);
      Regroup(ms, [answer], Tools(replies[1..]));
    }
  }

  lemma BaseIsValid(request: Option<seq<Message>>, system: Option<string>, prompt: string)
    requires request.Some? ==> ProtocolValid(request.value)
    ensures ProtocolValid(LoopBase(request, system, prompt))
  {
    OpenPush([], User(prompt));
    assert [] + [User(prompt)] == [User(prompt)];
    if system.Some? {
      OpenPush([], System(system.value));
      assert [] + [System(system.value)] == [System(system.value)];
      OpenPush([System(system.value)], User(prompt));
      assert [System(system.value)] + [User(prompt)] == [System(system.value), User(prompt)];
    }
  }

  lemma FollowUpIsValid(base: seq<Message>, output: Output, replies: seq<Reply>)
    requires ProtocolValid(base) && DistinctCalls(output) && RepliesTo(replies, output.AllCalls())
    ensures ProtocolValid(base + [output.AsMessage()] + Tools(replies))
  {
    OpenPush(base, output.AsMessage());
    RepliesClose(base + [output.AsMessage()], replies);
  }

  lemma AttachKeepsValid(ms: seq<Message>, text: string)
    requires ProtocolValid(ms)
    ensures ProtocolValid(PushText(ms, text))
  {
    if ms != [] && ms[|ms| - 1].User? {
      var front := ms[..|ms| - 1];
      assert ms == front + [ms[|ms| - 1]];
      OpenPush(front, ms[|ms| - 1]);
      OpenPush(front, User(ms[|ms| - 1].content + "\n\n" + text));
    } else {
      OpenPush(ms, User(text));
    }
  }

  lemma {:induction false} ShapeDecides(a: seq<Message>, b: seq<Message>)
    requires SameShape(a, b)
    ensures Open(a) == Open(b)
    decreases |a|
  {
    if a != [] {
      ShapeDecides(a[..|a| - 1], b[..|b| - 1]);
    }
  }

  // ---- every run -------------------------------------------------------------------------------

  lemma PushValid(requests: seq<Option<seq<Message>>>, ms: Option<seq<Message>>)
    requires AllValid(requests) && (ms.Some? ==> ProtocolValid(ms.value))
    ensures AllValid(requests + [ms])
  {
  }

  lemma TurnKeepsInv(est: Estimator, w: World, turn: Turn)
    requires LoopInv(est, w) && Enabled(w, turn)
    ensures LoopInv(est, Apply(est, w, turn))
  {
    match turn
    case Local(op) => StepKeepsInv(est, w.conv, op);
    case Send(budget) =>
      OutgoingIsValid(est, w.conv, budget);
      PushValid(w.requests, Outgoing(est, w.conv, budget));
    case Respond(k, output, prompt) =>
      assert w.requests[k] in w.requests;
      StepKeepsInv(est, w.conv, Remember(Response(output, w.requests[k], prompt)));
    case FollowUp(k, system, prompt, output, replies) =>
      assert w.requests[k] in w.requests;
      var base := LoopBase(w.requests[k], system, prompt);
      BaseIsValid(w.requests[k], system, prompt);
      FollowUpIsValid(base, output, replies);
      PushValid(w.requests, Some(base + [output.AsMessage()] + Tools(replies)));
    case Attach(k, text) =>
      assert w.requests[k] in w.requests;
      AttachKeepsValid(w.requests[k].value, text);
      PushValid(w.requests, Some(PushText(w.requests[k].value, text)));
    case Prune(k, pruned) =>
      assert w.requests[k] in w.requests;
      ShapeDecides(w.requests[k].value, pruned);
      PushValid(w.requests, Some(pruned));
  }

  lemma {:induction false} RunKeepsLoopInv(est: Estimator, w: World, turns: seq<Turn>)
    requires LoopInv(est, w) && CanRun(est, w, turns)
    ensures LoopInv(est, After(est, w, turns))
    decreases |turns|
  {
    if turns != [] {
      TurnKeepsInv(est, w, turns[0]);
      RunKeepsLoopInv(est, Apply(est, w, turns[0]), turns[1..]);
    }
  }

  /** Over every run in which providers give the calls of one turn distinct ids, every request that
      is ever made carries a history the provider accepts, however late the responses are and
      whatever they are mixed with; and the history can always be restored to such a one. */
  lemma EveryRequestIsValid(est: Estimator, turns: seq<Turn>)
    requires CanRun(est, START, turns)
    ensures var w := After(est, START, turns);
            && (forall r :: r in w.requests && r.Some? ==> ProtocolValid(r.value))
            && (w.conv.messages.Some? ==> ProtocolValid(Restored(w.conv).value))
            && w.conv.tokens == (if w.conv.messages.Some? then Recount(est, w.conv.messages.value) else 0)
  {
    RunKeepsLoopInv(est, START, turns);
    var w := After(est, START, turns);
    if w.conv.messages.Some? {
      ClosedIsValid(w.conv.messages.value);
    }
  }

  /** Dispatch after any run: what is sent is the next request of the run, valid and within the
      budget. */
  method Dispatch(est: Estimator, history: History, budget: U32, ghost turns: seq<Turn>)
    returns (request: Option<seq<Message>>)
    requires CanRun(est, START, turns) && history.State() == After(est, START, turns).conv
    ensures request == Outgoing(est, history.State(), budget)
    ensures request.Some? <==> history.State().messages.Some?
    ensures request.Some? ==>
      && ProtocolValid(request.value)
      && (request.value == [] || Cost(est, request.value) <= budget)
  {
    request := history.Restore();
    RunKeepsLoopInv(est, START, turns);
    OutgoingIsValid(est, history.State(), budget);
    if request.Some? {
      var kept, _ := TruncateByBudget(est, request.value, budget);
      request := Some(kept);
    }
  }
}
