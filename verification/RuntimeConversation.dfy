// The protocol history that one task keeps at run time: late and missing tool results,
// interruption by the user, invalidation by compression, and the budget cut at dispatch.

module RuntimeConversation {
  import opened Base
  import opened Conversation

  const INTERRUPTED := "[interrupted] Tool result unavailable; execution outcome is unknown. Check actual state before repeating."

  datatype Output =
    | Text(text: string, reasoning: Option<string>)
    | ToolCalls(calls: seq<Call>, reasoning: Option<string>)
    | ToolCallsWithText(text: string, calls: seq<Call>, reasoning: Option<string>)
  {
    function AllCalls(): seq<Call> {
      if Text? then [] else calls
    }

    function AsMessage(): Message {
      Assistant(if ToolCalls? then None else Some(text), AllCalls(), reasoning)
    }
  }

  /** The parts of an execution result that the history looks at. */
  datatype Response = Response(output: Option<Output>, conversation: Option<seq<Message>>, prompt: string)

  /** Providers give every call of one turn its own id, and requests carry valid histories. */
  ghost predicate WellFormed(r: Response) {
    && (r.conversation.Some? ==> ProtocolValid(r.conversation.value))
    && (r.output.Some? ==> NoDuplicates(Ids(r.output.value.AllCalls())))
  }

  // ---- specification -------------------------------------------------------------

  /** The ids of the last turn's calls that have no answer yet, in call order. */
  ghost function Missing(ms: seq<Message>): seq<string> {
    MissingFrom(ms, Ids(AnchorCalls(ms)))
  }

  ghost function MissingFrom(ms: seq<Message>, ids: seq<string>): seq<string> {
    if ids == [] then []
    else (if Answered(ms, ids[0]) then [] else [ids[0]]) + MissingFrom(ms, ids[1..])
  }

  function Interruptions(ids: seq<string>): seq<Message> {
    if ids == [] then [] else [Tool(ids[0], INTERRUPTED)] + Interruptions(ids[1..])
  }

  ghost function Closed(ms: seq<Message>): seq<Message> {
    ms + Interruptions(Missing(ms))
  }

  datatype Conv = Conv(messages: Option<seq<Message>>, invalidated: bool, tokens: U32)

  const EMPTY := Conv(None, false, 0)

  datatype Op =
    | Remember(response: Response)
    | Record(id: string, result: string)
    | PushUser(content: string)
    | Invalidate

  ghost function Step(est: Estimator, s: Conv, op: Op): Conv {
    match op
    case Remember(r) =>
      if r.output.None? || (r.conversation.Some? && s.invalidated) then s
      else
        var history := if r.conversation.Some? then r.conversation.value else [User(r.prompt)];
        var ms := history + [r.output.value.AsMessage()];
        Conv(Some(ms), false, Recount(est, ms))
    case Record(id, result) =>
      if s.messages.Some? && id in Missing(s.messages.value)
      then s.(messages := Some(s.messages.value + [Tool(id, result)]), tokens := SatAdd(s.tokens, est(result)))
      else s
    case PushUser(content) =>
      if s.messages.None? then s
      else
        var ms := Closed(s.messages.value) + [User(content)];
        s.(messages := Some(ms), tokens := Recount(est, ms))
    case Invalidate => Conv(None, true, 0)
  }

  ghost function Run(est: Estimator, s: Conv, ops: seq<Op>): Conv
    decreases |ops|
  {
    if ops == [] then s else Run(est, Step(est, s, ops[0]), ops[1..])
  }

  ghost function Restored(s: Conv): Option<seq<Message>> {
    if s.messages.None? then None else Some(Closed(s.messages.value))
  }

  // ---- facts about closing -------------------------------------------------------

  lemma {:induction false} MissingFromMembers(ms: seq<Message>, ids: seq<string>)
    ensures forall id :: id in MissingFrom(ms, ids) <==> id in ids && !Answered(ms, id)
    ensures NoDuplicates(ids) ==> NoDuplicates(MissingFrom(ms, ids))
  {
    if ids != [] {
      MissingFromMembers(ms, ids[1..]);
      assert ids == [ids[0]] + ids[1..];
      if NoDuplicates(ids) {
        assert ids[0] !in ids[1..];
        var rest := MissingFrom(ms, ids[1..]);
        assert forall k :: 0 <= k < |rest| ==> rest[k] in rest;
      }
    }
  }

  /** In an acceptable history the missing ids are exactly the open calls, each once. */
  lemma MissingIsOpen(ms: seq<Message>)
    requires Open(ms).Some?
    ensures forall id :: id in Missing(ms) <==> id in Open(ms).value
    ensures NoDuplicates(Missing(ms))
  {
    OpenIsUnanswered(ms);
    MissingFromMembers(ms, Ids(AnchorCalls(ms)));
  }

  lemma {:induction false} InterruptionsClose(ms: seq<Message>, ids: seq<string>)
    requires Open(ms).Some? && NoDuplicates(ids)
    requires forall id :: id in ids <==> id in Open(ms).value
    ensures ProtocolValid(ms + Interruptions(ids))
    decreases |ids|
  {
    if ids == [] {
      assert ms + Interruptions(ids) == ms;
      assert Open(ms).value == {};
    } else {
      var next := ms + [Tool(ids[0], INTERRUPTED)];
      assert ids[0] in ids;
      OpenPush(ms, Tool(ids[0], INTERRUPTED));
      forall id ensures id in ids[1..] <==> id in Open(next).value {
        assert ids == [ids[0]] + ids[1..];
      }
      InterruptionsClose(next, ids[1..]);
      OneMoreInterruption(ms, ids);
    }
  }

  /** Closing an acceptable history makes it valid. */
  lemma ClosedIsValid(ms: seq<Message>)
    requires Open(ms).Some?
    ensures ProtocolValid(Closed(ms))
  {
    MissingIsOpen(ms);
    InterruptionsClose(ms, Missing(ms));
  }

  lemma PushedToolAnswers(ms: seq<Message>, id: string, content: string, x: string)
    ensures var next := ms + [Tool(id, content)];
            Anchor(next) == Anchor(ms) && (Answered(next, x) <==> Answered(ms, x) || x == id)
  {
    var next := ms + [Tool(id, content)];
    assert next[..|next| - 1] == ms;
    assert next[|ms|] == Tool(id, content);
    if Answered(ms, x) {
      var i :| Anchor(ms) < i < |ms| && ms[i].Tool? && ms[i].callId == x;
      assert next[i] == ms[i];
    }
    if Answered(next, x) {
      var i :| Anchor(next) < i < |next| && next[i].Tool? && next[i].callId == x;
      assert i < |ms| ==> ms[i] == next[i];
    }
  }

  lemma OneMoreInterruption(ms: seq<Message>, ids: seq<string>)
    requires ids != []
    ensures ms + Interruptions(ids) == (ms + [Tool(ids[0], INTERRUPTED)]) + Interruptions(ids[1..])
  {
    Regroup(ms, [Tool(ids[0], INTERRUPTED)], Interruptions(ids[1..]));
  }

  lemma {:induction false} AnchorPastInterruptions(ms: seq<Message>, ids: seq<string>)
    ensures Anchor(ms + Interruptions(ids)) == Anchor(ms)
    decreases |ids|
  {
    if ids == [] {
      assert ms + Interruptions(ids) == ms;
    } else {
      OneMoreInterruption(ms, ids);
      PushedToolAnswers(ms, ids[0], INTERRUPTED, "");
      AnchorPastInterruptions(ms + [Tool(ids[0], INTERRUPTED)], ids[1..]);
    }
  }

  lemma {:induction false} InterruptionsAnswer(ms: seq<Message>, ids: seq<string>, x: string)
    ensures Answered(ms + Interruptions(ids), x) <==> Answered(ms, x) || x in ids
    decreases |ids|
  {
    if ids == [] {
      assert ms + Interruptions(ids) == ms;
    } else {
      OneMoreInterruption(ms, ids);
      PushedToolAnswers(ms, ids[0], INTERRUPTED, x);
      InterruptionsAnswer(ms + [Tool(ids[0], INTERRUPTED)], ids[1..], x);
      assert x in ids <==> x == ids[0] || x in ids[1..];
    }
  }

  /** Closing twice adds nothing, whatever the history looks like. */
  lemma ClosingIsIdempotent(ms: seq<Message>)
    ensures Closed(Closed(ms)) == Closed(ms)
  {
    var ids := Ids(AnchorCalls(ms));
    AnchorPastInterruptions(ms, Missing(ms));
    MissingFromMembers(ms, ids);
    assert AnchorCalls(Closed(ms)) == AnchorCalls(ms);
    forall id | id in ids ensures Answered(Closed(ms), id) {
      InterruptionsAnswer(ms, Missing(ms), id);
    }
    NothingMissing(Closed(ms), ids);
    assert Closed(ms) + [] == Closed(ms);
  }

  lemma {:induction false} NothingMissing(ms: seq<Message>, ids: seq<string>)
    requires forall id :: id in ids ==> Answered(ms, id)
    ensures MissingFrom(ms, ids) == []
  {
    if ids != [] {
      NothingMissing(ms, ids[1..]);
    }
  }

  // ---- what every run keeps ------------------------------------------------------

  ghost predicate Inv(est: Estimator, s: Conv) {
    && (s.messages.Some? ==> Open(s.messages.value).Some?)
    && s.tokens == (if s.messages.Some? then Recount(est, s.messages.value) else 0)
    && (s.invalidated ==> s.messages.None?)
  }

  lemma StepKeepsInv(est: Estimator, s: Conv, op: Op)
    requires Inv(est, s)
    requires op.Remember? ==> WellFormed(op.response)
    ensures Inv(est, Step(est, s, op))
  {
    match op
    case Remember(r) =>
      if !(r.output.None? || (r.conversation.Some? && s.invalidated)) {
        var history := if r.conversation.Some? then r.conversation.value else [User(r.prompt)];
        if r.conversation.None? {
          assert [User(r.prompt)][..0] == [];
        }
        OpenPush(history, r.output.value.AsMessage());
      }
    case Record(id, result) =>
      if s.messages.Some? {
        MissingIsOpen(s.messages.value);
        OpenPush(s.messages.value, Tool(id, result));
        RecountPush(est, s.messages.value, Tool(id, result));
      }
    case PushUser(content) =>
      if s.messages.Some? {
        ClosedIsValid(s.messages.value);
        OpenPush(Closed(s.messages.value), User(content));
      }
    case Invalidate =>
  }

  lemma {:induction false} RunKeepsInv(est: Estimator, s: Conv, ops: seq<Op>)
    requires Inv(est, s)
    requires forall k :: 0 <= k < |ops| && ops[k].Remember? ==> WellFormed(ops[k].response)
    ensures Inv(est, Run(est, s, ops))
    decreases |ops|
  {
    if ops != [] {
      StepKeepsInv(est, s, ops[0]);
      RunKeepsInv(est, Step(est, s, ops[0]), ops[1..]);
    }
  }

  /** Over every run, the restored history is one the provider accepts, and it only adds to
      what is stored. */
  lemma RestoredHistoryIsValid(est: Estimator, ops: seq<Op>)
    requires forall k :: 0 <= k < |ops| && ops[k].Remember? ==> WellFormed(ops[k].response)
    ensures var s := Run(est, EMPTY, ops);
            s.messages.Some? ==> ProtocolValid(Restored(s).value) && s.messages.value <= Restored(s).value
  {
    RunKeepsInv(est, EMPTY, ops);
    var s := Run(est, EMPTY, ops);
    if s.messages.Some? {
      ClosedIsValid(s.messages.value);
    }
  }

  /** Over every run, the incrementally kept total equals the saturating recount. */
  lemma TokensAreTheRecount(est: Estimator, ops: seq<Op>)
    requires forall k :: 0 <= k < |ops| && ops[k].Remember? ==> WellFormed(ops[k].response)
    ensures var s := Run(est, EMPTY, ops);
            s.tokens == (if s.messages.Some? then Recount(est, s.messages.value) else 0)
  {
    RunKeepsInv(est, EMPTY, ops);
  }

  /** A result changes the history exactly when its call is open: unknown, repeated and late
      results are ignored, an open one is stored and cannot be stored again. */
  lemma ResultsCountOnce(est: Estimator, s: Conv, id: string, result: string, later: string)
    requires Inv(est, s) && s.messages.Some?
    ensures Step(est, s, Record(id, result)) != s <==> id in Open(s.messages.value).value
    ensures var t := Step(est, s, Record(id, result)); Step(est, t, Record(id, later)) == t
  {
    MissingIsOpen(s.messages.value);
    var t := Step(est, s, Record(id, result));
    StepKeepsInv(est, s, Record(id, result));
    MissingIsOpen(t.messages.value);
    OpenPush(s.messages.value, Tool(id, result));
  }

  /** After the user has spoken no result of the interrupted turn is accepted any more. */
  lemma UserClosesTheTurn(est: Estimator, s: Conv, content: string, id: string, late: string)
    requires Inv(est, s)
    ensures var t := Step(est, s, PushUser(content)); Step(est, t, Record(id, late)) == t
  {
    StepKeepsInv(est, s, PushUser(content));
    var t := Step(est, s, PushUser(content));
    if t.messages.Some? {
      ClosedIsValid(s.messages.value);
      OpenPush(Closed(s.messages.value), User(content));
      MissingIsOpen(t.messages.value);
    }
  }

  // ---- what is stored --------------------------------------------------------------

  /** The response of a request that was made before a compression. */
  predicate Stale(s: Conv, r: Response) {
    r.conversation.Some? && s.invalidated
  }

  /** A message says exactly what an output says. */
  predicate Says(m: Message, output: Output) {
    && m.Assistant?
    && m.reasoning == output.reasoning
    && match output
       case Text(text, _) => m.text == Some(text) && m.calls == []
       case ToolCalls(calls, _) => m.text == None && m.calls == calls
       case ToolCallsWithText(text, calls, _) => m.text == Some(text) && m.calls == calls
  }

  /** A response that is neither failed nor stale leaves the conversation it carries, or its prompt
      when it carries none, with its answer behind it; any other leaves everything as it was. */
  lemma ResponseIsStored(est: Estimator, s: Conv, r: Response)
    ensures var t := Step(est, s, Remember(r));
            if r.output.None? || Stale(s, r) then t == s
            else
              && t.messages.Some? && !t.invalidated
              && |t.messages.value| > 0
              && Says(t.messages.value[|t.messages.value| - 1], r.output.value)
              && t.messages.value[..|t.messages.value| - 1]
                 == (match r.conversation case Some(carried) => carried case None => [User(r.prompt)])
  {
  }

  /** The result of an open call is stored with its own content, behind everything else. */
  lemma ResultIsStored(est: Estimator, s: Conv, id: string, result: string)
    requires Inv(est, s) && s.messages.Some? && id in Open(s.messages.value).value
    ensures Step(est, s, Record(id, result)).messages == Some(s.messages.value + [Tool(id, result)])
  {
    MissingIsOpen(s.messages.value);
  }

  lemma {:induction false} InterruptionsAreTools(ids: seq<string>)
    ensures |Interruptions(ids)| == |ids|
    ensures forall k :: 0 <= k < |ids| ==> Interruptions(ids)[k] == Tool(ids[k], INTERRUPTED)
  {
    if ids != [] {
      InterruptionsAreTools(ids[1..]);
    }
  }

  /** A user message is stored with its own content at the end; in front of it stands everything
      that was stored, and one interruption for each call that was open, and only those. */
  lemma UserMessageIsStored(est: Estimator, s: Conv, content: string)
    requires Inv(est, s) && s.messages.Some?
    ensures var t := Step(est, s, PushUser(content));
            && t.messages.Some?
            && s.messages.value < t.messages.value
            && t.messages.value[|t.messages.value| - 1] == User(content)
            && var between := t.messages.value[|s.messages.value|..|t.messages.value| - 1];
               && (forall m :: m in between ==> m.Tool? && m.content == INTERRUPTED && m.callId in Open(s.messages.value).value)
               && |between| == |Open(s.messages.value).value|
  {
    var ms := s.messages.value;
    var ids := Missing(ms);
    MissingIsOpen(ms);
    InterruptionsAreTools(ids);
    var t := Step(est, s, PushUser(content));
    assert t.messages.value == ms + Interruptions(ids) + [User(content)];
    assert t.messages.value[|ms|..|t.messages.value| - 1] == Interruptions(ids);
    forall m | m in Interruptions(ids) ensures m.Tool? && m.content == INTERRUPTED && m.callId in Open(ms).value {
      var k :| 0 <= k < |ids| && Interruptions(ids)[k] == m;
      assert ids[k] in ids;
    }
    DistinctCount(ids, Open(ms).value);
  }

  lemma {:induction false} DistinctCount(ids: seq<string>, all: set<string>)
    requires NoDuplicates(ids) && forall id :: id in ids <==> id in all
    ensures |ids| == |all|
    decreases |ids|
  {
    if ids == [] {
      assert all == {};
    } else {
      var rest := ids[1..];
      assert ids == [ids[0]] + rest;
      assert forall j :: 0 <= j < |rest| ==> rest[j] == ids[j + 1];
      assert ids[0] !in rest;
      DistinctCount(rest, all - {ids[0]});
    }
  }

  // ---- after compression ---------------------------------------------------------

  /** A successful answer to a request that carried no history. */
  predicate Fresh(op: Op) {
    op.Remember? && op.response.output.Some? && op.response.conversation.None?
  }

  /** Once invalidated, the history stays empty and free through any operations, until and
      only until a fresh response arrives. */
  lemma {:induction false} CompressedUntilFresh(est: Estimator, s: Conv, ops: seq<Op>)
    requires s.invalidated && s.messages.None? && s.tokens == 0
    ensures (forall k :: 0 <= k < |ops| ==> !Fresh(ops[k])) ==> Run(est, s, ops) == Conv(None, true, 0)
    ensures ops != [] && Fresh(ops[|ops| - 1]) && (forall k :: 0 <= k < |ops| - 1 ==> !Fresh(ops[k])) ==>
              Run(est, s, ops).messages.Some? && !Run(est, s, ops).invalidated
    decreases |ops|
  {
    if ops != [] {
      var t := Step(est, s, ops[0]);
      if !Fresh(ops[0]) {
        CompressedUntilFresh(est, t, ops[1..]);
      }
    }
  }

  // ---- the class -----------------------------------------------------------------

  /** The loop that adds the tokens of the messages from `from` on. */
  method AddTokens(est: Estimator, ms: seq<Message>, from: nat, start: U32) returns (tokens: U32)
    requires from <= |ms| && start == Recount(est, ms[..from])
    ensures tokens == Recount(est, ms)
  {
    tokens := start;
    for i := from to |ms|
      invariant tokens == Recount(est, ms[..i])
    {
      RecountPush(est, ms[..i], ms[i]);
      assert ms[..i] + [ms[i]] == ms[..i + 1];
      tokens := SatAdd(tokens, Tokens(est, ms[i]));
    }
    assert ms[..|ms|] == ms;
  }

  class History {
    const est: Estimator
    var messages: Option<seq<Message>>
    var invalidated: bool
    var estimatedTokens: U32

    constructor (est: Estimator)
      ensures this.est == est && State() == EMPTY
    {
      this.est := est;
      messages, invalidated, estimatedTokens := None, false, 0;
    }

    function State(): Conv
      reads this
    {
      Conv(messages, invalidated, estimatedTokens)
    }

    method RememberResponse(r: Response)
      modifies this
      ensures State() == Step(est, old(State()), Remember(r))
      ensures r.output.None? || Stale(old(State()), r) ==> State() == old(State())
      ensures r.output.Some? && !Stale(old(State()), r) ==>
                && messages.Some? && |messages.value| > 0 && !invalidated
                && messages.value[..|messages.value| - 1] == (match r.conversation case Some(carried) => carried case None => [User(r.prompt)])
                && Says(messages.value[|messages.value| - 1], r.output.value)
    {
      ResponseIsStored(est, State(), r);
      if r.output.None? {
        return;
      }
      if r.conversation.Some? && invalidated {
        return;
      }
      invalidated := false;
      var ms := if r.conversation.Some? then r.conversation.value else [User(r.prompt)];
      ms := ms + [r.output.value.AsMessage()];
      assert ms[..0] == [];
      estimatedTokens := AddTokens(est, ms, 0, 0);
      messages := Some(ms);
    }

    method RecordToolResult(id: string, content: string)
      modifies this
      ensures State() == Step(est, old(State()), Record(id, content))
    {
      if messages.None? {
        return;
      }
      var ms := messages.value;
      var anchor := LastAssistant(ms);
      if anchor < 0 {
        return;
      }
      MissingFromMembers(ms, Ids(AnchorCalls(ms)));
      var expected := exists c :: c in ms[anchor].calls && c.id == id;
      assert expected <==> id in Ids(AnchorCalls(ms)) by {
        var ids := Ids(AnchorCalls(ms));
        if expected {
          var i :| 0 <= i < |ms[anchor].calls| && ms[anchor].calls[i].id == id;
          assert ids[i] == id;
        }
        if id in ids {
          var i :| 0 <= i < |ids| && ids[i] == id;
          assert ms[anchor].calls[i] in ms[anchor].calls;
        }
      }
      if expected {
        var answered := IsAnswered(ms, anchor, id);
        if !answered {
          estimatedTokens := SatAdd(estimatedTokens, est(content));
          messages := Some(ms + [Tool(id, content)]);
        }
      }
    }

    method PushUserMessage(content: string)
      requires estimatedTokens == if messages.Some? then Recount(est, messages.value) else 0
      modifies this
      ensures State() == Step(est, old(State()), PushUser(content))
    {
      if messages.None? {
        return;
      }
      var previous := |messages.value|;
      var ms := ClosePending(messages.value);
      ms := ms + [User(content)];
      assert ms[..previous] == messages.value;
      messages := Some(ms);
      estimatedTokens := AddTokens(est, ms, previous, estimatedTokens);
    }

    method Restore() returns (r: Option<seq<Message>>)
      ensures r == Restored(State())
    {
      if messages.None? {
        return None;
      }
      var ms := ClosePending(messages.value);
      return Some(ms);
    }

    method Forget()
      modifies this
      ensures State() == Step(est, old(State()), Invalidate)
    {
      messages, invalidated, estimatedTokens := None, true, 0;
    }
  }

  /** `rposition` of an Assistant message, or -1. */
  method LastAssistant(ms: seq<Message>) returns (anchor: int)
    ensures anchor == Anchor(ms)
  {
    var i := |ms|;
    while i > 0
      invariant 0 <= i <= |ms| && Anchor(ms) == Anchor(ms[..i])
    {
      assert ms[..i][..i - 1] == ms[..i - 1];
      i := i - 1;
      if ms[i].Assistant? {
        return i;
      }
    }
    return -1;
  }

  method IsAnswered(ms: seq<Message>, anchor: int, id: string) returns (answered: bool)
    requires anchor == Anchor(ms)
    ensures answered <==> Answered(ms, id)
  {
    for i := anchor + 1 to |ms|
      invariant forall j :: anchor < j < i ==> !(ms[j].Tool? && ms[j].callId == id)
    {
      if ms[i].Tool? && ms[i].callId == id {
        return true;
      }
    }
    return false;
  }

  method ClosePending(ms: seq<Message>) returns (closed: seq<Message>)
    ensures closed == Closed(ms)
  {
    var anchor := LastAssistant(ms);
    if anchor < 0 {
      assert Missing(ms) == [];
      return ms;
    }
    var missing := MissingCalls(ms, anchor);
    closed := ms;
    assert missing[0..] == missing;
    for i := 0 to |missing|
      invariant Closed(ms) == closed + Interruptions(missing[i..])
    {
      assert missing[i..][1..] == missing[i + 1..];
      closed := closed + [Tool(missing[i], INTERRUPTED)];
    }
  }

  method MissingCalls(ms: seq<Message>, anchor: int) returns (missing: seq<string>)
    requires 0 <= anchor < |ms| && anchor == Anchor(ms) && ms[anchor].Assistant?
    ensures missing == Missing(ms)
  {
    var ids := Ids(ms[anchor].calls);
    missing := [];
    assert ids[0..] == ids;
    for i := 0 to |ids|
      invariant Missing(ms) == missing + MissingFrom(ms, ids[i..])
    {
      var answered := IsAnswered(ms, anchor, ids[i]);
      MissingStep(ms, ids, i, missing);
      if !answered {
        missing := missing + [ids[i]];
      }
    }
    assert ids[|ids|..] == [] && missing + [] == missing;
  }

  lemma MissingStep(ms: seq<Message>, ids: seq<string>, i: nat, missing: seq<string>)
    requires i < |ids|
    ensures missing + MissingFrom(ms, ids[i..])
         == (if Answered(ms, ids[i]) then missing else missing + [ids[i]]) + MissingFrom(ms, ids[i + 1..])
  {
    assert ids[i..][1..] == ids[i + 1..];
  }

  // ---- the budget cut at dispatch ------------------------------------------------

  /** A message together with the Tool messages that directly follow it when it makes calls. */
  function GroupEnd(ms: seq<Message>, start: nat): (end: nat)
    requires start < |ms|
    ensures start < end <= |ms|
    ensures forall i :: start < i < end ==> ms[i].Tool?
    ensures end < |ms| && ms[start].Assistant? && ms[start].calls != [] ==> !ms[end].Tool?
    ensures !(ms[start].Assistant? && ms[start].calls != []) ==> end == start + 1
  {
    if ms[start].Assistant? && ms[start].calls != [] then SkipTools(ms, start + 1) else start + 1
  }

  function SkipTools(ms: seq<Message>, i: nat): (end: nat)
    requires i <= |ms|
    ensures i <= end <= |ms|
    ensures forall k :: i <= k < end ==> ms[k].Tool?
    ensures end < |ms| ==> !ms[end].Tool?
    decreases |ms| - i
  {
    if i < |ms| && ms[i].Tool? then SkipTools(ms, i + 1) else i
  }

  /** A cut after a whole group of a valid history leaves valid parts on both sides. */
  lemma GroupCutIsValid(ms: seq<Message>, start: nat)
    requires ProtocolValid(ms) && start < |ms| && ProtocolValid(ms[..start])
    ensures ProtocolValid(ms[..GroupEnd(ms, start)])
  {
    var end := GroupEnd(ms, start);
    OpenOfPrefix(ms, end);
    if end == |ms| {
      assert ms[..end] == ms;
    } else {
      OpenOfPrefix(ms, end + 1);
      assert ms[..end + 1] == ms[..end] + [ms[end]];
      OpenPush(ms[..end], ms[end]);
      if end == start + 1 && !(ms[start].Assistant? && ms[start].calls != []) {
        assert ms[..start + 1] == ms[..start] + [ms[start]];
        OpenPush(ms[..start], ms[start]);
        if ms[start].Assistant? {
          assert Ids(ms[start].calls) == [];
        }
      }
    }
  }

  lemma {:induction false} CostOfSuffix(est: Estimator, ms: seq<Message>, k: nat)
    requires k < |ms|
    ensures Cost(est, ms[k..]) == Tokens(est, ms[k]) + Cost(est, ms[k + 1..])
  {
    assert ms[k..][1..] == ms[k + 1..];
  }

  /** Where the cut ends that has come as far as `end`. */
  function CutFrom(est: Estimator, ms: seq<Message>, end: nat, budget: U32): (cut: nat)
    requires end <= |ms|
    ensures end <= cut <= |ms|
    ensures cut == |ms| || Cost(est, ms[cut..]) <= budget
    decreases |ms| - end
  {
    if end < |ms| && Cost(est, ms[end..]) > budget then CutFrom(est, ms, GroupEnd(ms, end), budget) else end
  }

  lemma {:induction false} CutIsValid(est: Estimator, ms: seq<Message>, end: nat, budget: U32)
    requires end <= |ms| && ProtocolValid(ms) && ProtocolValid(ms[..end])
    ensures ProtocolValid(ms[CutFrom(est, ms, end, budget)..])
    decreases |ms| - end
  {
    if end < |ms| && Cost(est, ms[end..]) > budget {
      GroupCutIsValid(ms, end);
      CutIsValid(est, ms, GroupEnd(ms, end), budget);
    } else {
      assert ms == ms[..end] + ms[end..];
      OpenRestarts(ms[..end], ms[end..]);
    }
  }

  /** The dispatcher drops whole groups from the front until the rest fits the budget. What is
      left of a valid history is valid, fits (or is empty), and no group was dropped without
      need. */
  method TruncateByBudget(est: Estimator, messages: seq<Message>, budget: U32)
    returns (kept: seq<Message>, ghost cut: nat)
    ensures cut == CutFrom(est, messages, 0, budget) && kept == messages[cut..]
    ensures kept == [] || Cost(est, kept) <= budget
    ensures ProtocolValid(messages) ==> ProtocolValid(kept)
    ensures cut > 0 ==> exists start :: IsLastDrop(est, messages, budget, start, cut)
  {
    var total := Cost(est, messages);
    var end := 0;
    assert messages[0..] == messages && messages[..0] == [];
    while end < |messages| && total > budget
      invariant 0 <= end <= |messages| && total == Cost(est, messages[end..])
      invariant CutFrom(est, messages, 0, budget) == CutFrom(est, messages, end, budget)
      invariant end > 0 ==> exists start :: IsLastDrop(est, messages, budget, start, end)
      decreases |messages| - end
    {
      ghost var start := end;
      end, total := DropGroup(est, messages, end, total);
      assert IsLastDrop(est, messages, budget, start, end);
    }
    kept := messages[end..];
    cut := end;
    if ProtocolValid(messages) {
      CutIsValid(est, messages, 0, budget);
    }
  }

  /** Dropping the group `messages[start..cut]` was necessary. */
  ghost predicate IsLastDrop(est: Estimator, messages: seq<Message>, budget: U32, start: nat, cut: nat) {
    start < |messages| && GroupEnd(messages, start) == cut && Cost(est, messages[start..]) > budget
  }

  /** The body of the cutting loop: one message, with its answers if it makes calls. */
  method DropGroup(est: Estimator, messages: seq<Message>, start: nat, cost: nat) returns (end: nat, total: int)
    requires start < |messages| && cost == Cost(est, messages[start..])
    ensures end == GroupEnd(messages, start) && total == Cost(est, messages[end..])
  {
    var anchor := messages[start].Assistant? && messages[start].calls != [];
    CostOfSuffix(est, messages, start);
    total, end := cost - Tokens(est, messages[start]), start + 1;
    if anchor {
      while end < |messages| && messages[end].Tool?
        invariant start < end <= |messages| && total == Cost(est, messages[end..])
        invariant SkipTools(messages, start + 1) == SkipTools(messages, end)
      {
        CostOfSuffix(est, messages, end);
        total, end := total - Tokens(est, messages[end]), end + 1;
      }
    }
  }
}
