// The structured tool protocol between the runtime and a model: messages, their cost, and
// what makes a history acceptable.

module Conversation {
  import opened Base

  const U32_MAX: nat := 0xFFFF_FFFF

  type U32 = n: nat | n <= U32_MAX

  function SatAdd(a: U32, b: U32): U32 {
    if a + b > U32_MAX then U32_MAX else a + b
  }

  datatype Call = Call(id: string, name: string, arguments: string)

  datatype Message =
    | System(content: string)
    | User(content: string)
    | Assistant(text: Option<string>, calls: seq<Call>, reasoning: Option<string>)
    | Tool(callId: string, content: string)

  /** The tokenizer is a parameter of everything that counts. */
  type Estimator = string -> U32

  function OptionTokens(est: Estimator, s: Option<string>): U32 {
    if s.Some? then est(s.value) else 0
  }

  function CallTokens(est: Estimator, start: U32, calls: seq<Call>): U32
    decreases |calls|
  {
    if calls == [] then start else CallTokens(est, SatAdd(start, est(calls[0].arguments)), calls[1..])
  }

  function Tokens(est: Estimator, m: Message): U32 {
    match m
    case Assistant(text, calls, reasoning) =>
      CallTokens(est, SatAdd(OptionTokens(est, text), OptionTokens(est, reasoning)), calls)
    case _ => est(m.content)
  }

  /** The saturating recount of a history, message by message. */
  function Recount(est: Estimator, ms: seq<Message>): U32 {
    if ms == [] then 0 else SatAdd(Recount(est, ms[..|ms| - 1]), Tokens(est, ms[|ms| - 1]))
  }

  /** The plain sum that the dispatcher compares with its budget. */
  function Cost(est: Estimator, ms: seq<Message>): nat {
    if ms == [] then 0 else Tokens(est, ms[0]) + Cost(est, ms[1..])
  }

  function Ids(calls: seq<Call>): seq<string> {
    seq(|calls|, i requires 0 <= i < |calls| => calls[i].id)
  }

  /** The protocol as an acceptor. The value is the set of calls that still wait for their
      answer, or None once a message came that the protocol does not allow:
      an answer without an open call, or anything else while a call is open. */
  ghost function Open(ms: seq<Message>): Option<set<string>> {
    if ms == [] then Some({})
    else
      var before := Open(ms[..|ms| - 1]);
      if before.None? then None
      else
        match ms[|ms| - 1]
        case Tool(id, _) => if id in before.value then Some(before.value - {id}) else None
        case Assistant(_, calls, _) =>
          if before.value == {} && NoDuplicates(Ids(calls)) then Some(set id | id in Ids(calls)) else None
        case _ => if before.value == {} then Some({}) else None
  }

  /** A history that a provider accepts: every call answered exactly once, in its place. */
  ghost predicate ProtocolValid(ms: seq<Message>) {
    Open(ms) == Some({})
  }

  lemma OpenPush(ms: seq<Message>, m: Message)
    ensures Open(ms + [m]) ==
            if Open(ms).None? then None
            else match m
                 case Tool(id, _) => if id in Open(ms).value then Some(Open(ms).value - {id}) else None
                 case Assistant(_, calls, _) =>
                   if Open(ms).value == {} && NoDuplicates(Ids(calls)) then Some(set id | id in Ids(calls)) else None
                 case _ => if Open(ms).value == {} then Some({}) else None
  {
    assert (ms + [m])[..|ms|] == ms;
  }

  lemma RecountPush(est: Estimator, ms: seq<Message>, m: Message)
    ensures Recount(est, ms + [m]) == SatAdd(Recount(est, ms), Tokens(est, m))
  {
    assert (ms + [m])[..|ms|] == ms;
  }

  /** The acceptor restarts at every point where nothing is open. */
  lemma {:induction false} OpenRestarts(a: seq<Message>, b: seq<Message>)
    requires ProtocolValid(a)
    ensures Open(a + b) == Open(b)
    decreases |b|
  {
    if b == [] {
      assert a + b == a;
    } else {
      var last := |b| - 1;
      assert (a + b)[..|a + b| - 1] == a + b[..last];
      OpenRestarts(a, b[..last]);
    }
  }

  lemma {:induction false} OpenOfPrefix(ms: seq<Message>, k: nat)
    requires k <= |ms| && Open(ms).Some?
    ensures Open(ms[..k]).Some?
    decreases |ms|
  {
    if k < |ms| {
      assert ms[..|ms| - 1][..k] == ms[..k];
      OpenOfPrefix(ms[..|ms| - 1], k);
    } else {
      assert ms[..k] == ms;
    }
  }

  // ---- the last assistant turn ---------------------------------------------------

  /** Position of the last Assistant message, or -1. */
  function Anchor(ms: seq<Message>): (a: int)
    ensures -1 <= a < |ms|
    ensures a >= 0 ==> ms[a].Assistant?
    ensures forall i :: a < i < |ms| ==> !ms[i].Assistant?
  {
    if ms == [] then -1
    else if ms[|ms| - 1].Assistant? then |ms| - 1
    else Anchor(ms[..|ms| - 1])
  }

  function AnchorCalls(ms: seq<Message>): seq<Call> {
    if Anchor(ms) < 0 then [] else ms[Anchor(ms)].calls
  }

  ghost predicate Answered(ms: seq<Message>, id: string) {
    exists i :: Anchor(ms) < i < |ms| && ms[i].Tool? && ms[i].callId == id
  }

  /** What is open in an acceptable history: the calls of the last Assistant that no Tool
      message answers. */
  lemma {:induction false} OpenIsUnanswered(ms: seq<Message>)
    requires Open(ms).Some?
    ensures Anchor(ms) >= 0 ==> NoDuplicates(Ids(AnchorCalls(ms)))
    ensures forall id :: id in Open(ms).value <==> id in Ids(AnchorCalls(ms)) && !Answered(ms, id)
  {
    if ms != [] {
      var rest := ms[..|ms| - 1];
      var m := ms[|ms| - 1];
      OpenIsUnanswered(rest);
      assert ms == rest + [m];
      if m.Assistant? {
        assert forall id :: !Answered(ms, id);
      } else {
        assert Anchor(ms) == Anchor(rest);
        forall id ensures Answered(ms, id) <==> Answered(rest, id) || (m.Tool? && m.callId == id) {
          if Answered(rest, id) {
            var i :| Anchor(rest) < i < |rest| && rest[i].Tool? && rest[i].callId == id;
            assert ms[i] == rest[i];
          }
          if Answered(ms, id) && !(m.Tool? && m.callId == id) {
            var i :| Anchor(ms) < i < |ms| && ms[i].Tool? && ms[i].callId == id;
            assert rest[i] == ms[i];
          }
        }
      }
    }
  }

  /** After the last Assistant come its Tool messages and then only other messages, and no
      call is answered twice. */
  lemma {:induction false} TailShape(ms: seq<Message>)
    requires Open(ms).Some?
    ensures forall i, j :: Anchor(ms) < i < j < |ms| && ms[j].Tool? ==> ms[i].Tool?
    ensures forall i, j :: Anchor(ms) < i < j < |ms| && ms[i].Tool? && ms[j].Tool? ==> ms[i].callId != ms[j].callId
    ensures forall i :: Anchor(ms) < i < |ms| && ms[i].Tool? ==> ms[i].callId in Ids(AnchorCalls(ms))
  {
    if ms != [] {
      var rest := ms[..|ms| - 1];
      var m := ms[|ms| - 1];
      TailShape(rest);
      OpenIsUnanswered(rest);
      assert ms == rest + [m];
      if m.Tool? {
        assert !Answered(rest, m.callId);
        if i :| Anchor(ms) < i < |ms| - 1 && !ms[i].Tool? {
          OpenAfterUserStaysEmpty(rest, i);
        }
      }
    }
  }

  lemma {:induction false} OpenAfterUserStaysEmpty(ms: seq<Message>, i: nat)
    requires Open(ms).Some? && Anchor(ms) < i < |ms| && !ms[i].Tool?
    ensures Open(ms) == Some({})
    decreases |ms|
  {
    if i < |ms| - 1 {
      OpenAfterUserStaysEmpty(ms[..|ms| - 1], i);
    }
  }
}
