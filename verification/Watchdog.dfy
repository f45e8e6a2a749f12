// Signals that the watchdog reads off a conversation: how often the same calls were repeated,
// and how many rounds in a row failed.

module Watchdog {
  import opened Base
  import opened Conversation

  // ---- repeated calls ----------------------------------------------------------------

  /** What two rounds are compared by. */
  function Shape(calls: seq<Call>): seq<(string, string)> {
    seq(|calls|, i requires 0 <= i < |calls| => (calls[i].name, calls[i].arguments))
  }

  predicate StartsRound(m: Message) {
    m.Assistant? && m.calls != []
  }

  /** The call lists of all rounds, oldest first. */
  function CallRounds(ms: seq<Message>): seq<seq<(string, string)>> {
    if ms == [] then []
    else
      var last := ms[|ms| - 1];
      CallRounds(ms[..|ms| - 1]) + if StartsRound(last) then [Shape(last.calls)] else []
  }

  /** The scan goes backwards and stops at the first round that differs from the last one. */
  method RepeatedCallStreak(ms: seq<Message>) returns (streak: nat)
    ensures streak <= |CallRounds(ms)|
    ensures streak == 0 <==> CallRounds(ms) == []
    ensures var rounds := CallRounds(ms);
            && (forall k :: |rounds| - streak <= k < |rounds| ==> rounds[k] == rounds[|rounds| - 1])
            && (0 < streak < |rounds| ==> rounds[|rounds| - 1 - streak] != rounds[|rounds| - 1])
  {
    var rounds := CallRounds(ms);
    if rounds == [] {
      return 0;
    }
    var last := rounds[|rounds| - 1];
    streak := 1;
    while streak < |rounds| && rounds[|rounds| - 1 - streak] == last
      invariant 1 <= streak <= |rounds|
      invariant forall k :: |rounds| - streak <= k < |rounds| ==> rounds[k] == last
    {
      streak := streak + 1;
    }
  }

  // ---- rounds that failed ---------------------------------------------------------------

  const ERROR_PREFIX := "error:"

  predicate IsError(content: string) {
    ERROR_PREFIX <= content
  }

  /** The backward scan: whether a result of the current round was seen, and whether all of them
      were errors so far. */
  function Scan(ms: seq<Message>, hasResult: bool, allErrors: bool): nat {
    if ms == [] then 0
    else
      var init, last := ms[..|ms| - 1], ms[|ms| - 1];
      if last.Tool? then Scan(init, true, allErrors && IsError(last.content))
      else if last.User? then Scan(init, hasResult, allErrors)
      else if !StartsRound(last) then 0
      else if !hasResult then Scan(init, false, true)
      else if !allErrors then 0
      else 1 + Scan(init, false, true)
  }

  method ConsecutiveErrorRounds(ms: seq<Message>) returns (count: nat)
    ensures count == Scan(ms, false, true)
  {
    count := 0;
    var hasResult, allErrors := false, true;
    var n := |ms|;
    assert ms[..n] == ms;
    while n > 0
      invariant 0 <= n <= |ms|
      invariant count + Scan(ms[..n], hasResult, allErrors) == Scan(ms, false, true)
    {
      assert ms[..n][..n - 1] == ms[..n - 1];
      n := n - 1;
      var m := ms[n];
      if m.Tool? {
        hasResult := true;
        allErrors := allErrors && IsError(m.content);
      } else if StartsRound(m) {
        if !hasResult {
          allErrors := true;
          continue;
        }
        if !allErrors {
          break;
        }
        count := count + 1;
        hasResult, allErrors := false, true;
      } else if !m.User? {
        break;
      }
    }
  }

  /** A round: the message that makes calls and what follows up to the next one. */
  datatype Round = Round(call: Message, follow: seq<Message>)

  predicate IsFollow(ms: seq<Message>) {
    forall i :: 0 <= i < |ms| ==> ms[i].Tool? || ms[i].User?
  }

  predicate IsRound(r: Round) {
    StartsRound(r.call) && IsFollow(r.follow)
  }

  predicate AreRounds(rounds: seq<Round>) {
    forall i :: 0 <= i < |rounds| ==> IsRound(rounds[i])
  }

  function Layout(rounds: seq<Round>): seq<Message> {
    if rounds == [] then []
    else
      var last := rounds[|rounds| - 1];
      Layout(rounds[..|rounds| - 1]) + ([last.call] + last.follow)
  }

  predicate HasResult(follow: seq<Message>) {
    exists i :: 0 <= i < |follow| && follow[i].Tool?
  }

  predicate AllErrors(follow: seq<Message>) {
    forall i :: 0 <= i < |follow| && follow[i].Tool? ==> IsError(follow[i].content)
  }

  /** Failed rounds at the end, not counting rounds without any result. */
  function ErrorStreak(rounds: seq<Round>): nat {
    if rounds == [] then 0
    else
      var init, last := rounds[..|rounds| - 1], rounds[|rounds| - 1];
      if !HasResult(last.follow) then ErrorStreak(init)
      else if !AllErrors(last.follow) then 0
      else 1 + ErrorStreak(init)
  }

  /** A beginning without rounds behind its last break. */
  predicate IsHead(ms: seq<Message>) {
    ms == [] || var last := ms[|ms| - 1];
                if last.Tool? || last.User? then IsHead(ms[..|ms| - 1]) else !StartsRound(last)
  }

  lemma {:induction false} HeadScansToZero(ms: seq<Message>, hasResult: bool, allErrors: bool)
    requires IsHead(ms)
    ensures Scan(ms, hasResult, allErrors) == 0
  {
    if ms != [] {
      var init, last := ms[..|ms| - 1], ms[|ms| - 1];
      if last.Tool? {
        HeadScansToZero(init, true, allErrors && IsError(last.content));
      } else if last.User? {
        HeadScansToZero(init, hasResult, allErrors);
      }
    }
  }

  /** Scanning over what follows a call collects whether there is a result and whether all fail. */
  lemma {:induction false} ScanFollow(front: seq<Message>, follow: seq<Message>, hasResult: bool, allErrors: bool)
    requires IsFollow(follow)
    ensures Scan(front + follow, hasResult, allErrors)
         == Scan(front, hasResult || HasResult(follow), allErrors && AllErrors(follow))
    decreases |follow|
  {
    if follow == [] {
      assert front + follow == front;
    } else {
      var init, last := follow[..|follow| - 1], follow[|follow| - 1];
      assert (front + follow)[..|front + follow| - 1] == front + init;
      assert follow == init + [last];
      assert forall i :: 0 <= i < |init| ==> follow[i] == init[i];
      assert last.Tool? || last.User?;
      var has := hasResult || last.Tool?;
      var all := allErrors && (last.Tool? ==> IsError(last.content));
      ScanFollow(front, init, has, all);
      assert HasResult(follow) <==> HasResult(init) || last.Tool?;
      assert AllErrors(follow) <==> AllErrors(init) && (last.Tool? ==> IsError(last.content));
    }
  }

  /** The scan counts the failed rounds at the end of any conversation laid out in rounds. */
  lemma {:induction false} ScanCountsRounds(head: seq<Message>, rounds: seq<Round>)
    requires IsHead(head) && AreRounds(rounds)
    ensures Scan(head + Layout(rounds), false, true) == ErrorStreak(rounds)
    decreases |rounds|
  {
    if rounds == [] {
      assert head + Layout(rounds) == head;
      HeadScansToZero(head, false, true);
    } else {
      var init, last := rounds[..|rounds| - 1], rounds[|rounds| - 1];
      var before := head + Layout(init);
      assert IsRound(last);
      assert AreRounds(init);
      assert head + Layout(rounds) == (before + [last.call]) + last.follow;
      ScanFollow(before + [last.call], last.follow, false, true);
      assert (before + [last.call])[..|before|] == before;
      ScanCountsRounds(head, init);
    }
  }

  /** Every conversation can be laid out that way. */
  lemma {:induction false} EveryConversationHasRounds(ms: seq<Message>) returns (head: seq<Message>, rounds: seq<Round>)
    ensures IsHead(head) && AreRounds(rounds) && ms == head + Layout(rounds)
  {
    if ms == [] {
      head, rounds := [], [];
    } else {
      var init, last := ms[..|ms| - 1], ms[|ms| - 1];
      assert ms == init + [last];
      head, rounds := EveryConversationHasRounds(init);
      if StartsRound(last) {
        var r := Round(last, []);
        assert (rounds + [r])[..|rounds|] == rounds;
        assert ms == head + (Layout(rounds) + ([last] + []));
        rounds := rounds + [r];
      } else if !last.Tool? && !last.User? {
        head, rounds := ms, [];
        assert Layout([]) == [];
      } else if rounds == [] {
        assert head == init && ms[..|ms| - 1] == head;
        head := ms;
        assert head + Layout([]) == ms;
      } else {
        var early, r := rounds[..|rounds| - 1], rounds[|rounds| - 1];
        var longer := Round(r.call, r.follow + [last]);
        assert IsRound(r);
        assert (early + [longer])[..|early|] == early;
        assert ms == head + (Layout(early) + ([r.call] + (r.follow + [last])));
        rounds := early + [longer];
      }
    }
  }

  // ---- the count that is meant ------------------------------------------------------------

  predicate HasAnswer(follow: seq<Message>, id: string) {
    exists i :: 0 <= i < |follow| && follow[i].Tool? && follow[i].callId == id
  }

  /** The results of a round are all in. */
  predicate IsAnswered(r: Round)
    requires IsRound(r)
  {
    forall id :: id in Ids(r.call.calls) ==> HasAnswer(r.follow, id)
  }

  /** Rounds at the end whose results are all errors, passing over rounds that still wait for one. */
  function Intended(rounds: seq<Round>): nat
    requires AreRounds(rounds)
  {
    if rounds == [] then 0
    else
      var init, last := rounds[..|rounds| - 1], rounds[|rounds| - 1];
      if !IsAnswered(last) then Intended(init)
      else if !AllErrors(last.follow) then 0
      else 1 + Intended(init)
  }

  /** A round has no result or all of them. */
  predicate AllOrNothing(r: Round)
    requires IsRound(r)
  {
    HasResult(r.follow) <==> IsAnswered(r)
  }

  lemma AnsweredHasResult(r: Round)
    requires IsRound(r) && IsAnswered(r)
    ensures HasResult(r.follow)
  {
    assert Ids(r.call.calls)[0] in Ids(r.call.calls);
    assert HasAnswer(r.follow, Ids(r.call.calls)[0]);
  }

  /** When no round is half answered, the code counts what is meant. */
  lemma {:induction false} AllOrNothingIsIntended(rounds: seq<Round>)
    requires AreRounds(rounds) && forall i :: 0 <= i < |rounds| ==> AllOrNothing(rounds[i])
    ensures ErrorStreak(rounds) == Intended(rounds)
  {
    if rounds != [] {
      assert AllOrNothing(rounds[|rounds| - 1]);
      AllOrNothingIsIntended(rounds[..|rounds| - 1]);
    }
  }

  /** When only the last round may be half answered, the code counts what is meant exactly when it
      is not, or when one of its results is no error and nothing counts before it. */
  lemma LastRoundDecides(rounds: seq<Round>)
    requires rounds != [] && AreRounds(rounds) && forall i :: 0 <= i < |rounds| - 1 ==> AllOrNothing(rounds[i])
    ensures var init, last := rounds[..|rounds| - 1], rounds[|rounds| - 1];
            ErrorStreak(rounds) == Intended(rounds)
            <==> (HasResult(last.follow) ==> IsAnswered(last)) || (!AllErrors(last.follow) && Intended(init) == 0)
  {
    var init, last := rounds[..|rounds| - 1], rounds[|rounds| - 1];
    AllOrNothingIsIntended(init);
    if IsAnswered(last) {
      AnsweredHasResult(last);
    }
  }

  // ---- what the callers pass ----------------------------------------------------------------

  /** What follows a call closes only calls that it answers. */
  lemma {:induction false} OpenOfFollow(front: seq<Message>, follow: seq<Message>, id: string)
    requires IsFollow(follow) && Open(front + follow).Some?
    ensures Open(front).Some?
    ensures id in Open(front).value ==> id in Open(front + follow).value || HasAnswer(follow, id)
    decreases |follow|
  {
    if follow == [] {
      assert front + follow == front;
    } else {
      var init, last := follow[..|follow| - 1], follow[|follow| - 1];
      assert front + follow == (front + init) + [last];
      OpenPush(front + init, last);
      OpenOfFollow(front, init, id);
      assert forall i :: 0 <= i < |init| ==> follow[i] == init[i];
      assert follow[|init|] == last;
    }
  }

  /** In a conversation that a provider accepts, the results of every round are all in. */
  lemma {:induction false} ValidMeansAnswered(head: seq<Message>, rounds: seq<Round>)
    requires AreRounds(rounds) && ProtocolValid(head + Layout(rounds))
    ensures forall i :: 0 <= i < |rounds| ==> IsAnswered(rounds[i]) && AllOrNothing(rounds[i])
    decreases |rounds|
  {
    if rounds != [] {
      var init, last := rounds[..|rounds| - 1], rounds[|rounds| - 1];
      var before := head + Layout(init);
      assert IsRound(last);
      assert head + Layout(rounds) == (before + [last.call]) + last.follow;
      OpenOfFollow(before + [last.call], last.follow, "");
      OpenPush(before, last.call);
      forall id | id in Ids(last.call.calls) ensures HasAnswer(last.follow, id) {
        OpenOfFollow(before + [last.call], last.follow, id);
      }
      AnsweredHasResult(last);
      ValidMeansAnswered(head, init);
      assert forall i :: 0 <= i < |init| ==> rounds[i] == init[i];
    }
  }

  /** The callers read the conversation of a tool loop: one that a provider accepts, or such a one
      with the calls of the current round behind it. On every such conversation the count is the
      intended one. */
  lemma CallersSeeTheIntendedCount(head: seq<Message>, rounds: seq<Round>)
    requires IsHead(head) && AreRounds(rounds)
    requires var ms := head + Layout(rounds);
             ProtocolValid(ms) || (ms != [] && StartsRound(ms[|ms| - 1]) && ProtocolValid(ms[..|ms| - 1]))
    ensures Scan(head + Layout(rounds), false, true) == Intended(rounds)
  {
    var ms := head + Layout(rounds);
    ScanCountsRounds(head, rounds);
    if ProtocolValid(ms) {
      ValidMeansAnswered(head, rounds);
    } else {
      PendingRoundIsLast(head, rounds);
      var init, last := rounds[..|rounds| - 1], rounds[|rounds| - 1];
      ValidMeansAnswered(head, init);
      assert Ids(last.call.calls)[0] in Ids(last.call.calls);
      assert forall i :: 0 <= i < |init| ==> rounds[i] == init[i];
    }
    AllOrNothingIsIntended(rounds);
  }

  lemma PendingRoundIsLast(head: seq<Message>, rounds: seq<Round>)
    requires IsHead(head) && AreRounds(rounds)
    requires var ms := head + Layout(rounds); ms != [] && StartsRound(ms[|ms| - 1])
    ensures rounds != [] && rounds[|rounds| - 1].follow == []
    ensures var ms := head + Layout(rounds); ms[..|ms| - 1] == head + Layout(rounds[..|rounds| - 1])
  {
    var ms := head + Layout(rounds);
    assert rounds == [] ==> ms == head;
    var last := rounds[|rounds| - 1];
    var before := head + Layout(rounds[..|rounds| - 1]);
    assert IsRound(last);
    assert ms == (before + [last.call]) + last.follow;
    assert ms == before + [last.call];
  }
}
