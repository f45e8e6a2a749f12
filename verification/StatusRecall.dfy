// Rolling recall of status messages in a chat channel: events of the engine on one side, the
// delayed confirmation callbacks of the sender on the other, over two shared maps.

module StatusRecall {
  import opened Base

  /** A status line is tracked per task and recipient. */
  datatype Key = Key(task: nat, user: nat)

  /** Where the engine stands inside the handling of one event; each lock is taken separately. */
  datatype EnginePc =
    | Rest
    | RemoveOld(key: Key, recalled: nat, thenStatus: bool)  // recalled what it read, has not removed it yet
    | MarkReply(key: Key)                    // found nothing to recall, will leave a mark
    | SendStatus(key: Key)
    | ClearMarks(task: nat)

  /** Where the one sender thread stands inside a confirmation callback. */
  datatype CallbackPc =
    | Quiet
    | Stored(key: Key, stored: Option<nat>)
    | Marked(key: Key, msg: nat)             // took the mark, has not removed the message yet

  datatype State = State(
    last: map<Key, nat>,
    marks: set<Key>,
    outstanding: map<nat, Key>,
    engine: EnginePc,
    callback: CallbackPc,
    // history
    keyOf: map<nat, Key>,                    // confirmed messages
    engineRecalls: seq<nat>,
    callbackRecalls: seq<nat>,
    kept: set<nat>,                          // left standing by a status Failed
    released: set<nat>)                      // forgotten by the removal of their task

  const INIT := State(map[], {}, map[], Rest, Quiet, map[], [], [], {}, {})

  datatype Step =
    | Reply(key: Key)                        // a model reply for a task and a recipient
    | Status(key: Key, failed: bool)
    | RemoveKey
    | InsertMark
    | EnqueueStatus(ticket: nat)
    | ClearTask(task: nat)
    | ClearTaskMarks
    | Confirm(ticket: nat, msg: Option<nat>) // the callback runs, with or without a message id
    | CheckMark
    | RecallOwn
    | SendFails(ticket: nat)                 // the callback will never run

  predicate IsCallbackStep(step: Step) {
    step.Confirm? || step.CheckMark? || step.RecallOwn?
  }

  predicate Enabled(s: State, step: Step) {
    match step
    case Reply(_) => s.engine == Rest
    case Status(_, _) => s.engine == Rest
    case RemoveKey => s.engine.RemoveOld?
    case InsertMark => s.engine.MarkReply?
    case EnqueueStatus(ticket) => s.engine.SendStatus? && ticket !in s.outstanding
    case ClearTask(_) => s.engine == Rest
    case ClearTaskMarks => s.engine.ClearMarks?
    case Confirm(ticket, msg) => s.callback == Quiet && ticket in s.outstanding && (msg.Some? ==> msg.value !in s.keyOf)
    case CheckMark => s.callback.Stored?
    case RecallOwn => s.callback.Marked?
    case SendFails(ticket) => ticket in s.outstanding
  }

  function Handled(callback: CallbackPc): Option<nat> {
    match callback
    case Quiet => None
    case Stored(_, msg) => msg
    case Marked(_, msg) => Some(msg)
  }

  /** The engine recalls the remembered message of a key and goes on to remove it. */
  function EngineRecall(s: State, key: Key, thenStatus: bool): State
    requires key in s.last
  {
    var m := s.last[key];
    s.(engineRecalls := s.engineRecalls + [m], engine := RemoveOld(key, m, thenStatus))
  }

  function WithoutTask<T>(m: map<Key, T>, task: nat): map<Key, T> {
    map k | k in m && k.task != task :: m[k]
  }

  function Apply(s: State, step: Step): State
    requires Enabled(s, step)
  {
    match step
    case Reply(key) =>
      if key in s.last then EngineRecall(s, key, false)
      else s.(engine := MarkReply(key))
    case Status(key, failed) =>
      if key !in s.last then s.(engine := SendStatus(key))
      else if failed then s.(engine := SendStatus(key), kept := s.kept + {s.last[key]})
      else EngineRecall(s, key, true)
    case RemoveKey =>
      s.(last := s.last - {s.engine.key}, engine := if s.engine.thenStatus then SendStatus(s.engine.key) else Rest)
    case InsertMark => s.(marks := s.marks + {s.engine.key}, engine := Rest)
    case EnqueueStatus(ticket) => s.(outstanding := s.outstanding[ticket := s.engine.key], engine := Rest)
    case ClearTask(task) =>
      s.(last := WithoutTask(s.last, task), engine := ClearMarks(task),
         released := s.released + (set k | k in s.last && k.task == task :: s.last[k]))
    case ClearTaskMarks => s.(marks := (set k | k in s.marks && k.task != s.engine.task), engine := Rest)
    case Confirm(ticket, msg) =>
      var key := s.outstanding[ticket];
      var t := s.(outstanding := s.outstanding - {ticket}, callback := Stored(key, msg));
      if msg.None? then t else t.(last := s.last[key := msg.value], keyOf := s.keyOf[msg.value := key])
    case CheckMark =>
      var key, msg := s.callback.key, s.callback.stored;
      if key !in s.marks then s.(callback := Quiet)
      else if msg.None? then s.(marks := s.marks - {key}, callback := Quiet)
      else s.(marks := s.marks - {key}, callback := Marked(key, msg.value))
    case RecallOwn =>
      s.(last := s.last - {s.callback.key}, callbackRecalls := s.callbackRecalls + [s.callback.msg], callback := Quiet)
    case SendFails(ticket) => s.(outstanding := s.outstanding - {ticket})
  }

  ghost predicate CanRun(s: State, steps: seq<Step>)
    decreases |steps|
  {
    steps == [] || (Enabled(s, steps[0]) && CanRun(Apply(s, steps[0]), steps[1..]))
  }

  ghost function Run(s: State, steps: seq<Step>): State
    requires CanRun(s, steps)
    decreases |steps|
  {
    if steps == [] then s else Run(Apply(s, steps[0]), steps[1..])
  }

  // ---- every interleaving ------------------------------------------------------------

  /** What is remembered for a key is a confirmed message of that key. */
  ghost predicate LastConfirmed(s: State) {
    forall k :: k in s.last ==> s.last[k] in s.keyOf && s.keyOf[s.last[k]] == k
  }

  /** A message that the engine has recalled is forgotten, or about to be. */
  ghost predicate EngineInv(s: State) {
    && NoDuplicates(s.engineRecalls)
    && (forall m :: m in s.engineRecalls ==> m in s.keyOf)
    && (forall k :: k in s.last && s.last[k] in s.engineRecalls ==>
          s.engine.RemoveOld? && s.engine.key == k && s.engine.recalled == s.last[k])
    && (s.engine.RemoveOld? ==> s.engine.recalled in s.engineRecalls)
  }

  ghost predicate CallbackInv(s: State) {
    && NoDuplicates(s.callbackRecalls)
    && (forall m :: m in s.callbackRecalls ==> m in s.keyOf)
    && (Handled(s.callback).Some? ==>
          var m := Handled(s.callback).value;
          m in s.keyOf && s.keyOf[m] == s.callback.key && m !in s.callbackRecalls)
  }

  lemma StepKeepsLast(s: State, step: Step)
    requires Enabled(s, step) && LastConfirmed(s)
    ensures LastConfirmed(Apply(s, step))
  {
  }

  lemma PushFresh(a: seq<nat>, m: nat)
    requires NoDuplicates(a) && m !in a
    ensures NoDuplicates(a + [m])
  {
  }

  lemma StepKeepsEngine(s: State, step: Step)
    requires Enabled(s, step) && LastConfirmed(s) && EngineInv(s)
    ensures EngineInv(Apply(s, step))
  {
    if (step.Reply? || (step.Status? && !step.failed)) && step.key in s.last {
      PushFresh(s.engineRecalls, s.last[step.key]);
    }
  }

  lemma StepKeepsCallback(s: State, step: Step)
    requires Enabled(s, step) && CallbackInv(s)
    ensures CallbackInv(Apply(s, step))
  {
    if step.RecallOwn? {
      PushFresh(s.callbackRecalls, s.callback.msg);
    }
  }

  /** What a callback has recalled is remembered no more. While it runs, its key remembers its own
      message or none. */
  ghost predicate MeetingInv(s: State) {
    && (forall k :: k in s.last ==> s.last[k] !in s.callbackRecalls)
    && (Handled(s.callback).Some? && s.callback.key in s.last ==> s.last[s.callback.key] == Handled(s.callback).value)
  }

  lemma StepKeepsMeeting(s: State, step: Step)
    requires Enabled(s, step) && LastConfirmed(s) && EngineInv(s) && CallbackInv(s) && MeetingInv(s)
    ensures MeetingInv(Apply(s, step))
  {
    if step.RecallOwn? {
      var t := Apply(s, step);
      forall k | k in t.last ensures t.last[k] !in t.callbackRecalls {
        assert k in s.last && s.keyOf[s.last[k]] == k;
      }
    }
  }

  ghost predicate Inv(s: State) {
    LastConfirmed(s) && EngineInv(s) && CallbackInv(s) && MeetingInv(s)
  }

  lemma StepKeepsInv(s: State, step: Step)
    requires Enabled(s, step) && Inv(s)
    ensures Inv(Apply(s, step))
  {
    StepKeepsLast(s, step);
    StepKeepsEngine(s, step);
    StepKeepsCallback(s, step);
    StepKeepsMeeting(s, step);
  }

  lemma {:induction false} RunKeepsInv(s: State, steps: seq<Step>)
    requires CanRun(s, steps) && Inv(s)
    ensures Inv(Run(s, steps))
    decreases |steps|
  {
    if steps != [] {
      StepKeepsInv(s, steps[0]);
      RunKeepsInv(Apply(s, steps[0]), steps[1..]);
    }
  }

  /** Over every interleaving, only confirmed messages are recalled, and neither side recalls a
      message twice. */
  lemma RecallsAreConfirmed(steps: seq<Step>)
    requires CanRun(INIT, steps)
    ensures var s := Run(INIT, steps);
            && NoDuplicates(s.engineRecalls) && NoDuplicates(s.callbackRecalls)
            && (forall m :: m in s.engineRecalls || m in s.callbackRecalls ==> m in s.keyOf)
  {
    RunKeepsInv(INIT, steps);
  }

  lemma NoDuplicatesJoin(a: seq<nat>, b: seq<nat>)
    requires NoDuplicates(a) && NoDuplicates(b)
    ensures NoDuplicates(a + b) <==> forall m :: m in b ==> m !in a
  {
    var all := a + b;
    if NoDuplicates(all) {
      forall m | m in b ensures m !in a {
        var j :| 0 <= j < |b| && b[j] == m;
        assert all[|a| + j] == m;
        assert forall i :: 0 <= i < |a| ==> all[i] == a[i];
      }
    } else {
      var i, j :| 0 <= i < j < |all| && all[i] == all[j];
      assert i < |a| <= j;
      assert all[j] == b[j - |a|] && all[j] in b && all[i] in a;
    }
  }

  // ---- recalled twice ------------------------------------------------------------------

  /** The callback under way ends with a recall: its mark is there when it looks for it. */
  ghost predicate GoesOn(s: State, steps: seq<Step>)
    requires CanRun(s, steps)
    decreases |steps|
  {
    steps != [] &&
    if steps[0].RecallOwn? then true
    else (steps[0].CheckMark? ==> s.callback.key in s.marks) && GoesOn(Apply(s, steps[0]), steps[1..])
  }

  predicate Asks(step: Step, key: Key) {
    (step.Reply? && step.key == key) || (step.Status? && step.key == key && !step.failed)
  }

  /** An event finds the message whose confirmation callback is under way. */
  predicate Hits(s: State, step: Step) {
    Handled(s.callback).Some? && Asks(step, s.callback.key) && step.key in s.last && s.last[step.key] == Handled(s.callback).value
  }

  /** At some step an event finds the message of a callback that ends with a recall. */
  ghost predicate Overlaps(s: State, steps: seq<Step>)
    requires CanRun(s, steps)
    decreases |steps|
  {
    steps != [] &&
    var t := Apply(s, steps[0]);
    (Hits(s, steps[0]) && GoesOn(t, steps[1..])) || Overlaps(t, steps[1..])
  }

  ghost predicate RecalledTwice(s: State) {
    exists m :: m in s.engineRecalls && m in s.callbackRecalls
  }

  /** The engine has recalled the message of the callback under way. */
  ghost predicate HitBefore(s: State) {
    Handled(s.callback).Some? && Handled(s.callback).value in s.engineRecalls
  }

  lemma StepOfOverlap(s: State, step: Step)
    requires Enabled(s, step) && Inv(s)
    ensures RecalledTwice(Apply(s, step)) <==> RecalledTwice(s) || (step.RecallOwn? && HitBefore(s))
    ensures HitBefore(Apply(s, step)) <==>
              Hits(s, step) || (HitBefore(s) && !step.RecallOwn? && (step.CheckMark? ==> s.callback.key in s.marks))
  {
    var t := Apply(s, step);
    if step.RecallOwn? {
      assert forall m :: m in t.callbackRecalls <==> m in s.callbackRecalls || m == s.callback.msg;
    }
    if (step.Reply? || (step.Status? && !step.failed)) && step.key in s.last {
      var x := s.last[step.key];
      assert forall m :: m in t.engineRecalls <==> m in s.engineRecalls || m == x;
      assert x !in s.callbackRecalls;
    }
  }

  lemma {:induction false} OverlapOverRuns(s: State, steps: seq<Step>)
    requires CanRun(s, steps) && Inv(s)
    ensures RecalledTwice(Run(s, steps)) <==> RecalledTwice(s) || (HitBefore(s) && GoesOn(s, steps)) || Overlaps(s, steps)
    decreases |steps|
  {
    if steps != [] {
      StepKeepsInv(s, steps[0]);
      StepOfOverlap(s, steps[0]);
      OverlapOverRuns(Apply(s, steps[0]), steps[1..]);
    }
  }

  /** Over every interleaving, each status message is recalled at most once exactly when no event
      finds the message of a callback under way that then finds its mark. */
  lemma RecalledAtMostOnceIff(steps: seq<Step>)
    requires CanRun(INIT, steps)
    ensures NoDuplicates(Run(INIT, steps).engineRecalls + Run(INIT, steps).callbackRecalls) <==> !Overlaps(INIT, steps)
  {
    RunKeepsInv(INIT, steps);
    OverlapOverRuns(INIT, steps);
    NoDuplicatesJoin(Run(INIT, steps).engineRecalls, Run(INIT, steps).callbackRecalls);
  }

  /** Both sides may recall the same message when an event is handled in the middle of a
      callback: a reply finds the message that the callback has just stored, and the callback
      then finds the mark of an earlier reply. */
  lemma OverlapRecallsTwice()
    ensures var k := Key(1, 1);
            var sent := Apply(Apply(INIT, Status(k, false)), EnqueueStatus(0));
            var marked := Apply(Apply(sent, Reply(k)), InsertMark);
            var stored := Apply(marked, Confirm(0, Some(7)));
            var replied := Apply(Apply(stored, Reply(k)), RemoveKey);
            var end := Apply(Apply(replied, CheckMark), RecallOwn);
            end.engineRecalls == [7] && end.callbackRecalls == [7]
  {
  }

  // ---- events and callbacks one after the other ----------------------------------------

  /** No step of one side falls into the middle of the other. */
  predicate InTurn(s: State, step: Step) {
    if step.SendFails? then true
    else if IsCallbackStep(step) then s.engine == Rest
    else s.callback == Quiet
  }

  ghost predicate Serial(s: State, steps: seq<Step>)
    requires CanRun(s, steps)
    decreases |steps|
  {
    steps == [] || (InTurn(s, steps[0]) && Serial(Apply(s, steps[0]), steps[1..]))
  }

  lemma {:induction false} SerialNeverOverlaps(s: State, steps: seq<Step>)
    requires CanRun(s, steps) && Serial(s, steps)
    ensures !Overlaps(s, steps)
    decreases |steps|
  {
    if steps != [] {
      SerialNeverOverlaps(Apply(s, steps[0]), steps[1..]);
    }
  }

  /** However long callbacks are delayed, as long as they do not overlap with an event, each
      status message is recalled at most once. */
  lemma RecalledAtMostOnce(steps: seq<Step>)
    requires CanRun(INIT, steps) && Serial(INIT, steps)
    ensures NoDuplicates(Run(INIT, steps).engineRecalls + Run(INIT, steps).callbackRecalls)
  {
    SerialNeverOverlaps(INIT, steps);
    RecalledAtMostOnceIff(steps);
  }

  // ---- what is left standing -------------------------------------------------------------

  ghost predicate Waiting(s: State, key: Key) {
    exists ticket :: ticket in s.outstanding && s.outstanding[ticket] == key
  }

  /** A status is sent only when no earlier one for its key is still waiting for confirmation. */
  ghost predicate OneAtATime(s: State, step: Step) {
    step.Status? ==> !Waiting(s, step.key)
  }

  ghost predicate Paced(s: State, steps: seq<Step>)
    requires CanRun(s, steps)
    decreases |steps|
  {
    steps == [] || (OneAtATime(s, steps[0]) && Paced(Apply(s, steps[0]), steps[1..]))
  }

  ghost predicate Recalled(s: State, m: nat) {
    m in s.engineRecalls || m in s.callbackRecalls
  }

  ghost predicate LeftOver(s: State, m: nat) {
    m in s.keyOf && !Recalled(s, m) && m !in s.kept && m !in s.released
  }

  ghost predicate Remembered(s: State, m: nat)
    requires m in s.keyOf
  {
    s.keyOf[m] in s.last && s.last[s.keyOf[m]] == m
  }

  /** The engine removes a key that by now holds another message than the one it has recalled. */
  predicate RemovesAnother(s: State, step: Step) {
    step.RemoveKey? && s.engine.RemoveOld? && s.engine.key in s.last && s.last[s.engine.key] != s.engine.recalled
  }

  /** The messages that are removed that way, without being recalled by their own callback. */
  ghost function Forgotten(s: State, steps: seq<Step>): set<nat>
    requires CanRun(s, steps)
    decreases |steps|
  {
    if steps == [] then {}
    else
      var t := Apply(s, steps[0]);
      var rest := Forgotten(t, steps[1..]);
      if RemovesAnother(s, steps[0]) && !(Handled(s.callback) == Some(s.last[s.engine.key]) && GoesOn(t, steps[1..]))
      then rest + {s.last[s.engine.key]} else rest
  }

  ghost predicate Settled(s: State, key: Key) {
    key in s.last ==> s.last[key] in s.kept || s.last[key] in s.engineRecalls
  }

  /** While a status is under way, its key remembers nothing, or something that Failed kept or
      that is recalled already. */
  ghost predicate WaitingIsClear(s: State) {
    && (forall ticket :: ticket in s.outstanding ==> Settled(s, s.outstanding[ticket]))
    && (s.engine.SendStatus? ==> Settled(s, s.engine.key) && !Waiting(s, s.engine.key))
    && (s.engine.RemoveOld? && s.engine.thenStatus ==>
          !Waiting(s, s.engine.key) && (s.engine.key in s.last ==> s.last[s.engine.key] == s.engine.recalled))
    && (forall a, b :: a in s.outstanding && b in s.outstanding && a != b ==> s.outstanding[a] != s.outstanding[b])
  }

  lemma StepKeepsWaiting(s: State, step: Step)
    requires Enabled(s, step) && OneAtATime(s, step)
    requires Inv(s) && WaitingIsClear(s)
    ensures WaitingIsClear(Apply(s, step))
  {
  }

  /** A message that the engine is about to remove unread has not been dealt with otherwise. */
  ghost predicate UnreadInv(s: State) {
    && (forall m :: m in s.kept || m in s.released ==> m in s.keyOf)
    && (s.engine.RemoveOld? && s.engine.key in s.last && s.last[s.engine.key] != s.engine.recalled ==>
          LeftOver(s, s.last[s.engine.key]))
    && (forall k :: k in s.last ==> s.last[k] !in s.released)
  }

  lemma StepKeepsUnread(s: State, step: Step)
    requires Enabled(s, step) && Inv(s) && UnreadInv(s)
    ensures UnreadInv(Apply(s, step))
  {
  }

  ghost predicate Unremembered(s: State, m: nat) {
    LeftOver(s, m) && !Remembered(s, m)
  }

  ghost predicate OwnRecallComes(s: State, steps: seq<Step>, m: nat)
    requires CanRun(s, steps)
  {
    Handled(s.callback) == Some(m) && GoesOn(s, steps)
  }

  /** Left over and remembered no more, and its callback will not recall it. */
  ghost predicate Lost(s: State, steps: seq<Step>, m: nat)
    requires CanRun(s, steps)
  {
    Unremembered(s, m) && !OwnRecallComes(s, steps, m)
  }

  lemma StepOfUnremembered(s: State, step: Step, m: nat)
    requires Enabled(s, step) && Inv(s) && WaitingIsClear(s) && UnreadInv(s)
    ensures Unremembered(Apply(s, step), m)
            <==> (Unremembered(s, m) && !(step.RecallOwn? && s.callback.msg == m)) || (RemovesAnother(s, step) && s.last[s.engine.key] == m)
  {
    match step
    case Reply(_) =>
    case Status(_, _) =>
    case RemoveKey =>
    case InsertMark =>
    case EnqueueStatus(_) =>
    case ClearTask(_) =>
    case ClearTaskMarks =>
    case Confirm(_, _) =>
    case CheckMark =>
    case RecallOwn =>
    case SendFails(_) =>
  }

  lemma StepOfOwnRecall(s: State, steps: seq<Step>, m: nat)
    requires CanRun(s, steps) && steps != [] && m in s.keyOf && !steps[0].RecallOwn?
    ensures OwnRecallComes(s, steps, m) <==> OwnRecallComes(Apply(s, steps[0]), steps[1..], m)
  {
  }

  lemma StepOfLost(s: State, steps: seq<Step>, m: nat)
    requires CanRun(s, steps) && steps != []
    requires Inv(s) && WaitingIsClear(s) && UnreadInv(s)
    ensures Lost(Apply(s, steps[0]), steps[1..], m) || m in Forgotten(Apply(s, steps[0]), steps[1..])
            <==> Lost(s, steps, m) || m in Forgotten(s, steps)
  {
    StepOfUnremembered(s, steps[0], m);
    if m in s.keyOf && !steps[0].RecallOwn? {
      StepOfOwnRecall(s, steps, m);
    }
  }

  lemma {:induction false} LostOverRuns(s: State, steps: seq<Step>, m: nat)
    requires CanRun(s, steps) && Paced(s, steps)
    requires Inv(s) && WaitingIsClear(s) && UnreadInv(s)
    ensures Lost(Run(s, steps), [], m) <==> Lost(s, steps, m) || m in Forgotten(s, steps)
    decreases |steps|
  {
    if steps != [] {
      StepKeepsInv(s, steps[0]);
      StepKeepsWaiting(s, steps[0]);
      StepKeepsUnread(s, steps[0]);
      StepOfLost(s, steps, m);
      LostOverRuns(Apply(s, steps[0]), steps[1..], m);
    }
  }

  /** With one status under way per task and recipient, over every interleaving: what is left
      over is remembered, and so recalled next, unless it was forgotten by the removal of a key
      that held another message by then. */
  lemma LeftIsRememberedIffNotForgotten(steps: seq<Step>, m: nat)
    requires CanRun(INIT, steps) && Paced(INIT, steps) && LeftOver(Run(INIT, steps), m)
    ensures Remembered(Run(INIT, steps), m) <==> m !in Forgotten(INIT, steps)
  {
    LostOverRuns(INIT, steps, m);
  }

  /** So everything left over is remembered exactly when nothing was forgotten that way. */
  lemma LeftIsRememberedIff(steps: seq<Step>)
    requires CanRun(INIT, steps) && Paced(INIT, steps)
    ensures (forall m :: LeftOver(Run(INIT, steps), m) ==> Remembered(Run(INIT, steps), m)) <==> Forgotten(INIT, steps) == {}
  {
    if Forgotten(INIT, steps) == {} {
      forall m | LeftOver(Run(INIT, steps), m) ensures Remembered(Run(INIT, steps), m) {
        LeftIsRememberedIffNotForgotten(steps, m);
      }
    } else {
      var m :| m in Forgotten(INIT, steps);
      ForgottenIsLeft(steps, m);
    }
  }

  /** What is forgotten that way stands for good. */
  lemma ForgottenIsLeft(steps: seq<Step>, m: nat)
    requires CanRun(INIT, steps) && Paced(INIT, steps) && m in Forgotten(INIT, steps)
    ensures LeftOver(Run(INIT, steps), m) && !Remembered(Run(INIT, steps), m)
  {
    LostOverRuns(INIT, steps, m);
  }

  /** No confirmation with an id reaches a key between its recall by the engine and its removal. */
  ghost predicate NoneInside(s: State, steps: seq<Step>)
    requires CanRun(s, steps)
    decreases |steps|
  {
    steps != [] ==>
      && !(steps[0].Confirm? && steps[0].msg.Some? && s.engine.RemoveOld? && s.engine.key == s.outstanding[steps[0].ticket])
      && NoneInside(Apply(s, steps[0]), steps[1..])
  }

  lemma {:induction false} NothingForgotten(s: State, steps: seq<Step>)
    requires CanRun(s, steps) && NoneInside(s, steps)
    requires s.engine.RemoveOld? && s.engine.key in s.last ==> s.last[s.engine.key] == s.engine.recalled
    ensures Forgotten(s, steps) == {}
    decreases |steps|
  {
    if steps != [] {
      NothingForgotten(Apply(s, steps[0]), steps[1..]);
    }
  }

  /** With one status under way per task and recipient, and no confirmation between the recall
      and the removal of its key: at most one confirmed status of a key stands un-recalled, apart
      from those that Failed kept or that went with a removed task; and that one is the message
      the next status or reply will recall. */
  lemma AtMostOneLeftStanding(steps: seq<Step>, a: nat, b: nat)
    requires CanRun(INIT, steps) && Paced(INIT, steps) && NoneInside(INIT, steps)
    requires LeftOver(Run(INIT, steps), a) && LeftOver(Run(INIT, steps), b)
    requires Run(INIT, steps).keyOf[a] == Run(INIT, steps).keyOf[b]
    ensures a == b && Remembered(Run(INIT, steps), a)
  {
    NothingForgotten(INIT, steps);
    LeftIsRememberedIffNotForgotten(steps, a);
    LeftIsRememberedIffNotForgotten(steps, b);
  }

  ghost predicate Leads(s: State, steps: seq<Step>, t: State) {
    CanRun(s, steps) && Paced(s, steps) && Run(s, steps) == t
  }

  lemma First(s: State, steps: seq<Step>, t: State)
    requires steps != [] && Enabled(s, steps[0]) && OneAtATime(s, steps[0]) && Leads(Apply(s, steps[0]), steps[1..], t)
    ensures Leads(s, steps, t)
  {
  }

  lemma {:induction false} LeadsOn(s: State, a: seq<Step>, t: State, b: seq<Step>, u: State)
    requires Leads(s, a, t) && Leads(t, b, u)
    ensures Leads(s, a + b, u)
    decreases |a|
  {
    if a == [] {
      assert a + b == b;
    } else {
      assert (a + b)[1..] == a[1..] + b;
      LeadsOn(Apply(s, a[0]), a[1..], t, b, u);
    }
  }

  const K := Key(1, 1)

  const FIRST_PART := [Status(K, false), EnqueueStatus(0), Confirm(0, Some(7)), CheckMark]
  const SECOND_PART := [Status(K, true), EnqueueStatus(1), Reply(K)]
  const THIRD_PART := [Confirm(1, Some(8)), CheckMark, RemoveKey]
  const LAST_PART := [Status(K, false), EnqueueStatus(2), Confirm(2, Some(9)), CheckMark]

  const AFTER_FIRST := INIT.(last := map[K := 7], keyOf := map[7 := K])
  const AFTER_SECOND := AFTER_FIRST.(outstanding := map[1 := K], kept := {7}, engineRecalls := [7], engine := RemoveOld(K, 7, false))
  const AFTER_THIRD := INIT.(keyOf := map[7 := K, 8 := K], kept := {7}, engineRecalls := [7])
  const AFTER_LAST := AFTER_THIRD.(last := map[K := 9], keyOf := map[7 := K, 8 := K, 9 := K])

  lemma FirstPart()
    ensures Leads(INIT, FIRST_PART, AFTER_FIRST)
  {
    var s1 := Apply(INIT, FIRST_PART[0]);
    var s2 := Apply(s1, FIRST_PART[1]);
    var s3 := Apply(s2, FIRST_PART[2]);
    var s4 := Apply(s3, FIRST_PART[3]);
    assert s4 == AFTER_FIRST;
    First(s3, FIRST_PART[3..], AFTER_FIRST);
    First(s2, FIRST_PART[2..], AFTER_FIRST);
    First(s1, FIRST_PART[1..], AFTER_FIRST);
    First(INIT, FIRST_PART, AFTER_FIRST);
  }

  lemma SecondPart()
    ensures Leads(AFTER_FIRST, SECOND_PART, AFTER_SECOND)
  {
    var s1 := Apply(AFTER_FIRST, SECOND_PART[0]);
    var s2 := Apply(s1, SECOND_PART[1]);
    var s3 := Apply(s2, SECOND_PART[2]);
    assert s3 == AFTER_SECOND;
    First(s2, SECOND_PART[2..], AFTER_SECOND);
    First(s1, SECOND_PART[1..], AFTER_SECOND);
    First(AFTER_FIRST, SECOND_PART, AFTER_SECOND);
  }

  lemma ThirdPart()
    ensures Leads(AFTER_SECOND, THIRD_PART, AFTER_THIRD)
  {
    var s1 := Apply(AFTER_SECOND, THIRD_PART[0]);
    var s2 := Apply(s1, THIRD_PART[1]);
    var s3 := Apply(s2, THIRD_PART[2]);
    assert s3 == AFTER_THIRD;
    First(s2, THIRD_PART[2..], AFTER_THIRD);
    First(s1, THIRD_PART[1..], AFTER_THIRD);
    First(AFTER_SECOND, THIRD_PART, AFTER_THIRD);
  }

  lemma LastPart()
    ensures Leads(AFTER_THIRD, LAST_PART, AFTER_LAST)
  {
    var s1 := Apply(AFTER_THIRD, LAST_PART[0]);
    var s2 := Apply(s1, LAST_PART[1]);
    var s3 := Apply(s2, LAST_PART[2]);
    var s4 := Apply(s3, LAST_PART[3]);
    assert s4 == AFTER_LAST;
    First(s3, LAST_PART[3..], AFTER_LAST);
    First(s2, LAST_PART[2..], AFTER_LAST);
    First(s1, LAST_PART[1..], AFTER_LAST);
    First(AFTER_THIRD, LAST_PART, AFTER_LAST);
  }

  /** A paced run in which a confirmation falls between the recall of its key and the removal:
      message 8 is forgotten, and with the next status two stand. */
  lemma ForgottenBetweenRecallAndRemoval()
    ensures var steps := FIRST_PART + SECOND_PART + THIRD_PART + LAST_PART;
            && CanRun(INIT, steps) && Paced(INIT, steps)
            && LeftOver(Run(INIT, steps), 8) && LeftOver(Run(INIT, steps), 9)
            && Run(INIT, steps).last == map[K := 9]
  {
    FirstPart();
    SecondPart();
    ThirdPart();
    LastPart();
    LeadsOn(INIT, FIRST_PART, AFTER_FIRST, SECOND_PART, AFTER_SECOND);
    LeadsOn(INIT, FIRST_PART + SECOND_PART, AFTER_SECOND, THIRD_PART, AFTER_THIRD);
    LeadsOn(INIT, FIRST_PART + SECOND_PART + THIRD_PART, AFTER_THIRD, LAST_PART, AFTER_LAST);
  }

  /** Without that pacing two statuses of a key can stay: the second confirmation overwrites the
      first one's id. */
  lemma TwoUnderWayLeaveOneBehind()
    ensures var k := Key(1, 1);
            var first := Apply(Apply(INIT, Status(k, false)), EnqueueStatus(0));
            var second := Apply(Apply(first, Status(k, false)), EnqueueStatus(1));
            var one := Apply(Apply(second, Confirm(0, Some(7))), CheckMark);
            var two := Apply(Apply(one, Confirm(1, Some(8))), CheckMark);
            LeftOver(two, 7) && LeftOver(two, 8) && two.last == map[k := 8]
  {
    var k := Key(1, 1);
    var first := Apply(Apply(INIT, Status(k, false)), EnqueueStatus(0));
    var second := Apply(Apply(first, Status(k, false)), EnqueueStatus(1));
    assert second.outstanding == map[0 := k, 1 := k];
  }

  // ---- recalled although nobody asked ------------------------------------------------------

  /** The mark of `key` is taken by another callback or cleared with its task before the callback
      of `m` looks for it. */
  ghost predicate MarkTaken(s: State, steps: seq<Step>, key: Key, m: nat)
    requires CanRun(s, steps)
    decreases |steps|
  {
    steps != [] &&
    !(steps[0].CheckMark? && s.callback.Stored? && s.callback.stored == Some(m)) &&
    ((steps[0].CheckMark? && s.callback.key == key)
     || (steps[0].ClearTaskMarks? && s.engine.ClearMarks? && s.engine.task == key.task)
     || MarkTaken(Apply(s, steps[0]), steps[1..], key, m))
  }

  /** From here on nothing asks for a recall of this key. */
  predicate NobodyAsks(s: State, steps: seq<Step>, key: Key) {
    s.engine != MarkReply(key) && forall i :: 0 <= i < |steps| ==> !Asks(steps[i], key)
  }

  /** One step that does not ask: the engine neither recalls a message of the key nor marks it. */
  lemma StepUnasked(s: State, step: Step, key: Key, m: nat)
    requires Enabled(s, step) && Inv(s) && !Asks(step, key) && s.engine != MarkReply(key)
    requires m in s.keyOf ==> s.keyOf[m] == key
    ensures var t := Apply(s, step);
            && t.engine != MarkReply(key)
            && (Recalled(t, m) <==> Recalled(s, m) || (step.RecallOwn? && s.callback.msg == m))
            && (key in t.marks ==> key in s.marks)
            && (key in s.marks && key !in t.marks ==>
                  (step.CheckMark? && s.callback.key == key) || (step.ClearTaskMarks? && s.engine.task == key.task))
  {
  }

  lemma {:induction false} DoneStaysDone(s: State, steps: seq<Step>, key: Key, m: nat)
    requires CanRun(s, steps) && Inv(s) && NobodyAsks(s, steps, key)
    requires m in s.keyOf && s.keyOf[m] == key && Handled(s.callback) != Some(m)
    ensures Recalled(Run(s, steps), m) <==> Recalled(s, m)
    ensures m in Run(s, steps).keyOf && Run(s, steps).keyOf[m] == key
    decreases |steps|
  {
    if steps != [] {
      StepKeepsInv(s, steps[0]);
      StepUnasked(s, steps[0], key, m);
      DoneStaysDone(Apply(s, steps[0]), steps[1..], key, m);
    }
  }

  lemma {:induction false} KeyStays(s: State, steps: seq<Step>, m: nat)
    requires CanRun(s, steps) && m in s.keyOf
    ensures m in Run(s, steps).keyOf && Run(s, steps).keyOf[m] == s.keyOf[m]
    decreases |steps|
  {
    if steps != [] {
      KeyStays(Apply(s, steps[0]), steps[1..], m);
    }
  }

  lemma {:induction false} MarkDecidesInCallback(s: State, steps: seq<Step>, key: Key, m: nat)
    requires CanRun(s, steps) && Inv(s) && NobodyAsks(s, steps, key) && !Recalled(s, m)
    requires Handled(s.callback) == Some(m) && s.callback.key == key && Handled(Run(s, steps).callback) != Some(m)
    ensures Recalled(Run(s, steps), m) <==> s.callback == Marked(key, m) || (key in s.marks && !MarkTaken(s, steps, key, m))
    decreases |steps|
  {
    var t := Apply(s, steps[0]);
    StepKeepsInv(s, steps[0]);
    StepUnasked(s, steps[0], key, m);
    if Handled(t.callback) != Some(m) {
      DoneStaysDone(t, steps[1..], key, m);
    } else {
      MarkDecidesInCallback(t, steps[1..], key, m);
    }
  }

  lemma {:induction false} MarkDecides(s: State, steps: seq<Step>, key: Key, m: nat)
    requires CanRun(s, steps) && Inv(s) && NobodyAsks(s, steps, key) && m !in s.keyOf
    requires var t := Run(s, steps); m in t.keyOf && t.keyOf[m] == key && Handled(t.callback) != Some(m)
    ensures Recalled(Run(s, steps), m) <==> key in s.marks && !MarkTaken(s, steps, key, m)
    decreases |steps|
  {
    var t := Apply(s, steps[0]);
    StepKeepsInv(s, steps[0]);
    StepUnasked(s, steps[0], key, m);
    if m in t.keyOf {
      KeyStays(t, steps[1..], m);
      MarkDecidesInCallback(t, steps[1..], key, m);
    } else {
      MarkDecides(t, steps[1..], key, m);
    }
  }

  /** When no event asks for it from its enqueueing on, a status is recalled exactly when the mark
      of an earlier reply is still there and neither another callback nor the removal of the task
      takes it first. */
  lemma RecalledUnaskedIff(earlier: seq<Step>, ticket: nat, steps: seq<Step>, m: nat)
    requires CanRun(INIT, earlier) && Enabled(Run(INIT, earlier), EnqueueStatus(ticket))
    requires CanRun(Apply(Run(INIT, earlier), EnqueueStatus(ticket)), steps)
    requires var s := Run(INIT, earlier);
             var t := Run(Apply(s, EnqueueStatus(ticket)), steps);
             && NobodyAsks(Apply(s, EnqueueStatus(ticket)), steps, s.engine.key)
             && m !in s.keyOf && m in t.keyOf && t.keyOf[m] == s.engine.key && Handled(t.callback) != Some(m)
    ensures var s := Run(INIT, earlier);
            var sent := Apply(s, EnqueueStatus(ticket));
            Recalled(Run(sent, steps), m) <==> s.engine.key in s.marks && !MarkTaken(sent, steps, s.engine.key, m)
  {
    RunKeepsInv(INIT, earlier);
    var s := Run(INIT, earlier);
    StepKeepsInv(s, EnqueueStatus(ticket));
    MarkDecides(Apply(s, EnqueueStatus(ticket)), steps, s.engine.key, m);
  }

  /** A mark left by a reply outlives it: when no status was under way, the next status is
      recalled as soon as it is confirmed. */
  lemma StaleMarkHitsTheNextStatus()
    ensures var k := Key(1, 1);
            var replied := Apply(Apply(INIT, Reply(k)), InsertMark);
            var sent := Apply(Apply(replied, Status(k, false)), EnqueueStatus(0));
            var end := Apply(Apply(Apply(sent, Confirm(0, Some(7))), CheckMark), RecallOwn);
            end.callbackRecalls == [7] && end.last == map[]
  {
  }
}
