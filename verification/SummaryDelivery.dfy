// From the request for a summary to its answer, with all tasks that hold a memory: the answer goes
// to the first memory in iteration order, whichever task asked for it.

module SummaryDelivery {
  import opened Base
  import opened ShortTermMemory

  /** A memory. Each entry has a stamp of its own, so that entries can be told apart. */
  datatype Stm = Stm(entries: seq<Entry>, stamps: seq<nat>, summary: Option<string>)

  datatype Holder = Holder(id: nat, memory: Option<Stm>)

  /** The tasks in the order in which a query visits them, the ids that were ever used, and the
      next stamp. */
  datatype World = World(tasks: seq<Holder>, ids: set<nat>, next: nat)

  datatype Event =
    | EditTask(id: nat, edit: Edit)
    | Answer(summary: string)            // the answer to some request arrives
    | Rearrange(tasks: seq<Holder>)      // tasks come, go, or are visited in another order

  function FirstMemory(tasks: seq<Holder>): (k: nat)
    ensures k <= |tasks|
    ensures k < |tasks| ==> tasks[k].memory.Some?
  {
    if tasks == [] || tasks[0].memory.Some? then 0 else 1 + FirstMemory(tasks[1..])
  }

  function Find(tasks: seq<Holder>, id: nat): (k: nat)
    ensures k <= |tasks|
    ensures k < |tasks| ==> tasks[k].id == id
    ensures forall j :: 0 <= j < k ==> tasks[j].id != id
  {
    if tasks == [] || tasks[0].id == id then 0 else 1 + Find(tasks[1..], id)
  }

  predicate Has(w: World, id: nat) {
    var k := Find(w.tasks, id);
    k < |w.tasks| && w.tasks[k].memory.Some?
  }

  function MemoryOf(w: World, id: nat): Stm
    requires Has(w, id)
  {
    w.tasks[Find(w.tasks, id)].memory.value
  }

  /** The summary replaces the old one and the compressible entries go. */
  function Drained(m: Stm, summary: string): Stm
    requires |m.stamps| == |m.entries|
  {
    Stm(m.entries[Boundary(m.entries)..], m.stamps[Boundary(m.entries)..], Some(summary))
  }

  predicate Sized(tasks: seq<Holder>) {
    forall k :: 0 <= k < |tasks| && tasks[k].memory.Some? ==> |tasks[k].memory.value.stamps| == |tasks[k].memory.value.entries|
  }

  function Delivered(tasks: seq<Holder>, summary: string): seq<Holder>
    requires Sized(tasks)
  {
    var k := FirstMemory(tasks);
    if k == |tasks| then tasks else tasks[k := tasks[k].(memory := Some(Drained(tasks[k].memory.value, summary)))]
  }

  /** The stamps of the entries that the answer removes. */
  function Removed(tasks: seq<Holder>): seq<nat>
    requires Sized(tasks)
  {
    var k := FirstMemory(tasks);
    if k == |tasks| then [] else tasks[k].memory.value.stamps[..Boundary(tasks[k].memory.value.entries)]
  }

  /** The loop of the handler: it visits the tasks and stops at the first memory. */
  method DeliverSummary(tasks: seq<Holder>, summary: string) returns (updated: seq<Holder>, removed: seq<nat>)
    requires Sized(tasks)
    ensures updated == Delivered(tasks, summary) && removed == Removed(tasks)
    ensures |updated| == |tasks| && forall i :: 0 <= i < |tasks| && i != FirstMemory(tasks) ==> updated[i] == tasks[i]
    ensures var k := FirstMemory(tasks);
            k < |tasks| ==>
              && updated[k].id == tasks[k].id && updated[k].memory.Some? && updated[k].memory.value.summary == Some(summary)
              && removed + updated[k].memory.value.stamps == tasks[k].memory.value.stamps
              && Boundary(updated[k].memory.value.entries) == 0
  {
    updated, removed := tasks, [];
    assert tasks[0..] == tasks;
    for k := 0 to |tasks|
      invariant updated == tasks && removed == []
      invariant FirstMemory(tasks) == k + FirstMemory(tasks[k..])
    {
      assert tasks[k..][1..] == tasks[k + 1..];
      if tasks[k].memory.Some? {
        var m := tasks[k].memory.value;
        var groups := CompressibleGroupIndices(m.entries);
        var n := |Flatten(groups)|;
        updated := updated[k := tasks[k].(memory := Some(Stm(m.entries[n..], m.stamps[n..], Some(summary))))];
        removed := m.stamps[..n];
        SuffixIsOneGroup(m.entries);
        return;
      }
    }
  }

  // ---- events ------------------------------------------------------------------------

  function EditedMemory(m: Stm, edit: Edit, stamp: nat): Stm {
    var entries := ApplyEdit(m.entries, edit);
    Stm(entries, if |entries| > |m.entries| then m.stamps + [stamp] else m.stamps, m.summary)
  }

  /** Every task that stays is as it was; a new one has a new id and nothing in its memory. */
  predicate Rearranges(w: World, tasks: seq<Holder>) {
    && (forall k :: 0 <= k < |tasks| ==>
          tasks[k] in w.tasks || (tasks[k].id !in w.ids && (tasks[k].memory.Some? ==> tasks[k].memory.value == Stm([], [], None))))
    && DistinctIds(tasks)
  }

  predicate DistinctIds(tasks: seq<Holder>) {
    forall i, j :: 0 <= i < j < |tasks| ==> tasks[i].id != tasks[j].id
  }

  predicate Enabled(w: World, event: Event) {
    match event
    case EditTask(id, _) => Has(w, id)
    case Answer(_) => Sized(w.tasks)
    case Rearrange(tasks) => Rearranges(w, tasks)
  }

  function Apply(w: World, event: Event): World
    requires Enabled(w, event)
  {
    match event
    case EditTask(id, edit) =>
      var k := Find(w.tasks, id);
      w.(tasks := w.tasks[k := w.tasks[k].(memory := Some(EditedMemory(MemoryOf(w, id), edit, w.next)))], next := w.next + 1)
    case Answer(summary) => w.(tasks := Delivered(w.tasks, summary))
    case Rearrange(tasks) => w.(tasks := tasks, ids := w.ids + set h | h in tasks :: h.id)
  }

  predicate CanRun(w: World, events: seq<Event>)
    decreases |events|
  {
    events == [] || (Enabled(w, events[0]) && CanRun(Apply(w, events[0]), events[1..]))
  }

  function Run(w: World, events: seq<Event>): World
    requires CanRun(w, events)
    decreases |events|
  {
    if events == [] then w else Run(Apply(w, events[0]), events[1..])
  }

  // ---- the invariant --------------------------------------------------------------------

  function StampsOf(h: Holder): seq<nat> {
    if h.memory.Some? then h.memory.value.stamps else []
  }

  /** Stamps are distinct, inside one memory and across memories. */
  ghost predicate DistinctStamps(tasks: seq<Holder>) {
    && (forall k :: 0 <= k < |tasks| ==> NoDuplicates(StampsOf(tasks[k])))
    && (forall i, j, x :: 0 <= i < |tasks| && 0 <= j < |tasks| && x in StampsOf(tasks[i]) && x in StampsOf(tasks[j]) ==> i == j)
  }

  ghost predicate Inv(w: World) {
    && Sized(w.tasks) && DistinctIds(w.tasks) && DistinctStamps(w.tasks)
    && (forall k :: 0 <= k < |w.tasks| ==> w.tasks[k].id in w.ids)
    && (forall k, x :: 0 <= k < |w.tasks| && x in StampsOf(w.tasks[k]) ==> x < w.next)
  }

  /** One memory is replaced by one whose stamps are among the old ones, or new. */
  lemma ReplaceKeepsInv(w: World, k: nat, m: Stm, next: nat)
    requires Inv(w) && k < |w.tasks| && w.tasks[k].memory.Some? && next >= w.next
    requires |m.stamps| == |m.entries| && NoDuplicates(m.stamps)
    requires forall x :: x in m.stamps ==> x < next && (x in StampsOf(w.tasks[k]) || x >= w.next)
    ensures Inv(w.(tasks := w.tasks[k := w.tasks[k].(memory := Some(m))], next := next))
  {
  }

  lemma PushNew(stamps: seq<nat>, x: nat)
    requires NoDuplicates(stamps) && x !in stamps
    ensures NoDuplicates(stamps + [x])
  {
  }

  lemma SuffixKeeps(stamps: seq<nat>, n: nat)
    requires NoDuplicates(stamps) && n <= |stamps|
    ensures NoDuplicates(stamps[n..])
    ensures forall x :: x in stamps[n..] ==> x in stamps && x !in stamps[..n]
  {
  }

  lemma StepKeepsInv(w: World, event: Event)
    requires Inv(w) && Enabled(w, event)
    ensures Inv(Apply(w, event))
  {
    match event
    case EditTask(id, edit) => {
      var k := Find(w.tasks, id);
      var m := MemoryOf(w, id);
      assert StampsOf(w.tasks[k]) == m.stamps;
      var edited := EditedMemory(m, edit, w.next);
      assert forall x :: x in edited.stamps ==> x in m.stamps || x == w.next;
      assert w.next !in m.stamps;
      PushNew(m.stamps, w.next);
      ReplaceKeepsInv(w, k, edited, w.next + 1);
    }
    case Answer(summary) => {
      var k := FirstMemory(w.tasks);
      if k < |w.tasks| {
        assert StampsOf(w.tasks[k]) == w.tasks[k].memory.value.stamps;
        SuffixKeeps(w.tasks[k].memory.value.stamps, Boundary(w.tasks[k].memory.value.entries));
        ReplaceKeepsInv(w, k, Drained(w.tasks[k].memory.value, summary), w.next);
      }
    }
    case Rearrange(tasks) => RearrangeKeepsInv(w, tasks);
  }

  lemma RearrangeKeepsInv(w: World, tasks: seq<Holder>)
    requires Inv(w) && Rearranges(w, tasks)
    ensures Inv(Apply(w, Rearrange(tasks)))
  {
    forall k | 0 <= k < |tasks|
      ensures NoDuplicates(StampsOf(tasks[k]))
      ensures forall x :: x in StampsOf(tasks[k]) ==> x < w.next && tasks[k] in w.tasks
      ensures tasks[k].memory.Some? ==> |tasks[k].memory.value.stamps| == |tasks[k].memory.value.entries|
    {
    }
    forall i, j, x | 0 <= i < |tasks| && 0 <= j < |tasks| && x in StampsOf(tasks[i]) && x in StampsOf(tasks[j]) ensures i == j {
      var a :| 0 <= a < |w.tasks| && w.tasks[a] == tasks[i];
      var b :| 0 <= b < |w.tasks| && w.tasks[b] == tasks[j];
      assert a == b;
      assert tasks[i].id == tasks[j].id;
    }
  }

  lemma {:induction false} RunKeepsInv(w: World, events: seq<Event>)
    requires Inv(w) && CanRun(w, events)
    ensures Inv(Run(w, events))
    decreases |events|
  {
    if events != [] {
      StepKeepsInv(w, events[0]);
      RunKeepsInv(Apply(w, events[0]), events[1..]);
    }
  }

  // ---- where a stamp can be ----------------------------------------------------------------

  /** The stamp is in no memory but that of `id`. */
  ghost predicate OnlyIn(w: World, x: nat, id: nat) {
    x < w.next && forall k :: 0 <= k < |w.tasks| && x in StampsOf(w.tasks[k]) ==> w.tasks[k].id == id
  }

  ghost predicate Nowhere(w: World, x: nat) {
    x < w.next && forall k :: 0 <= k < |w.tasks| ==> x !in StampsOf(w.tasks[k])
  }

  lemma StepAddsNothingOld(w: World, event: Event, x: nat, id: nat)
    requires Inv(w) && Enabled(w, event)
    ensures OnlyIn(w, x, id) ==> OnlyIn(Apply(w, event), x, id)
    ensures Nowhere(w, x) ==> Nowhere(Apply(w, event), x)
  {
    var t := Apply(w, event);
    forall k | 0 <= k < |t.tasks| && x < w.next && x in StampsOf(t.tasks[k])
      ensures exists j :: 0 <= j < |w.tasks| && w.tasks[j].id == t.tasks[k].id && x in StampsOf(w.tasks[j])
    {
      match event
      case EditTask(_, _) => assert x in StampsOf(w.tasks[k]);
      case Answer(_) => assert x in StampsOf(w.tasks[k]);
      case Rearrange(tasks) => assert tasks[k] in w.tasks;
    }
  }

  lemma {:induction false} NowhereStays(w: World, events: seq<Event>, x: nat)
    requires Inv(w) && CanRun(w, events) && Nowhere(w, x)
    ensures Nowhere(Run(w, events), x)
    decreases |events|
  {
    if events != [] {
      StepAddsNothingOld(w, events[0], x, 0);
      StepKeepsInv(w, events[0]);
      NowhereStays(Apply(w, events[0]), events[1..], x);
    }
  }

  lemma {:induction false} OnlyInStays(w: World, events: seq<Event>, x: nat, id: nat)
    requires Inv(w) && CanRun(w, events) && OnlyIn(w, x, id)
    ensures OnlyIn(Run(w, events), x, id)
    decreases |events|
  {
    if events != [] {
      StepAddsNothingOld(w, events[0], x, id);
      StepKeepsInv(w, events[0]);
      OnlyInStays(Apply(w, events[0]), events[1..], x, id);
    }
  }

  // ---- one request and its answer ------------------------------------------------------------

  /** The first memory in iteration order belongs to this task. */
  predicate IsFirst(w: World, id: nat) {
    var k := FirstMemory(w.tasks);
    k < |w.tasks| && w.tasks[k].id == id
  }

  /** An answer that arrives now takes entries from the memory of `id`. */
  predicate Takes(w: World, id: nat) {
    IsFirst(w, id) && Boundary(w.tasks[FirstMemory(w.tasks)].memory.value.entries) > 0
  }

  /** Another answer has taken entries from the memory of `id` on the way. */
  predicate TakenFrom(w: World, events: seq<Event>, id: nat)
    requires CanRun(w, events)
    decreases |events|
  {
    events != [] && ((events[0].Answer? && Takes(w, id)) || TakenFrom(Apply(w, events[0]), events[1..], id))
  }

  /** The edits of one task's memory, in order. */
  function EditsOf(events: seq<Event>, id: nat): seq<Edit>
    decreases |events|
  {
    if events == [] then []
    else (if events[0].EditTask? && events[0].id == id then [events[0].edit] else []) + EditsOf(events[1..], id)
  }

  lemma FindIs(tasks: seq<Holder>, k: nat)
    requires DistinctIds(tasks) && k < |tasks|
    ensures Find(tasks, tasks[k].id) == k
  {
    var j := Find(tasks, tasks[k].id);
    assert !(j < k) && !(j > k);
  }

  /** A task that has gone does not come back. */
  lemma StepGone(w: World, event: Event, id: nat)
    requires Inv(w) && Enabled(w, event) && id in w.ids && !Has(w, id)
    ensures id in Apply(w, event).ids && !Has(Apply(w, event), id)
  {
    var t := Apply(w, event);
    if Has(t, id) {
      var k := Find(t.tasks, id);
      match event
      case EditTask(_, _) => FindIs(w.tasks, k);
      case Answer(_) => FindIs(w.tasks, k);
      case Rearrange(tasks) =>
        var j :| 0 <= j < |w.tasks| && w.tasks[j] == tasks[k];
        FindIs(w.tasks, j);
    }
  }

  lemma {:induction false} GoneStays(w: World, events: seq<Event>, id: nat)
    requires Inv(w) && CanRun(w, events) && id in w.ids && !Has(w, id)
    ensures !Has(Run(w, events), id)
    decreases |events|
  {
    if events != [] {
      StepGone(w, events[0], id);
      StepKeepsInv(w, events[0]);
      GoneStays(Apply(w, events[0]), events[1..], id);
    }
  }

  predicate SameEntries(a: Stm, b: Stm) {
    a.entries == b.entries && a.stamps == b.stamps
  }

  /** One event that takes nothing from the memory of `id` leaves its entries, or edits them. */
  lemma StepOfMemory(w: World, event: Event, id: nat)
    requires Inv(w) && Enabled(w, event) && Has(w, id) && Has(Apply(w, event), id)
    requires !(event.Answer? && Takes(w, id))
    ensures SameEntries(MemoryOf(Apply(w, event), id),
                        if event.EditTask? && event.id == id then EditedMemory(MemoryOf(w, id), event.edit, w.next) else MemoryOf(w, id))
  {
    var t := Apply(w, event);
    var k := Find(w.tasks, id);
    match event
    case EditTask(other, _) => FindIs(t.tasks, k);
    case Answer(_) => FindIs(t.tasks, k);
    case Rearrange(tasks) =>
      var j := Find(tasks, id);
      assert tasks[j] in w.tasks;
      var i :| 0 <= i < |w.tasks| && w.tasks[i] == tasks[j];
      FindIs(w.tasks, i);
  }

  lemma EditedMemoryGrows(m: Stm, edit: Edit, stamp: nat)
    requires m.entries != [] && |m.stamps| == |m.entries|
    ensures m.stamps <= EditedMemory(m, edit, stamp).stamps
    ensures EditedMemory(m, edit, stamp).entries == ApplyEdit(m.entries, edit) != []
  {
  }

  lemma EditsOfStep(entries: seq<Entry>, events: seq<Event>, id: nat)
    requires events != []
    ensures Edited(entries, EditsOf(events, id)) ==
              Edited(if events[0].EditTask? && events[0].id == id then ApplyEdit(entries, events[0].edit) else entries,
                     EditsOf(events[1..], id))
  {
    var rest := EditsOf(events[1..], id);
    if events[0].EditTask? && events[0].id == id {
      assert EditsOf(events, id) == [events[0].edit] + rest;
      assert ([events[0].edit] + rest)[1..] == rest;
    } else {
      assert EditsOf(events, id) == [] + rest == rest;
    }
  }

  /** Without such an answer the memory is the old one with its own edits. */
  lemma {:induction false} MemoryIsEdited(w: World, events: seq<Event>, id: nat)
    requires Inv(w) && CanRun(w, events) && Has(w, id) && Has(Run(w, events), id) && MemoryOf(w, id).entries != []
    requires !TakenFrom(w, events, id)
    ensures MemoryOf(Run(w, events), id).entries == Edited(MemoryOf(w, id).entries, EditsOf(events, id))
    ensures MemoryOf(w, id).stamps <= MemoryOf(Run(w, events), id).stamps
    decreases |events|
  {
    if events != [] {
      var t := Apply(w, events[0]);
      StepKeepsInv(w, events[0]);
      assert id in t.ids;
      if !Has(t, id) {
        GoneStays(t, events[1..], id);
      }
      StepOfMemory(w, events[0], id);
      EditsOfStep(MemoryOf(w, id).entries, events, id);
      if events[0].EditTask? && events[0].id == id {
        EditedMemoryGrows(MemoryOf(w, id), events[0].edit, w.next);
      }
      MemoryIsEdited(t, events[1..], id);
    }
  }

  lemma DrainedIsNowhere(w: World, summary: string, id: nat, x: nat)
    requires Inv(w) && Has(w, id) && Takes(w, id) && OnlyIn(w, x, id)
    requires x in MemoryOf(w, id).stamps[..Boundary(MemoryOf(w, id).entries)]
    ensures Nowhere(Apply(w, Answer(summary)), x)
  {
    var k := FirstMemory(w.tasks);
    FindIs(w.tasks, k);
    var m := MemoryOf(w, id);
    assert StampsOf(w.tasks[k]) == m.stamps;
    SuffixKeeps(m.stamps, Boundary(m.entries));
  }

  /** Once an answer has taken entries from a memory, its first entry is gone for good. */
  lemma {:induction false} AnswerTakesTheFirstEntry(w: World, events: seq<Event>, id: nat)
    requires Inv(w) && CanRun(w, events) && TakenFrom(w, events, id) && Has(w, id)
    requires MemoryOf(w, id).entries != [] && OnlyIn(w, MemoryOf(w, id).stamps[0], id)
    ensures Nowhere(Run(w, events), MemoryOf(w, id).stamps[0])
    decreases |events|
  {
    var m := MemoryOf(w, id);
    var x := m.stamps[0];
    var t := Apply(w, events[0]);
    StepKeepsInv(w, events[0]);
    StepAddsNothingOld(w, events[0], x, id);
    if events[0].Answer? && Takes(w, id) {
      FindIs(w.tasks, FirstMemory(w.tasks));
      DrainedIsNowhere(w, events[0].summary, id, x);
      NowhereStays(t, events[1..], x);
    } else if !Has(t, id) {
      forall k | 0 <= k < |t.tasks| ensures x !in StampsOf(t.tasks[k]) {
        FindIs(t.tasks, k);
      }
      NowhereStays(t, events[1..], x);
    } else {
      StepOfMemory(w, events[0], id);
      if events[0].EditTask? && events[0].id == id {
        EditedMemoryGrows(m, events[0].edit, w.next);
      }
      AnswerTakesTheFirstEntry(t, events[1..], id);
    }
  }

  lemma OwnStampsAreOnlyThere(w: World, id: nat, x: nat)
    requires Inv(w) && Has(w, id) && x in MemoryOf(w, id).stamps
    ensures OnlyIn(w, x, id)
  {
    var k := Find(w.tasks, id);
    assert x in StampsOf(w.tasks[k]);
  }

  /** An answer that removes an entry of task `id` finds its memory first. */
  lemma RemovedMeansFirst(w: World, id: nat, x: nat)
    requires Inv(w) && OnlyIn(w, x, id) && x in Removed(w.tasks)
    ensures IsFirst(w, id) && !Nowhere(w, x)
  {
    var k := FirstMemory(w.tasks);
    assert x in StampsOf(w.tasks[k]);
  }

  /** What an answer removes from a memory that was only edited. */
  lemma RemovedAfterEdits(w: World, events: seq<Event>, id: nat)
    requires Inv(w) && CanRun(w, events) && Has(w, id) && MemoryOf(w, id).entries != []
    requires IsFirst(Run(w, events), id) && !TakenFrom(w, events, id)
    ensures var later := Edited(MemoryOf(w, id).entries, EditsOf(events, id));
            var t := Run(w, events);
            && Inv(t) && Has(t, id) && MemoryOf(t, id).entries == later
            && |Removed(t.tasks)| == Boundary(later)
            && MemoryOf(w, id).stamps <= MemoryOf(t, id).stamps
            && Removed(t.tasks) <= MemoryOf(t, id).stamps
  {
    var t := Run(w, events);
    RunKeepsInv(w, events);
    FindIs(t.tasks, FirstMemory(t.tasks));
    MemoryIsEdited(w, events, id);
  }

  /** The answer removes exactly the entries that the request was about when the memory of the
      task that asked is the first one, no other answer took entries from it, and no edit opened
      a group. */
  lemma SummarisedIsRemovedIff(w: World, events: seq<Event>, id: nat)
    requires Inv(w) && CanRun(w, events) && Has(w, id) && Boundary(MemoryOf(w, id).entries) > 0
    ensures Inv(Run(w, events))
    ensures var m := MemoryOf(w, id);
            var t := Run(w, events);
            Removed(t.tasks) == m.stamps[..Boundary(m.entries)]
            <==> IsFirst(t, id) && !TakenFrom(w, events, id) && !SomeEditOpens(m.entries, EditsOf(events, id))
    ensures var m := MemoryOf(w, id);
            var t := Run(w, events);
            var n := Boundary(m.entries);
            Removed(t.tasks) == m.stamps[..n] ==>
              Has(t, id) && n <= |MemoryOf(t, id).entries| && MemoryOf(t, id).entries[..n] == m.entries[..n]
  {
    var m := MemoryOf(w, id);
    RunKeepsInv(w, events);
    OwnStampsAreOnlyThere(w, id, m.stamps[0]);
    OnlyInStays(w, events, m.stamps[0], id);
    if Removed(Run(w, events).tasks) == m.stamps[..Boundary(m.entries)] {
      assert m.stamps[0] == m.stamps[..Boundary(m.entries)][0];
      RemovedMeansFirst(Run(w, events), id, m.stamps[0]);
      if TakenFrom(w, events, id) {
        AnswerTakesTheFirstEntry(w, events, id);
      }
    }
    if IsFirst(Run(w, events), id) && !TakenFrom(w, events, id) {
      RemovedAfterEdits(w, events, id);
      SummarisedIsDrainedIffNoGroupOpened(m.entries, EditsOf(events, id));
    }
  }

  /** When it is not the first memory, or has gone, the answer removes entries that were never
      in its memory, and its summary stands in front of another task's history. */
  lemma AnswerHitsAnotherTask(w: World, events: seq<Event>, id: nat, summary: string)
    requires Inv(w) && CanRun(w, events) && Has(w, id) && !IsFirst(Run(w, events), id)
    ensures Inv(Run(w, events))
    ensures var t := Run(w, events);
            var k := FirstMemory(t.tasks);
            && (forall x :: x in Removed(t.tasks) ==> x !in MemoryOf(w, id).stamps)
            && (k < |t.tasks| ==> t.tasks[k].id != id && Delivered(t.tasks, summary)[k].memory.value.summary == Some(summary))
  {
    RunKeepsInv(w, events);
    forall x | x in MemoryOf(w, id).stamps && x in Removed(Run(w, events).tasks) ensures false {
      OwnStampsAreOnlyThere(w, id, x);
      OnlyInStays(w, events, x, id);
      RemovedMeansFirst(Run(w, events), id, x);
    }
  }

  const ASKED := [Entry(RUser, "q", []), Entry(RUser, "r", [])]

  const TWO_TASKS := World([Holder(1, Some(Stm(ASKED, [0, 1], None))), Holder(2, Some(Stm(ASKED, [2, 3], None)))], {1, 2}, 4)

  lemma TwoTasksKeepInv()
    ensures Inv(TWO_TASKS)
  {
    assert StampsOf(TWO_TASKS.tasks[0]) == [0, 1];
    assert StampsOf(TWO_TASKS.tasks[1]) == [2, 3];
  }

  /** Two tasks, no edit at all: the answer for the second task empties the first. */
  lemma SecondTaskEmptiesTheFirst(summary: string)
    ensures Inv(TWO_TASKS) && Has(TWO_TASKS, 2)
    ensures MemoryOf(TWO_TASKS, 2).stamps[..Boundary(MemoryOf(TWO_TASKS, 2).entries)] == [2]
    ensures Removed(TWO_TASKS.tasks) == [0]
    ensures Delivered(TWO_TASKS.tasks, summary) == [Holder(1, Some(Stm(ASKED[1..], [1], Some(summary)))), TWO_TASKS.tasks[1]]
  {
    TwoTasksKeepInv();
    FindIs(TWO_TASKS.tasks, 1);
    assert Boundary(ASKED) == 1;
  }

  // ---- the request of the command ------------------------------------------------------------

  /** All entries, without tool calls and without the earlier summary. */
  function CommandText(entries: seq<Entry>): string {
    if entries == [] then ""
    else
      var line := RoleName(entries[0].role) + ": " + entries[0].content;
      if |entries| == 1 then line else line + "\n" + CommandText(entries[1..])
  }

  function CommandRequest(entries: seq<Entry>): (request: Option<string>)
    ensures request.None? <==> entries == []
  {
    var text := CommandText(entries);
    if text != "" then Some(text) else None
  }

  /** The last edit that opens a group opens it at this index. */
  predicate LastOpensAt(entries: seq<Entry>, edits: seq<Edit>, n: nat)
    requires entries != []
    decreases |edits|
  {
    edits != [] &&
    var after := ApplyEdit(entries, edits[0]);
    || LastOpensAt(after, edits[1..], n)
    || (OpensGroup(entries, edits[0]) && |after| == n + 1 && !SomeEditOpens(after, edits[1..]))
  }

  lemma {:induction false} BoundaryAfterEdits(entries: seq<Entry>, edits: seq<Edit>, n: nat)
    requires entries != [] && Boundary(entries) < n
    ensures Boundary(Edited(entries, edits)) == n <==> LastOpensAt(entries, edits, n)
    decreases |edits|
  {
    if edits != [] {
      var after := ApplyEdit(entries, edits[0]);
      EditMovesBoundary(entries, edits[0]);
      SummarisedIsDrainedIffNoGroupOpened(after, edits[1..]);
      if Boundary(after) < n {
        BoundaryAfterEdits(after, edits[1..], n);
      } else {
        NoOpeningBelow(after, edits[1..], n);
      }
    }
  }

  /** Groups are opened behind the last one only. */
  lemma {:induction false} NoOpeningBelow(entries: seq<Entry>, edits: seq<Edit>, n: nat)
    requires entries != [] && n <= Boundary(entries)
    ensures !LastOpensAt(entries, edits, n)
    decreases |edits|
  {
    if edits != [] {
      EditMovesBoundary(entries, edits[0]);
      NoOpeningBelow(ApplyEdit(entries, edits[0]), edits[1..], n);
    }
  }

  /** After the command, whose text has all entries, the answer removes exactly these when the
      last group that was opened in between begins right behind them. With no edit it never does. */
  lemma CommandTextIsRemovedIff(w: World, events: seq<Event>, id: nat)
    requires Inv(w) && CanRun(w, events) && Has(w, id) && MemoryOf(w, id).entries != []
    ensures Inv(Run(w, events))
    ensures var m := MemoryOf(w, id);
            var t := Run(w, events);
            Removed(t.tasks) == m.stamps
            <==> IsFirst(t, id) && !TakenFrom(w, events, id) && LastOpensAt(m.entries, EditsOf(events, id), |m.entries|)
  {
    var m := MemoryOf(w, id);
    RunKeepsInv(w, events);
    OwnStampsAreOnlyThere(w, id, m.stamps[0]);
    OnlyInStays(w, events, m.stamps[0], id);
    if Removed(Run(w, events).tasks) == m.stamps {
      RemovedMeansFirst(Run(w, events), id, m.stamps[0]);
      if TakenFrom(w, events, id) {
        AnswerTakesTheFirstEntry(w, events, id);
      }
    }
    if IsFirst(Run(w, events), id) && !TakenFrom(w, events, id) {
      RemovedAfterEdits(w, events, id);
      BoundaryAfterEdits(m.entries, EditsOf(events, id), |m.entries|);
    }
  }

  /** The old summary of the memory that is hit has no influence on what is there afterwards. */
  lemma OldSummaryIsLost(tasks: seq<Holder>, k: nat, older: Option<string>, summary: string)
    requires Sized(tasks) && k < |tasks| && FirstMemory(tasks) == k
    ensures var changed := tasks[k := tasks[k].(memory := Some(tasks[k].memory.value.(summary := older)))];
            Sized(changed) && Delivered(changed, summary) == Delivered(tasks, summary)
  {
    FirstMemoryIs(tasks, tasks[k := tasks[k].(memory := Some(tasks[k].memory.value.(summary := older)))]);
  }

  lemma {:induction false} FirstMemoryIs(a: seq<Holder>, b: seq<Holder>)
    requires |a| == |b| && forall k :: 0 <= k < |a| ==> (a[k].memory.Some? <==> b[k].memory.Some?)
    ensures FirstMemory(a) == FirstMemory(b)
  {
    if a != [] && a[0].memory.None? {
      FirstMemoryIs(a[1..], b[1..]);
    }
  }
}
