// Display memory of a task: grouping of entries, the text sent to be summarised, and the
// removal of what was summarised once the answer is there.

module ShortTermMemory {
  import opened Base
  import opened Conversation
  import RC = RuntimeConversation

  datatype Role = RUser | RAssistant | RSummary | RArchive

  datatype ToolRecord = ToolRecord(id: Option<string>, name: string, input: string, output: string)

  datatype Entry = Entry(role: Role, content: string, toolCalls: seq<ToolRecord>)

  predicate Opens(e: Entry) {
    e.role == RUser || (e.role == RAssistant && e.toolCalls != [])
  }

  // ---- grouping ------------------------------------------------------------------

  function Flatten<T>(ss: seq<seq<T>>): seq<T> {
    if ss == [] then [] else Flatten(ss[..|ss| - 1]) + ss[|ss| - 1]
  }

  function Upto(n: nat): seq<nat> {
    seq(n, i => i)
  }

  /** Where the last group starts: the last entry that opens one, or the very first entry. */
  function Boundary(entries: seq<Entry>): (k: nat)
    ensures k <= |entries| && (entries != [] ==> k < |entries|)
    ensures forall i :: k < i < |entries| ==> !Opens(entries[i])
    ensures k > 0 ==> Opens(entries[k])
  {
    if |entries| <= 1 then 0
    else if Opens(entries[|entries| - 1]) then |entries| - 1
    else Boundary(entries[..|entries| - 1])
  }

  /** Nothing inside a group opens one, and every group but the first starts with an opener. */
  ghost predicate GroupOk(entries: seq<Entry>, group: seq<nat>, first: bool) {
    && group != []
    && (forall k :: 0 <= k < |group| ==> group[k] < |entries|)
    && (forall k :: 0 < k < |group| ==> !Opens(entries[group[k]]))
    && (first || Opens(entries[group[0]]))
  }

  /** The groups are an in-order partition of all indices. */
  ghost predicate IsGrouping(entries: seq<Entry>, groups: seq<seq<nat>>) {
    && Flatten(groups) == Upto(|entries|)
    && forall g :: 0 <= g < |groups| ==> GroupOk(entries, groups[g], g == 0)
  }

  lemma FlattenPush<T>(ss: seq<seq<T>>, s: seq<T>)
    ensures Flatten(ss + [s]) == Flatten(ss) + s
  {
    assert (ss + [s])[..|ss|] == ss;
  }

  lemma UptoPush(n: nat)
    ensures Upto(n + 1) == Upto(n) + [n]
  {
  }

  method SplitIntoGroups(entries: seq<Entry>) returns (groups: seq<seq<nat>>)
    ensures IsGrouping(entries, groups)
    ensures entries == [] <==> groups == []
    ensures entries != [] ==> Flatten(groups[..|groups| - 1]) == Upto(Boundary(entries))
  {
    if entries == [] {
      return [];
    }
    groups := [];
    var current: seq<nat> := [];
    for i := 0 to |entries|
      invariant i == 0 ==> groups == [] && current == []
      invariant i > 0 ==> SplitState(entries, i, groups, current)
    {
      if i == 0 {
        SplitStarts(entries);
      } else if Opens(entries[i]) {
        SplitCloses(entries, i, groups, current);
      } else {
        SplitExtends(entries, i, groups, current);
      }
      if Opens(entries[i]) && current != [] {
        groups := groups + [current];
        current := [];
      }
      current := current + [i];
    }
    assert entries[..|entries|] == entries;
    FlattenPush(groups, current);
    assert (groups + [current])[..|groups|] == groups;
    groups := groups + [current];
  }

  /** After `i` entries: the finished groups, and the group in progress. */
  ghost predicate SplitState(entries: seq<Entry>, i: nat, groups: seq<seq<nat>>, current: seq<nat>) {
    && i <= |entries|
    && GroupOk(entries, current, groups == [])
    && Flatten(groups) == Upto(Boundary(entries[..i]))
    && Flatten(groups) + current == Upto(i)
    && forall g :: 0 <= g < |groups| ==> GroupOk(entries, groups[g], g == 0)
  }

  lemma SplitStarts(entries: seq<Entry>)
    requires entries != []
    ensures SplitState(entries, 1, [], [0])
  {
  }

  lemma SplitCloses(entries: seq<Entry>, i: nat, groups: seq<seq<nat>>, current: seq<nat>)
    requires 0 < i < |entries| && SplitState(entries, i, groups, current) && Opens(entries[i])
    ensures SplitState(entries, i + 1, groups + [current], [i])
  {
    BoundaryStep(entries, i);
    UptoPush(i);
    FlattenPush(groups, current);
  }

  lemma SplitExtends(entries: seq<Entry>, i: nat, groups: seq<seq<nat>>, current: seq<nat>)
    requires 0 < i < |entries| && SplitState(entries, i, groups, current) && !Opens(entries[i])
    ensures SplitState(entries, i + 1, groups, current + [i])
  {
    BoundaryStep(entries, i);
    UptoPush(i);
    assert Flatten(groups) + (current + [i]) == Flatten(groups) + current + [i];
  }

  lemma BoundaryStep(entries: seq<Entry>, i: nat)
    requires i < |entries|
    ensures Boundary(entries[..i + 1]) == if i == 0 then 0 else if Opens(entries[i]) then i else Boundary(entries[..i])
  {
    assert entries[..i + 1][..i] == entries[..i];
  }

  /** Everything but the group in progress. */
  method CompressibleGroupIndices(entries: seq<Entry>) returns (groups: seq<seq<nat>>)
    ensures Flatten(groups) == Upto(Boundary(entries))
  {
    groups := SplitIntoGroups(entries);
    if |groups| <= 1 {
      assert |groups| == 1 ==> groups[..0] == [];
      return [];
    }
    return groups[..|groups| - 1];
  }

  // ---- the text to summarise -----------------------------------------------------

  function RoleName(r: Role): string {
    match r
    case RUser => "User"
    case RAssistant => "Assistant"
    case RSummary => "Summary"
    case RArchive => "Archive"
  }

  function Line(e: Entry, render: seq<ToolRecord> -> string): string {
    RoleName(e.role) + ": " + e.content + (if e.toolCalls != [] then "\n  " + render(e.toolCalls) else "") + "\n"
  }

  function Lines(entries: seq<Entry>, render: seq<ToolRecord> -> string): string {
    if entries == [] then "" else Lines(entries[..|entries| - 1], render) + Line(entries[|entries| - 1], render)
  }

  function Heading(summary: Option<string>): string {
    if summary.Some? then "[Previous context summary]\n" + summary.value + "\n\n" else ""
  }

  method BuildCompressText(entries: seq<Entry>, summary: Option<string>, render: seq<ToolRecord> -> string)
    returns (text: string)
    ensures text == Heading(summary) + Lines(entries[..Boundary(entries)], render)
  {
    text := Heading(summary);
    var groups := CompressibleGroupIndices(entries);
    ghost var n: nat := 0;
    for g := 0 to |groups|
      invariant n <= Boundary(entries) && Flatten(groups[..g]) == Upto(n)
      invariant text == Heading(summary) + Lines(entries[..n], render)
    {
      NextPiece(groups, g, n, Boundary(entries));
      text := AppendGroup(entries, groups[g], n, render, text, Heading(summary));
      n := n + |groups[g]|;
    }
    assert groups[..|groups|] == groups;
    assert |Flatten(groups)| == n;
  }

  lemma NextPiece(groups: seq<seq<nat>>, g: nat, n: nat, total: nat)
    requires g < |groups| && Flatten(groups) == Upto(total) && Flatten(groups[..g]) == Upto(n)
    ensures n + |groups[g]| <= total && Flatten(groups[..g + 1]) == Upto(n + |groups[g]|)
    ensures forall k :: 0 <= k < |groups[g]| ==> groups[g][k] == n + k
  {
    assert groups[..g + 1] == groups[..g] + [groups[g]];
    FlattenPush(groups[..g], groups[g]);
    FlattenPrefix(groups, g + 1);
    PiecesOfUpto(n, groups[g], total);
  }

  method AppendGroup(entries: seq<Entry>, group: seq<nat>, ghost start: nat, render: seq<ToolRecord> -> string,
                     text: string, ghost heading: string)
    returns (longer: string)
    requires start + |group| <= |entries| && forall k :: 0 <= k < |group| ==> group[k] == start + k
    requires text == heading + Lines(entries[..start], render)
    ensures longer == heading + Lines(entries[..start + |group|], render)
  {
    longer := text;
    for k := 0 to |group|
      invariant longer == heading + Lines(entries[..start + k], render)
    {
      PushLine(longer, heading, entries, group[k], render);
      longer := longer + Line(entries[group[k]], render);
    }
  }

  lemma PushLine(text: string, heading: string, entries: seq<Entry>, i: nat, render: seq<ToolRecord> -> string)
    requires i < |entries| && text == heading + Lines(entries[..i], render)
    ensures text + Line(entries[i], render) == heading + Lines(entries[..i + 1], render)
  {
    assert entries[..i + 1][..i] == entries[..i];
    Regroup(heading, Lines(entries[..i], render), Line(entries[i], render));
  }

  lemma PiecesOfUpto(n: nat, group: seq<nat>, total: nat)
    requires Upto(n) + group <= Upto(total)
    ensures n + |group| <= total && Upto(n) + group == Upto(n + |group|)
    ensures forall k :: 0 <= k < |group| ==> group[k] == n + k
  {
    forall k | 0 <= k < |group| ensures group[k] == n + k {
      assert (Upto(n) + group)[n + k] == Upto(total)[n + k];
    }
  }

  lemma {:induction false} FlattenPrefix<T>(ss: seq<seq<T>>, k: nat)
    requires k <= |ss|
    ensures Flatten(ss[..k]) <= Flatten(ss)
    decreases |ss|
  {
    if k < |ss| {
      assert ss[..|ss| - 1][..k] == ss[..k];
      FlattenPrefix(ss[..|ss| - 1], k);
    } else {
      assert ss[..k] == ss;
    }
  }

  // ---- what may happen between the request and the answer ---------------------------

  datatype Edit = Add(entry: Entry) | RecordCall(call: ToolRecord)

  function ApplyEdit(entries: seq<Entry>, edit: Edit): seq<Entry> {
    match edit
    case Add(e) => entries + [e]
    case RecordCall(call) =>
      if entries != [] && entries[|entries| - 1].role == RAssistant then
        var last := entries[|entries| - 1];
        entries[..|entries| - 1] + [last.(toolCalls := last.toolCalls + [call])]
      else entries + [Entry(RAssistant, "", [call])]
  }

  function Edited(entries: seq<Entry>, edits: seq<Edit>): seq<Entry>
    decreases |edits|
  {
    if edits == [] then entries else Edited(ApplyEdit(entries, edits[0]), edits[1..])
  }

  /** Whether an edit opens a new group behind existing entries. */
  predicate OpensGroup(entries: seq<Entry>, edit: Edit)
    requires entries != []
  {
    match edit
    case Add(e) => Opens(e)
    case RecordCall(_) =>
      var last := entries[|entries| - 1];
      last.role != RAssistant || (last.toolCalls == [] && |entries| > 1)
  }

  predicate SomeEditOpens(entries: seq<Entry>, edits: seq<Edit>)
    requires entries != []
    decreases |edits|
  {
    edits != [] && (OpensGroup(entries, edits[0]) || SomeEditOpens(ApplyEdit(entries, edits[0]), edits[1..]))
  }

  lemma EditMovesBoundary(entries: seq<Entry>, edit: Edit)
    requires entries != []
    ensures var after := ApplyEdit(entries, edit);
            && after != [] && |after| >= |entries|
            && after[..Boundary(entries)] == entries[..Boundary(entries)]
            && (if OpensGroup(entries, edit) then Boundary(after) == |after| - 1 > Boundary(entries)
                else Boundary(after) == Boundary(entries))
  {
    var after := ApplyEdit(entries, edit);
    match edit
    case Add(e) => assert after[..|after| - 1] == entries;
    case RecordCall(_) =>
      if entries[|entries| - 1].role == RAssistant {
        assert after[..|after| - 1] == entries[..|entries| - 1];
      } else {
        assert after[..|after| - 1] == entries;
      }
  }

  /** The entries dropped when the summary arrives extend the entries that were summarised, and
      they are the same entries exactly when no edit made in between opened a group. Otherwise
      the surplus is dropped without ever having been summarised. */
  lemma {:induction false} SummarisedIsDrainedIffNoGroupOpened(entries: seq<Entry>, edits: seq<Edit>)
    requires entries != []
    ensures var later := Edited(entries, edits);
            var summarised := entries[..Boundary(entries)];
            var drained := later[..Boundary(later)];
            summarised <= drained && (drained == summarised <==> !SomeEditOpens(entries, edits))
    decreases |edits|
  {
    if edits != [] {
      var next := ApplyEdit(entries, edits[0]);
      EditMovesBoundary(entries, edits[0]);
      SummarisedIsDrainedIffNoGroupOpened(next, edits[1..]);
      assert next[..Boundary(next)][..Boundary(entries)] == entries[..Boundary(entries)];
    }
  }

  // ---- the component -------------------------------------------------------------

  function WrapAdd(a: U32, b: U32): U32 {
    (a + b) % (U32_MAX + 1)
  }

  lemma WrapAddIs(a: U32, b: U32)
    ensures WrapAdd(a, b) == if a + b <= U32_MAX then a + b else a + b - (U32_MAX + 1)
  {
  }

  lemma WrapAddRegroups(a: U32, b: U32, c: U32)
    ensures WrapAdd(a, WrapAdd(b, c)) == WrapAdd(WrapAdd(a, b), c)
  {
    WrapAddIs(b, c);
    WrapAddIs(a, b);
    WrapAddIs(a, WrapAdd(b, c));
    WrapAddIs(WrapAdd(a, b), c);
  }

  function RecordTokens(est: Estimator, start: U32, calls: seq<ToolRecord>): U32
    decreases |calls|
  {
    if calls == [] then start
    else RecordTokens(est, WrapAdd(WrapAdd(start, est(calls[0].input)), est(calls[0].output)), calls[1..])
  }

  function EntryTokens(est: Estimator, start: U32, entries: seq<Entry>): U32
    decreases |entries|
  {
    if entries == [] then start
    else EntryTokens(est, RecordTokens(est, WrapAdd(start, est(entries[0].content)), entries[0].toolCalls), entries[1..])
  }

  function DisplayTokens(est: Estimator, summary: Option<string>, entries: seq<Entry>): U32 {
    EntryTokens(est, if summary.Some? then est(summary.value) else 0, entries)
  }

  function Larger(a: U32, b: U32): U32 {
    if a >= b then a else b
  }

  class Memory {
    const est: Estimator
    const protocol: RC.History
    var entries: seq<Entry>
    var summary: Option<string>
    var estimatedTokens: U32

    ghost predicate Valid()
      reads this, protocol
    {
      protocol.est == est && RC.Inv(est, protocol.State())
    }

    constructor (est: Estimator)
      ensures Valid() && fresh(protocol) && entries == [] && summary == None && estimatedTokens == 0
      ensures this.est == est && protocol.State() == RC.EMPTY
    {
      this.est := est;
      protocol := new RC.History(est);
      entries, summary, estimatedTokens := [], None, 0;
    }

    method AddEntry(e: Entry)
      requires Valid()
      modifies this, protocol
      ensures Valid() && summary == old(summary)
      ensures entries == ApplyEdit(old(entries), Add(e))
      ensures protocol.State() == if e.role == RUser then RC.Step(est, old(protocol.State()), RC.PushUser(e.content))
                                  else old(protocol.State())
      ensures estimatedTokens == Larger(WrapAdd(old(estimatedTokens), RecordTokens(est, est(e.content), e.toolCalls)),
                                        protocol.estimatedTokens)
    {
      if e.role == RUser {
        RC.StepKeepsInv(est, protocol.State(), RC.PushUser(e.content));
        protocol.PushUserMessage(e.content);
      }
      var added: U32 := est(e.content);
      assert e.toolCalls[0..] == e.toolCalls;
      for i := 0 to |e.toolCalls|
        invariant RecordTokens(est, est(e.content), e.toolCalls) == RecordTokens(est, added, e.toolCalls[i..])
      {
        assert e.toolCalls[i..][1..] == e.toolCalls[i + 1..];
        added := WrapAdd(added, est(e.toolCalls[i].input));
        added := WrapAdd(added, est(e.toolCalls[i].output));
      }
      estimatedTokens := WrapAdd(estimatedTokens, added);
      entries := entries + [e];
      estimatedTokens := Larger(estimatedTokens, protocol.estimatedTokens);
    }

    method RecordToolCall(call: ToolRecord)
      requires Valid()
      modifies this
      ensures Valid() && summary == old(summary)
      ensures entries == ApplyEdit(old(entries), RecordCall(call))
      ensures estimatedTokens == RecordTokens(est, old(estimatedTokens), [call])
    {
      WrapAddRegroups(estimatedTokens, est(call.input), est(call.output));
      var added := WrapAdd(est(call.input), est(call.output));
      if entries != [] && entries[|entries| - 1].role == RAssistant {
        var last := entries[|entries| - 1];
        entries := entries[..|entries| - 1] + [last.(toolCalls := last.toolCalls + [call])];
        estimatedTokens := WrapAdd(estimatedTokens, added);
        return;
      }
      entries := entries + [Entry(RAssistant, "", [call])];
      estimatedTokens := WrapAdd(estimatedTokens, added);
    }

    method RecalculateTokens()
      modifies this`estimatedTokens
      ensures estimatedTokens == Larger(DisplayTokens(est, summary, entries), protocol.estimatedTokens)
    {
      var total: U32 := 0;
      if summary.Some? {
        total := est(summary.value);
      }
      ghost var start := total;
      assert entries[0..] == entries;
      for i := 0 to |entries|
        invariant EntryTokens(est, start, entries) == EntryTokens(est, total, entries[i..])
      {
        var e := entries[i];
        assert entries[i..][1..] == entries[i + 1..];
        total := WrapAdd(total, est(e.content));
        ghost var from := total;
        assert e.toolCalls[0..] == e.toolCalls;
        for j := 0 to |e.toolCalls|
          invariant RecordTokens(est, from, e.toolCalls) == RecordTokens(est, total, e.toolCalls[j..])
        {
          assert e.toolCalls[j..][1..] == e.toolCalls[j + 1..];
          total := WrapAdd(total, est(e.toolCalls[j].input));
          total := WrapAdd(total, est(e.toolCalls[j].output));
        }
      }
      estimatedTokens := Larger(total, protocol.estimatedTokens);
    }

    /** Removes everything before the last group, and only that; the protocol history goes with
        it exactly when something was removed. */
    method DrainCompressibleGroups() returns (count: nat)
      requires Valid()
      modifies this, protocol
      ensures Valid() && summary == old(summary)
      ensures count == Boundary(old(entries)) && entries == old(entries)[count..]
      ensures Boundary(entries) == 0
      ensures protocol.State() == if count > 0 then RC.Conv(None, true, 0) else old(protocol.State())
      ensures estimatedTokens == Larger(DisplayTokens(est, summary, entries), protocol.estimatedTokens)
    {
      var groups := CompressibleGroupIndices(entries);
      count := 0;
      for g := 0 to |groups|
        invariant count == |Flatten(groups[..g])|
      {
        assert groups[..g + 1][..g] == groups[..g];
        count := count + |groups[g]|;
      }
      assert groups[..|groups|] == groups;
      SuffixIsOneGroup(entries);
      if count > 0 {
        entries := entries[count..];
        protocol.Forget();
      }
      RecalculateTokens();
    }
  }

  /** What remains after a drain is a single group: draining again removes nothing. */
  lemma SuffixIsOneGroup(entries: seq<Entry>)
    ensures Boundary(entries[Boundary(entries)..]) == 0
  {
    var k := Boundary(entries);
    var rest := entries[k..];
    assert forall i :: 0 < i < |rest| ==> rest[i] == entries[k + i];
  }
}
