// The inbox of input that a task has not yet shown to its model. Monitoring notices are kept
// within fixed bounds by merging and evicting; everything else is kept as it is.

module TaskInbox {
  import opened Base
  import opened Markup
  import opened Utf8

  const MAX_SESSIONS := 32
  const MAX_BYTES := 2048
  const FAILURE_BYTES := 512
  const MERGED := "[同会话较早通知已合并；完整告警以独立投递与回执为准]\n"
  const EVICTED := "[较早会话摘要已淘汰；完整告警以独立投递与回执为准]\n"
  const PRIOR_FAILURE := "[先前监控发送失败："
  const TRUNCATED := "…[摘要已截断]"

  datatype Item =
    | UserSteer(content: string, at: int)
    | Notification(job: nat, source: string, status: string, summary: string, at: int)
    | Hint(content: string, at: int)
    | Guidance(content: string, at: int)

  predicate IsMonitor(x: Item) {
    x.Notification? && x.source == "shell_output"
  }

  predicate IsOther(x: Item) {
    !IsMonitor(x)
  }

  // ---- bounded text --------------------------------------------------------------

  /** The text itself when it fits, else its longest head of whole characters that leaves room
      for the truncation mark. */
  function Bounded(text: string, maxBytes: nat): string {
    if ByteLen(text) <= maxBytes then text
    else text[..FloorIndex(text, Max(maxBytes - ByteLen(TRUNCATED), 0))] + TRUNCATED
  }

  method BoundedMonitorText(text: string, maxBytes: nat) returns (r: string)
    ensures r == Bounded(text, maxBytes)
  {
    if ByteLen(text) <= maxBytes {
      return text;
    }
    var end := Max(maxBytes - ByteLen(TRUNCATED), 0);
    var k := FloorSlice(text, end);
    return text[..k] + TRUNCATED;
  }

  lemma MarkIsShort()
    ensures ByteLen(TRUNCATED) <= 32
  {
    ByteLenBounds(TRUNCATED);
  }

  lemma BoundedFits(text: string, maxBytes: nat)
    requires maxBytes >= 32
    ensures ByteLen(Bounded(text, maxBytes)) <= maxBytes
  {
    MarkIsShort();
    if ByteLen(text) > maxBytes {
      var limit := maxBytes - ByteLen(TRUNCATED);
      FloorIndexIsFloor(text, limit);
      ByteLenConcat(text[..FloorIndex(text, limit)], TRUNCATED);
    }
  }

  lemma CutKeepsHead(head: string, text: string, limit: nat)
    requires head <= text && ByteLen(head) <= limit
    ensures head <= text[..FloorIndex(text, limit)]
  {
    assert text[..|head|] == head;
    FloorIndexAtLeast(text, limit, |head|);
    assert text[..FloorIndex(text, limit)][..|head|] == head;
  }

  /** A head with few bytes survives the cut. */
  lemma BoundedKeepsHead(head: string, text: string, maxBytes: nat)
    requires head <= text && ByteLen(head) + 32 <= maxBytes
    ensures head <= Bounded(text, maxBytes)
  {
    MarkIsShort();
    if ByteLen(text) > maxBytes {
      CutKeepsHead(head, text, maxBytes - ByteLen(TRUNCATED));
    }
  }

  // ---- lines ---------------------------------------------------------------------

  /** `lines().next()` of a non-empty string: a line end also swallows one carriage return. */
  function FirstLine(s: string): string {
    var line := UpToNewline(s);
    if |line| < |s| && line != [] && line[|line| - 1] == '\r' then line[..|line| - 1] else line
  }

  function Unbroken(s: string): (r: string)
    ensures |r| == |s| && '\n' !in r
    ensures forall i :: 0 <= i < |s| ==> r[i] == if s[i] == '\n' then ' ' else s[i]
  {
    if s == [] then [] else [if s[0] == '\n' then ' ' else s[0]] + Unbroken(s[1..])
  }

  lemma {:induction false} UpToNewlineUnique(line: string, rest: string)
    requires '\n' !in line
    ensures UpToNewline(line + "\n" + rest) == line
  {
    if line == [] {
      assert (line + "\n" + rest)[0] == '\n';
    } else {
      assert (line + "\n" + rest)[0] == line[0] && (line + "\n" + rest)[1..] == line[1..] + "\n" + rest;
      UpToNewlineUnique(line[1..], rest);
    }
  }

  /** A text that starts with a complete line has that line as its first. */
  lemma FirstLineIs(line: string, text: string)
    requires '\n' !in line && (line != [] ==> line[|line| - 1] != '\r')
    requires line + "\n" <= text
    ensures FirstLine(text) == line
  {
    var rest := text[|line| + 1..];
    assert text == line + "\n" + rest;
    UpToNewlineUnique(line, rest);
  }

  predicate Contains(s: string, p: string) {
    p <= s || (s != [] && Contains(s[1..], p))
  }

  // ---- push ----------------------------------------------------------------------

  predicate Failed(status: string) {
    status == "failed" || "failed:" <= status
  }

  /** What a merge carries over from the notice it replaces. */
  function FailureNote(previous: Item): string
    requires previous.Notification?
  {
    if PRIOR_FAILURE <= previous.summary then Bounded(FirstLine(previous.summary), FAILURE_BYTES) + "\n"
    else if Failed(previous.status) then PRIOR_FAILURE + Bounded(Unbroken(previous.summary), FAILURE_BYTES) + "]\n"
    else ""
  }

  function MergeNote(previous: Item): string
    requires previous.Notification?
  {
    FailureNote(previous) + (if Contains(previous.summary, EVICTED) then EVICTED else "") + MERGED
  }

  function RemoveAt<T>(s: seq<T>, i: nat): seq<T>
    requires i < |s|
  {
    s[..i] + s[i + 1..]
  }

  /** The first position whose item satisfies `p`, or the length. */
  function Position(items: seq<Item>, p: Item -> bool): (i: nat)
    ensures i <= |items|
    ensures i < |items| ==> p(items[i])
    ensures forall j :: 0 <= j < i ==> !p(items[j])
  {
    if items == [] || p(items[0]) then 0 else 1 + Position(items[1..], p)
  }

  function OfJob(job: nat): Item -> bool {
    (x: Item) => IsMonitor(x) && x.job == job
  }

  function Monitors(items: seq<Item>): seq<Item> {
    Filter(items, IsMonitor)
  }

  function Others(items: seq<Item>): seq<Item> {
    Filter(items, IsOther)
  }

  /** The three values that the two stages of a push work on. */
  datatype Stage = Stage(items: seq<Item>, note: string, at: int)

  function Merge(items: seq<Item>, item: Item): Stage
    requires IsMonitor(item)
  {
    var i := Position(items, OfJob(item.job));
    if i == |items| then Stage(items, "", item.at)
    else Stage(RemoveAt(items, i), MergeNote(items[i]), Min(item.at, items[i].at))
  }

  function WithEvictionMark(note: string): string {
    if Contains(note, EVICTED) then note else note + EVICTED
  }

  function Evict(s: Stage): Stage {
    var i := Position(s.items, IsMonitor);
    if |Monitors(s.items)| < MAX_SESSIONS || i == |s.items| then s
    else Stage(RemoveAt(s.items, i), WithEvictionMark(s.note), Min(s.at, s.items[i].at))
  }

  function Pushed(items: seq<Item>, item: Item): seq<Item> {
    if !IsMonitor(item) then items + [item]
    else
      var s := Evict(Merge(items, item));
      var summary := s.note + Bounded(item.summary, Max(MAX_BYTES - ByteLen(s.note), 0));
      s.items + [item.(summary := summary, at := s.at)]
  }

  /** The context note that replaces a notice of the same job. */
  method CarryOver(previous: Item) returns (note: string)
    requires previous.Notification?
    ensures note == MergeNote(previous)
  {
    note := "";
    if PRIOR_FAILURE <= previous.summary {
      var failure := BoundedMonitorText(FirstLine(previous.summary), FAILURE_BYTES);
      note := failure + "\n";
    } else if Failed(previous.status) {
      var reason := BoundedMonitorText(Unbroken(previous.summary), FAILURE_BYTES);
      note := PRIOR_FAILURE + reason + "]\n";
    }
    if Contains(previous.summary, EVICTED) {
      note := note + EVICTED;
    }
    note := note + MERGED;
  }

  class Inbox {
    var items: seq<Item>

    constructor ()
      ensures items == []
    {
      items := [];
    }

    method Push(item: Item)
      modifies this
      ensures items == Pushed(old(items), item)
      ensures !IsMonitor(item) ==> items == old(items) + [item]
      ensures IsMonitor(item) && Inv(old(items)) ==> BringsItsText(old(items), item, items)
    {
      if IsMonitor(item) && Inv(items) {
        PushBringsItsText(items, item);
      }
      if !IsMonitor(item) {
        items := items + [item];
        return;
      }
      var note, at := "", item.at;
      var existing := Position(items, OfJob(item.job));
      if existing < |items| {
        var previous := items[existing];
        items := RemoveAt(items, existing);
        at := Min(at, previous.at);
        note := CarryOver(previous);
      }
      assert Stage(items, note, at) == Merge(old(items), item);
      var oldest := Position(items, IsMonitor);
      if |Monitors(items)| >= MAX_SESSIONS && oldest < |items| {
        at := Min(at, items[oldest].at);
        items := RemoveAt(items, oldest);
        if !Contains(note, EVICTED) {
          note := note + EVICTED;
        }
      }
      assert Stage(items, note, at) == Evict(Merge(old(items), item));
      var tail := BoundedMonitorText(item.summary, Max(MAX_BYTES - ByteLen(note), 0));
      items := items + [item.(summary := note + tail, at := at)];
    }

    method DrainAll() returns (drained: seq<Item>)
      modifies this
      ensures drained == old(items) && items == []
    {
      drained := items;
      items := [];
    }
  }

  // ---- the bounds ----------------------------------------------------------------

  ghost predicate OnePerJob(items: seq<Item>) {
    forall i, j :: 0 <= i < j < |items| && IsMonitor(items[i]) && IsMonitor(items[j]) ==> items[i].job != items[j].job
  }

  ghost predicate SummariesFit(items: seq<Item>) {
    forall x :: x in items && IsMonitor(x) ==> ByteLen(x.summary) <= MAX_BYTES
  }

  ghost predicate Inv(items: seq<Item>) {
    |Monitors(items)| <= MAX_SESSIONS && OnePerJob(items) && SummariesFit(items)
  }

  lemma ConcatIsShort(a: string, b: string, m: nat, n: nat)
    requires ByteLen(a) <= m && ByteLen(b) <= n
    ensures ByteLen(a + b) <= m + n
  {
    ByteLenConcat(a, b);
  }

  lemma FailureNoteIsShort(previous: Item)
    requires previous.Notification?
    ensures ByteLen(FailureNote(previous)) <= 600
  {
    if PRIOR_FAILURE <= previous.summary {
      BoundedFits(FirstLine(previous.summary), FAILURE_BYTES);
      ByteLenBounds("\n");
      ConcatIsShort(Bounded(FirstLine(previous.summary), FAILURE_BYTES), "\n", 512, 4);
    } else if Failed(previous.status) {
      var reason := Bounded(Unbroken(previous.summary), FAILURE_BYTES);
      BoundedFits(Unbroken(previous.summary), FAILURE_BYTES);
      ByteLenBounds(PRIOR_FAILURE);
      ByteLenBounds("]\n");
      ConcatIsShort(PRIOR_FAILURE, reason, 40, 512);
      ConcatIsShort(PRIOR_FAILURE + reason, "]\n", 552, 8);
    }
  }

  lemma EvictedIsShort()
    ensures ByteLen(EVICTED) <= 120
  {
    ByteLenBounds(EVICTED);
  }

  lemma MergedIsShort()
    ensures ByteLen(MERGED) <= 120
  {
    ByteLenBounds(MERGED);
  }

  lemma NotesAreShort(previous: Item)
    requires previous.Notification?
    ensures ByteLen(MergeNote(previous)) <= 850
  {
    FailureNoteIsShort(previous);
    EvictedIsShort();
    MergedIsShort();
    var e := if Contains(previous.summary, EVICTED) then EVICTED else "";
    ConcatIsShort(FailureNote(previous), e, 600, 120);
    ConcatIsShort(FailureNote(previous) + e, MERGED, 720, 120);
  }

  lemma SplitAt<T>(s: seq<T>, i: nat)
    requires i < |s|
    ensures s == s[..i] + [s[i]] + s[i + 1..]
  {
  }

  /** Removing a monitor takes one monitor away and leaves the others as they were. */
  lemma RemoveMonitor(items: seq<Item>, i: nat)
    requires i < |items| && IsMonitor(items[i])
    ensures |Monitors(RemoveAt(items, i))| == |Monitors(items)| - 1
    ensures Others(RemoveAt(items, i)) == Others(items)
    ensures forall x :: x in RemoveAt(items, i) ==> x in items
  {
    var a, m, b := items[..i], [items[i]], items[i + 1..];
    SplitAt(items, i);
    FilterConcat(a + m, b, IsMonitor);
    FilterConcat(a, m, IsMonitor);
    FilterConcat(a, b, IsMonitor);
    FilterConcat(a + m, b, IsOther);
    FilterConcat(a, m, IsOther);
    FilterConcat(a, b, IsOther);
  }

  lemma RemoveKeepsOnePerJob(items: seq<Item>, i: nat)
    requires OnePerJob(items) && i < |items|
    ensures OnePerJob(RemoveAt(items, i))
    ensures IsMonitor(items[i]) ==>
              forall k :: 0 <= k < |items| - 1 && IsMonitor(RemoveAt(items, i)[k]) ==> RemoveAt(items, i)[k].job != items[i].job
  {
    var r := RemoveAt(items, i);
    assert forall k :: 0 <= k < |r| ==> r[k] == items[if k < i then k else k + 1];
  }

  lemma HasMonitor(items: seq<Item>)
    requires Monitors(items) != []
    ensures Position(items, IsMonitor) < |items|
  {
    FilterMembers(items, IsMonitor);
    var x := Monitors(items)[0];
    assert x in Monitors(items) && x in items;
  }

  /** No monitor of the job is left after the merge stage, and counts only go down. */
  lemma MergeClearsJob(items: seq<Item>, item: Item)
    requires IsMonitor(item) && Inv(items)
    ensures var s := Merge(items, item);
            && Inv(s.items) && Others(s.items) == Others(items)
            && (forall k :: 0 <= k < |s.items| && IsMonitor(s.items[k]) ==> s.items[k].job != item.job)
            && ByteLen(s.note) <= 850
  {
    var i := Position(items, OfJob(item.job));
    if i < |items| {
      RemoveMonitor(items, i);
      RemoveKeepsOnePerJob(items, i);
      NotesAreShort(items[i]);
    } else {
      assert forall k :: 0 <= k < |items| ==> !OfJob(item.job)(items[k]);
    }
  }

  lemma EvictMakesRoom(s: Stage)
    requires Inv(s.items)
    ensures var t := Evict(s).items;
            && Inv(t) && Others(t) == Others(s.items) && |Monitors(t)| < MAX_SESSIONS
            && forall x :: x in t ==> x in s.items
  {
    var i := Position(s.items, IsMonitor);
    if |Monitors(s.items)| >= MAX_SESSIONS {
      HasMonitor(s.items);
      RemoveMonitor(s.items, i);
      RemoveKeepsOnePerJob(s.items, i);
    }
  }

  lemma AppendedUnlessIsShort(note: string, mark: string, present: bool)
    requires ByteLen(note) <= 850 && ByteLen(mark) <= 120
    ensures ByteLen(if present then note else note + mark) <= 970
  {
    ByteLenConcat(note, mark);
  }

  lemma MarkedNoteIsShort(note: string)
    requires ByteLen(note) <= 850
    ensures ByteLen(WithEvictionMark(note)) <= 970
  {
    EvictedIsShort();
    AppendedUnlessIsShort(note, EVICTED, Contains(note, EVICTED));
  }

  lemma EvictedNoteIsShort(s: Stage)
    requires ByteLen(s.note) <= 850
    ensures ByteLen(Evict(s).note) <= 970
  {
    MarkedNoteIsShort(s.note);
  }

  /** Items with room for one more monitor, and a notice of a new job that fits. */
  lemma AppendKeepsInv(items: seq<Item>, last: Item)
    requires Inv(items) && |Monitors(items)| < MAX_SESSIONS
    requires IsMonitor(last) && ByteLen(last.summary) <= MAX_BYTES
    requires forall k :: 0 <= k < |items| && IsMonitor(items[k]) ==> items[k].job != last.job
    ensures Inv(items + [last]) && Others(items + [last]) == Others(items)
  {
    FilterConcat(items, [last], IsMonitor);
    FilterConcat(items, [last], IsOther);
  }

  lemma SummaryFits(note: string, text: string)
    requires ByteLen(note) <= 970
    ensures ByteLen(note + Bounded(text, Max(MAX_BYTES - ByteLen(note), 0))) <= MAX_BYTES
  {
    var room := MAX_BYTES - ByteLen(note);
    BoundedFits(text, room);
    ByteLenConcat(note, Bounded(text, room));
  }

  /** The bounds hold after every push, and every item that is not a monitoring notice stays
      exactly as it was, in order. */
  lemma PushKeepsInv(items: seq<Item>, item: Item)
    requires Inv(items)
    ensures Inv(Pushed(items, item))
    ensures Others(Pushed(items, item)) == if IsMonitor(item) then Others(items) else Others(items) + [item]
  {
    if IsMonitor(item) {
      MonitorKeepsInv(items, item);
    } else {
      FilterConcat(items, [item], IsMonitor);
      FilterConcat(items, [item], IsOther);
    }
  }

  lemma MonitorKeepsInv(items: seq<Item>, item: Item)
    requires Inv(items) && IsMonitor(item)
    ensures Inv(Pushed(items, item)) && Others(Pushed(items, item)) == Others(items)
  {
    StagesKeepInv(items, item);
    var s := Evict(Merge(items, item));
    AppendKeepsInv(s.items, item.(summary := s.note + Bounded(item.summary, Max(MAX_BYTES - ByteLen(s.note), 0)), at := s.at));
  }

  /** After merging and evicting there is room for the notice, and no other one of its job. */
  lemma StagesKeepInv(items: seq<Item>, item: Item)
    requires Inv(items) && IsMonitor(item)
    ensures var s := Evict(Merge(items, item));
            && Inv(s.items) && Others(s.items) == Others(items) && |Monitors(s.items)| < MAX_SESSIONS
            && (forall k :: 0 <= k < |s.items| && IsMonitor(s.items[k]) ==> s.items[k].job != item.job)
            && ByteLen(s.note + Bounded(item.summary, Max(MAX_BYTES - ByteLen(s.note), 0))) <= MAX_BYTES
  {
    var m := Merge(items, item);
    MergeClearsJob(items, item);
    EvictMakesRoom(m);
    EvictedNoteIsShort(m);
    var s := Evict(m);
    SummaryFits(s.note, item.summary);
    forall k | 0 <= k < |s.items| && IsMonitor(s.items[k]) ensures s.items[k].job != item.job {
      assert s.items[k] in m.items;
    }
  }

  // ---- what a pushed notice brings -----------------------------------------------

  /** A summary is what is noted about earlier notices, and behind it the notice's own text: all of
      it when it fits, else its longest head of whole characters that leaves room for the mark. */
  ghost predicate HasOwnText(summary: string, note: string, own: string) {
    if ByteLen(note) + ByteLen(own) <= MAX_BYTES then summary == note + own
    else
      exists k ::
        && 0 < k < |own|
        && summary == note + own[..k] + TRUNCATED
        && ByteLen(note) + ByteLen(own[..k]) + ByteLen(TRUNCATED) <= MAX_BYTES < ByteLen(note) + ByteLen(own[..k + 1]) + ByteLen(TRUNCATED)
  }

  ghost predicate HasNotice(items: seq<Item>, job: nat) {
    exists x :: x in items && OfJob(job)(x)
  }

  /** The inbox is full of notices of other jobs. */
  ghost predicate Full(items: seq<Item>, job: nat) {
    !HasNotice(items, job) && |Monitors(items)| >= MAX_SESSIONS
  }

  /** The note says that an earlier notice was merged, or evicted, and nothing else is noted. */
  ghost predicate NotesMerging(items: seq<Item>, job: nat, note: string) {
    && (HasNotice(items, job) ==> Contains(note, MERGED))
    && (Full(items, job) ==> Contains(note, EVICTED))
    && (!HasNotice(items, job) && !Full(items, job) ==> note == "")
  }

  /** What a push of a monitoring notice leaves at the end of the inbox. */
  ghost predicate BringsItsText(before: seq<Item>, item: Item, after: seq<Item>) {
    && IsMonitor(item) && after != []
    && var last := after[|after| - 1];
       && last.Notification? && last.job == item.job && last.source == item.source && last.status == item.status
       && last.at <= item.at
       && (exists note :: NotesMerging(before, item.job, note) && HasOwnText(last.summary, note, item.summary))
       && (!HasNotice(before, item.job) && !Full(before, item.job) && ByteLen(item.summary) <= MAX_BYTES ==> after == before + [item])
  }

  lemma {:induction false} ContainsBehind(a: string, p: string, b: string)
    ensures Contains(a + p + b, p)
  {
    if a == "" {
      assert a + p + b == p + b;
    } else {
      assert (a + p + b)[1..] == a[1..] + p + b;
      ContainsBehind(a[1..], p, b);
    }
  }

  lemma MergeIsNoted(previous: Item)
    requires previous.Notification?
    ensures Contains(MergeNote(previous), MERGED)
  {
    var front := FailureNote(previous) + (if Contains(previous.summary, EVICTED) then EVICTED else "");
    ContainsBehind(front, MERGED, "");
    assert front + MERGED + "" == MergeNote(previous);
  }

  lemma {:induction false} ContainsLonger(s: string, more: string, p: string)
    requires Contains(s, p)
    ensures Contains(s + more, p)
  {
    if !(p <= s) {
      assert (s + more)[1..] == s[1..] + more;
      ContainsLonger(s[1..], more, p);
    }
  }

  lemma EvictionIsNoted(note: string)
    ensures Contains(WithEvictionMark(note), EVICTED)
    ensures forall p :: Contains(note, p) ==> Contains(WithEvictionMark(note), p)
  {
    ContainsBehind(note, EVICTED, "");
    assert note + EVICTED + "" == note + EVICTED;
    forall p | Contains(note, p) ensures Contains(WithEvictionMark(note), p) {
      ContainsLonger(note, EVICTED, p);
    }
  }

  lemma HasNoticeIsFound(items: seq<Item>, job: nat)
    ensures HasNotice(items, job) <==> Position(items, OfJob(job)) < |items|
  {
    var i := Position(items, OfJob(job));
    if i < |items| {
      assert items[i] in items;
    }
    if HasNotice(items, job) {
      var x :| x in items && OfJob(job)(x);
      var k :| 0 <= k < |items| && items[k] == x;
    }
  }

  lemma NoteOfPush(items: seq<Item>, item: Item)
    requires Inv(items) && IsMonitor(item)
    ensures NotesMerging(items, item.job, Evict(Merge(items, item)).note)
    ensures Evict(Merge(items, item)).at <= item.at
    ensures !HasNotice(items, item.job) && !Full(items, item.job) ==> Evict(Merge(items, item)) == Stage(items, "", item.at)
  {
    var m := Merge(items, item);
    var i := Position(items, OfJob(item.job));
    HasNoticeIsFound(items, item.job);
    EvictionIsNoted(m.note);
    if i < |items| {
      MergeIsNoted(items[i]);
    } else if Full(items, item.job) {
      HasMonitor(items);
    }
  }

  lemma CutLeavesSome(own: string, room: nat, mark: nat)
    requires mark <= 32 && room >= 64 && ByteLen(own) > room
    ensures var k := FloorIndex(own, room - mark);
            0 < k < |own| && ByteLen(own[..k]) + mark <= room < ByteLen(own[..k + 1]) + mark
  {
    FloorIndexIsFloor(own, room - mark);
    assert own[..|own|] == own;
    ByteLenBounds(own[..1]);
  }

  lemma BoundedCuts(own: string, room: nat) returns (k: nat)
    requires room >= 64 && ByteLen(own) > room
    ensures 0 < k < |own| && Bounded(own, room) == own[..k] + TRUNCATED
    ensures ByteLen(own[..k]) + ByteLen(TRUNCATED) <= room < ByteLen(own[..k + 1]) + ByteLen(TRUNCATED)
  {
    MarkIsShort();
    k := FloorIndex(own, room - ByteLen(TRUNCATED));
    CutLeavesSome(own, room, ByteLen(TRUNCATED));
  }

  lemma CutIsOwnText(note: string, own: string, k: nat)
    requires ByteLen(note) + ByteLen(own) > MAX_BYTES && 0 < k < |own|
    requires ByteLen(note) + ByteLen(own[..k]) + ByteLen(TRUNCATED) <= MAX_BYTES < ByteLen(note) + ByteLen(own[..k + 1]) + ByteLen(TRUNCATED)
    ensures HasOwnText(note + (own[..k] + TRUNCATED), note, own)
  {
    Regroup(note, own[..k], TRUNCATED);
  }

  lemma OwnTextIsThere(note: string, own: string)
    requires ByteLen(note) <= 970
    ensures HasOwnText(note + Bounded(own, Max(MAX_BYTES - ByteLen(note), 0)), note, own)
  {
    if ByteLen(own) > MAX_BYTES - ByteLen(note) {
      var k := BoundedCuts(own, MAX_BYTES - ByteLen(note));
      CutIsOwnText(note, own, k);
    }
  }

  /** A pushed notice is the last item, with its own job, source and status, and its own text in
      full or cut only for want of room; what is noted in front says what was merged or evicted. */
  lemma PushBringsItsText(items: seq<Item>, item: Item)
    requires Inv(items) && IsMonitor(item)
    ensures BringsItsText(items, item, Pushed(items, item))
  {
    var s := Evict(Merge(items, item));
    NoteOfPush(items, item);
    MergeClearsJob(items, item);
    EvictedNoteIsShort(Merge(items, item));
    OwnTextIsThere(s.note, item.summary);
    if !HasNotice(items, item.job) && !Full(items, item.job) && ByteLen(item.summary) <= MAX_BYTES {
      assert ByteLen("") == 0;
      assert "" + item.summary == item.summary;
    }
  }

  // ---- the first deadline --------------------------------------------------------

  function FirstReceivedAt(items: seq<Item>): Option<int> {
    if items == [] then None
    else
      var rest := FirstReceivedAt(items[1..]);
      if rest.None? then Some(items[0].at) else Some(Min(items[0].at, rest.value))
  }

  function MinOption(a: Option<int>, b: Option<int>): Option<int> {
    if a.None? then b else if b.None? then a else Some(Min(a.value, b.value))
  }

  lemma {:induction false} FirstReceivedConcat(a: seq<Item>, b: seq<Item>)
    ensures FirstReceivedAt(a + b) == MinOption(FirstReceivedAt(a), FirstReceivedAt(b))
  {
    if a == [] {
      assert a + b == b;
    } else {
      assert (a + b)[1..] == a[1..] + b;
      FirstReceivedConcat(a[1..], b);
    }
  }

  lemma FirstReceivedRemove(items: seq<Item>, i: nat)
    requires i < |items|
    ensures FirstReceivedAt(items) == MinOption(FirstReceivedAt(RemoveAt(items, i)), Some(items[i].at))
  {
    SplitAt(items, i);
    FirstReceivedConcat(items[..i] + [items[i]], items[i + 1..]);
    FirstReceivedConcat(items[..i], [items[i]]);
    FirstReceivedConcat(items[..i], items[i + 1..]);
  }

  lemma MergeKeepsFirst(items: seq<Item>, item: Item)
    requires IsMonitor(item)
    ensures var m := Merge(items, item);
            MinOption(FirstReceivedAt(m.items), Some(m.at)) == MinOption(FirstReceivedAt(items), Some(item.at))
  {
    var i := Position(items, OfJob(item.job));
    if i < |items| {
      FirstReceivedRemove(items, i);
    }
  }

  lemma EvictKeepsFirst(s: Stage)
    ensures var t := Evict(s);
            MinOption(FirstReceivedAt(t.items), Some(t.at)) == MinOption(FirstReceivedAt(s.items), Some(s.at))
  {
    var i := Position(s.items, IsMonitor);
    if i < |s.items| {
      FirstReceivedRemove(s.items, i);
    }
  }

  /** Neither merging nor eviction can postpone the first deadline: it becomes exactly the
      earlier of the old one and the time of the new item. */
  lemma PushKeepsFirstDeadline(items: seq<Item>, item: Item)
    ensures FirstReceivedAt(Pushed(items, item)) == MinOption(FirstReceivedAt(items), Some(item.at))
  {
    if !IsMonitor(item) {
      FirstReceivedConcat(items, [item]);
    } else {
      var m := Merge(items, item);
      var s := Evict(m);
      MergeKeepsFirst(items, item);
      EvictKeepsFirst(m);
      var last := Pushed(items, item)[|s.items|];
      assert Pushed(items, item) == s.items + [last];
      FirstReceivedConcat(s.items, [last]);
    }
  }

  // ---- failures are remembered ---------------------------------------------------

  /** A line that tells of a failure, of any length. */
  predicate TellsFailure(line: string) {
    PRIOR_FAILURE <= line && '\n' !in line && line[|line| - 1] != '\r'
  }

  /** The same, cut to its limit. */
  ghost predicate IsFailureLine(line: string) {
    TellsFailure(line) && ByteLen(line) <= FAILURE_BYTES
  }

  ghost predicate Remembers(items: seq<Item>, job: nat, line: string) {
    exists x :: x in items && OfJob(job)(x) && line + "\n" <= x.summary
  }

  /** The summary after a push begins with what is carried over from the notice it replaces. */
  lemma NoteIsCarried(items: seq<Item>, item: Item, x: Item)
    requires IsMonitor(item) && OnePerJob(items) && x in items && OfJob(item.job)(x)
    ensures FailureNote(x) <= LastOf(Pushed(items, item)).summary
  {
    var k :| 0 <= k < |items| && items[k] == x;
    var i := Position(items, OfJob(item.job));
    assert i == k;
    var m := Merge(items, item);
    var f := FailureNote(x);
    assert f <= MergeNote(x) == m.note;
    assert m.note <= Evict(m).note;
    assert Evict(m).note <= LastOf(Pushed(items, item)).summary;
  }

  function LastOf(items: seq<Item>): Item
    requires items != []
  {
    items[|items| - 1]
  }

  lemma LastIsOfJob(items: seq<Item>, item: Item)
    requires IsMonitor(item)
    ensures LastOf(Pushed(items, item)) in Pushed(items, item) && OfJob(item.job)(LastOf(Pushed(items, item)))
  {
  }

  /** A merge over a notice that starts with a line telling of a failure keeps that line, cut to
      its limit. */
  lemma MergeKeepsFailureLine(items: seq<Item>, item: Item, line: string)
    requires IsMonitor(item) && OnePerJob(items) && TellsFailure(line) && Remembers(items, item.job, line)
    ensures Remembers(Pushed(items, item), item.job, Bounded(line, FAILURE_BYTES))
    ensures IsFailureLine(line) ==> Bounded(line, FAILURE_BYTES) == line
  {
    var x :| x in items && OfJob(item.job)(x) && line + "\n" <= x.summary;
    FirstLineIs(line, x.summary);
    assert PRIOR_FAILURE <= x.summary;
    NoteIsCarried(items, item, x);
    LastIsOfJob(items, item);
  }

  /** The line after further pushes: cut as soon as one of them is for the job. */
  function LineAfter(line: string, again: bool): string {
    if again then Bounded(line, FAILURE_BYTES) else line
  }

  /** A notice that a push neither replaces nor evicts is still there. */
  lemma NoticeStays(items: seq<Item>, item: Item, job: nat, x: Item)
    requires x in items && OfJob(job)(x) && !OfJob(job)(item) && !EvictsJob(items, item, job)
    ensures x in Pushed(items, item)
  {
    if IsMonitor(item) {
      var i := Position(items, OfJob(item.job));
      var m := Merge(items, item);
      if i < |items| {
        StillThere(items, i, x);
      }
      assert x in m.items;
      var j := Position(m.items, IsMonitor);
      if |Monitors(m.items)| >= MAX_SESSIONS && j < |m.items| {
        assert m.items[j].job != job;
        StillThere(m.items, j, x);
      }
    }
  }

  /** Once a failure has been merged into a job's notice, every later push keeps it at the head
      of that job's summary, as long as the notice is not the one evicted by the push. */
  lemma FailureSurvivesPush(items: seq<Item>, item: Item, job: nat, line: string)
    requires Inv(items) && TellsFailure(line) && Remembers(items, job, line)
    requires !EvictsJob(items, item, job)
    ensures Remembers(Pushed(items, item), job, LineAfter(line, OfJob(job)(item)))
  {
    if OfJob(job)(item) {
      MergeKeepsFailureLine(items, item, line);
    } else {
      var x :| x in items && OfJob(job)(x) && line + "\n" <= x.summary;
      NoticeStays(items, item, job, x);
    }
  }

  /** The push drops the notice of `job` to make room. */
  predicate EvictsJob(items: seq<Item>, item: Item, job: nat) {
    IsMonitor(item) &&
    var m := Merge(items, item).items;
    var j := Position(m, IsMonitor);
    |Monitors(m)| >= MAX_SESSIONS && j < |m| && m[j].job == job
  }

  lemma StillThere(items: seq<Item>, i: nat, x: Item)
    requires i < |items| && x in items && items[i] != x
    ensures x in RemoveAt(items, i)
  {
    var k :| 0 <= k < |items| && items[k] == x;
    assert RemoveAt(items, i)[if k < i then k else k - 1] == x;
  }

  /** The first merge over a failed notice writes its reason into a line of its own. */
  function ReasonLine(x: Item): string
    requires x.Notification?
  {
    PRIOR_FAILURE + Bounded(Unbroken(x.summary), FAILURE_BYTES) + "]"
  }

  /** The line a failure is remembered by from the second merge on. */
  function FailureLine(x: Item): string
    requires x.Notification?
  {
    Bounded(ReasonLine(x), FAILURE_BYTES)
  }

  lemma ReasonLineForm(x: Item)
    requires x.Notification?
    ensures TellsFailure(ReasonLine(x))
  {
    BoundedUnbroken(Unbroken(x.summary), FAILURE_BYTES);
  }

  lemma ReasonIsWritten(items: seq<Item>, item: Item, x: Item)
    requires IsMonitor(item) && OnePerJob(items) && x in items && OfJob(item.job)(x)
    requires Failed(x.status) && !(PRIOR_FAILURE <= x.summary)
    ensures Remembers(Pushed(items, item), item.job, ReasonLine(x))
  {
    NoteIsCarried(items, item, x);
    assert FailureNote(x) == ReasonLine(x) + "\n";
    LastIsOfJob(items, item);
  }

  lemma BoundedUnbroken(text: string, maxBytes: nat)
    requires '\n' !in text
    ensures '\n' !in Bounded(text, maxBytes)
  {
    var k := FloorIndex(text, Max(maxBytes - ByteLen(TRUNCATED), 0));
    assert forall c :: c in text[..k] ==> c in text;
  }

  lemma CutTellsFailure(line: string)
    requires TellsFailure(line)
    ensures IsFailureLine(Bounded(line, FAILURE_BYTES))
  {
    BoundedFits(line, FAILURE_BYTES);
    BoundedUnbroken(line, FAILURE_BYTES);
    ByteLenBounds(PRIOR_FAILURE);
    BoundedKeepsHead(PRIOR_FAILURE, line, FAILURE_BYTES);
    assert TRUNCATED[|TRUNCATED| - 1] == ']';
  }

  // ---- whole runs ----------------------------------------------------------------

  function PushAll(items: seq<Item>, pushes: seq<Item>): seq<Item>
    decreases |pushes|
  {
    if pushes == [] then items else PushAll(Pushed(items, pushes[0]), pushes[1..])
  }

  /** Over any pushes into an empty inbox there are at most 32 monitoring notices, one per job,
      each of at most 2048 bytes. */
  lemma {:induction false} InboxStaysBounded(items: seq<Item>, pushes: seq<Item>)
    requires Inv(items)
    ensures Inv(PushAll(items, pushes))
    decreases |pushes|
  {
    if pushes != [] {
      PushKeepsInv(items, pushes[0]);
      InboxStaysBounded(Pushed(items, pushes[0]), pushes[1..]);
    }
  }

  /** Over any pushes every other item stays unchanged and in order. */
  lemma {:induction false} OthersAreKept(items: seq<Item>, pushes: seq<Item>)
    requires Inv(items)
    ensures Others(PushAll(items, pushes)) == Others(items) + Others(pushes)
    decreases |pushes|
  {
    if pushes == [] {
      assert Others(items) + [] == Others(items);
    } else {
      var item, rest := pushes[0], pushes[1..];
      PushKeepsInv(items, item);
      OthersAreKept(Pushed(items, item), rest);
      OthersOfPushes(Others(items), item, rest);
      assert pushes == [item] + rest;
    }
  }

  lemma OthersOfPushes(before: seq<Item>, item: Item, rest: seq<Item>)
    ensures before + Others([item] + rest) == (if IsMonitor(item) then before else before + [item]) + Others(rest)
  {
    assert ([item] + rest)[1..] == rest;
    if !IsMonitor(item) {
      Regroup(before, [item], Others(rest));
    }
  }

  /** Over any pushes the first deadline is the earliest arrival. */
  lemma {:induction false} FirstDeadlineIsEarliest(items: seq<Item>, pushes: seq<Item>)
    ensures FirstReceivedAt(PushAll(items, pushes)) == MinOption(FirstReceivedAt(items), FirstReceivedAt(pushes))
    decreases |pushes|
  {
    if pushes != [] {
      PushKeepsFirstDeadline(items, pushes[0]);
      FirstDeadlineIsEarliest(Pushed(items, pushes[0]), pushes[1..]);
    }
  }

  /** No push of the run evicts the notice of the job. */
  predicate NeverEvicts(items: seq<Item>, pushes: seq<Item>, job: nat)
    decreases |pushes|
  {
    pushes == [] || (!EvictsJob(items, pushes[0], job) && NeverEvicts(Pushed(items, pushes[0]), pushes[1..], job))
  }

  /** How many of the pushes are for the job. */
  function PushesOf(pushes: seq<Item>, job: nat): nat {
    if pushes == [] then 0 else (if OfJob(job)(pushes[0]) then 1 else 0) + PushesOf(pushes[1..], job)
  }

  /** Over any pushes that never evict the job, a remembered failure stays at the head, cut to its
      limit from the next push for the job on. */
  lemma {:induction false} FailureSurvivesRun(items: seq<Item>, pushes: seq<Item>, job: nat, line: string)
    requires Inv(items) && TellsFailure(line) && Remembers(items, job, line) && NeverEvicts(items, pushes, job)
    ensures Remembers(PushAll(items, pushes), job, LineAfter(line, PushesOf(pushes, job) > 0))
    ensures IsFailureLine(line) ==> Remembers(PushAll(items, pushes), job, line)
    decreases |pushes|
  {
    if pushes != [] {
      var again := OfJob(job)(pushes[0]);
      PushKeepsInv(items, pushes[0]);
      FailureSurvivesPush(items, pushes[0], job, line);
      CutTellsFailure(line);
      FailureSurvivesRun(Pushed(items, pushes[0]), pushes[1..], job, LineAfter(line, again));
    }
  }

  /** From a failed notice on, over any pushes that never evict its job: it stays as it is until its
      job is pushed again; then the summary of the job begins with its reason in a line of its own,
      and from the next push for the job on with that line cut to its limit, for good. */
  lemma {:induction false} FailureIsCarriedOver(items: seq<Item>, pushes: seq<Item>, job: nat, x: Item)
    requires Inv(items) && x in items && OfJob(job)(x) && Failed(x.status) && !(PRIOR_FAILURE <= x.summary)
    requires NeverEvicts(items, pushes, job)
    ensures IsFailureLine(FailureLine(x))
    ensures var n := PushesOf(pushes, job);
            if n == 0 then x in PushAll(items, pushes)
            else Remembers(PushAll(items, pushes), job, if n == 1 then ReasonLine(x) else FailureLine(x))
    decreases |pushes|
  {
    ReasonLineForm(x);
    CutTellsFailure(ReasonLine(x));
    if pushes != [] {
      var next := Pushed(items, pushes[0]);
      PushKeepsInv(items, pushes[0]);
      if OfJob(job)(pushes[0]) {
        ReasonIsWritten(items, pushes[0], x);
        FailureSurvivesRun(next, pushes[1..], job, ReasonLine(x));
      } else {
        NoticeStays(items, pushes[0], job, x);
        FailureIsCarriedOver(next, pushes[1..], job, x);
      }
    }
  }
}
