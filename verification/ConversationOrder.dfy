// Per-channel FIFO of user input with commands as barriers, and what it gives over whole
// runs of frames.

module ConversationOrder {
  import opened Base

  /** A pending user message or structured interaction. Interactions count as commands. */
  datatype Input = Input(entity: nat, channel: nat, sequence: nat, text: bool, slash: bool) {
    predicate Interaction() { !text }

    predicate Command() { !text || slash }
  }

  ghost predicate DistinctSequences(inputs: seq<Input>) {
    forall i, j :: 0 <= i < j < |inputs| ==> inputs[i].sequence != inputs[j].sequence
  }

  ghost predicate Sorted(inputs: seq<Input>) {
    forall i, j :: 0 <= i < j < |inputs| ==> inputs[i].sequence < inputs[j].sequence
  }

  ghost predicate SameMembers(a: seq<Input>, b: seq<Input>) {
    forall x :: x in a <==> x in b
  }

  ghost predicate Earlier(y: Input, x: Input) {
    y.channel == x.channel && y.sequence < x.sequence
  }

  /** The rule of the barrier, without positions: an input waits when its channel is closing
      (interactions pass), behind any earlier command, and, if it is itself a command, behind
      any earlier input at all. */
  ghost predicate MustWait(x: Input, pending: seq<Input>, closing: set<nat>) {
    || (x.channel in closing && !x.Interaction())
    || exists y :: y in pending && Earlier(y, x) && (y.Command() || x.Command())
  }

  // ---- sorting -------------------------------------------------------------------

  function Insert(x: Input, s: seq<Input>): seq<Input> {
    if s == [] || x.sequence < s[0].sequence then [x] + s else [s[0]] + Insert(x, s[1..])
  }

  function Sort(s: seq<Input>): seq<Input> {
    if s == [] then [] else Insert(s[0], Sort(s[1..]))
  }

  lemma PutInFront(x: Input, t: seq<Input>)
    requires Sorted(t) && forall y :: y in t ==> x.sequence < y.sequence
    ensures Sorted([x] + t)
  {
    forall j | 0 <= j < |t| ensures x.sequence < t[j].sequence {
      assert t[j] in t;
    }
  }

  lemma {:induction false} InsertSorts(x: Input, s: seq<Input>)
    requires Sorted(s) && forall y :: y in s ==> y.sequence != x.sequence
    ensures Sorted(Insert(x, s)) && forall y :: y in Insert(x, s) <==> y == x || y in s
  {
    if s != [] && !(x.sequence < s[0].sequence) {
      assert forall y :: y in s[1..] ==> y in s;
      InsertSorts(x, s[1..]);
      assert s == [s[0]] + s[1..];
      PutInFront(s[0], Insert(x, s[1..]));
    }
  }

  lemma {:induction false} SortSorts(s: seq<Input>)
    requires DistinctSequences(s)
    ensures Sorted(Sort(s)) && SameMembers(Sort(s), s)
  {
    if s != [] {
      SortSorts(s[1..]);
      forall y | y in Sort(s[1..]) ensures y.sequence != s[0].sequence {
        assert y in s[1..];
      }
      InsertSorts(s[0], Sort(s[1..]));
      assert s == [s[0]] + s[1..];
    }
  }

  /** A sorted list is the only sorted list of its members. */
  lemma {:induction false} SortedUnique(a: seq<Input>, b: seq<Input>)
    requires Sorted(a) && Sorted(b) && SameMembers(a, b)
    ensures a == b
    decreases |a| + |b|, |b|
  {
    if a == [] && b == [] {
    } else if a == [] {
      SortedUnique(b, a);
    } else {
      var x := a[0];
      assert x in a && x in b;
      var y := b[0];
      assert y in b && y in a;
      var i :| 0 <= i < |b| && b[i] == x;
      var j :| 0 <= j < |a| && a[j] == y;
      assert x == y;
      assert a == [x] + a[1..] && b == [x] + b[1..];
      forall z ensures z in a[1..] <==> z in b[1..] {
        assert z in a[1..] ==> z in a && z.sequence > x.sequence;
        assert z in b[1..] ==> z in b && z.sequence > x.sequence;
      }
      SortedUnique(a[1..], b[1..]);
      assert a == [x] + a[1..] && b == [x] + b[1..];
    }
  }

  // ---- one frame -----------------------------------------------------------------

  function OnChannel(pending: seq<Input>, channel: nat): seq<Input> {
    Filter(pending, (x: Input) => x.channel == channel)
  }

  lemma {:induction false} FilterDistinct(s: seq<Input>, p: Input -> bool)
    requires DistinctSequences(s)
    ensures DistinctSequences(Filter(s, p))
  {
    if s != [] {
      FilterDistinct(s[1..], p);
      FilterMembers(s[1..], p);
      var rest := Filter(s[1..], p);
      forall k | 0 <= k < |rest| ensures rest[k].sequence != s[0].sequence {
        assert rest[k] in rest;
        assert rest[k] in s[1..];
      }
    }
  }

  /** The loop over one sorted channel group; `blocked[i]` says whether `group[i]` waits. */
  method MarkGroup(group: seq<Input>, closing: bool) returns (blocked: seq<bool>)
    requires Sorted(group)
    ensures |blocked| == |group|
    ensures forall i :: 0 <= i < |group| ==> (blocked[i] <==> i >= Admitted(group, closing))
  {
    blocked := [];
    var barrier := false;
    for position := 0 to |group|
      invariant |blocked| == position
      invariant barrier <==> exists j :: 0 <= j < position && group[j].Command()
      invariant forall i :: 0 <= i < position ==>
        (blocked[i] <==> (closing && !group[i].Interaction())
                         || (exists j :: 0 <= j < i && group[j].Command())
                         || (i > 0 && group[i].Command()))
    {
      var input := group[position];
      blocked := blocked + [(closing && !input.Interaction()) || barrier || (position > 0 && input.Command())];
      barrier := barrier || input.Command();
    }
    forall i | 0 <= i < |group| ensures blocked[i] <==> i >= Admitted(group, closing) {
      AdmittedIsTheUnblockedPrefix(group, closing, i);
    }
  }

  /** The length of the leading run of plain text. */
  function LeadingText(group: seq<Input>): (n: nat)
    ensures n <= |group|
    ensures forall i :: 0 <= i < n ==> !group[i].Command()
    ensures n < |group| ==> group[n].Command()
  {
    if group == [] || group[0].Command() then 0 else 1 + LeadingText(group[1..])
  }

  /** How many inputs at the head of a sorted channel group pass in one frame. */
  function Admitted(group: seq<Input>, closing: bool): nat {
    if group == [] then 0
    else if closing then (if group[0].Interaction() then 1 else 0)
    else if group[0].Command() then 1
    else LeadingText(group)
  }

  lemma AdmittedIsTheUnblockedPrefix(group: seq<Input>, closing: bool, i: nat)
    requires i < |group|
    ensures i >= Admitted(group, closing) <==>
            || (closing && !group[i].Interaction())
            || (exists j :: 0 <= j < i && group[j].Command())
            || (i > 0 && group[i].Command())
  {
    var n := LeadingText(group);
    if n < i {
      assert group[n].Command();
    }
    if closing && i > 0 && group[0].Interaction() {
      assert group[0].Command();
    }
  }

  /** One channel: group, sort, mark. */
  method MarkChannel(pending: seq<Input>, closing: set<nat>, channel: nat) returns (waiting: set<Input>)
    requires DistinctSequences(pending)
    ensures forall x :: x in waiting <==> x in pending && x.channel == channel && MustWait(x, pending, closing)
  {
    var group := Sort(OnChannel(pending, channel));
    FilterDistinct(pending, (x: Input) => x.channel == channel);
    SortSorts(OnChannel(pending, channel));
    FilterMembers(pending, (x: Input) => x.channel == channel);
    var marks := MarkGroup(group, channel in closing);
    waiting := set i | 0 <= i < |group| && marks[i] :: group[i];
    forall x ensures x in waiting <==> x in group && MustWait(x, pending, closing) {
      if x in group {
        var i :| 0 <= i < |group| && group[i] == x;
        WaitingMatchesPosition(pending, closing, channel, group, i);
        if x in waiting {
          var j :| 0 <= j < |group| && marks[j] && group[j] == x;
          WaitingMatchesPosition(pending, closing, channel, group, j);
        }
      }
    }
  }

  /** The whole system, channel by channel. `blocked` are the inputs that carry `InputBlocked`
      afterwards. */
  method OrderInputs(pending: seq<Input>, closing: set<nat>) returns (blocked: set<Input>)
    requires DistinctSequences(pending)
    ensures forall x :: x in blocked <==> x in pending && MustWait(x, pending, closing)
  {
    blocked := {};
    var channels := set x | x in pending :: x.channel;
    ghost var all := channels;
    while channels != {}
      invariant channels <= all
      invariant forall x :: x in blocked <==> x in pending && x.channel in all - channels && MustWait(x, pending, closing)
      decreases channels
    {
      var channel :| channel in channels;
      channels := channels - {channel};
      var waiting := MarkChannel(pending, closing, channel);
      blocked := blocked + waiting;
    }
  }

  lemma WaitingMatchesPosition(pending: seq<Input>, closing: set<nat>, channel: nat, group: seq<Input>, i: nat)
    requires Sorted(group) && i < |group|
    requires forall x :: x in group <==> x in pending && x.channel == channel
    ensures MustWait(group[i], pending, closing) <==> i >= Admitted(group, channel in closing)
  {
    var x := group[i];
    assert x in group;
    AdmittedIsTheUnblockedPrefix(group, channel in closing, i);
    if exists y :: y in pending && Earlier(y, x) && (y.Command() || x.Command()) {
      var y :| y in pending && Earlier(y, x) && (y.Command() || x.Command());
      assert y in group;
      var j :| 0 <= j < |group| && group[j] == y;
      assert j < i;
    }
    if j :| 0 <= j < i && group[j].Command() {
      assert group[j] in group && Earlier(group[j], x);
    }
    if i > 0 && x.Command() {
      assert group[0] in group && Earlier(group[0], x);
    }
  }

  // ---- runs of frames ------------------------------------------------------------

  /** What one frame brings: new inputs, the channels that are closing, and the first number that
      is still free afterwards. */
  datatype Frame = Frame(arrivals: seq<Input>, closing: set<nat>, next: nat)

  /** Inputs get their numbers from one counter. */
  ghost predicate Numbered(next: nat, frames: seq<Frame>)
    decreases |frames|
  {
    frames != [] ==>
      && next <= frames[0].next
      && DistinctSequences(frames[0].arrivals)
      && (forall x :: x in frames[0].arrivals ==> next <= x.sequence < frames[0].next)
      && Numbered(frames[0].next, frames[1..])
  }

  ghost predicate Below(inputs: seq<Input>, next: nat) {
    forall x :: x in inputs ==> x.sequence < next
  }

  /** The inputs without a block mark, which are handled in the order of their numbers. */
  ghost function Passed(pending: seq<Input>, closing: set<nat>): seq<Input> {
    Sort(Filter(pending, (x: Input) => !MustWait(x, pending, closing)))
  }

  ghost function Kept(pending: seq<Input>, closing: set<nat>): seq<Input> {
    Filter(pending, (x: Input) => MustWait(x, pending, closing))
  }

  /** What each frame handles, for all channels. */
  ghost function Batches(pending: seq<Input>, frames: seq<Frame>): (batches: seq<seq<Input>>)
    ensures |batches| == |frames|
    decreases |frames|
  {
    if frames == [] then []
    else
      var p := pending + frames[0].arrivals;
      [Passed(p, frames[0].closing)] + Batches(Kept(p, frames[0].closing), frames[1..])
  }

  ghost function Remaining(pending: seq<Input>, frames: seq<Frame>): seq<Input>
    decreases |frames|
  {
    if frames == [] then pending
    else Remaining(Kept(pending + frames[0].arrivals, frames[0].closing), frames[1..])
  }

  function Flatten<T>(ss: seq<seq<T>>): seq<T> {
    if ss == [] then [] else ss[0] + Flatten(ss[1..])
  }

  function Arrivals(frames: seq<Frame>): seq<Input> {
    if frames == [] then [] else frames[0].arrivals + Arrivals(frames[1..])
  }

  /** The inputs of a channel in the order of their numbers. */
  function Queue(pending: seq<Input>, channel: nat): seq<Input> {
    Sort(OnChannel(pending, channel))
  }

  lemma QueueIs(pending: seq<Input>, channel: nat)
    requires DistinctSequences(pending)
    ensures Sorted(Queue(pending, channel))
    ensures forall x :: x in Queue(pending, channel) <==> x in pending && x.channel == channel
  {
    FilterDistinct(pending, (x: Input) => x.channel == channel);
    SortSorts(OnChannel(pending, channel));
    FilterMembers(pending, (x: Input) => x.channel == channel);
  }

  lemma {:induction false} FilterSorted(s: seq<Input>, p: Input -> bool)
    requires Sorted(s)
    ensures Sorted(Filter(s, p))
  {
    if s != [] {
      FilterSorted(s[1..], p);
      FilterMembers(s[1..], p);
      var rest := Filter(s[1..], p);
      forall k | 0 <= k < |rest| ensures s[0].sequence < rest[k].sequence {
        assert rest[k] in rest;
        assert rest[k] in s[1..];
      }
    }
  }

  lemma PassedIs(pending: seq<Input>, closing: set<nat>)
    requires DistinctSequences(pending)
    ensures Sorted(Passed(pending, closing)) && DistinctSequences(Kept(pending, closing))
    ensures forall x :: x in Passed(pending, closing) <==> x in pending && !MustWait(x, pending, closing)
    ensures forall x :: x in Kept(pending, closing) <==> x in pending && MustWait(x, pending, closing)
  {
    var passes := (x: Input) => !MustWait(x, pending, closing);
    var waits := (x: Input) => MustWait(x, pending, closing);
    FilterDistinct(pending, passes);
    FilterDistinct(pending, waits);
    FilterMembers(pending, passes);
    FilterMembers(pending, waits);
    SortSorts(Filter(pending, passes));
  }

  /** The members of a sorted list on both sides of a position. */
  lemma SplitAt(q: seq<Input>, n: nat, waits: Input -> bool)
    requires Sorted(q) && n <= |q| && forall i :: 0 <= i < |q| ==> (waits(q[i]) <==> i >= n)
    ensures Sorted(q[..n]) && Sorted(q[n..])
    ensures forall x :: x in q[..n] <==> x in q && !waits(x)
    ensures forall x :: x in q[n..] <==> x in q && waits(x)
  {
  }

  lemma TakenIs(pending: seq<Input>, closing: set<nat>, channel: nat, front: seq<Input>)
    requires DistinctSequences(pending) && Sorted(front)
    requires forall x :: x in front <==> x in pending && x.channel == channel && !MustWait(x, pending, closing)
    ensures OnChannel(Passed(pending, closing), channel) == front
  {
    PassedIs(pending, closing);
    FilterSorted(Passed(pending, closing), (x: Input) => x.channel == channel);
    FilterMembers(Passed(pending, closing), (x: Input) => x.channel == channel);
    SortedUnique(OnChannel(Passed(pending, closing), channel), front);
  }

  lemma LeftIs(pending: seq<Input>, closing: set<nat>, channel: nat, back: seq<Input>)
    requires DistinctSequences(pending) && Sorted(back)
    requires forall x :: x in back <==> x in pending && x.channel == channel && MustWait(x, pending, closing)
    ensures Queue(Kept(pending, closing), channel) == back
  {
    PassedIs(pending, closing);
    QueueIs(Kept(pending, closing), channel);
    SortedUnique(Queue(Kept(pending, closing), channel), back);
  }

  /** One frame takes a prefix of each channel's queue and leaves the rest. */
  lemma FrameTakesPrefix(pending: seq<Input>, closing: set<nat>, channel: nat)
    requires DistinctSequences(pending)
    ensures var q := Queue(pending, channel);
            var n := Admitted(q, channel in closing);
            && n <= |q|
            && OnChannel(Passed(pending, closing), channel) == q[..n]
            && Queue(Kept(pending, closing), channel) == q[n..]
  {
    var q := Queue(pending, channel);
    var n := Admitted(q, channel in closing);
    QueueIs(pending, channel);
    forall i | 0 <= i < |q| ensures MustWait(q[i], pending, closing) <==> i >= n {
      WaitingMatchesPosition(pending, closing, channel, q, i);
    }
    SplitAt(q, n, (x: Input) => MustWait(x, pending, closing));
    TakenIs(pending, closing, channel, q[..n]);
    LeftIs(pending, closing, channel, q[n..]);
  }

  /** Inputs with larger numbers join each queue at its end. */
  lemma LaterJoinAtTheEnd(a: seq<Input>, b: seq<Input>, next: nat, channel: nat)
    requires DistinctSequences(a) && DistinctSequences(b) && Below(a, next) && forall x :: x in b ==> next <= x.sequence
    ensures DistinctSequences(a + b)
    ensures Queue(a + b, channel) == Queue(a, channel) + Queue(b, channel)
  {
    forall i, j | 0 <= i < |a| && 0 <= j < |b| ensures a[i].sequence < b[j].sequence {
      assert a[i] in a && b[j] in b;
    }
    QueueIs(a, channel);
    QueueIs(b, channel);
    QueueIs(a + b, channel);
    var both := Queue(a, channel) + Queue(b, channel);
    forall i, j | 0 <= i < j < |both| ensures both[i].sequence < both[j].sequence {
      if i < |Queue(a, channel)| <= j {
        assert both[i] in Queue(a, channel) && both[j] in Queue(b, channel);
      }
    }
    SortedUnique(Queue(a + b, channel), both);
  }

  lemma {:induction false} ArrivalsAreNumbered(next: nat, frames: seq<Frame>)
    requires Numbered(next, frames)
    ensures DistinctSequences(Arrivals(frames)) && forall x :: x in Arrivals(frames) ==> next <= x.sequence
    decreases |frames|
  {
    if frames != [] {
      ArrivalsAreNumbered(frames[0].next, frames[1..]);
      LaterJoinAtTheEnd(frames[0].arrivals, Arrivals(frames[1..]), frames[0].next, 0);
    }
  }

  /** What was handled on a channel, in the order in which it was, followed by what still waits,
      are all inputs of the channel by increasing numbers. */
  ghost predicate InOrder(pending: seq<Input>, frames: seq<Frame>, channel: nat) {
    OnChannel(Flatten(Batches(pending, frames)), channel) + Queue(Remaining(pending, frames), channel)
    == Queue(pending + Arrivals(frames), channel)
  }

  /** Over any run this holds for every channel: the numbers handled strictly increase, and
      nothing is lost, repeated or overtaken. */
  lemma {:induction false} RunIsFifo(pending: seq<Input>, next: nat, frames: seq<Frame>, channel: nat)
    requires DistinctSequences(pending) && Below(pending, next) && Numbered(next, frames)
    ensures InOrder(pending, frames, channel)
    ensures Sorted(OnChannel(Flatten(Batches(pending, frames)), channel))
    decreases |frames|
  {
    if frames == [] {
      assert pending + [] == pending;
    } else {
      FirstFrameKept(pending, next, frames);
      RunIsFifo(Kept(pending + frames[0].arrivals, frames[0].closing), frames[0].next, frames[1..], channel);
      FirstFrameInOrder(pending, next, frames, channel);
    }
    HandledIsSorted(pending, next, frames, channel);
  }

  lemma HandledIsSorted(pending: seq<Input>, next: nat, frames: seq<Frame>, channel: nat)
    requires DistinctSequences(pending) && Below(pending, next) && Numbered(next, frames) && InOrder(pending, frames, channel)
    ensures Sorted(OnChannel(Flatten(Batches(pending, frames)), channel))
  {
    ArrivalsAreNumbered(next, frames);
    LaterJoinAtTheEnd(pending, Arrivals(frames), next, channel);
    QueueIs(pending + Arrivals(frames), channel);
    PrefixIsSorted(OnChannel(Flatten(Batches(pending, frames)), channel), Queue(Remaining(pending, frames), channel));
  }

  lemma PrefixIsSorted(a: seq<Input>, b: seq<Input>)
    requires Sorted(a + b)
    ensures Sorted(a)
  {
    assert forall i :: 0 <= i < |a| ==> a[i] == (a + b)[i];
  }

  lemma FirstFrameKept(pending: seq<Input>, next: nat, frames: seq<Frame>)
    requires DistinctSequences(pending) && Below(pending, next) && frames != [] && Numbered(next, frames)
    ensures DistinctSequences(pending + frames[0].arrivals)
    ensures var kept := Kept(pending + frames[0].arrivals, frames[0].closing);
            DistinctSequences(kept) && Below(kept, frames[0].next)
  {
    LaterJoinAtTheEnd(pending, frames[0].arrivals, next, 0);
    PassedIs(pending + frames[0].arrivals, frames[0].closing);
  }

  /** The first frame handles the head of the channel's queue. */
  lemma FirstFrameOfQueue(pending: seq<Input>, next: nat, frames: seq<Frame>, channel: nat)
    requires DistinctSequences(pending) && Below(pending, next) && frames != [] && Numbered(next, frames)
    ensures var p := pending + frames[0].arrivals;
            Queue(pending + Arrivals(frames), channel)
            == OnChannel(Passed(p, frames[0].closing), channel) + Queue(Kept(p, frames[0].closing) + Arrivals(frames[1..]), channel)
  {
    var p, closing := pending + frames[0].arrivals, frames[0].closing;
    var kept, later := Kept(p, closing), Arrivals(frames[1..]);
    var q := Queue(p, channel);
    FirstFrameKept(pending, next, frames);
    ArrivalsAreNumbered(frames[0].next, frames[1..]);
    LaterJoinAtTheEnd(kept, later, frames[0].next, channel);
    LaterJoinAtTheEnd(p, later, frames[0].next, channel);
    Regroup(pending, frames[0].arrivals, later);
    FrameTakesPrefix(p, closing, channel);
    var n := Admitted(q, channel in closing);
    assert q == q[..n] + q[n..];
    Regroup(q[..n], q[n..], Queue(later, channel));
  }

  lemma FirstFrameInOrder(pending: seq<Input>, next: nat, frames: seq<Frame>, channel: nat)
    requires DistinctSequences(pending) && Below(pending, next) && frames != [] && Numbered(next, frames)
    requires InOrder(Kept(pending + frames[0].arrivals, frames[0].closing), frames[1..], channel)
    ensures InOrder(pending, frames, channel)
  {
    var p, closing := pending + frames[0].arrivals, frames[0].closing;
    var kept := Kept(p, closing);
    var later := Flatten(Batches(kept, frames[1..]));
    FirstFrameOfQueue(pending, next, frames, channel);
    assert Batches(pending, frames)[1..] == Batches(kept, frames[1..]);
    FilterConcat(Passed(p, closing), later, (x: Input) => x.channel == channel);
    Regroup(OnChannel(Passed(p, closing), channel), OnChannel(later, channel), Queue(Remaining(kept, frames[1..]), channel));
  }

  lemma CommandPassesAlone(pending: seq<Input>, closing: set<nat>, x: Input, y: Input)
    requires DistinctSequences(pending) && x in Passed(pending, closing) && y in Passed(pending, closing)
    requires x.Command() && x.channel == y.channel
    ensures x == y
  {
    PassedIs(pending, closing);
    assert !Earlier(x, y) && !Earlier(y, x);
  }

  /** In every frame of a run, a command is the only input of its channel that is handled. */
  lemma {:induction false} CommandsTravelAlone(pending: seq<Input>, next: nat, frames: seq<Frame>, k: nat, x: Input, y: Input)
    requires DistinctSequences(pending) && Below(pending, next) && Numbered(next, frames)
    requires k < |frames| && x in Batches(pending, frames)[k] && y in Batches(pending, frames)[k]
    requires x.Command() && x.channel == y.channel
    ensures x == y
    decreases |frames|
  {
    var p, closing := pending + frames[0].arrivals, frames[0].closing;
    FirstFrameKept(pending, next, frames);
    if k == 0 {
      CommandPassesAlone(p, closing, x, y);
    } else {
      CommandsTravelAlone(Kept(p, closing), frames[0].next, frames[1..], k - 1, x, y);
    }
  }

  /** How many open frames it takes to empty a queue: one for each command and one for each
      maximal run of plain text between commands. */
  function Rounds(q: seq<Input>): (r: nat)
    ensures r <= |q| && (r == 0 <==> q == [])
  {
    if q == [] then 0
    else if q[0].Command() then 1 + Rounds(q[1..])
    else if |q| > 1 && !q[1].Command() then Rounds(q[1..])
    else 1 + Rounds(q[1..])
  }

  lemma {:induction false} OpenFrameTakesOneRound(q: seq<Input>)
    requires q != []
    ensures 0 < Admitted(q, false) <= |q|
    ensures Rounds(q[Admitted(q, false)..]) == Rounds(q) - 1
  {
    if q[0].Command() || |q| == 1 || q[1].Command() {
      assert Admitted(q, false) == 1;
    } else {
      OpenFrameTakesOneRound(q[1..]);
      assert q[1..][Admitted(q[1..], false)..] == q[Admitted(q, false)..];
    }
  }

  ghost predicate OpenAndQuiet(frames: seq<Frame>, channel: nat) {
    forall k :: 0 <= k < |frames| ==> channel !in frames[k].closing && forall x :: x in frames[k].arrivals ==> x.channel != channel
  }

  lemma {:induction false} NothingOnChannel(inputs: seq<Input>, channel: nat)
    requires forall x :: x in inputs ==> x.channel != channel
    ensures Queue(inputs, channel) == []
  {
    if inputs != [] {
      NothingOnChannel(inputs[1..], channel);
    }
  }

  lemma OneRound(q: seq<Input>)
    ensures Admitted(q, false) <= |q|
    ensures Rounds(q[Admitted(q, false)..]) == if Rounds(q) == 0 then 0 else Rounds(q) - 1
  {
    if q != [] {
      OpenFrameTakesOneRound(q);
    }
  }

  /** An open frame without arrivals handles one round of the channel. */
  lemma QuietFrame(pending: seq<Input>, next: nat, frames: seq<Frame>, channel: nat)
    requires DistinctSequences(pending) && Below(pending, next) && frames != [] && Numbered(next, frames) && OpenAndQuiet(frames, channel)
    ensures var r := Rounds(Queue(pending, channel));
            Rounds(Queue(Kept(pending + frames[0].arrivals, frames[0].closing), channel)) == if r == 0 then 0 else r - 1
  {
    var p, closing := pending + frames[0].arrivals, frames[0].closing;
    LaterJoinAtTheEnd(pending, frames[0].arrivals, next, channel);
    NothingOnChannel(frames[0].arrivals, channel);
    FrameTakesPrefix(p, closing, channel);
    OneRound(Queue(p, channel));
  }

  /** While a channel stays open and gets nothing new, `Rounds` frames handle all its inputs and
      fewer do not, whatever other channels do; that is at most one frame per input. */
  lemma {:induction false} OpenFramesDrain(pending: seq<Input>, next: nat, frames: seq<Frame>, channel: nat)
    requires DistinctSequences(pending) && Below(pending, next) && Numbered(next, frames) && OpenAndQuiet(frames, channel)
    ensures Queue(Remaining(pending, frames), channel) == [] <==> |frames| >= Rounds(Queue(pending, channel))
    decreases |frames|
  {
    if frames != [] {
      FirstFrameKept(pending, next, frames);
      QuietFrame(pending, next, frames, channel);
      OpenFramesDrain(Kept(pending + frames[0].arrivals, frames[0].closing), frames[0].next, frames[1..], channel);
    }
  }
}
