// Late binding of images: image markers in the messages of one request are turned into image
// parts, without losing text or disturbing the order of messages.

module ImageBinding {
  import opened Base
  import opened Attachments

  datatype Role = SystemRole | UserRole | AssistantRole | ToolRole

  /** `Bound` is an image that this step attached; `Other` is any part it does not look at. */
  datatype Part = Text(text: string) | Other(id: int) | Bound(target: string)

  datatype Message = Message(role: Role, parts: seq<Part>, responses: seq<string>)

  /** A message of the request as it was given, by position, or one that was put in. */
  datatype OutMessage = Kept(index: nat, message: Message) | Inserted(message: Message)

  /** What the binding depends on besides the messages: the registered targets, the loader (a
      reason when a target cannot be loaded), how markers are read, and the text that explains
      the marker syntax, whose examples are not images. */
  datatype Env = Env(trusted: set<string>, load: string -> Option<string>, read: Reader, hint: string)

  datatype Candidate = Candidate(msg: nat, part: nat, start: nat, end: nat, target: string)

  // ---- candidates ----------------------------------------------------------------

  /** Start positions of the non-overlapping occurrences of `pattern`. */
  function Occurrences(s: string, from: nat, pattern: string): seq<nat>
    requires from <= |s| && pattern != ""
    decreases |s| - from
  {
    if from + |pattern| > |s| then []
    else if s[from..from + |pattern|] == pattern then [from] + Occurrences(s, from + |pattern|, pattern)
    else Occurrences(s, from + 1, pattern)
  }

  predicate Overlaps(span: Span, hints: seq<nat>, width: nat) {
    exists h :: h in hints && span.start < h + width && h < span.end
  }

  predicate IsImage(a: Attachment) {
    a.kind == Image && a.target != ""
  }

  predicate Wanted(span: Span, hints: seq<nat>, width: nat) {
    !Overlaps(span, hints, width) && IsImage(span.attachment)
  }

  /** The wanted markers of one text part, in order. */
  function Wantings(spans: seq<Span>, hints: seq<nat>, width: nat, msg: nat, part: nat): seq<Candidate> {
    if spans == [] then []
    else
      (if Wanted(spans[0], hints, width)
       then [Candidate(msg, part, spans[0].start, spans[0].end, spans[0].attachment.target)] else [])
      + Wantings(spans[1..], hints, width, msg, part)
  }

  function TextCandidates(env: Env, text: string, msg: nat, part: nat): seq<Candidate> {
    var hints := if env.hint == "" then [] else Occurrences(text, 0, env.hint);
    Wantings(SpansFrom(env.read, text, 0), hints, |env.hint|, msg, part)
  }

  function PartCandidates(env: Env, parts: seq<Part>, msg: nat, part: nat): seq<Candidate>
    requires part <= |parts|
    decreases |parts| - part
  {
    if part == |parts| then []
    else (if parts[part].Text? then TextCandidates(env, parts[part].text, msg, part) else [])
         + PartCandidates(env, parts, msg, part + 1)
  }

  function ToolTargets(attachments: seq<Attachment>, msg: nat): seq<Candidate> {
    if attachments == [] then []
    else (if IsImage(attachments[0]) then [Candidate(msg, 0, 0, 0, attachments[0].target)] else [])
         + ToolTargets(attachments[1..], msg)
  }

  function ToolCandidates(env: Env, responses: seq<string>, msg: nat): seq<Candidate> {
    if responses == [] then []
    else ToolTargets(AttachmentsOf(SpansFrom(env.read, responses[0], 0)), msg) + ToolCandidates(env, responses[1..], msg)
  }

  function CandidatesOf(env: Env, m: Message, msg: nat): seq<Candidate> {
    match m.role
    case UserRole => PartCandidates(env, m.parts, msg, 0)
    case ToolRole => ToolCandidates(env, m.responses, msg)
    case _ => []
  }

  function AllCandidates(env: Env, ms: seq<Message>, from: nat): seq<Candidate>
    requires from <= |ms|
    decreases |ms| - from
  {
    if from == |ms| then [] else CandidatesOf(env, ms[from], from) + AllCandidates(env, ms, from + 1)
  }

  // ---- one occurrence per target -------------------------------------------------

  function FirstOccurrences(cs: seq<Candidate>, seen: set<string>): seq<Candidate>
    decreases |cs|
  {
    if cs == [] then []
    else if cs[0].target in seen then FirstOccurrences(cs[1..], seen)
    else [cs[0]] + FirstOccurrences(cs[1..], seen + {cs[0].target})
  }

  method Deduplicate(cs: seq<Candidate>) returns (unique: seq<Candidate>)
    ensures unique == FirstOccurrences(cs, {})
  {
    unique := [];
    var seen: set<string> := {};
    assert cs[0..] == cs;
    for i := 0 to |cs|
      invariant unique + FirstOccurrences(cs[i..], seen) == FirstOccurrences(cs, {})
    {
      assert cs[i..][1..] == cs[i + 1..];
      if cs[i].target !in seen {
        seen := seen + {cs[i].target};
        unique := unique + [cs[i]];
      }
    }
  }

  ghost predicate DistinctTargets(cs: seq<Candidate>) {
    forall i, j :: 0 <= i < j < |cs| ==> cs[i].target != cs[j].target
  }

  lemma {:induction false} FirstOccurrencesMembers(cs: seq<Candidate>, seen: set<string>)
    ensures forall c :: c in FirstOccurrences(cs, seen) ==> c in cs && c.target !in seen
    decreases |cs|
  {
    if cs != [] {
      assert cs == [cs[0]] + cs[1..];
      FirstOccurrencesMembers(cs[1..], if cs[0].target in seen then seen else seen + {cs[0].target});
    }
  }

  lemma DistinctCons(c: Candidate, rest: seq<Candidate>)
    requires DistinctTargets(rest) && forall d :: d in rest ==> d.target != c.target
    ensures DistinctTargets([c] + rest)
  {
    assert forall k :: 0 <= k < |rest| ==> rest[k] in rest;
  }

  lemma {:induction false} FirstOccurrencesAreDistinct(cs: seq<Candidate>, seen: set<string>)
    ensures DistinctTargets(FirstOccurrences(cs, seen))
    decreases |cs|
  {
    if cs != [] {
      if cs[0].target in seen {
        FirstOccurrencesAreDistinct(cs[1..], seen);
      } else {
        var more := seen + {cs[0].target};
        FirstOccurrencesAreDistinct(cs[1..], more);
        FirstOccurrencesMembers(cs[1..], more);
        DistinctCons(cs[0], FirstOccurrences(cs[1..], more));
      }
    }
  }

  /** Each target keeps its first occurrence: nothing before it in the list has the same target. */
  lemma {:induction false} KeepsTheFirst(cs: seq<Candidate>, seen: set<string>, k: nat)
    requires k < |cs| && cs[k].target !in seen && forall j :: 0 <= j < k ==> cs[j].target != cs[k].target
    ensures cs[k] in FirstOccurrences(cs, seen)
    decreases |cs|
  {
    if k > 0 {
      var more := if cs[0].target in seen then seen else seen + {cs[0].target};
      KeepsTheFirst(cs[1..], more, k - 1);
    }
  }

  // ---- the choice ----------------------------------------------------------------

  function Trusted(env: Env, cs: seq<Candidate>): seq<Candidate> {
    Filter(cs, (c: Candidate) => c.target in env.trusted)
  }

  function Untrusted(env: Env, cs: seq<Candidate>): seq<Candidate> {
    Filter(cs, (c: Candidate) => c.target !in env.trusted)
  }

  /** The latest trusted candidates, at most `max`, and all untrusted ones. */
  function Latest(cs: seq<Candidate>, max: nat): seq<Candidate> {
    cs[if |cs| > max then |cs| - max else 0..]
  }

  function Chosen(env: Env, ms: seq<Message>, max: nat): seq<Candidate> {
    var unique := FirstOccurrences(AllCandidates(env, ms, 0), {});
    Latest(Trusted(env, unique), max) + Untrusted(env, unique)
  }

  /** The targets that end up as images: chosen, trusted and loadable. */
  predicate Loads(env: Env, target: string) {
    target in env.trusted && env.load(target).None?
  }

  function BoundTargets(env: Env, cs: seq<Candidate>): multiset<string> {
    if cs == [] then multiset{}
    else (if Loads(env, cs[0].target) then multiset{cs[0].target} else multiset{}) + BoundTargets(env, cs[1..])
  }

  // ---- writing ---------------------------------------------------------------------

  function ImagePart(env: Env, target: string): Part {
    if target !in env.trusted then Text("[image not attached: untrusted source " + target + "]")
    else
      match env.load(target)
      case None => Bound(target)
      case Some(reason) => Text("[image unavailable: " + target + " (" + reason + ")]")
  }

  /** The text from `cursor` on, cut behind each marker, with what stands for the image put in. */
  function InlineText(env: Env, text: string, cursor: nat, cs: seq<Candidate>): seq<Part>
    requires InOrder(|text|, cursor, cs)
    decreases |cs|
  {
    if cs == [] then (if cursor < |text| then [Text(text[cursor..])] else [])
    else [Text(text[cursor..cs[0].end]), ImagePart(env, cs[0].target)] + InlineText(env, text, cs[0].end, cs[1..])
  }

  /** Candidates of one text part, left to right without overlap. */
  ghost predicate InOrder(length: nat, cursor: nat, cs: seq<Candidate>)
    decreases |cs|
  {
    if cs == [] then cursor <= length
    else cursor <= cs[0].start < cs[0].end <= length && InOrder(length, cs[0].end, cs[1..])
  }

  // ---- the choice, message by message ------------------------------------------------

  function MsgOf(c: Candidate): nat {
    c.msg
  }

  function PartOf(c: Candidate): nat {
    c.part
  }

  /** The candidates whose key lies in [lo, hi), in order. */
  function Between(cs: seq<Candidate>, key: Candidate -> nat, lo: nat, hi: nat): seq<Candidate> {
    if cs == [] then []
    else (if lo <= key(cs[0]) < hi then [cs[0]] else []) + Between(cs[1..], key, lo, hi)
  }

  /** The order of positions inside one message; equal positions keep their order. */
  predicate Before(a: Candidate, b: Candidate) {
    a.part < b.part || (a.part == b.part && a.start <= b.start)
  }

  function Insert(c: Candidate, cs: seq<Candidate>): seq<Candidate> {
    if cs == [] || Before(c, cs[0]) then [c] + cs else [cs[0]] + Insert(c, cs[1..])
  }

  function SortByPosition(cs: seq<Candidate>): seq<Candidate> {
    if cs == [] then [] else Insert(cs[0], SortByPosition(cs[1..]))
  }

  function Selected(chosen: seq<Candidate>, msg: nat): seq<Candidate> {
    SortByPosition(Between(chosen, MsgOf, msg, msg + 1))
  }

  function At(cs: seq<Candidate>, part: nat): seq<Candidate> {
    Between(cs, PartOf, part, part + 1)
  }

  ghost predicate Positioned(cs: seq<Candidate>) {
    forall i, j :: 0 <= i < j < |cs| ==> Before(cs[i], cs[j])
  }

  lemma {:induction false} BetweenMembers(cs: seq<Candidate>, key: Candidate -> nat, lo: nat, hi: nat)
    ensures forall c :: c in Between(cs, key, lo, hi) <==> c in cs && lo <= key(c) < hi
  {
    if cs != [] {
      BetweenMembers(cs[1..], key, lo, hi);
      assert cs == [cs[0]] + cs[1..];
    }
  }

  lemma {:induction false} BetweenKeeps(cs: seq<Candidate>, key: Candidate -> nat, lo: nat, hi: nat)
    ensures Positioned(cs) ==> Positioned(Between(cs, key, lo, hi))
    ensures DistinctTargets(cs) ==> DistinctTargets(Between(cs, key, lo, hi))
  {
    if cs != [] {
      var c, rest := cs[0], Between(cs[1..], key, lo, hi);
      BetweenKeeps(cs[1..], key, lo, hi);
      BetweenMembers(cs[1..], key, lo, hi);
      if DistinctTargets(cs) {
        assert forall d :: d in cs[1..] ==> d.target != c.target;
        DistinctCons(c, rest);
      }
      if Positioned(cs) {
        assert forall d :: d in cs[1..] ==> Before(c, d);
        PositionedCons(c, rest);
      }
    }
  }

  lemma PositionedCons(c: Candidate, rest: seq<Candidate>)
    requires Positioned(rest) && forall d :: d in rest ==> Before(c, d)
    ensures Positioned([c] + rest)
  {
    assert forall k :: 0 <= k < |rest| ==> rest[k] in rest;
  }

  lemma {:induction false} InsertMembers(c: Candidate, cs: seq<Candidate>)
    ensures forall d :: d in Insert(c, cs) <==> d == c || d in cs
  {
    if cs != [] && !Before(c, cs[0]) {
      InsertMembers(c, cs[1..]);
      assert cs == [cs[0]] + cs[1..];
    }
  }

  lemma {:induction false} InsertKeepsPosition(c: Candidate, cs: seq<Candidate>)
    requires Positioned(cs)
    ensures Positioned(Insert(c, cs))
  {
    if cs != [] && !Before(c, cs[0]) {
      InsertKeepsPosition(c, cs[1..]);
      InsertMembers(c, cs[1..]);
      var rest := Insert(c, cs[1..]);
      assert forall k :: 0 <= k < |rest| ==> rest[k] in rest;
      assert forall d :: d in cs[1..] ==> Before(cs[0], d);
    }
  }

  lemma {:induction false} InsertKeepsDistinct(c: Candidate, cs: seq<Candidate>)
    requires DistinctTargets(cs) && forall d :: d in cs ==> d.target != c.target
    ensures DistinctTargets(Insert(c, cs))
  {
    if cs == [] || Before(c, cs[0]) {
      assert forall k :: 0 <= k < |cs| ==> cs[k] in cs;
    } else {
      InsertKeepsDistinct(c, cs[1..]);
      InsertMembers(c, cs[1..]);
      var rest := Insert(c, cs[1..]);
      assert forall k :: 0 <= k < |rest| ==> rest[k] in rest;
      assert forall d :: d in cs[1..] ==> d.target != cs[0].target;
      assert cs[0] in cs;
    }
  }

  lemma {:induction false} SortKeeps(cs: seq<Candidate>)
    ensures forall c :: c in SortByPosition(cs) <==> c in cs
    ensures Positioned(SortByPosition(cs))
    ensures DistinctTargets(cs) ==> DistinctTargets(SortByPosition(cs))
  {
    if cs != [] {
      var rest := SortByPosition(cs[1..]);
      SortKeeps(cs[1..]);
      assert cs == [cs[0]] + cs[1..];
      InsertMembers(cs[0], rest);
      InsertKeepsPosition(cs[0], rest);
      if DistinctTargets(cs) {
        assert forall d :: d in cs[1..] ==> d.target != cs[0].target;
        InsertKeepsDistinct(cs[0], rest);
      }
    }
  }

  // ---- where candidates come from -------------------------------------------------

  lemma {:induction false} WantingIsASpan(spans: seq<Span>, hints: seq<nat>, width: nat, msg: nat, part: nat, c: Candidate)
    requires c in Wantings(spans, hints, width, msg, part)
    ensures c.msg == msg && c.part == part
    ensures exists k :: 0 <= k < |spans| && spans[k].start == c.start && spans[k].end == c.end
                        && spans[k].attachment == Attachment(Image, c.target) && Wanted(spans[k], hints, width)
  {
    if Wanted(spans[0], hints, width) && c == Candidate(msg, part, spans[0].start, spans[0].end, spans[0].attachment.target) {
      assert spans[0].attachment == Attachment(Image, c.target);
    } else {
      WantingIsASpan(spans[1..], hints, width, msg, part, c);
      var k :| 0 <= k < |spans[1..]| && spans[1..][k].start == c.start && spans[1..][k].end == c.end
               && spans[1..][k].attachment == Attachment(Image, c.target) && Wanted(spans[1..][k], hints, width);
      assert spans[k + 1] == spans[1..][k];
    }
  }

  /** A candidate of a text part is a marker of that text. */
  lemma TextCandidateIsASpan(env: Env, text: string, msg: nat, part: nat, c: Candidate)
    requires c in TextCandidates(env, text, msg, part)
    ensures c.msg == msg && c.part == part
    ensures exists k :: 0 <= k < |SpansFrom(env.read, text, 0)| && SpansFrom(env.read, text, 0)[k] == Span(c.start, c.end, Attachment(Image, c.target))
  {
    var spans := SpansFrom(env.read, text, 0);
    var hints := if env.hint == "" then [] else Occurrences(text, 0, env.hint);
    WantingIsASpan(spans, hints, |env.hint|, msg, part, c);
    var k :| 0 <= k < |spans| && spans[k].start == c.start && spans[k].end == c.end
             && spans[k].attachment == Attachment(Image, c.target) && Wanted(spans[k], hints, |env.hint|);
    assert spans[k] == Span(c.start, c.end, Attachment(Image, c.target));
  }

  lemma {:induction false} PartCandidateIsInItsText(env: Env, parts: seq<Part>, msg: nat, part: nat, c: Candidate)
    requires part <= |parts| && c in PartCandidates(env, parts, msg, part)
    ensures c.msg == msg && part <= c.part < |parts| && parts[c.part].Text?
    ensures c in TextCandidates(env, parts[c.part].text, msg, c.part)
    decreases |parts| - part
  {
    var here := if parts[part].Text? then TextCandidates(env, parts[part].text, msg, part) else [];
    if c in here {
      TextCandidateIsASpan(env, parts[part].text, msg, part, c);
    } else {
      PartCandidateIsInItsText(env, parts, msg, part + 1, c);
    }
  }

  lemma {:induction false} ToolTargetsName(attachments: seq<Attachment>, msg: nat, c: Candidate)
    requires c in ToolTargets(attachments, msg)
    ensures c.msg == msg
  {
    if !(IsImage(attachments[0]) && c == Candidate(msg, 0, 0, 0, attachments[0].target)) {
      ToolTargetsName(attachments[1..], msg, c);
    }
  }

  lemma {:induction false} ToolCandidatesName(env: Env, responses: seq<string>, msg: nat, c: Candidate)
    requires c in ToolCandidates(env, responses, msg)
    ensures c.msg == msg
  {
    var attachments := AttachmentsOf(SpansFrom(env.read, responses[0], 0));
    if c in ToolTargets(attachments, msg) {
      ToolTargetsName(attachments, msg, c);
    } else {
      ToolCandidatesName(env, responses[1..], msg, c);
    }
  }

  lemma CandidateNamesItsMessage(env: Env, m: Message, msg: nat, c: Candidate)
    requires c in CandidatesOf(env, m, msg)
    ensures c.msg == msg && (m.role == UserRole || m.role == ToolRole)
  {
    if m.role == UserRole {
      PartCandidateIsInItsText(env, m.parts, msg, 0, c);
    } else if m.role == ToolRole {
      ToolCandidatesName(env, m.responses, msg, c);
    }
  }

  /** Every candidate comes from the message and part that it names. */
  ghost predicate Own(env: Env, ms: seq<Message>, cs: seq<Candidate>) {
    forall c :: c in cs ==> c.msg < |ms| && c in CandidatesOf(env, ms[c.msg], c.msg)
  }

  lemma OwnConcat(env: Env, ms: seq<Message>, a: seq<Candidate>, b: seq<Candidate>)
    requires Own(env, ms, a) && Own(env, ms, b)
    ensures Own(env, ms, a + b)
  {
  }

  lemma OwnHere(env: Env, ms: seq<Message>, i: nat)
    requires i < |ms|
    ensures Own(env, ms, CandidatesOf(env, ms[i], i))
  {
    forall c | c in CandidatesOf(env, ms[i], i) ensures c.msg == i {
      CandidateNamesItsMessage(env, ms[i], i, c);
    }
  }

  lemma {:induction false} AllAreOwn(env: Env, ms: seq<Message>, from: nat)
    requires from <= |ms|
    ensures Own(env, ms, AllCandidates(env, ms, from))
    decreases |ms| - from
  {
    if from < |ms| {
      OwnHere(env, ms, from);
      AllAreOwn(env, ms, from + 1);
      OwnConcat(env, ms, CandidatesOf(env, ms[from], from), AllCandidates(env, ms, from + 1));
    }
  }

  lemma {:induction false} FilterKeepsDistinct(cs: seq<Candidate>, p: Candidate -> bool)
    requires DistinctTargets(cs)
    ensures DistinctTargets(Filter(cs, p))
  {
    if cs != [] {
      FilterKeepsDistinct(cs[1..], p);
      FilterMembers(cs[1..], p);
      var rest := Filter(cs[1..], p);
      assert forall k :: 0 <= k < |rest| ==> rest[k] in rest;
      assert forall c :: c in cs[1..] ==> c.target != cs[0].target;
    }
  }

  /** What is chosen are first occurrences, one per target. */
  lemma ChosenAreCandidates(env: Env, ms: seq<Message>, max: nat)
    ensures DistinctTargets(Chosen(env, ms, max))
    ensures forall c :: c in Chosen(env, ms, max) ==> c in AllCandidates(env, ms, 0)
  {
    var all := AllCandidates(env, ms, 0);
    FirstOccurrencesAreDistinct(all, {});
    FirstOccurrencesMembers(all, {});
    ChoiceOf(env, FirstOccurrences(all, {}), max);
  }

  lemma ChoiceOf(env: Env, unique: seq<Candidate>, max: nat)
    requires DistinctTargets(unique)
    ensures DistinctTargets(Latest(Trusted(env, unique), max) + Untrusted(env, unique))
    ensures forall c :: c in Latest(Trusted(env, unique), max) + Untrusted(env, unique) ==> c in unique
  {
    var yes := (c: Candidate) => c.target in env.trusted;
    var no := (c: Candidate) => c.target !in env.trusted;
    FilterKeepsDistinct(unique, yes);
    FilterKeepsDistinct(unique, no);
    FilterMembers(unique, yes);
    FilterMembers(unique, no);
    assert Trusted(env, unique) == Filter(unique, yes);
    assert Untrusted(env, unique) == Filter(unique, no);
    LatestIsSuffix(Trusted(env, unique), max);
    DistinctJoin(Latest(Trusted(env, unique), max), Untrusted(env, unique));
  }

  lemma LatestIsSuffix(cs: seq<Candidate>, max: nat)
    ensures forall c :: c in Latest(cs, max) ==> c in cs
    ensures DistinctTargets(cs) ==> DistinctTargets(Latest(cs, max))
  {
  }

  lemma DistinctJoin(a: seq<Candidate>, b: seq<Candidate>)
    requires DistinctTargets(a) && DistinctTargets(b)
    requires forall c, d :: c in a && d in b ==> c.target != d.target
    ensures DistinctTargets(a + b)
  {
    assert forall k :: 0 <= k < |a| ==> a[k] in a;
    assert forall k :: 0 <= k < |b| ==> b[k] in b;
  }

  // ---- the pieces are in order -------------------------------------------------------

  lemma {:induction false} PairwiseIsInOrder(length: nat, cursor: nat, cs: seq<Candidate>)
    requires cursor <= length
    requires forall k :: 0 <= k < |cs| ==> cursor <= cs[k].start < cs[k].end <= length
    requires forall j, k :: 0 <= j < k < |cs| ==> cs[j].end <= cs[k].start
    ensures InOrder(length, cursor, cs)
    decreases |cs|
  {
    if cs != [] {
      PairwiseIsInOrder(length, cs[0].end, cs[1..]);
    }
  }

  /** Every text part that is cut has its cuts in order, inside the text. */
  ghost predicate Placed(parts: seq<Part>, cs: seq<Candidate>) {
    forall p :: 0 <= p < |parts| && parts[p].Text? ==> InOrder(|parts[p].text|, 0, At(cs, p))
  }

  lemma TextPlaced(env: Env, text: string, msg: nat, part: nat, cs: seq<Candidate>)
    requires Positioned(cs) && DistinctTargets(cs)
    requires forall c :: c in cs ==> c in TextCandidates(env, text, msg, part)
    ensures InOrder(|text|, 0, cs)
  {
    var spans := SpansFrom(env.read, text, 0);
    SpansAreOrdered(env.read, text, 0);
    OrderedMeansDisjoint(|text|, 0, spans);
    forall k | 0 <= k < |cs| ensures 0 <= cs[k].start < cs[k].end <= |text| {
      TextCandidateIsASpan(env, text, msg, part, cs[k]);
    }
    forall j, k | 0 <= j < k < |cs| ensures cs[j].end <= cs[k].start {
      TextCandidateIsASpan(env, text, msg, part, cs[j]);
      TextCandidateIsASpan(env, text, msg, part, cs[k]);
      assert Before(cs[j], cs[k]);
      assert cs[j].target != cs[k].target;
      var a :| 0 <= a < |spans| && spans[a] == Span(cs[j].start, cs[j].end, Attachment(Image, cs[j].target));
      var b :| 0 <= b < |spans| && spans[b] == Span(cs[k].start, cs[k].end, Attachment(Image, cs[k].target));
      assert a < b || b < a;
    }
    PairwiseIsInOrder(|text|, 0, cs);
  }

  lemma PartsPlaced(env: Env, parts: seq<Part>, msg: nat, cs: seq<Candidate>)
    requires Positioned(cs) && DistinctTargets(cs)
    requires forall c :: c in cs ==> c in PartCandidates(env, parts, msg, 0)
    ensures Placed(parts, cs)
  {
    forall p | 0 <= p < |parts| && parts[p].Text? ensures InOrder(|parts[p].text|, 0, At(cs, p)) {
      PartPlaced(env, parts, msg, cs, p);
    }
  }

  lemma PartPlaced(env: Env, parts: seq<Part>, msg: nat, cs: seq<Candidate>, p: nat)
    requires Positioned(cs) && DistinctTargets(cs) && p < |parts| && parts[p].Text?
    requires forall c :: c in cs ==> c in PartCandidates(env, parts, msg, 0)
    ensures InOrder(|parts[p].text|, 0, At(cs, p))
  {
    BetweenKeeps(cs, PartOf, p, p + 1);
    BetweenMembers(cs, PartOf, p, p + 1);
    var here := At(cs, p);
    forall c | c in here ensures c in TextCandidates(env, parts[p].text, msg, p) {
      assert PartOf(c) == p && c in cs;
      PartCandidateIsInItsText(env, parts, msg, 0, c);
    }
    TextPlaced(env, parts[p].text, msg, p, here);
  }

  /** What is selected for a message are candidates of that message, sorted, one per target. */
  lemma SelectedAreItsOwn(env: Env, ms: seq<Message>, max: nat, msg: nat)
    requires msg < |ms|
    ensures var cs := Selected(Chosen(env, ms, max), msg);
            && Positioned(cs) && DistinctTargets(cs)
            && forall c :: c in cs ==> c.msg == msg && c in CandidatesOf(env, ms[msg], msg)
  {
    var chosen := Chosen(env, ms, max);
    var mine := Between(chosen, MsgOf, msg, msg + 1);
    ChosenAreCandidates(env, ms, max);
    BetweenKeeps(chosen, MsgOf, msg, msg + 1);
    BetweenMembers(chosen, MsgOf, msg, msg + 1);
    SortKeeps(mine);
    AllAreOwn(env, ms, 0);
  }

  /** No slice is ever taken backwards or outside its text: the late binding cannot fail. */
  lemma SelectedIsPlaced(env: Env, ms: seq<Message>, max: nat, msg: nat)
    requires msg < |ms|
    ensures ms[msg].role == SystemRole || ms[msg].role == AssistantRole ==> Selected(Chosen(env, ms, max), msg) == []
    ensures ms[msg].role != ToolRole ==> Placed(ms[msg].parts, Selected(Chosen(env, ms, max), msg))
  {
    var cs := Selected(Chosen(env, ms, max), msg);
    SelectedAreItsOwn(env, ms, max, msg);
    if ms[msg].role == UserRole {
      PartsPlaced(env, ms[msg].parts, msg, cs);
    } else if ms[msg].role != ToolRole && cs != [] {
      CandidateNamesItsMessage(env, ms[msg], msg, cs[0]);
    }
  }
}
