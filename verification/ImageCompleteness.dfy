// Which markers of a request become images, said without the candidates of the binding: by the
// positions at which the messages mention an image.

module ImageCompleteness {
  import opened Base
  import opened Attachments
  import opened ImageBinding
  import opened BoundMessages

  /** A marker: the message, the text part or tool result in it, and which marker of that text. */
  datatype Place = Place(msg: nat, part: nat, k: nat)

  /** The texts of a message that are searched: the text parts of a user message, the results in a
      tool message, nothing else. */
  function Texts(m: Message): seq<Option<string>> {
    match m.role
    case UserRole => seq(|m.parts|, p requires 0 <= p < |m.parts| => if m.parts[p].Text? then Some(m.parts[p].text) else None)
    case ToolRole => seq(|m.responses|, p requires 0 <= p < |m.responses| => Some(m.responses[p]))
    case _ => []
  }

  /** Where the explanation of the marker syntax stands; only user messages carry it. */
  function Hints(env: Env, m: Message, text: string): seq<nat> {
    if m.role == UserRole && env.hint != "" then Occurrences(text, 0, env.hint) else []
  }

  /** The message mentions an image here: a marker for an image with a target, outside the
      explanation of the syntax. */
  ghost predicate Mentions(env: Env, ms: seq<Message>, at: Place) {
    && at.msg < |ms|
    && at.part < |Texts(ms[at.msg])| && Texts(ms[at.msg])[at.part].Some?
    && var text := Texts(ms[at.msg])[at.part].value;
       var spans := SpansFrom(env.read, text, 0);
       && at.k < |spans|
       && spans[at.k].attachment.kind == Image && spans[at.k].attachment.target != ""
       && forall h :: h in Hints(env, ms[at.msg], text) ==> spans[at.k].end <= h || h + |env.hint| <= spans[at.k].start
  }

  function TargetAt(env: Env, ms: seq<Message>, at: Place): string
    requires at.msg < |ms| && at.part < |Texts(ms[at.msg])| && Texts(ms[at.msg])[at.part].Some?
    requires at.k < |SpansFrom(env.read, Texts(ms[at.msg])[at.part].value, 0)|
  {
    SpansFrom(env.read, Texts(ms[at.msg])[at.part].value, 0)[at.k].attachment.target
  }

  ghost predicate MentionsTarget(env: Env, ms: seq<Message>, at: Place, target: string) {
    Mentions(env, ms, at) && TargetAt(env, ms, at) == target
  }

  predicate Precedes(a: Place, b: Place) {
    a.msg < b.msg || (a.msg == b.msg && (a.part < b.part || (a.part == b.part && a.k < b.k)))
  }

  // ---- all places in order ------------------------------------------------------------------

  function SpanPlaces(spans: seq<Span>, hints: seq<nat>, width: nat, msg: nat, part: nat, k: nat): seq<Place>
    requires k <= |spans|
    decreases |spans| - k
  {
    if k == |spans| then []
    else (if Wanted(spans[k], hints, width) then [Place(msg, part, k)] else []) + SpanPlaces(spans, hints, width, msg, part, k + 1)
  }

  function TextPlaces(env: Env, m: Message, msg: nat, part: nat): seq<Place>
    requires part < |Texts(m)|
  {
    if Texts(m)[part].None? then []
    else SpanPlaces(SpansFrom(env.read, Texts(m)[part].value, 0), Hints(env, m, Texts(m)[part].value), |env.hint|, msg, part, 0)
  }

  function MessagePlaces(env: Env, m: Message, msg: nat, part: nat): seq<Place>
    requires part <= |Texts(m)|
    decreases |Texts(m)| - part
  {
    if part == |Texts(m)| then [] else TextPlaces(env, m, msg, part) + MessagePlaces(env, m, msg, part + 1)
  }

  function AllPlaces(env: Env, ms: seq<Message>, from: nat): seq<Place>
    requires from <= |ms|
    decreases |ms| - from
  {
    if from == |ms| then [] else MessagePlaces(env, ms[from], from, 0) + AllPlaces(env, ms, from + 1)
  }

  ghost predicate Increasing(ps: seq<Place>) {
    forall i, j :: 0 <= i < j < |ps| ==> Precedes(ps[i], ps[j])
  }

  lemma IncreasingConcat(a: seq<Place>, b: seq<Place>)
    requires Increasing(a) && Increasing(b) && forall x, y :: x in a && y in b ==> Precedes(x, y)
    ensures Increasing(a + b)
  {
    forall i, j | 0 <= i < j < |a + b| ensures Precedes((a + b)[i], (a + b)[j]) {
      if i < |a| <= j {
        assert (a + b)[i] in a && (a + b)[j] in b;
      }
    }
  }

  lemma {:induction false} SpanPlacesAre(spans: seq<Span>, hints: seq<nat>, width: nat, msg: nat, part: nat, k: nat)
    requires k <= |spans|
    ensures Increasing(SpanPlaces(spans, hints, width, msg, part, k))
    ensures forall x :: x in SpanPlaces(spans, hints, width, msg, part, k) <==>
              x.msg == msg && x.part == part && k <= x.k < |spans| && Wanted(spans[x.k], hints, width)
    decreases |spans| - k
  {
    if k < |spans| {
      var rest := SpanPlaces(spans, hints, width, msg, part, k + 1);
      var first := if Wanted(spans[k], hints, width) then [Place(msg, part, k)] else [];
      SpanPlacesAre(spans, hints, width, msg, part, k + 1);
      IncreasingConcat(first, rest);
    }
  }

  /** The place is one of this text. */
  ghost predicate InText(env: Env, m: Message, msg: nat, part: nat, x: Place)
    requires part < |Texts(m)|
  {
    && x.msg == msg && x.part == part && Texts(m)[part].Some?
    && x.k < |SpansFrom(env.read, Texts(m)[part].value, 0)|
    && Wanted(SpansFrom(env.read, Texts(m)[part].value, 0)[x.k], Hints(env, m, Texts(m)[part].value), |env.hint|)
  }

  lemma TextPlacesAre(env: Env, m: Message, msg: nat, part: nat)
    requires part < |Texts(m)|
    ensures Increasing(TextPlaces(env, m, msg, part))
    ensures forall x :: x in TextPlaces(env, m, msg, part) <==> InText(env, m, msg, part, x)
  {
    if Texts(m)[part].Some? {
      SpanPlacesAre(SpansFrom(env.read, Texts(m)[part].value, 0), Hints(env, m, Texts(m)[part].value), |env.hint|, msg, part, 0);
    }
  }

  lemma {:induction false} MessagePlacesAre(env: Env, m: Message, msg: nat, part: nat)
    requires part <= |Texts(m)|
    ensures Increasing(MessagePlaces(env, m, msg, part))
    ensures forall x :: x in MessagePlaces(env, m, msg, part) <==> part <= x.part < |Texts(m)| && InText(env, m, msg, x.part, x)
    decreases |Texts(m)| - part
  {
    if part < |Texts(m)| {
      TextPlacesAre(env, m, msg, part);
      MessagePlacesAre(env, m, msg, part + 1);
      IncreasingConcat(TextPlaces(env, m, msg, part), MessagePlaces(env, m, msg, part + 1));
    }
  }

  ghost predicate InMessages(env: Env, ms: seq<Message>, from: nat, x: Place) {
    from <= x.msg < |ms| && x.part < |Texts(ms[x.msg])| && InText(env, ms[x.msg], x.msg, x.part, x)
  }

  lemma {:induction false} AllPlacesAre(env: Env, ms: seq<Message>, from: nat)
    requires from <= |ms|
    ensures Increasing(AllPlaces(env, ms, from))
    ensures forall x :: x in AllPlaces(env, ms, from) <==> InMessages(env, ms, from, x)
    decreases |ms| - from
  {
    if from < |ms| {
      var here, rest := MessagePlaces(env, ms[from], from, 0), AllPlaces(env, ms, from + 1);
      MessagePlacesAre(env, ms[from], from, 0);
      AllPlacesAre(env, ms, from + 1);
      forall x ensures x in here + rest <==> InMessages(env, ms, from, x) {
        assert x in here + rest <==> x in here || x in rest;
      }
      IncreasingConcat(here, rest);
    }
  }

  /** The listed places are exactly those at which an image is mentioned. */
  lemma PlacesAreMentions(env: Env, ms: seq<Message>)
    ensures Increasing(AllPlaces(env, ms, 0))
    ensures forall x :: x in AllPlaces(env, ms, 0) <==> Mentions(env, ms, x)
  {
    AllPlacesAre(env, ms, 0);
    forall x ensures x in AllPlaces(env, ms, 0) <==> Mentions(env, ms, x) {
      if x.msg < |ms| && x.part < |Texts(ms[x.msg])| && Texts(ms[x.msg])[x.part].Some? {
        var text := Texts(ms[x.msg])[x.part].value;
        var spans := SpansFrom(env.read, text, 0);
        if x.k < |spans| {
          WantedIs(spans[x.k], Hints(env, ms[x.msg], text), |env.hint|);
        }
      }
    }
  }

  lemma WantedIs(span: Span, hints: seq<nat>, width: nat)
    ensures Wanted(span, hints, width) <==>
              span.attachment.kind == Image && span.attachment.target != ""
              && forall h :: h in hints ==> span.end <= h || h + width <= span.start
  {
    if Overlaps(span, hints, width) {
      var h :| h in hints && span.start < h + width && h < span.end;
      assert !(span.end <= h || h + width <= span.start);
    }
  }

  /** Every listed occurrence of the explanation is one. */
  lemma {:induction false} OccurrencesOccur(s: string, from: nat, pattern: string, h: nat)
    requires from <= |s| && pattern != "" && h in Occurrences(s, from, pattern)
    ensures from <= h && h + |pattern| <= |s| && s[h..h + |pattern|] == pattern
    decreases |s| - from
  {
    if s[from..from + |pattern|] == pattern {
      if h != from {
        OccurrencesOccur(s, from + |pattern|, pattern, h);
      }
    } else {
      OccurrencesOccur(s, from + 1, pattern, h);
    }
  }

  lemma OccurrencesStep(s: string, from: nat, pattern: string)
    requires from + |pattern| <= |s| && pattern != ""
    ensures Occurrences(s, from, pattern) ==
            if s[from..from + |pattern|] == pattern then [from] + Occurrences(s, from + |pattern|, pattern)
            else Occurrences(s, from + 1, pattern)
  {
  }

  /** Every occurrence of the explanation overlaps a listed one. */
  lemma {:induction false} OccurrencesCoverAll(s: string, from: nat, pattern: string, at: nat) returns (h: nat)
    requires from <= at && at + |pattern| <= |s| && pattern != "" && s[at..at + |pattern|] == pattern
    ensures h in Occurrences(s, from, pattern) && h <= at < h + |pattern|
    decreases |s| - from
  {
    OccurrencesStep(s, from, pattern);
    var here := s[from..from + |pattern|];
    if here == pattern {
      if at < from + |pattern| {
        h := from;
      } else {
        h := OccurrencesCoverAll(s, from + |pattern|, pattern, at);
      }
    } else {
      h := OccurrencesCoverAll(s, from + 1, pattern, at);
    }
  }

  // ---- the candidates are the places, in the same order ---------------------------------------------

  /** The candidate stands for this marker. */
  ghost predicate StandsFor(env: Env, ms: seq<Message>, c: Candidate, x: Place) {
    && x.msg < |ms| && c.msg == x.msg
    && x.part < |Texts(ms[x.msg])| && Texts(ms[x.msg])[x.part].Some?
    && var spans := SpansFrom(env.read, Texts(ms[x.msg])[x.part].value, 0);
       && x.k < |spans| && c.target == spans[x.k].attachment.target
       && (ms[x.msg].role == UserRole ==> c.part == x.part && c.start == spans[x.k].start && c.end == spans[x.k].end)
  }

  ghost predicate Pairwise(env: Env, ms: seq<Message>, cs: seq<Candidate>, ps: seq<Place>) {
    |cs| == |ps| && forall i :: 0 <= i < |cs| ==> StandsFor(env, ms, cs[i], ps[i])
  }

  lemma PairwiseConcat(env: Env, ms: seq<Message>, a: seq<Candidate>, p: seq<Place>, b: seq<Candidate>, q: seq<Place>)
    requires Pairwise(env, ms, a, p) && Pairwise(env, ms, b, q)
    ensures Pairwise(env, ms, a + b, p + q)
  {
  }

  /** The spans are those of this text of the request. */
  ghost predicate SpansOf(env: Env, ms: seq<Message>, msg: nat, part: nat, spans: seq<Span>) {
    && msg < |ms| && part < |Texts(ms[msg])| && Texts(ms[msg])[part].Some?
    && spans == SpansFrom(env.read, Texts(ms[msg])[part].value, 0)
  }

  lemma {:induction false} WantingsPair(env: Env, ms: seq<Message>, spans: seq<Span>, hints: seq<nat>, msg: nat, part: nat, k: nat)
    requires k <= |spans| && SpansOf(env, ms, msg, part, spans)
    ensures Pairwise(env, ms, Wantings(spans[k..], hints, |env.hint|, msg, part), SpanPlaces(spans, hints, |env.hint|, msg, part, k))
    decreases |spans| - k
  {
    if k < |spans| {
      var wanted := Wanted(spans[k], hints, |env.hint|);
      var c := if wanted then [Candidate(msg, part, spans[k].start, spans[k].end, spans[k].attachment.target)] else [];
      var x := if wanted then [Place(msg, part, k)] else [];
      assert spans[k..][1..] == spans[k + 1..];
      WantingsPair(env, ms, spans, hints, msg, part, k + 1);
      PairwiseConcat(env, ms, c, x, Wantings(spans[k + 1..], hints, |env.hint|, msg, part), SpanPlaces(spans, hints, |env.hint|, msg, part, k + 1));
    }
  }

  lemma {:induction false} ToolTargetsPair(env: Env, ms: seq<Message>, spans: seq<Span>, attachments: seq<Attachment>, msg: nat, part: nat, k: nat)
    requires k <= |spans| && SpansOf(env, ms, msg, part, spans) && ms[msg].role == ToolRole && attachments == AttachmentsOf(spans)[k..]
    ensures Pairwise(env, ms, ToolTargets(attachments, msg), SpanPlaces(spans, [], |env.hint|, msg, part, k))
    decreases |spans| - k
  {
    if k < |spans| {
      var wanted := Wanted(spans[k], [], |env.hint|);
      WantedIs(spans[k], [], |env.hint|);
      var c := if wanted then [Candidate(msg, 0, 0, 0, spans[k].attachment.target)] else [];
      var x := if wanted then [Place(msg, part, k)] else [];
      assert attachments[0] == spans[k].attachment;
      assert attachments[1..] == AttachmentsOf(spans)[k + 1..];
      ToolTargetsPair(env, ms, spans, attachments[1..], msg, part, k + 1);
      PairwiseConcat(env, ms, c, x, ToolTargets(attachments[1..], msg), SpanPlaces(spans, [], |env.hint|, msg, part, k + 1));
    }
  }

  lemma {:induction false} UserPairs(env: Env, ms: seq<Message>, msg: nat, part: nat)
    requires msg < |ms| && ms[msg].role == UserRole && part <= |ms[msg].parts|
    ensures Pairwise(env, ms, PartCandidates(env, ms[msg].parts, msg, part), MessagePlaces(env, ms[msg], msg, part))
    decreases |ms[msg].parts| - part
  {
    var m := ms[msg];
    if part < |m.parts| {
      var here := if m.parts[part].Text? then TextCandidates(env, m.parts[part].text, msg, part) else [];
      UserPairs(env, ms, msg, part + 1);
      if m.parts[part].Text? {
        var spans := SpansFrom(env.read, m.parts[part].text, 0);
        assert Texts(m)[part] == Some(m.parts[part].text);
        WantingsPair(env, ms, spans, Hints(env, m, m.parts[part].text), msg, part, 0);
        assert spans[0..] == spans;
      }
      PairwiseConcat(env, ms, here, TextPlaces(env, m, msg, part), PartCandidates(env, m.parts, msg, part + 1), MessagePlaces(env, m, msg, part + 1));
    }
  }

  lemma {:induction false} ToolPairs(env: Env, ms: seq<Message>, responses: seq<string>, msg: nat, part: nat)
    requires msg < |ms| && ms[msg].role == ToolRole && part <= |ms[msg].responses| && responses == ms[msg].responses[part..]
    ensures Pairwise(env, ms, ToolCandidates(env, responses, msg), MessagePlaces(env, ms[msg], msg, part))
    decreases |ms[msg].responses| - part
  {
    var m := ms[msg];
    if part < |m.responses| {
      var spans := SpansFrom(env.read, responses[0], 0);
      assert responses[0] == m.responses[part] && responses[1..] == m.responses[part + 1..];
      assert Texts(m)[part] == Some(m.responses[part]);
      assert AttachmentsOf(spans)[0..] == AttachmentsOf(spans);
      ToolPairs(env, ms, responses[1..], msg, part + 1);
      ToolTargetsPair(env, ms, spans, AttachmentsOf(spans), msg, part, 0);
      PairwiseConcat(env, ms, ToolTargets(AttachmentsOf(spans), msg), TextPlaces(env, m, msg, part),
                     ToolCandidates(env, responses[1..], msg), MessagePlaces(env, m, msg, part + 1));
    }
  }

  lemma MessagePairs(env: Env, ms: seq<Message>, msg: nat)
    requires msg < |ms|
    ensures Pairwise(env, ms, CandidatesOf(env, ms[msg], msg), MessagePlaces(env, ms[msg], msg, 0))
  {
    match ms[msg].role
    case UserRole => UserPairs(env, ms, msg, 0);
    case ToolRole =>
      assert ms[msg].responses[0..] == ms[msg].responses;
      ToolPairs(env, ms, ms[msg].responses, msg, 0);
    case _ =>
  }

  /** The candidates are exactly the places, one for one and in the same order. */
  lemma {:induction false} AllPairs(env: Env, ms: seq<Message>, from: nat)
    requires from <= |ms|
    ensures Pairwise(env, ms, AllCandidates(env, ms, from), AllPlaces(env, ms, from))
    decreases |ms| - from
  {
    if from < |ms| {
      MessagePairs(env, ms, from);
      AllPairs(env, ms, from + 1);
      PairwiseConcat(env, ms, CandidatesOf(env, ms[from], from), MessagePlaces(env, ms[from], from, 0),
                     AllCandidates(env, ms, from + 1), AllPlaces(env, ms, from + 1));
    }
  }

  // ---- the last of the first occurrences ---------------------------------------------------------------

  function TargetSet(cs: seq<Candidate>): set<string> {
    set c | c in cs :: c.target
  }

  lemma {:induction false} OccurrencesConcat(a: seq<Candidate>, b: seq<Candidate>, seen: set<string>)
    ensures FirstOccurrences(a + b, seen) == FirstOccurrences(a, seen) + FirstOccurrences(b, seen + TargetSet(a))
    decreases |a|
  {
    if a == [] {
      assert a + b == b && seen + TargetSet(a) == seen;
    } else {
      var c, rest := a[0], a[1..];
      assert a == [c] + rest;
      assert (a + b)[0] == c && (a + b)[1..] == rest + b;
      assert TargetSet(a) == {c.target} + TargetSet(rest);
      if c.target in seen {
        OccurrencesConcat(rest, b, seen);
        assert seen + TargetSet(a) == seen + TargetSet(rest);
      } else {
        OccurrencesConcat(rest, b, seen + {c.target});
        assert seen + TargetSet(a) == seen + {c.target} + TargetSet(rest);
        Regroup([c], FirstOccurrences(rest, seen + {c.target}), FirstOccurrences(b, seen + TargetSet(a)));
      }
    }
  }

  lemma TrustedConcat(env: Env, a: seq<Candidate>, b: seq<Candidate>)
    ensures Trusted(env, a + b) == Trusted(env, a) + Trusted(env, b)
  {
    FilterConcat(a, b, (c: Candidate) => c.target in env.trusted);
  }

  lemma {:induction false} DistinctCount(cs: seq<Candidate>)
    requires DistinctTargets(cs)
    ensures |TargetSet(cs)| == |cs|
  {
    if cs != [] {
      var rest := cs[1..];
      DistinctCount(rest);
      assert cs == [cs[0]] + rest;
      assert TargetSet(cs) == {cs[0].target} + TargetSet(rest);
      assert cs[0].target !in TargetSet(rest);
    }
  }

  lemma {:induction false} OccurrencesCover(cs: seq<Candidate>, seen: set<string>)
    ensures TargetSet(FirstOccurrences(cs, seen)) == TargetSet(cs) - seen
    decreases |cs|
  {
    if cs != [] {
      var c, rest := cs[0], cs[1..];
      assert cs == [c] + rest;
      assert TargetSet(cs) == {c.target} + TargetSet(rest);
      if c.target in seen {
        OccurrencesCover(rest, seen);
      } else {
        var more := FirstOccurrences(rest, seen + {c.target});
        OccurrencesCover(rest, seen + {c.target});
        assert TargetSet([c] + more) == {c.target} + TargetSet(more);
      }
    }
  }

  /** How many trusted first occurrences a list has, besides those seen. */
  lemma TrustedCount(env: Env, cs: seq<Candidate>, seen: set<string>)
    ensures |Trusted(env, FirstOccurrences(cs, seen))| == |(TargetSet(cs) - seen) * env.trusted|
  {
    var yes := (c: Candidate) => c.target in env.trusted;
    var firsts := FirstOccurrences(cs, seen);
    FirstOccurrencesAreDistinct(cs, seen);
    FilterKeepsDistinct(firsts, yes);
    FilterMembers(firsts, yes);
    assert Trusted(env, firsts) == Filter(firsts, yes);
    OccurrencesCover(cs, seen);
    DistinctCount(Trusted(env, firsts));
    assert TargetSet(Trusted(env, firsts)) == TargetSet(firsts) * env.trusted;
  }

  lemma AmongLastOf(front: seq<Candidate>, c: Candidate, back: seq<Candidate>, max: nat)
    requires forall d :: d in front || d in back ==> d.target != c.target
    ensures AmongLast(front + [c] + back, max, c.target) <==> |back| < max
  {
    var all := front + [c] + back;
    assert all[|front|] == c;
    assert forall k :: 0 <= k < |front| ==> all[k] == front[k] && front[k] in front;
    assert forall k :: |front| < k < |all| ==> all[k] == back[k - |front| - 1] && all[k] in back;
  }

  /** The trusted targets that appear behind `c` for the first time. */
  function NewBehind(env: Env, front: seq<Candidate>, c: Candidate, back: seq<Candidate>): set<string> {
    (TargetSet(back) - (TargetSet(front) + {c.target})) * env.trusted
  }

  lemma FirstsSplit(front: seq<Candidate>, c: Candidate, back: seq<Candidate>)
    requires c.target !in TargetSet(front)
    ensures FirstOccurrences(front + [c] + back, {})
         == FirstOccurrences(front, {}) + [c] + FirstOccurrences(back, TargetSet(front) + {c.target})
  {
    OccurrencesConcat(front + [c], back, {});
    OccurrencesConcat(front, [c], {});
    assert TargetSet(front + [c]) == TargetSet(front) + {c.target};
    assert {} + (TargetSet(front) + {c.target}) == TargetSet(front) + {c.target} && {} + TargetSet(front) == TargetSet(front);
    OneOccurrence(c, TargetSet(front));
  }

  lemma OneOccurrence(c: Candidate, seen: set<string>)
    requires c.target !in seen
    ensures FirstOccurrences([c], seen) == [c]
  {
    assert [c][1..] == [];
    assert FirstOccurrences([], seen + {c.target}) == [];
  }

  lemma TrustedSplit(env: Env, a: seq<Candidate>, c: Candidate, b: seq<Candidate>)
    requires c.target in env.trusted
    ensures Trusted(env, a + [c] + b) == Trusted(env, a) + [c] + Trusted(env, b)
  {
    TrustedConcat(env, a + [c], b);
    TrustedConcat(env, a, [c]);
    var yes := (d: Candidate) => d.target in env.trusted;
    assert [c][1..] == [] && Filter([], yes) == [] && yes(c);
    assert Filter([c], yes) == [c];
    assert Trusted(env, [c]) == Filter([c], yes);
  }

  /** A first occurrence is among the last `max` exactly when fewer new targets follow it. */
  lemma AmongLastIff(env: Env, front: seq<Candidate>, c: Candidate, back: seq<Candidate>, max: nat)
    requires c.target in env.trusted && c.target !in TargetSet(front)
    ensures AmongLast(Trusted(env, FirstOccurrences(front + [c] + back, {})), max, c.target) <==> |NewBehind(env, front, c, back)| < max
  {
    var seen := TargetSet(front) + {c.target};
    FirstsSplit(front, c, back);
    TrustedSplit(env, FirstOccurrences(front, {}), c, FirstOccurrences(back, seen));
    TrustedCount(env, back, seen);
    OthersDiffer(env, front, c, back);
    AmongLastOf(Trusted(env, FirstOccurrences(front, {})), c, Trusted(env, FirstOccurrences(back, seen)), max);
  }

  lemma OthersDiffer(env: Env, front: seq<Candidate>, c: Candidate, back: seq<Candidate>)
    requires c.target !in TargetSet(front)
    ensures forall d :: d in Trusted(env, FirstOccurrences(front, {})) ==> d.target != c.target
    ensures forall d :: d in Trusted(env, FirstOccurrences(back, TargetSet(front) + {c.target})) ==> d.target != c.target
  {
    var yes := (d: Candidate) => d.target in env.trusted;
    var a, b := FirstOccurrences(front, {}), FirstOccurrences(back, TargetSet(front) + {c.target});
    FirstOccurrencesMembers(front, {});
    FirstOccurrencesMembers(back, TargetSet(front) + {c.target});
    FilterMembers(a, yes);
    FilterMembers(b, yes);
    assert Trusted(env, a) == Filter(a, yes) && Trusted(env, b) == Filter(b, yes);
    assert forall d :: d in a ==> d.target in TargetSet(front);
  }

  // ---- the images of the output ---------------------------------------------------------------------------

  /** The first place at which this target is mentioned. */
  ghost predicate FirstMention(env: Env, ms: seq<Message>, at: Place, target: string) {
    MentionsTarget(env, ms, at, target)
    && forall p :: MentionsTarget(env, ms, p, target) ==> p == at || Precedes(at, p)
  }

  /** The registered targets that are mentioned, and for the first time behind this place. */
  ghost function FirstMentionedBehind(env: Env, ms: seq<Message>, at: Place): set<string> {
    set u | u in env.trusted && (exists p :: MentionsTarget(env, ms, p, u)) && forall p :: MentionsTarget(env, ms, p, u) ==> Precedes(at, p)
  }

  /** The target is mentioned, and fewer than `max` other registered targets come up behind its first
      mention. */
  ghost predicate AmongTheLatest(env: Env, ms: seq<Message>, max: nat, target: string) {
    exists at :: FirstMention(env, ms, at, target) && |FirstMentionedBehind(env, ms, at)| < max
  }

  lemma StandsForTarget(env: Env, ms: seq<Message>, i: nat)
    requires i < |AllPlaces(env, ms, 0)|
    ensures |AllCandidates(env, ms, 0)| == |AllPlaces(env, ms, 0)|
    ensures MentionsTarget(env, ms, AllPlaces(env, ms, 0)[i], AllCandidates(env, ms, 0)[i].target)
  {
    AllPairs(env, ms, 0);
    PlacesAreMentions(env, ms);
    assert AllPlaces(env, ms, 0)[i] in AllPlaces(env, ms, 0);
    assert StandsFor(env, ms, AllCandidates(env, ms, 0)[i], AllPlaces(env, ms, 0)[i]);
  }

  /** A mention has its number in both lists. */
  lemma NumberOf(env: Env, ms: seq<Message>, at: Place, target: string) returns (i: nat)
    requires MentionsTarget(env, ms, at, target)
    ensures i < |AllPlaces(env, ms, 0)| == |AllCandidates(env, ms, 0)|
    ensures AllPlaces(env, ms, 0)[i] == at && AllCandidates(env, ms, 0)[i].target == target
  {
    PlacesAreMentions(env, ms);
    assert at in AllPlaces(env, ms, 0);
    i :| 0 <= i < |AllPlaces(env, ms, 0)| && AllPlaces(env, ms, 0)[i] == at;
    StandsForTarget(env, ms, i);
  }

  /** In the order of places a mention comes later exactly when its number is greater. */
  lemma OrderOfNumbers(env: Env, ms: seq<Message>, i: nat, j: nat)
    requires i < |AllPlaces(env, ms, 0)| && j < |AllPlaces(env, ms, 0)|
    ensures Precedes(AllPlaces(env, ms, 0)[i], AllPlaces(env, ms, 0)[j]) <==> i < j
  {
    PlacesAreMentions(env, ms);
  }

  /** The targets that are new behind the `i`th candidate are those first mentioned behind its place. */
  lemma NewBehindIs(env: Env, ms: seq<Message>, i: nat)
    requires i < |AllPlaces(env, ms, 0)| == |AllCandidates(env, ms, 0)|
    ensures var cs := AllCandidates(env, ms, 0);
            NewBehind(env, cs[..i], cs[i], cs[i + 1..]) == FirstMentionedBehind(env, ms, AllPlaces(env, ms, 0)[i])
  {
    var cs, ps := AllCandidates(env, ms, 0), AllPlaces(env, ms, 0);
    var newer, behind := NewBehind(env, cs[..i], cs[i], cs[i + 1..]), FirstMentionedBehind(env, ms, ps[i]);
    forall u | u in newer ensures u in behind {
      NewIsMentionedBehind(env, ms, i, u);
    }
    forall u | u in behind ensures u in newer {
      MentionedBehindIsNew(env, ms, i, u);
    }
  }

  lemma NewIsMentionedBehind(env: Env, ms: seq<Message>, i: nat, u: string)
    requires i < |AllPlaces(env, ms, 0)| == |AllCandidates(env, ms, 0)|
    requires var cs := AllCandidates(env, ms, 0); u in NewBehind(env, cs[..i], cs[i], cs[i + 1..])
    ensures u in FirstMentionedBehind(env, ms, AllPlaces(env, ms, 0)[i])
  {
    var cs, ps := AllCandidates(env, ms, 0), AllPlaces(env, ms, 0);
    var c :| c in cs[i + 1..] && c.target == u;
    var j :| 0 <= j < |cs[i + 1..]| && cs[i + 1..][j] == c;
    StandsForTarget(env, ms, i + 1 + j);
    forall m | 0 <= m <= i ensures cs[m].target != u {
      assert m < i ==> cs[..i][m] in cs[..i];
    }
    forall p | MentionsTarget(env, ms, p, u) ensures Precedes(ps[i], p) {
      var n := NumberOf(env, ms, p, u);
      OrderOfNumbers(env, ms, i, n);
    }
  }

  lemma MentionedBehindIsNew(env: Env, ms: seq<Message>, i: nat, u: string)
    requires i < |AllPlaces(env, ms, 0)| == |AllCandidates(env, ms, 0)|
    requires u in FirstMentionedBehind(env, ms, AllPlaces(env, ms, 0)[i])
    ensures var cs := AllCandidates(env, ms, 0); u in NewBehind(env, cs[..i], cs[i], cs[i + 1..])
  {
    var cs, ps := AllCandidates(env, ms, 0), AllPlaces(env, ms, 0);
    var p :| MentionsTarget(env, ms, p, u);
    var n := NumberOf(env, ms, p, u);
    OrderOfNumbers(env, ms, i, n);
    assert cs[i + 1..][n - i - 1] == cs[n] && cs[n] in cs[i + 1..];
    forall m | 0 <= m <= i ensures cs[m].target != u {
      StandsForTarget(env, ms, m);
      OrderOfNumbers(env, ms, i, m);
    }
    assert u !in TargetSet(cs[..i]);
  }

  lemma FirstHasNoneInFront(env: Env, ms: seq<Message>, at: Place, target: string, i: nat)
    requires FirstMention(env, ms, at, target)
    requires i < |AllPlaces(env, ms, 0)| == |AllCandidates(env, ms, 0)| && AllPlaces(env, ms, 0)[i] == at
    ensures target !in TargetSet(AllCandidates(env, ms, 0)[..i])
  {
    var cs := AllCandidates(env, ms, 0);
    forall m | 0 <= m < i ensures cs[m].target != target {
      StandsForTarget(env, ms, m);
      OrderOfNumbers(env, ms, m, i);
      OrderOfNumbers(env, ms, i, m);
    }
  }

  function FirstWith(cs: seq<Candidate>, target: string): (k: nat)
    ensures k <= |cs| && (k < |cs| ==> cs[k].target == target)
    ensures forall m :: 0 <= m < k ==> cs[m].target != target
  {
    if cs == [] || cs[0].target == target then 0 else 1 + FirstWith(cs[1..], target)
  }

  /** Every target that is mentioned has a first mention. */
  lemma FirstOf(env: Env, ms: seq<Message>, target: string, p: Place) returns (at: Place)
    requires MentionsTarget(env, ms, p, target)
    ensures FirstMention(env, ms, at, target)
  {
    var i := FirstWith(AllCandidates(env, ms, 0), target);
    var n := NumberOf(env, ms, p, target);
    at := AllPlaces(env, ms, 0)[i];
    StandsForTarget(env, ms, i);
    forall q | MentionsTarget(env, ms, q, target) ensures q == at || Precedes(at, q) {
      NoEarlier(env, ms, i, q, target);
    }
  }

  lemma NoEarlier(env: Env, ms: seq<Message>, i: nat, q: Place, target: string)
    requires MentionsTarget(env, ms, q, target) && i < |AllPlaces(env, ms, 0)| == |AllCandidates(env, ms, 0)|
    requires forall m :: 0 <= m < i ==> AllCandidates(env, ms, 0)[m].target != target
    ensures q == AllPlaces(env, ms, 0)[i] || Precedes(AllPlaces(env, ms, 0)[i], q)
  {
    var k := NumberOf(env, ms, q, target);
    OrderOfNumbers(env, ms, i, k);
  }

  /** For a registered target the choice of the binding is that of its first mention. */
  lemma ChoiceAtFirstMention(env: Env, ms: seq<Message>, max: nat, at: Place, target: string)
    requires target in env.trusted && FirstMention(env, ms, at, target)
    ensures AmongLast(Trusted(env, FirstOccurrences(AllCandidates(env, ms, 0), {})), max, target)
       <==> |FirstMentionedBehind(env, ms, at)| < max
  {
    var cs := AllCandidates(env, ms, 0);
    var i := NumberOf(env, ms, at, target);
    FirstHasNoneInFront(env, ms, at, target, i);
    NewBehindIs(env, ms, i);
    AmongLastAt(env, cs, i, max);
  }

  lemma AmongLastAt(env: Env, cs: seq<Candidate>, i: nat, max: nat)
    requires i < |cs| && cs[i].target in env.trusted && cs[i].target !in TargetSet(cs[..i])
    ensures AmongLast(Trusted(env, FirstOccurrences(cs, {})), max, cs[i].target) <==> |NewBehind(env, cs[..i], cs[i], cs[i + 1..])| < max
  {
    assert cs == cs[..i] + [cs[i]] + cs[i + 1..];
    AmongLastIff(env, cs[..i], cs[i], cs[i + 1..], max);
  }

  lemma OnlyOneFirst(env: Env, ms: seq<Message>, a: Place, b: Place, target: string)
    requires FirstMention(env, ms, a, target) && FirstMention(env, ms, b, target)
    ensures a == b
  {
  }

  lemma AmongLastIsMentioned(env: Env, ms: seq<Message>, max: nat, target: string)
    requires AmongLast(Trusted(env, FirstOccurrences(AllCandidates(env, ms, 0), {})), max, target)
    ensures exists p :: MentionsTarget(env, ms, p, target)
  {
    var cs := AllCandidates(env, ms, 0);
    var yes := (c: Candidate) => c.target in env.trusted;
    var firsts := Trusted(env, FirstOccurrences(cs, {}));
    var k :| 0 <= k < |firsts| && |firsts| - max <= k && firsts[k].target == target;
    FilterMembers(FirstOccurrences(cs, {}), yes);
    assert firsts == Filter(FirstOccurrences(cs, {}), yes) && firsts[k] in firsts;
    FirstOccurrencesMembers(cs, {});
    var i :| 0 <= i < |cs| && cs[i] == firsts[k];
    AllPairs(env, ms, 0);
    StandsForTarget(env, ms, i);
  }

  /** The images of the output, without the candidates: a target becomes an image exactly when it is
      registered and loads, some message mentions it (a user text outside the explanation of the
      syntax, or a tool result), and fewer than `max` other registered targets are mentioned for the
      first time behind it. Each becomes one image. */
  lemma OutputImagesAreTheLatestMentions(env: Env, ms: seq<Message>, max: nat, target: string)
    requires forall k :: 0 <= k < |ms| ==> Plain(ms[k].parts)
    ensures Ready(ms, Chosen(env, ms, max))
    ensures var images := AllBound(Bind(env, ms, Chosen(env, ms, max), 0, []));
            && (target in images <==> target in env.trusted && env.load(target).None? && AmongTheLatest(env, ms, max, target))
            && images[target] <= 1
  {
    AtMostTheLatestTrusted(env, ms, max, target);
    if target in env.trusted {
      if exists p :: MentionsTarget(env, ms, p, target) {
        var p :| MentionsTarget(env, ms, p, target);
        var at := FirstOf(env, ms, target, p);
        ChoiceAtFirstMention(env, ms, max, at, target);
        if AmongTheLatest(env, ms, max, target) {
          var b :| FirstMention(env, ms, b, target) && |FirstMentionedBehind(env, ms, b)| < max;
          OnlyOneFirst(env, ms, at, b, target);
        }
      } else if AmongLast(Trusted(env, FirstOccurrences(AllCandidates(env, ms, 0), {})), max, target) {
        AmongLastIsMentioned(env, ms, max, target);
      }
    }
  }

  // ---- where the images stand -----------------------------------------------------------------------------

  /** The candidate of a first mention is chosen when few enough follow. */
  lemma FirstMentionIsChosen(env: Env, ms: seq<Message>, max: nat, at: Place, target: string) returns (c: Candidate)
    requires target in env.trusted && FirstMention(env, ms, at, target) && |FirstMentionedBehind(env, ms, at)| < max
    ensures c in Chosen(env, ms, max) && c.target == target && StandsFor(env, ms, c, at)
  {
    var cs := AllCandidates(env, ms, 0);
    var i := NumberOf(env, ms, at, target);
    AllPairs(env, ms, 0);
    assert StandsFor(env, ms, cs[i], AllPlaces(env, ms, 0)[i]);
    FirstHasNoneInFront(env, ms, at, target, i);
    assert forall j :: 0 <= j < i ==> cs[..i][j] in cs[..i];
    KeepsTheFirst(cs, {}, i);
    ChoiceAtFirstMention(env, ms, max, at, target);
    FirstIsLatest(env, FirstOccurrences(cs, {}), cs[i], max, cs);
    c := cs[i];
  }

  lemma FirstIsLatest(env: Env, firsts: seq<Candidate>, c: Candidate, max: nat, cs: seq<Candidate>)
    requires firsts == FirstOccurrences(cs, {}) && c in firsts && c.target in env.trusted
    requires AmongLast(Trusted(env, firsts), max, c.target)
    ensures c in Latest(Trusted(env, firsts), max)
  {
    FirstOccurrencesAreDistinct(cs, {});
    TrustedKeeps(env, firsts, c);
    LatestOfDistinct(Trusted(env, firsts), c, max);
  }

  lemma TrustedKeeps(env: Env, firsts: seq<Candidate>, c: Candidate)
    requires DistinctTargets(firsts) && c in firsts && c.target in env.trusted
    ensures DistinctTargets(Trusted(env, firsts)) && c in Trusted(env, firsts)
  {
    var yes := (d: Candidate) => d.target in env.trusted;
    FilterKeepsDistinct(firsts, yes);
    FilterMembers(firsts, yes);
    assert Trusted(env, firsts) == Filter(firsts, yes);
  }

  lemma LatestOfDistinct(cs: seq<Candidate>, c: Candidate, max: nat)
    requires DistinctTargets(cs) && c in cs && AmongLast(cs, max, c.target)
    ensures c in Latest(cs, max)
  {
    var n :| 0 <= n < |cs| && cs[n] == c;
    var k :| 0 <= k < |cs| && |cs| - max <= k && cs[k].target == c.target;
    assert n == k;
    var drop := if |cs| > max then |cs| - max else 0;
    assert Latest(cs, max)[k - drop] == c;
  }

  /** Behind a part that ends with this marker stands the image. */
  ghost predicate ImageBehind(parts: seq<Part>, marker: string, image: Part) {
    exists p :: 0 < p < |parts| && parts[p] == image && EndsWith(parts[p - 1], marker)
  }

  lemma ImageBehindConcat(a: seq<Part>, b: seq<Part>, marker: string, image: Part)
    requires ImageBehind(a, marker, image) || ImageBehind(b, marker, image)
    ensures ImageBehind(a + b, marker, image)
  {
    var all := a + b;
    if ImageBehind(a, marker, image) {
      var p :| 0 < p < |a| && a[p] == image && EndsWith(a[p - 1], marker);
      assert all[p] == a[p] && all[p - 1] == a[p - 1];
    } else {
      var p :| 0 < p < |b| && b[p] == image && EndsWith(b[p - 1], marker);
      assert all[|a| + p] == b[p] && all[|a| + p - 1] == b[p - 1];
    }
  }

  lemma TextHasImage(env: Env, text: string, here: seq<Candidate>, c: Candidate)
    requires InOrder(|text|, 0, here) && c in here
    ensures c.start <= c.end <= |text| && ImageBehind(InlineText(env, text, 0, here), text[c.start..c.end], ImagePart(env, c.target))
  {
    var k :| 0 <= k < |here| && here[k] == c;
    ImageFollowsItsMarker(env, text, 0, here, k);
  }

  /** Each selected marker of a message has its image behind it. */
  lemma {:induction false} PartsHaveImage(env: Env, parts: seq<Part>, cs: seq<Candidate>, q: nat, c: Candidate)
    requires Placed(parts, cs) && c in cs && q <= c.part < |parts| && parts[c.part].Text?
    ensures c.start <= c.end <= |parts[c.part].text|
    ensures ImageBehind(InlineParts(env, parts, cs, q), parts[c.part].text[c.start..c.end], ImagePart(env, c.target))
    decreases |parts| - q
  {
    BetweenMembers(cs, PartOf, c.part, c.part + 1);
    TextHasImage(env, parts[c.part].text, At(cs, c.part), c);
    if q < c.part {
      PartsHaveImage(env, parts, cs, q + 1, c);
    }
    ImageBehindConcat(InlinePart(env, parts[q], At(cs, q)), InlineParts(env, parts, cs, q + 1),
                      parts[c.part].text[c.start..c.end], ImagePart(env, c.target));
  }

  lemma MessageIsEmitted(env: Env, ms: seq<Message>, chosen: seq<Candidate>, i: nat, pending: seq<string>, m: OutMessage)
    requires i < |ms| && Ready(ms, chosen) && ms[i].role != ToolRole && m == Kept(i, Inlined(env, ms[i], Selected(chosen, i)))
    ensures m in Emitted(env, ms, chosen, i, pending)
  {
  }

  /** One step of a list that is put together from the front. */
  ghost predicate TakesStep(f: (nat, seq<string>) -> seq<OutMessage>, e: (nat, seq<string>) -> seq<OutMessage>,
                            o: (nat, seq<string>) -> seq<string>, a: nat, p: seq<string>) {
    f(a, p) == e(a, p) + f(a + 1, o(a, p))
  }

  lemma {:induction false} Reaches(f: (nat, seq<string>) -> seq<OutMessage>, e: (nat, seq<string>) -> seq<OutMessage>,
                                   o: (nat, seq<string>) -> seq<string>, i: nat, p: seq<string>, j: nat)
    returns (front: seq<OutMessage>, q: seq<string>)
    requires i <= j && forall a: nat, r :: a < j ==> TakesStep(f, e, o, a, r)
    ensures f(i, p) == front + f(j, q)
    decreases j - i
  {
    if i == j {
      front, q := [], p;
    } else {
      assert TakesStep(f, e, o, i, p);
      front, q := Reaches(f, e, o, i + 1, o(i, p), j);
      Regroup(e(i, p), front, f(j, q));
      front := e(i, p) + front;
    }
  }

  ghost function BindOf(env: Env, ms: seq<Message>, chosen: seq<Candidate>): (nat, seq<string>) -> seq<OutMessage>
    requires Ready(ms, chosen)
  {
    (i: nat, p: seq<string>) => if i <= |ms| then Bind(env, ms, chosen, i, p) else []
  }

  ghost function EmittedOf(env: Env, ms: seq<Message>, chosen: seq<Candidate>): (nat, seq<string>) -> seq<OutMessage>
    requires Ready(ms, chosen)
  {
    (i: nat, p: seq<string>) => if i < |ms| then Emitted(env, ms, chosen, i, p) else []
  }

  function OwedOf(ms: seq<Message>, chosen: seq<Candidate>): (nat, seq<string>) -> seq<string> {
    (i: nat, p: seq<string>) => if i < |ms| then Owed(ms, chosen, i, p) else []
  }

  lemma BindTakesStep(env: Env, ms: seq<Message>, chosen: seq<Candidate>, a: nat, p: seq<string>)
    requires a < |ms| && Ready(ms, chosen)
    ensures TakesStep(BindOf(env, ms, chosen), EmittedOf(env, ms, chosen), OwedOf(ms, chosen), a, p)
  {
    BindParts(env, ms, chosen, a, p, Owed(ms, chosen, a, p));
  }

  /** The output reaches every message with something owed. */
  lemma BindReaches(env: Env, ms: seq<Message>, chosen: seq<Candidate>, j: nat) returns (front: seq<OutMessage>, q: seq<string>)
    requires j <= |ms| && Ready(ms, chosen)
    ensures Bind(env, ms, chosen, 0, []) == front + Bind(env, ms, chosen, j, q)
  {
    forall a: nat, r | a < j ensures TakesStep(BindOf(env, ms, chosen), EmittedOf(env, ms, chosen), OwedOf(ms, chosen), a, r) {
      BindTakesStep(env, ms, chosen, a, r);
    }
    front, q := Reaches(BindOf(env, ms, chosen), EmittedOf(env, ms, chosen), OwedOf(ms, chosen), 0, [], j);
  }

  lemma BindParts(env: Env, ms: seq<Message>, chosen: seq<Candidate>, i: nat, pending: seq<string>, owed: seq<string>)
    requires i < |ms| && Ready(ms, chosen) && owed == Owed(ms, chosen, i, pending)
    ensures Bind(env, ms, chosen, i, pending) == Emitted(env, ms, chosen, i, pending) + Bind(env, ms, chosen, i + 1, owed)
  {
  }

  /** A message that is no tool message is in the output. */
  lemma MessageIsThere(env: Env, ms: seq<Message>, chosen: seq<Candidate>, msg: nat, m: OutMessage)
    requires msg < |ms| && Ready(ms, chosen) && ms[msg].role != ToolRole && m == Kept(msg, Inlined(env, ms[msg], Selected(chosen, msg)))
    ensures m in Bind(env, ms, chosen, 0, [])
  {
    var front, q := BindReaches(env, ms, chosen, msg);
    BindParts(env, ms, chosen, msg, q, Owed(ms, chosen, msg, q));
    MessageIsEmitted(env, ms, chosen, msg, q, m);
  }

  /** A message that is put in and carries the image, directly behind the tool block that begins at or
      reaches over `from`. */
  ghost predicate CarriedBehindBlock(ms: seq<Message>, out: seq<OutMessage>, from: nat, target: string) {
    exists k :: CarriedAt(ms, out, k, from, target)
  }

  ghost predicate CarriedAt(ms: seq<Message>, out: seq<OutMessage>, k: nat, from: nat, target: string) {
    0 < k < |out| && out[k].Inserted? && Bound(target) in out[k].message.parts && EndsBlock(ms, out[k - 1], from)
  }

  /** The last message of the block of tool messages that `from` belongs to. */
  function BlockEnd(ms: seq<Message>, from: nat): (end: nat)
    ensures from <= end && (from < |ms| ==> end < |ms|)
    ensures forall j :: from < j <= end ==> j < |ms| && ms[j].role == ToolRole
    ensures end + 1 < |ms| ==> ms[end + 1].role != ToolRole
    decreases |ms| - from
  {
    if from + 1 < |ms| && ms[from + 1].role == ToolRole then BlockEnd(ms, from + 1) else from
  }

  predicate EndsBlock(ms: seq<Message>, m: OutMessage, from: nat) {
    m.Kept? && m.index == BlockEnd(ms, from)
  }

  lemma {:induction false} ImagePartIsThere(env: Env, targets: seq<string>, target: string)
    requires target in targets && Loads(env, target)
    ensures Bound(target) in ImageParts(env, targets)
  {
    if targets[0] != target {
      ImagePartIsThere(env, targets[1..], target);
    }
  }

  /** Behind the last message of a block stands what the block owes. */
  lemma BlockIsFlushed(env: Env, ms: seq<Message>, chosen: seq<Candidate>, i: nat, owed: seq<string>, target: string)
    requires i <= |ms| && Ready(ms, chosen) && (i < |ms| ==> ms[i].role != ToolRole)
    requires target in owed && Loads(env, target)
    ensures var rest := Bind(env, ms, chosen, i, owed);
            rest != [] && rest[0] == ToolImages(env, owed) && Bound(target) in rest[0].message.parts
  {
    ImagePartIsThere(env, owed, target);
    assert Flush(env, owed) == [ToolImages(env, owed)];
  }

  lemma FlushIsCarried(ms: seq<Message>, first: OutMessage, rest: seq<OutMessage>, i: nat, target: string)
    requires i < |ms| && first == Kept(i, ms[i]) && ms[i].role == ToolRole && (i + 1 < |ms| ==> ms[i + 1].role != ToolRole)
    requires rest != [] && rest[0].Inserted? && Bound(target) in rest[0].message.parts
    ensures CarriedBehindBlock(ms, [first] + rest, i, target)
  {
    var out := [first] + rest;
    assert out[1] == rest[0] && out[0] == first;
    assert EndsBlock(ms, out[0], i);
    assert CarriedAt(ms, out, 1, i, target);
  }

  lemma BlockGoesOn(ms: seq<Message>, first: OutMessage, rest: seq<OutMessage>, i: nat, target: string)
    requires i + 1 < |ms| && ms[i + 1].role == ToolRole && CarriedBehindBlock(ms, rest, i + 1, target)
    ensures CarriedBehindBlock(ms, [first] + rest, i, target)
  {
    var out := [first] + rest;
    var k: nat :| CarriedAt(ms, rest, k, i + 1, target);
    assert out[k + 1] == rest[k] && out[k] == rest[k - 1];
    assert EndsBlock(ms, out[k], i);
    assert CarriedAt(ms, out, k + 1, i, target);
  }

  lemma ToolStep(env: Env, ms: seq<Message>, chosen: seq<Candidate>, i: nat, pending: seq<string>)
    requires i < |ms| && Ready(ms, chosen) && ms[i].role == ToolRole
    ensures Bind(env, ms, chosen, i, pending) == [Kept(i, ms[i])] + Bind(env, ms, chosen, i + 1, Owed(ms, chosen, i, pending))
    ensures forall t :: t in pending ==> t in Owed(ms, chosen, i, pending)
  {
  }

  /** What a block of tool messages owes is put in behind the block. */
  lemma {:induction false} OwedIsCarried(env: Env, ms: seq<Message>, chosen: seq<Candidate>, i: nat, pending: seq<string>, target: string)
    requires i < |ms| && Ready(ms, chosen) && ms[i].role == ToolRole && Loads(env, target)
    requires target in Owed(ms, chosen, i, pending)
    ensures CarriedBehindBlock(ms, Bind(env, ms, chosen, i, pending), i, target)
    decreases |ms| - i
  {
    var owed := Owed(ms, chosen, i, pending);
    var rest := Bind(env, ms, chosen, i + 1, owed);
    ToolStep(env, ms, chosen, i, pending);
    if i + 1 < |ms| && ms[i + 1].role == ToolRole {
      ToolStep(env, ms, chosen, i + 1, owed);
      OwedIsCarried(env, ms, chosen, i + 1, owed, target);
      BlockGoesOn(ms, Kept(i, ms[i]), rest, i, target);
    } else {
      BlockIsFlushed(env, ms, chosen, i + 1, owed, target);
      FlushIsCarried(ms, Kept(i, ms[i]), rest, i, target);
    }
  }

  lemma CarriedFurther(ms: seq<Message>, a: seq<OutMessage>, b: seq<OutMessage>, k: nat, from: nat, target: string)
    requires CarriedAt(ms, b, k, from, target)
    ensures CarriedAt(ms, a + b, |a| + k, from, target)
  {
    assert (a + b)[|a| + k] == b[k] && (a + b)[|a| + k - 1] == b[k - 1];
  }

  lemma ToolImageIsOwed(env: Env, ms: seq<Message>, chosen: seq<Candidate>, pending: seq<string>, c: Candidate)
    requires c.msg < |ms| && ms[c.msg].role == ToolRole && c in chosen
    ensures c.target in Owed(ms, chosen, c.msg, pending)
  {
    BetweenMembers(chosen, MsgOf, c.msg, c.msg + 1);
    SortKeeps(Between(chosen, MsgOf, c.msg, c.msg + 1));
    TargetIsOwed(Selected(chosen, c.msg), c);
  }

  lemma ToolImageIsHere(env: Env, ms: seq<Message>, chosen: seq<Candidate>, pending: seq<string>, c: Candidate) returns (k: nat)
    requires c.msg < |ms| && Ready(ms, chosen) && ms[c.msg].role == ToolRole && c in chosen && Loads(env, c.target)
    ensures CarriedAt(ms, Bind(env, ms, chosen, c.msg, pending), k, c.msg, c.target)
  {
    ToolImageIsOwed(env, ms, chosen, pending, c);
    OwedIsCarried(env, ms, chosen, c.msg, pending, c.target);
    k :| CarriedAt(ms, Bind(env, ms, chosen, c.msg, pending), k, c.msg, c.target);
  }

  /** A tool result's image is in the whole output. */
  lemma ToolImageIsThere(env: Env, ms: seq<Message>, chosen: seq<Candidate>, c: Candidate) returns (k: nat)
    requires c.msg < |ms| && Ready(ms, chosen) && ms[c.msg].role == ToolRole && c in chosen && Loads(env, c.target)
    ensures CarriedAt(ms, Bind(env, ms, chosen, 0, []), k, c.msg, c.target)
  {
    var front, q := BindReaches(env, ms, chosen, c.msg);
    k := ToolImageIsHere(env, ms, chosen, q, c);
    CarriedFurther(ms, front, Bind(env, ms, chosen, c.msg, q), k, c.msg, c.target);
    k := |front| + k;
  }

  lemma TargetIsOwed(cs: seq<Candidate>, c: Candidate)
    requires c in cs
    ensures c.target in Targets(cs)
  {
    var k :| 0 <= k < |cs| && cs[k] == c;
    assert Targets(cs)[k] == c.target;
  }

  /** The text between the brackets of a marker, brackets included. */
  function MarkerText(env: Env, ms: seq<Message>, at: Place): string
    requires at.msg < |ms| && at.part < |Texts(ms[at.msg])| && Texts(ms[at.msg])[at.part].Some?
    requires at.k < |SpansFrom(env.read, Texts(ms[at.msg])[at.part].value, 0)|
  {
    var text := Texts(ms[at.msg])[at.part].value;
    var span := SpansFrom(env.read, text, 0)[at.k];
    if span.start <= span.end <= |text| then text[span.start..span.end] else ""
  }

  /** Every image stands where it is first mentioned: in a user message directly behind the text that
      ends with its marker, and for a tool result in the message that is put in behind that block of
      tool messages. */
  lemma ImagesStandWhereMentioned(env: Env, ms: seq<Message>, max: nat, at: Place, target: string)
    requires FirstMention(env, ms, at, target) && |FirstMentionedBehind(env, ms, at)| < max
    requires target in env.trusted && env.load(target).None?
    ensures Ready(ms, Chosen(env, ms, max))
    ensures var out := Bind(env, ms, Chosen(env, ms, max), 0, []);
            if ms[at.msg].role == UserRole
            then exists m :: m in out && m.Kept? && m.index == at.msg && ImageBehind(m.message.parts, MarkerText(env, ms, at), Bound(target))
            else ms[at.msg].role == ToolRole && CarriedBehindBlock(ms, out, at.msg, target)
  {
    var chosen := Chosen(env, ms, max);
    AllReady(env, ms, max);
    var c := FirstMentionIsChosen(env, ms, max, at, target);
    if ms[at.msg].role == UserRole {
      var m := UserImageIsThere(env, ms, chosen, at, c);
    } else {
      var k := ToolImageIsThere(env, ms, chosen, c);
    }
  }

  lemma SelectedFor(chosen: seq<Candidate>, c: Candidate)
    requires c in chosen
    ensures c in Selected(chosen, c.msg)
  {
    BetweenMembers(chosen, MsgOf, c.msg, c.msg + 1);
    SortKeeps(Between(chosen, MsgOf, c.msg, c.msg + 1));
  }

  lemma InlinedHasImage(env: Env, m: Message, cs: seq<Candidate>, c: Candidate)
    requires Placed(m.parts, cs) && c in cs && c.part < |m.parts| && m.parts[c.part].Text?
    ensures c.start <= c.end <= |m.parts[c.part].text|
    ensures ImageBehind(Inlined(env, m, cs).parts, m.parts[c.part].text[c.start..c.end], ImagePart(env, c.target))
  {
    PartsHaveImage(env, m.parts, cs, 0, c);
  }

  lemma UserImageIsThere(env: Env, ms: seq<Message>, chosen: seq<Candidate>, at: Place, c: Candidate) returns (m: OutMessage)
    requires Ready(ms, chosen) && c in chosen && StandsFor(env, ms, c, at) && ms[at.msg].role == UserRole && Loads(env, c.target)
    ensures m in Bind(env, ms, chosen, 0, []) && m.Kept? && m.index == at.msg
    ensures ImageBehind(m.message.parts, MarkerText(env, ms, at), Bound(c.target))
  {
    m := Kept(at.msg, Inlined(env, ms[at.msg], Selected(chosen, at.msg)));
    SelectedFor(chosen, c);
    InlinedHasImage(env, ms[at.msg], Selected(chosen, at.msg), c);
    MessageIsThere(env, ms, chosen, at.msg, m);
  }
}
