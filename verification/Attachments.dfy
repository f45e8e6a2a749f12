// Attachment markers such as [IMAGE:path] inside message text.

module Attachments {
  import opened Base
  import opened Markup

  datatype Kind = Image | Document | Video | Audio | Voice

  datatype Attachment = Attachment(kind: Kind, target: string)

  /** A marker and the half-open range of text that it takes up, brackets included. */
  datatype Span = Span(start: nat, end: nat, attachment: Attachment)

  function KindName(kind: Kind): string {
    match kind
    case Image => "IMAGE"
    case Document => "DOCUMENT"
    case Video => "VIDEO"
    case Audio => "AUDIO"
    case Voice => "VOICE"
  }

  function ToMarker(a: Attachment): string {
    "[" + (KindName(a.kind) + (":" + a.target)) + "]"
  }

  /** Upper case as far as the comparison with the five names can tell: besides the ASCII letters
      only dotless i and long s have an ASCII letter as their upper case. */
  function UpperChar(c: char): char {
    if 'a' <= c <= 'z' then (c as int - 32) as char
    else if c == '\U{0131}' then 'I'
    else if c == '\U{017F}' then 'S'
    else c
  }

  function Upper(s: string): string {
    seq(|s|, i requires 0 <= i < |s| => UpperChar(s[i]))
  }

  function KindOf(s: string): Option<Kind> {
    KindNamed(Upper(s))
  }

  function KindNamed(name: string): Option<Kind> {
    if name == KindName(Image) then Some(Image)
    else if name == KindName(Document) then Some(Document)
    else if name == KindName(Video) then Some(Video)
    else if name == KindName(Audio) then Some(Audio)
    else if name == KindName(Voice) then Some(Voice)
    else None
  }

  /** What the text between two brackets means. */
  function ParseInner(inner: string): Option<Attachment> {
    var colon := IndexFrom(inner, 0, ':');
    if colon == |inner| then None
    else
      var kind := KindOf(inner[..colon]);
      if kind.None? then None else Some(Attachment(kind.value, Trim(inner[colon + 1..])))
  }

  /** How the text between two brackets is read; `ParseInner` is the reading of this system. What
      follows about positions holds for any. */
  type Reader = string -> Option<Attachment>

  /** The marker that starts at `i`, if any: it reaches to the first closing bracket. */
  function MarkerAt(read: Reader, s: string, i: nat): (m: Option<Span>)
    requires i < |s|
    ensures m.Some? ==> m.value.start == i && i + 1 < m.value.end <= |s| && s[i] == '[' && s[m.value.end - 1] == ']'
    ensures m.Some? ==> forall k :: i < k < m.value.end - 1 ==> s[k] != ']'
    ensures m.Some? ==> read(s[i + 1..m.value.end - 1]) == Some(m.value.attachment)
  {
    if s[i] != '[' then None
    else
      var close := IndexFrom(s, i + 1, ']');
      if close == |s| then None
      else
        var a := read(s[i + 1..close]);
        if a.None? then None else Some(Span(i, close + 1, a.value))
  }

  /** All markers from `i` on, left to right. */
  function SpansFrom(read: Reader, s: string, i: nat): seq<Span>
    requires i <= |s|
    decreases |s| - i
  {
    if i == |s| then []
    else
      var m := MarkerAt(read, s, i);
      if m.Some? then [m.value] + SpansFrom(read, s, m.value.end) else SpansFrom(read, s, i + 1)
  }

  method FindAttachmentSpans(read: Reader, content: string) returns (spans: seq<Span>)
    ensures spans == SpansFrom(read, content, 0)
  {
    spans := [];
    var i := 0;
    while i < |content|
      invariant 0 <= i <= |content| && spans + SpansFrom(read, content, i) == SpansFrom(read, content, 0)
    {
      if content[i] == '[' {
        var close := IndexFrom(content, i + 1, ']');
        if close < |content| {
          var attachment := read(content[i + 1..close]);
          if attachment.Some? {
            spans := spans + [Span(i, close + 1, attachment.value)];
            i := close + 1;
            continue;
          }
        }
      }
      i := i + 1;
    }
  }

  /** Spans come in order, do not overlap, and stay within the text. */
  ghost predicate Ordered(length: nat, from: nat, spans: seq<Span>)
    decreases |spans|
  {
    if spans == [] then from <= length
    else from <= spans[0].start < spans[0].end <= length && Ordered(length, spans[0].end, spans[1..])
  }

  lemma {:induction false} OrderedMeansDisjoint(length: nat, from: nat, spans: seq<Span>)
    requires Ordered(length, from, spans)
    ensures forall k :: 0 <= k < |spans| ==> from <= spans[k].start < spans[k].end <= length
    ensures forall j, k :: 0 <= j < k < |spans| ==> spans[j].end <= spans[k].start
    decreases |spans|
  {
    if spans != [] {
      OrderedMeansDisjoint(length, spans[0].end, spans[1..]);
    }
  }

  lemma {:induction false} SpansAreOrdered(read: Reader, s: string, i: nat)
    requires i <= |s|
    ensures Ordered(|s|, i, SpansFrom(read, s, i))
    decreases |s| - i
  {
    if i < |s| {
      var m := MarkerAt(read, s, i);
      if m.Some? {
        SpansAreOrdered(read, s, m.value.end);
      } else {
        SpansAreOrdered(read, s, i + 1);
        OrderedFromEarlier(|s|, i, i + 1, SpansFrom(read, s, i + 1));
      }
    }
  }

  lemma OrderedFromEarlier(length: nat, i: nat, from: nat, spans: seq<Span>)
    requires i <= from && Ordered(length, from, spans)
    ensures Ordered(length, i, spans)
  {
  }

  lemma {:induction false} SpansAreMarkers(read: Reader, s: string, i: nat, span: Span)
    requires i <= |s| && span in SpansFrom(read, s, i)
    ensures span.start < |s| && MarkerAt(read, s, span.start) == Some(span)
    decreases |s| - i
  {
    var m := MarkerAt(read, s, i);
    if m.None? {
      SpansAreMarkers(read, s, i + 1, span);
    } else if span != m.value {
      SpansAreMarkers(read, s, m.value.end, span);
    }
  }

  /** No marker is overlooked: every position that starts one lies inside a span. */
  lemma {:induction false} SpansAreComplete(read: Reader, s: string, i: nat, at: nat)
    requires i <= at < |s| && MarkerAt(read, s, at).Some?
    ensures exists span :: span in SpansFrom(read, s, i) && span.start <= at < span.end
    decreases |s| - i
  {
    var m := MarkerAt(read, s, i);
    if m.Some? && at < m.value.end {
      assert m.value in SpansFrom(read, s, i);
    } else {
      var next := if m.Some? then m.value.end else i + 1;
      SpansAreComplete(read, s, next, at);
      var span :| span in SpansFrom(read, s, next) && span.start <= at < span.end;
      assert span in SpansFrom(read, s, i);
    }
  }

  // ---- extraction ----------------------------------------------------------------

  /** The text outside the spans. */
  function Outside(s: string, from: nat, spans: seq<Span>): string
    requires Ordered(|s|, from, spans)
    decreases |spans|
  {
    if spans == [] then s[from..] else s[from..spans[0].start] + Outside(s, spans[0].end, spans[1..])
  }

  function AttachmentsOf(spans: seq<Span>): seq<Attachment> {
    seq(|spans|, i requires 0 <= i < |spans| => spans[i].attachment)
  }

  method ExtractAttachments(read: Reader, content: string) returns (text: string, attachments: seq<Attachment>)
    ensures Ordered(|content|, 0, SpansFrom(read, content, 0))
    ensures text == Outside(content, 0, SpansFrom(read, content, 0))
    ensures attachments == AttachmentsOf(SpansFrom(read, content, 0))
  {
    text, attachments := "", [];
    var lastEnd := 0;
    var spans := FindAttachmentSpans(read, content);
    SpansAreOrdered(read, content, 0);
    assert spans[0..] == spans;
    for k := 0 to |spans|
      invariant 0 <= lastEnd <= |content| && Ordered(|content|, lastEnd, spans[k..])
      invariant text + Outside(content, lastEnd, spans[k..]) == Outside(content, 0, spans)
      invariant attachments == AttachmentsOf(spans[..k])
    {
      var span := spans[k];
      assert spans[k..][1..] == spans[k + 1..] && spans[k..][0] == span;
      text := text + content[lastEnd..span.start];
      lastEnd := span.end;
      attachments := attachments + [span.attachment];
    }
    text := text + content[lastEnd..];
    assert spans[..|spans|] == spans;
  }

  /** Markers and remaining text, put back in their places. */
  function Rebuild(s: string, from: nat, spans: seq<Span>): string
    requires Ordered(|s|, from, spans)
    decreases |spans|
  {
    if spans == [] then s[from..]
    else s[from..spans[0].start] + s[spans[0].start..spans[0].end] + Rebuild(s, spans[0].end, spans[1..])
  }

  /** Removed markers plus remaining text are the original text, and nothing is counted twice. */
  lemma {:induction false} RebuildIsOriginal(s: string, from: nat, spans: seq<Span>)
    requires Ordered(|s|, from, spans)
    ensures from <= |s| && Rebuild(s, from, spans) == s[from..]
    ensures |Outside(s, from, spans)| + Covered(spans) == |s| - from
    decreases |spans|
  {
    if spans != [] {
      RebuildIsOriginal(s, spans[0].end, spans[1..]);
      Pieces(s, from, spans[0].start, spans[0].end);
    }
  }

  lemma Pieces(s: string, a: nat, b: nat, c: nat)
    requires a <= b <= c <= |s|
    ensures s[a..b] + s[b..c] + s[c..] == s[a..]
  {
  }

  function Covered(spans: seq<Span>): int {
    if spans == [] then 0 else spans[0].end - spans[0].start + Covered(spans[1..])
  }

  // ---- rendering and reading back ----------------------------------------------------

  lemma NamesDiffer(a: Kind, b: Kind)
    ensures KindName(a) == KindName(b) <==> a == b
  {
    assert "IMAGE"[0] == 'I' && "DOCUMENT"[0] == 'D' && "AUDIO"[0] == 'A' && "VIDEO"[0] == 'V' && "VOICE"[0] == 'V';
    assert "VIDEO"[1] == 'I' && "VOICE"[1] == 'O';
  }

  lemma NameSpellsItself(kind: Kind)
    ensures KindOf(KindName(kind)) == Some(kind) && ':' !in KindName(kind)
  {
    var name := KindName(kind);
    assert Upper(name) == name;
    NamesDiffer(kind, Image);
    NamesDiffer(kind, Document);
    NamesDiffer(kind, Video);
    NamesDiffer(kind, Audio);
    NamesDiffer(kind, Voice);
  }

  lemma {:induction false} IndexBehind(a: string, b: string, ch: char, from: nat)
    requires from <= |a| && ch !in a && b != "" && b[0] == ch
    ensures IndexFrom(a + b, from, ch) == |a|
    decreases |a| - from
  {
    if from < |a| {
      assert a[from] in a;
      IndexBehind(a, b, ch, from + 1);
    }
  }

  lemma InnerReadsBack(a: Attachment)
    ensures ParseInner(KindName(a.kind) + (":" + a.target)) == Some(Attachment(a.kind, Trim(a.target)))
  {
    var name := KindName(a.kind);
    var inner := name + (":" + a.target);
    NameSpellsItself(a.kind);
    IndexBehind(name, ":" + a.target, ':', 0);
    assert inner[..|name|] == name && inner[|name| + 1..] == a.target;
  }

  predicate Readable(a: Attachment) {
    ']' !in a.target && Trim(a.target) == a.target
  }

  lemma BracketReads(read: Reader, inner: string, rest: string)
    requires ']' !in inner && read(inner).Some?
    ensures MarkerAt(read, "[" + inner + "]" + rest, 0) == Some(Span(0, |inner| + 2, read(inner).value))
  {
    var s := "[" + inner + "]" + rest;
    assert s == ("[" + inner) + ("]" + rest);
    assert ']' !in "[" + inner;
    IndexBehind("[" + inner, "]" + rest, ']', 1);
    assert s[1..|inner| + 1] == inner;
  }

  lemma NoBracketInside(a: Attachment)
    requires ']' !in a.target
    ensures ']' !in KindName(a.kind) + (":" + a.target)
  {
    assert ']' !in KindName(a.kind);
    assert ']' !in ":" + a.target;
  }

  lemma MarkerOfInner(read: Reader, a: Attachment, inner: string, rest: string, result: Attachment)
    requires inner == KindName(a.kind) + (":" + a.target) && ']' !in inner && read(inner) == Some(result)
    ensures MarkerAt(read, ToMarker(a) + rest, 0) == Some(Span(0, |ToMarker(a)|, result))
  {
    BracketReads(read, inner, rest);
  }

  lemma {:induction false} SpansShift(read: Reader, s: string, k: nat, i: nat)
    requires k + i <= |s|
    ensures AttachmentsOf(SpansFrom(read, s, k + i)) == AttachmentsOf(SpansFrom(read, s[k..], i))
    decreases |s| - i
  {
    var t := s[k..];
    if k + i < |s| {
      MarkerShift(read, s, k, i);
      var m := MarkerAt(read, s, k + i);
      if m.Some? {
        SpansShift(read, s, k, m.value.end - k);
        var n := MarkerAt(read, t, i);
        assert AttachmentsOf(SpansFrom(read, s, k + i)) == [m.value.attachment] + AttachmentsOf(SpansFrom(read, s, m.value.end));
        assert AttachmentsOf(SpansFrom(read, t, i)) == [n.value.attachment] + AttachmentsOf(SpansFrom(read, t, n.value.end));
      } else {
        SpansShift(read, s, k, i + 1);
      }
    }
  }

  lemma MarkerShift(read: Reader, s: string, k: nat, i: nat)
    requires k + i < |s|
    ensures var m := MarkerAt(read, s, k + i);
            var n := MarkerAt(read, s[k..], i);
            && m.Some? == n.Some?
            && (m.Some? ==> m.value.end == k + n.value.end && m.value.attachment == n.value.attachment)
  {
    if s[k + i] == '[' {
      IndexShift(s, k, i + 1, ']');
      var close := IndexFrom(s, k + i + 1, ']');
      if close < |s| {
        assert s[k..][i + 1..close - k] == s[k + i + 1..close];
      }
    }
  }

  lemma {:induction false} IndexShift(s: string, k: nat, from: nat, ch: char)
    requires k + from <= |s|
    ensures IndexFrom(s, k + from, ch) == k + IndexFrom(s[k..], from, ch)
    decreases |s| - from
  {
    if k + from < |s| && s[k + from] != ch {
      IndexShift(s, k, from + 1, ch);
    }
  }

  /** The markers of a list of attachments, one behind the other. */
  function Joined(mark: Attachment -> string, attachments: seq<Attachment>): string {
    if attachments == [] then "" else mark(attachments[0]) + Joined(mark, attachments[1..])
  }

  lemma SpansFirst(read: Reader, s: string, m: nat, a: Attachment)
    requires 0 < m <= |s| && MarkerAt(read, s, 0) == Some(Span(0, m, a))
    ensures SpansFrom(read, s, 0) == [Span(0, m, a)] + SpansFrom(read, s, m)
  {
  }

  lemma FirstOfSpans(span: Span, rest: seq<Span>)
    ensures AttachmentsOf([span] + rest) == [span.attachment] + AttachmentsOf(rest)
    ensures Covered([span] + rest) == span.end - span.start + Covered(rest)
  {
    assert ([span] + rest)[1..] == rest;
  }

  /** A marker in front of a text adds its attachment to what the text yields. */
  lemma FrontMarker(read: Reader, s: string, m: nat, a: Attachment)
    requires 0 < m <= |s| && MarkerAt(read, s, 0) == Some(Span(0, m, a))
    ensures AttachmentsOf(SpansFrom(read, s, 0)) == [a] + AttachmentsOf(SpansFrom(read, s[m..], 0))
    ensures Covered(SpansFrom(read, s, 0)) == m + Covered(SpansFrom(read, s[m..], 0))
  {
    SpansFirst(read, s, m, a);
    FirstOfSpans(Span(0, m, a), SpansFrom(read, s, m));
    SpansShift(read, s, m, 0);
    CoveredShift(read, s, m, 0);
  }

  /** A text that consists of markers for these attachments and nothing else. */
  ghost predicate Yields(read: Reader, s: string, attachments: seq<Attachment>) {
    AttachmentsOf(SpansFrom(read, s, 0)) == attachments && Covered(SpansFrom(read, s, 0)) == |s|
  }

  /** `m` is read as a marker for `a`, whatever follows it. */
  ghost predicate Marks(read: Reader, m: string, a: Attachment) {
    m != "" && forall rest: string :: MarkerAt(read, m + rest, 0) == Some(Span(0, |m|, a))
  }

  lemma PutInFront(read: Reader, m: string, rest: string, a: Attachment, attachments: seq<Attachment>)
    requires Marks(read, m, a) && Yields(read, rest, attachments)
    ensures Yields(read, m + rest, [a] + attachments)
  {
    assert (m + rest)[|m|..] == rest;
    FrontMarker(read, m + rest, |m|, a);
  }

  lemma {:induction false} JoinedYields(read: Reader, mark: Attachment -> string, attachments: seq<Attachment>)
    requires forall a :: a in attachments ==> Marks(read, mark(a), a)
    ensures Yields(read, Joined(mark, attachments), attachments)
  {
    if attachments == [] {
      assert SpansFrom(read, "", 0) == [];
    } else {
      var a, rest := attachments[0], attachments[1..];
      JoinedYields(read, mark, rest);
      PutInFront(read, mark(a), Joined(mark, rest), a, rest);
      assert attachments == [a] + rest;
    }
  }

  lemma ReadableMarks(a: Attachment)
    requires Readable(a)
    ensures Marks(ParseInner, ToMarker(a), a)
  {
    var inner := KindName(a.kind) + (":" + a.target);
    InnerReadsBack(a);
    NoBracketInside(a);
    forall rest: string ensures MarkerAt(ParseInner, ToMarker(a) + rest, 0) == Some(Span(0, |ToMarker(a)|, a)) {
      MarkerOfInner(ParseInner, a, inner, rest, a);
    }
  }

  /** Rendering is undone by extraction, for any list of attachments with readable targets. */
  lemma MarkersReadBack(attachments: seq<Attachment>)
    requires forall a :: a in attachments ==> Readable(a)
    ensures Yields(ParseInner, Joined(ToMarker, attachments), attachments)
  {
    forall a | a in attachments ensures Marks(ParseInner, ToMarker(a), a) {
      ReadableMarks(a);
    }
    JoinedYields(ParseInner, ToMarker, attachments);
  }

  lemma {:induction false} CoveredShift(read: Reader, s: string, k: nat, i: nat)
    requires k + i <= |s|
    ensures Covered(SpansFrom(read, s, k + i)) == Covered(SpansFrom(read, s[k..], i))
    decreases |s| - i
  {
    if k + i < |s| {
      MarkerShift(read, s, k, i);
      var m := MarkerAt(read, s, k + i);
      CoveredShift(read, s, k, if m.Some? then m.value.end - k else i + 1);
    }
  }

  lemma {:induction false} TrimIsIdempotent(s: string)
    ensures Trim(Trim(s)) == Trim(s)
    ensures forall c :: c in Trim(s) ==> c in s
  {
    var t := TrimStart(s);
    var e := TrimEnd(t);
    assert forall c :: c in e ==> c in t;
    assert forall c :: c in t ==> c in s;
    TrimmedStays(e);
    if e != "" {
      assert e[0] == t[0];
    }
  }

  lemma TrimmedStays(e: string)
    ensures e != "" && !IsSpace(e[|e| - 1]) ==> TrimEnd(e) == e
    ensures e != "" && !IsSpace(e[0]) ==> TrimStart(e) == e
    ensures e == "" ==> TrimStart(e) == e && TrimEnd(e) == e
  {
  }

  /** One attachment survives rendering and extraction exactly when its target has no closing
      bracket and no surrounding space. */
  lemma RoundTripIffReadable(a: Attachment)
    ensures (AttachmentsOf(SpansFrom(ParseInner, ToMarker(a), 0)) == [a]) <==> Readable(a)
  {
    var s := ToMarker(a);
    if Readable(a) {
      ReadableMarks(a);
      OneMarkYields(ParseInner, s, a);
    } else if AttachmentsOf(SpansFrom(ParseInner, s, 0)) == [a] {
      var span := SpansFrom(ParseInner, s, 0)[0];
      assert AttachmentsOf(SpansFrom(ParseInner, s, 0))[0] == span.attachment;
      SpansAreMarkers(ParseInner, s, 0, span);
      ReadTargetIsReadable(s, span.start);
    }
  }

  lemma OneMarkYields(read: Reader, m: string, a: Attachment)
    requires Marks(read, m, a)
    ensures AttachmentsOf(SpansFrom(read, m, 0)) == [a]
  {
    assert m + "" == m;
    assert MarkerAt(read, m + "", 0).Some?;
    SpansFirst(read, m, |m|, a);
    FirstOfSpans(Span(0, |m|, a), SpansFrom(read, m, |m|));
  }

  /** What the scanner reads always has a readable target. */
  lemma ReadTargetIsReadable(s: string, i: nat)
    requires i < |s|
    ensures MarkerAt(ParseInner, s, i).Some? ==> Readable(MarkerAt(ParseInner, s, i).value.attachment)
  {
    var m := MarkerAt(ParseInner, s, i);
    if m.Some? {
      var inner := s[i + 1..m.value.end - 1];
      assert ']' !in inner;
      var colon := IndexFrom(inner, 0, ':');
      TrimmedIsReadable(m.value.attachment.kind, inner[colon + 1..]);
    }
  }

  lemma TrimmedIsReadable(kind: Kind, rest: string)
    requires ']' !in rest
    ensures Readable(Attachment(kind, Trim(rest)))
  {
    TrimIsIdempotent(rest);
  }
}
