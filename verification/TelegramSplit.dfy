// Cutting an outgoing message into parts that fit the platform's limit. Strings are their UTF-8
// bytes; an offset is a character boundary unless a continuation byte stands there.

module TelegramSplit {
  import opened Base

  type Byte = b: int | 0 <= b < 256

  const LT: Byte := 60
  const GT: Byte := 62
  const SPACE: Byte := 32
  const NEWLINE: Byte := 10

  predicate IsContinuation(b: Byte) {
    128 <= b < 192
  }

  predicate IsBoundary(s: seq<Byte>, i: int) {
    0 <= i <= |s| && (i == |s| || !IsContinuation(s[i]))
  }

  /** What a `&str` guarantees and the cutting relies on: a character starts the string, and no
      character is longer than four bytes (section 3 of RFC 3629). */
  predicate ValidUtf8(s: seq<Byte>) {
    && (s != [] ==> !IsContinuation(s[0]))
    && forall i :: 0 <= i < |s| - 3 ==>
         !(IsContinuation(s[i]) && IsContinuation(s[i + 1]) && IsContinuation(s[i + 2]) && IsContinuation(s[i + 3]))
  }

  predicate IsAscii(s: seq<Byte>) {
    forall i :: 0 <= i < |s| ==> s[i] < 128
  }

  function Flatten(chunks: seq<seq<Byte>>): seq<Byte> {
    if chunks == [] then [] else Flatten(chunks[..|chunks| - 1]) + chunks[|chunks| - 1]
  }

  lemma FlattenPush(chunks: seq<seq<Byte>>, chunk: seq<Byte>)
    ensures Flatten(chunks + [chunk]) == Flatten(chunks) + chunk
  {
    assert (chunks + [chunk])[..|chunks|] == chunks;
  }

  /** `str::floor_char_boundary`. */
  function Floor(s: seq<Byte>, i: nat): (f: nat)
    requires i <= |s| && ValidUtf8(s)
    ensures f <= i && IsBoundary(s, f)
    ensures forall j :: f < j <= i ==> !IsBoundary(s, j)
    decreases i
  {
    if IsBoundary(s, i) then i else Floor(s, i - 1)
  }

  lemma FloorIsNear(s: seq<Byte>, i: nat)
    requires i <= |s| && ValidUtf8(s)
    ensures i - Floor(s, i) <= 3
  {
    if i >= 3 {
      var j := if IsBoundary(s, i) then i else if IsBoundary(s, i - 1) then i - 1
               else if IsBoundary(s, i - 2) then i - 2 else i - 3;
      assert IsBoundary(s, j);
    }
  }

  // ---- plain text ----------------------------------------------------------------

  /** Parts of any text: lossless, not empty, and within the limit. */
  ghost predicate GoodChunks(s: seq<Byte>, chunks: seq<seq<Byte>>, maxLen: nat) {
    && Flatten(chunks) == s
    && forall c :: c in chunks ==> |c| <= maxLen && (s != [] ==> c != [])
  }

  /** The part starts a character. */
  predicate ValidStart(c: seq<Byte>) {
    c != [] ==> !IsContinuation(c[0])
  }

  /** Good parts that each start a character. */
  ghost predicate GoodParts(s: seq<Byte>, chunks: seq<seq<Byte>>, maxLen: nat) {
    GoodChunks(s, chunks, maxLen) && forall c :: c in chunks ==> ValidStart(c)
  }

  /** With four bytes of room every step makes progress; see `NarrowLimitGetsStuck` for less. */
  method SplitText(text: seq<Byte>, maxLen: nat) returns (chunks: seq<seq<Byte>>)
    requires ValidUtf8(text) && maxLen >= 4
    ensures GoodParts(text, chunks, maxLen)
  {
    if |text| <= maxLen {
      WholeIsGood(text, maxLen);
      return [text];
    }
    chunks := [];
    var start: nat := 0;
    while start < |text|
      invariant start <= |text| && IsBoundary(text, start)
      invariant Parts(text, chunks, start, maxLen)
      decreases |text| - start
    {
      FloorMovesOn(text, start, maxLen);
      var end := Floor(text, Min(start + maxLen, |text|));
      PushPart(text, chunks, start, end, maxLen);
      chunks := chunks + [text[start..end]];
      start := end;
    }
    PartsAreGood(text, chunks, maxLen);
  }

  lemma WholeIsGood(text: seq<Byte>, maxLen: nat)
    requires ValidUtf8(text) && |text| <= maxLen
    ensures GoodParts(text, [text], maxLen)
  {
    var none: seq<seq<Byte>> := [];
    FlattenPush(none, text);
    assert none + [text] == [text] && Flatten(none) + text == text;
  }

  lemma FloorMovesOn(text: seq<Byte>, start: nat, maxLen: nat)
    requires ValidUtf8(text) && start < |text| && maxLen >= 4
    ensures start < Floor(text, Min(start + maxLen, |text|)) <= start + maxLen
  {
    var limit := Min(start + maxLen, |text|);
    FloorIsNear(text, limit);
    assert IsBoundary(text, |text|);
  }

  lemma PartsAreGood(text: seq<Byte>, chunks: seq<seq<Byte>>, maxLen: nat)
    requires Parts(text, chunks, |text|, maxLen)
    ensures GoodParts(text, chunks, maxLen)
  {
    assert text[..|text|] == text;
  }

  /** The parts of a text up to `start`. */
  ghost predicate Parts(text: seq<Byte>, chunks: seq<seq<Byte>>, start: nat, maxLen: nat)
    requires start <= |text|
  {
    Flatten(chunks) == text[..start] && forall c :: c in chunks ==> 0 < |c| <= maxLen && ValidStart(c)
  }

  lemma PushPart(text: seq<Byte>, chunks: seq<seq<Byte>>, start: nat, end: nat, maxLen: nat)
    requires start < end <= |text| && end - start <= maxLen && IsBoundary(text, start)
    requires Parts(text, chunks, start, maxLen)
    ensures Parts(text, chunks + [text[start..end]], end, maxLen)
  {
    FlattenPush(chunks, text[start..end]);
    assert text[..start] + text[start..end] == text[..end];
  }

  /** With a smaller limit a character wider than the limit leaves the cursor where it is, and
      nothing else does. */
  lemma NarrowLimitGetsStuck(text: seq<Byte>, start: nat, maxLen: nat)
    requires ValidUtf8(text) && start + maxLen <= |text| && IsBoundary(text, start)
    ensures Floor(text, start + maxLen) == start <==> forall j :: start < j <= start + maxLen ==> !IsBoundary(text, j)
    ensures Floor(text, start + maxLen) >= start
  {
    assert forall j :: Floor(text, start + maxLen) < j <= start + maxLen ==> !IsBoundary(text, j);
  }

  // ---- HTML ----------------------------------------------------------------------

  /** Whether the last angle bracket before `i`, if any, closes a tag. */
  function OutsideTag(s: seq<Byte>, i: nat): bool
    requires i <= |s|
  {
    if i == 0 then true
    else if s[i - 1] == LT then false
    else if s[i - 1] == GT then true
    else OutsideTag(s, i - 1)
  }

  method IsOutsideTag(html: seq<Byte>, idx: nat) returns (outside: bool)
    ensures outside == OutsideTag(html, Min(idx, |html|))
  {
    var inTag := false;
    for i := 0 to Min(idx, |html|)
      invariant !inTag == OutsideTag(html, i)
    {
      if html[i] == LT {
        inTag := true;
      } else if html[i] == GT {
        inTag := false;
      }
    }
    outside := !inTag;
  }

  /** The positions that `match_indices` yields: leftmost matches that do not overlap. */
  function Matches(s: seq<Byte>, from: nat, end: nat, pattern: seq<Byte>): seq<nat>
    requires from <= end <= |s| && pattern != []
    decreases end - from
  {
    if from + |pattern| > end then []
    else if s[from..from + |pattern|] == pattern then [from] + Matches(s, from + |pattern|, end, pattern)
    else Matches(s, from + 1, end, pattern)
  }

  lemma {:induction false} MatchesDescribe(s: seq<Byte>, from: nat, end: nat, pattern: seq<Byte>)
    requires from <= end <= |s| && pattern != []
    ensures forall k :: 0 <= k < |Matches(s, from, end, pattern)| ==>
              from <= Matches(s, from, end, pattern)[k] && Matches(s, from, end, pattern)[k] + |pattern| <= end
              && s[Matches(s, from, end, pattern)[k]..Matches(s, from, end, pattern)[k] + |pattern|] == pattern
    decreases end - from
  {
    if from + |pattern| <= end {
      if s[from..from + |pattern|] == pattern {
        MatchesDescribe(s, from + |pattern|, end, pattern);
      } else {
        MatchesDescribe(s, from + 1, end, pattern);
      }
    }
  }

  /** The end of the last match that ends outside a tag. */
  function LastOutside(s: seq<Byte>, ms: seq<nat>, width: nat): (best: Option<nat>)
    requires forall k :: 0 <= k < |ms| ==> ms[k] + width <= |s|
    ensures best.Some? ==> best.value <= |s| && OutsideTag(s, best.value) && exists k :: 0 <= k < |ms| && best.value == ms[k] + width
  {
    if ms == [] then None
    else if OutsideTag(s, ms[|ms| - 1] + width) then Some(ms[|ms| - 1] + width)
    else LastOutside(s, ms[..|ms| - 1], width)
  }

  lemma LastOutsideIsAMatch(html: seq<Byte>, start: nat, targetEnd: nat, pattern: seq<Byte>)
    requires start <= targetEnd <= |html| && pattern != []
    requires forall k :: 0 <= k < |Matches(html, start, targetEnd, pattern)| ==> Matches(html, start, targetEnd, pattern)[k] + |pattern| <= |html|
    ensures var best := LastOutside(html, Matches(html, start, targetEnd, pattern), |pattern|);
            best.Some? ==>
              && start < best.value <= targetEnd && OutsideTag(html, best.value)
              && html[best.value - 1] == pattern[|pattern| - 1]
  {
    var ms := Matches(html, start, targetEnd, pattern);
    var best := LastOutside(html, ms, |pattern|);
    MatchesDescribe(html, start, targetEnd, pattern);
    if best.Some? {
      var k :| 0 <= k < |ms| && best.value == ms[k] + |pattern|;
      assert html[ms[k]..best.value][|pattern| - 1] == pattern[|pattern| - 1];
    }
  }

  method FindBestSplit(html: seq<Byte>, start: nat, targetEnd: nat, pattern: seq<Byte>) returns (best: Option<nat>)
    requires start <= targetEnd <= |html| && pattern != []
    ensures best == LastMatch(html, start, targetEnd, pattern)
    ensures best.Some? ==> start < best.value <= targetEnd && OutsideTag(html, best.value)
    ensures best.Some? ==> html[best.value - 1] == pattern[|pattern| - 1]
  {
    MatchesDescribe(html, start, targetEnd, pattern);
    best := PickLast(html, Matches(html, start, targetEnd, pattern), |pattern|);
    LastOutsideIsAMatch(html, start, targetEnd, pattern);
  }

  method PickLast(html: seq<Byte>, ms: seq<nat>, width: nat) returns (best: Option<nat>)
    requires forall k :: 0 <= k < |ms| ==> ms[k] + width <= |html|
    ensures best == LastOutside(html, ms, width)
  {
    best := None;
    for k := 0 to |ms|
      invariant best == LastOutside(html, ms[..k], width)
    {
      assert ms[..k + 1][..k] == ms[..k];
      var outside := IsOutsideTag(html, ms[k] + width);
      if outside {
        best := Some(ms[k] + width);
      }
    }
    assert ms[..|ms|] == ms;
  }

  predicate EndsSentence(b: Byte) {
    b == 46 || b == 33 || b == 63
  }

  /** The end of the last sentence that ends outside a tag. */
  function LastSentence(html: seq<Byte>, start: nat, end: nat): (best: Option<nat>)
    requires start <= end <= |html|
    ensures best.Some? ==> start < best.value <= end && OutsideTag(html, best.value) && EndsSentence(html[best.value - 1])
    ensures forall i :: (if best.Some? then best.value else start) <= i < end && EndsSentence(html[i]) ==> !OutsideTag(html, i + 1)
    decreases end
  {
    if end == start then None
    else if EndsSentence(html[end - 1]) && OutsideTag(html, end) then Some(end)
    else LastSentence(html, start, end - 1)
  }

  method FindSentenceSplit(html: seq<Byte>, start: nat, targetEnd: nat) returns (best: Option<nat>)
    requires start <= targetEnd <= |html|
    ensures best == LastSentence(html, start, targetEnd)
    ensures best.Some? ==> start < best.value <= targetEnd && OutsideTag(html, best.value) && EndsSentence(html[best.value - 1])
    ensures forall i :: (if best.Some? then best.value else start) <= i < targetEnd && EndsSentence(html[i]) ==> !OutsideTag(html, i + 1)
  {
    best := None;
    for i := start to targetEnd
      invariant best == LastSentence(html, start, i)
    {
      if EndsSentence(html[i]) {
        var outside := IsOutsideTag(html, i + 1);
        if outside {
          best := Some(i + 1);
        }
      }
    }
  }

  /** An ASCII byte is never part of a longer character, so the offset behind it is a boundary
      in every valid string; the boundary is stated here for the bytes the splitter looks at. */
  ghost predicate AsciiBefore(s: seq<Byte>, i: nat) {
    0 < i <= |s| && s[i - 1] < 128
  }

  /** The last boundary outside a tag, or `start`. */
  function LastCharacter(html: seq<Byte>, start: nat, end: nat): (idx: nat)
    requires start <= end <= |html|
    ensures start <= idx <= end && (idx > start ==> IsBoundary(html, idx) && OutsideTag(html, idx))
    ensures forall i :: idx < i <= end && IsBoundary(html, i) ==> !OutsideTag(html, i)
    decreases end
  {
    if end == start || (IsBoundary(html, end) && OutsideTag(html, end)) then end else LastCharacter(html, start, end - 1)
  }

  function LastMatch(html: seq<Byte>, start: nat, end: nat, pattern: seq<Byte>): (best: Option<nat>)
    requires start <= end <= |html| && pattern != []
    ensures best.Some? ==> start < best.value <= end && OutsideTag(html, best.value)
    ensures best.Some? ==> html[best.value - 1] == pattern[|pattern| - 1]
  {
    MatchesDescribe(html, start, end, pattern);
    LastOutsideIsAMatch(html, start, end, pattern);
    LastOutside(html, Matches(html, start, end, pattern), |pattern|)
  }

  /** Where to cut a window: behind a paragraph, a sentence, a space, or any character outside a
      tag; `start` when the whole window lies inside a tag. */
  function SafeSplit(html: seq<Byte>, start: nat, targetEnd: nat): (cut: nat)
    requires start <= targetEnd <= |html|
    ensures start <= cut <= targetEnd
    ensures cut > start ==> OutsideTag(html, cut) && (AsciiBefore(html, cut) || IsBoundary(html, cut))
    ensures cut == start ==> forall i :: start < i <= targetEnd && IsBoundary(html, i) ==> !OutsideTag(html, i)
  {
    var paragraph := LastMatch(html, start, targetEnd, [NEWLINE, NEWLINE]);
    var sentence := LastSentence(html, start, targetEnd);
    var space := LastMatch(html, start, targetEnd, [SPACE]);
    if paragraph.Some? then paragraph.value
    else if sentence.Some? then sentence.value
    else if space.Some? then space.value
    else LastCharacter(html, start, targetEnd)
  }

  lemma {:induction false} LastOutsideIsLast(s: seq<Byte>, ms: seq<nat>, width: nat)
    requires forall k :: 0 <= k < |ms| ==> ms[k] + width <= |s|
    requires forall i, j :: 0 <= i < j < |ms| ==> ms[i] < ms[j]
    ensures var best := LastOutside(s, ms, width);
            && (best.Some? <==> exists k :: 0 <= k < |ms| && OutsideTag(s, ms[k] + width))
            && (best.Some? ==> forall k :: 0 <= k < |ms| && OutsideTag(s, ms[k] + width) ==> ms[k] + width <= best.value)
  {
    if ms != [] && !OutsideTag(s, ms[|ms| - 1] + width) {
      var init := ms[..|ms| - 1];
      LastOutsideIsLast(s, init, width);
      assert forall k :: 0 <= k < |init| ==> init[k] == ms[k];
    }
  }

  lemma {:induction false} MatchesIncrease(s: seq<Byte>, from: nat, end: nat, pattern: seq<Byte>)
    requires from <= end <= |s| && pattern != []
    ensures forall k :: 0 <= k < |Matches(s, from, end, pattern)| ==> from <= Matches(s, from, end, pattern)[k]
    ensures forall i, j :: 0 <= i < j < |Matches(s, from, end, pattern)| ==> Matches(s, from, end, pattern)[i] < Matches(s, from, end, pattern)[j]
    decreases end - from
  {
    if from + |pattern| <= end {
      if s[from..from + |pattern|] == pattern {
        MatchesIncrease(s, from + |pattern|, end, pattern);
        assert Matches(s, from, end, pattern) == [from] + Matches(s, from + |pattern|, end, pattern);
      } else {
        MatchesIncrease(s, from + 1, end, pattern);
        assert Matches(s, from, end, pattern) == Matches(s, from + 1, end, pattern);
      }
    }
  }

  /** Every occurrence of a pattern is a listed match or overlaps one in front of it. */
  lemma {:induction false} MatchesCover(s: seq<Byte>, from: nat, end: nat, pattern: seq<Byte>, at: nat) returns (k: nat)
    requires from <= at && at + |pattern| <= end <= |s| && pattern != [] && s[at..at + |pattern|] == pattern
    ensures k < |Matches(s, from, end, pattern)|
    ensures Matches(s, from, end, pattern)[k] <= at < Matches(s, from, end, pattern)[k] + |pattern|
    decreases end - from
  {
    if s[from..from + |pattern|] == pattern {
      var rest := Matches(s, from + |pattern|, end, pattern);
      assert Matches(s, from, end, pattern) == [from] + rest;
      if at < from + |pattern| {
        k := 0;
      } else {
        k := MatchesCover(s, from + |pattern|, end, pattern, at);
        k := k + 1;
      }
    } else {
      k := MatchesCover(s, from + 1, end, pattern, at);
    }
  }

  /** The positions behind an empty line, a sentence end and a space that lie outside a tag. */
  predicate BehindParagraph(html: seq<Byte>, start: nat, i: int) {
    start + 2 <= i <= |html| && html[i - 2] == html[i - 1] == NEWLINE && OutsideTag(html, i)
  }

  predicate BehindSentence(html: seq<Byte>, start: nat, i: int) {
    start < i <= |html| && EndsSentence(html[i - 1]) && OutsideTag(html, i)
  }

  predicate BehindSpace(html: seq<Byte>, start: nat, i: int) {
    start < i <= |html| && html[i - 1] == SPACE && OutsideTag(html, i)
  }

  /** The match that was picked, and that no later one qualifies. */
  lemma LastMatchIs(html: seq<Byte>, start: nat, end: nat, pattern: seq<Byte>, k: int)
    requires start <= end <= |html| && pattern != []
    requires 0 <= k < |Matches(html, start, end, pattern)|
    ensures Matches(html, start, end, pattern)[k] + |pattern| <= |html|
    ensures OutsideTag(html, Matches(html, start, end, pattern)[k] + |pattern|) ==>
              var best := LastMatch(html, start, end, pattern);
              best.Some? && Matches(html, start, end, pattern)[k] + |pattern| <= best.value
  {
    MatchesDescribe(html, start, end, pattern);
    MatchesIncrease(html, start, end, pattern);
    LastOutsideIsLast(html, Matches(html, start, end, pattern), |pattern|);
  }

  lemma LastMatchMatches(html: seq<Byte>, start: nat, end: nat, pattern: seq<Byte>)
    requires start <= end <= |html| && pattern != []
    ensures var best := LastMatch(html, start, end, pattern);
            best.Some? ==>
              && start + |pattern| <= best.value <= end && OutsideTag(html, best.value)
              && html[best.value - |pattern|..best.value] == pattern
  {
    MatchesDescribe(html, start, end, pattern);
    var ms := Matches(html, start, end, pattern);
    var best := LastMatch(html, start, end, pattern);
    if best.Some? {
      var k :| 0 <= k < |ms| && best.value == ms[k] + |pattern|;
      assert html[ms[k]..ms[k] + |pattern|] == pattern;
    }
  }

  lemma ParagraphIsFound(html: seq<Byte>, start: nat, end: nat, i: int)
    requires start <= end <= |html| && i <= end && BehindParagraph(html, start, i)
    ensures LastMatch(html, start, end, [NEWLINE, NEWLINE]).Some?
    ensures i <= LastMatch(html, start, end, [NEWLINE, NEWLINE]).value + 1
  {
    var pattern := [NEWLINE, NEWLINE];
    assert html[i - 2..i] == pattern;
    var k := MatchesCover(html, start, end, pattern, i - 2);
    LastMatchIs(html, start, end, pattern, k);
    assert OutsideTag(html, i) == OutsideTag(html, i - 1);
  }

  lemma SpaceIsFound(html: seq<Byte>, start: nat, end: nat, i: int)
    requires start <= end <= |html| && i <= end && BehindSpace(html, start, i)
    ensures LastMatch(html, start, end, [SPACE]).Some?
    ensures i <= LastMatch(html, start, end, [SPACE]).value
  {
    assert html[i - 1..i] == [SPACE];
    var k := MatchesCover(html, start, end, [SPACE], i - 1);
    LastMatchIs(html, start, end, [SPACE], k);
  }

  lemma SentenceIsFound(html: seq<Byte>, start: nat, end: nat, i: int)
    requires start <= end <= |html| && i <= end && BehindSentence(html, start, i)
    ensures LastSentence(html, start, end).Some? && i <= LastSentence(html, start, end).value
  {
    var j: nat := i - 1;
    assert EndsSentence(html[j]) && OutsideTag(html, j + 1);
  }

  lemma FoundIsBehind(html: seq<Byte>, start: nat, end: nat)
    requires start <= end <= |html|
    ensures var p := LastMatch(html, start, end, [NEWLINE, NEWLINE]); p.Some? ==> p.value <= end && BehindParagraph(html, start, p.value)
    ensures var p := LastMatch(html, start, end, [SPACE]); p.Some? ==> p.value <= end && BehindSpace(html, start, p.value)
    ensures var p := LastSentence(html, start, end); p.Some? ==> p.value <= end && BehindSentence(html, start, p.value)
  {
    var p, q := LastMatch(html, start, end, [NEWLINE, NEWLINE]), LastMatch(html, start, end, [SPACE]);
    LastMatchMatches(html, start, end, [NEWLINE, NEWLINE]);
    LastMatchMatches(html, start, end, [SPACE]);
    if p.Some? {
      var m := html[p.value - 2..p.value];
      assert m[0] == html[p.value - 2] && m[1] == html[p.value - 1];
    }
    if q.Some? {
      assert html[q.value - 1..q.value][0] == html[q.value - 1];
    }
  }

  ghost predicate HasParagraph(html: seq<Byte>, start: nat, end: nat) {
    exists i :: i <= end && BehindParagraph(html, start, i)
  }

  ghost predicate HasSentence(html: seq<Byte>, start: nat, end: nat) {
    exists i :: i <= end && BehindSentence(html, start, i)
  }

  ghost predicate HasSpace(html: seq<Byte>, start: nat, end: nat) {
    exists i :: i <= end && BehindSpace(html, start, i)
  }

  /** A window is cut behind an empty line when it has one outside a tag, the last one up to a further
      line end; else behind its last sentence, else behind its last space, outside tags; and only
      without any of these between other characters. */
  lemma SplitPrefersParagraphs(html: seq<Byte>, start: nat, end: nat)
    requires start <= end <= |html|
    ensures var cut := SafeSplit(html, start, end);
            if HasParagraph(html, start, end) then
              BehindParagraph(html, start, cut) && forall i :: i <= end && BehindParagraph(html, start, i) ==> i <= cut + 1
            else if HasSentence(html, start, end) then
              BehindSentence(html, start, cut) && forall i :: i <= end && BehindSentence(html, start, i) ==> i <= cut
            else if HasSpace(html, start, end) then
              BehindSpace(html, start, cut) && forall i :: i <= end && BehindSpace(html, start, i) ==> i <= cut
            else cut == LastCharacter(html, start, end)
  {
    FoundIsBehind(html, start, end);
    forall i | i <= end && BehindParagraph(html, start, i)
      ensures LastMatch(html, start, end, [NEWLINE, NEWLINE]).Some? && i <= LastMatch(html, start, end, [NEWLINE, NEWLINE]).value + 1
    {
      ParagraphIsFound(html, start, end, i);
    }
    forall i | i <= end && BehindSpace(html, start, i)
      ensures LastMatch(html, start, end, [SPACE]).Some? && i <= LastMatch(html, start, end, [SPACE]).value
    {
      SpaceIsFound(html, start, end, i);
    }
    forall i | i <= end && BehindSentence(html, start, i)
      ensures LastSentence(html, start, end).Some? && i <= LastSentence(html, start, end).value
    {
      SentenceIsFound(html, start, end, i);
    }
  }

  method FindSafeSplit(html: seq<Byte>, start: nat, targetEnd: nat) returns (cut: nat)
    requires start <= targetEnd <= |html|
    ensures cut == SafeSplit(html, start, targetEnd) && start <= cut <= targetEnd
    ensures cut > start ==> OutsideTag(html, cut) && (AsciiBefore(html, cut) || IsBoundary(html, cut))
    ensures cut == start ==> forall i :: start < i <= targetEnd && IsBoundary(html, i) ==> !OutsideTag(html, i)
  {
    var paragraph := FindBestSplit(html, start, targetEnd, [NEWLINE, NEWLINE]);
    if paragraph.Some? {
      return paragraph.value;
    }
    var sentence := FindSentenceSplit(html, start, targetEnd);
    if sentence.Some? {
      return sentence.value;
    }
    var space := FindBestSplit(html, start, targetEnd, [SPACE]);
    if space.Some? {
      return space.value;
    }
    cut := FindCharacterSplit(html, start, targetEnd);
  }

  method FindCharacterSplit(html: seq<Byte>, start: nat, targetEnd: nat) returns (idx: nat)
    requires start <= targetEnd <= |html|
    ensures idx == LastCharacter(html, start, targetEnd) && start <= idx <= targetEnd
    ensures idx > start ==> IsBoundary(html, idx) && OutsideTag(html, idx)
    ensures forall i :: idx < i <= targetEnd && IsBoundary(html, i) ==> !OutsideTag(html, i)
  {
    idx := targetEnd;
    while idx > start
      invariant start <= idx <= targetEnd
      invariant LastCharacter(html, start, targetEnd) == LastCharacter(html, start, idx)
    {
      var outside := IsOutsideTag(html, idx);
      if IsBoundary(html, idx) && outside {
        return idx;
      }
      idx := idx - 1;
    }
  }

  /** The cut at the end of the window [from, to] lies outside a tag, unless it is the end of the
      text or the window has no boundary outside a tag at all. */
  ghost predicate CutOk(html: seq<Byte>, from: nat, to: nat, maxLen: nat) {
    && from < to <= |html| && to - from <= maxLen && IsBoundary(html, to)
    && (to == |html| || OutsideTag(html, to)
        || forall i :: from < i <= from + maxLen && i <= |html| && IsBoundary(html, i) ==> !OutsideTag(html, i))
  }

  /** The chunks are the pieces of `html` between consecutive cuts. */
  ghost predicate CutUp(html: seq<Byte>, chunks: seq<seq<Byte>>, cuts: seq<nat>, maxLen: nat) {
    && |cuts| == |chunks| + 1 && cuts[0] == 0 && cuts[|chunks|] <= |html|
    && Flatten(chunks) == html[..cuts[|chunks|]]
    && forall k :: 0 <= k < |chunks| ==>
         CutOk(html, cuts[k], cuts[k + 1], maxLen) && chunks[k] == html[cuts[k]..cuts[k + 1]]
  }

  lemma PushCut(html: seq<Byte>, chunks: seq<seq<Byte>>, cuts: seq<nat>, maxLen: nat, end: nat)
    requires CutUp(html, chunks, cuts, maxLen) && CutOk(html, cuts[|chunks|], end, maxLen)
    ensures CutUp(html, chunks + [html[cuts[|chunks|]..end]], cuts + [end], maxLen)
  {
    var start := cuts[|chunks|];
    FlattenPush(chunks, html[start..end]);
    assert html[..start] + html[start..end] == html[..end];
  }

  /** A leading byte right behind an ASCII byte: no valid string has a continuation byte there. */
  ghost predicate NoStrayContinuation(s: seq<Byte>) {
    forall i :: 0 < i < |s| && s[i - 1] < 128 ==> !IsContinuation(s[i])
  }

  /** A window whose end is inside a character and that does not reach the end of the text. */
  predicate WindowAborts(html: seq<Byte>, start: nat, maxLen: nat) {
    IsBoundary(html, start) && start + maxLen < |html| && !IsBoundary(html, start + maxLen)
  }

  /** The end of the chunk that starts here, when the program does not abort. */
  function CutAfter(html: seq<Byte>, start: nat, maxLen: nat): (end: nat)
    requires start < |html| && maxLen >= 1
    ensures start < end <= |html|
  {
    if |html| - start <= maxLen then |html|
    else
      var splitAt := SafeSplit(html, start, start + maxLen);
      if splitAt == start then start + maxLen else splitAt
  }

  /** Whether the program aborts on the text from `start` on: a window on the way ends inside a
      character. */
  predicate Aborts(html: seq<Byte>, start: nat, maxLen: nat)
    requires start <= |html| && maxLen >= 1
    decreases |html| - start
  {
    |html| - start > maxLen && (!IsBoundary(html, start + maxLen) || Aborts(html, CutAfter(html, start, maxLen), maxLen))
  }

  /** A window that starts at one of the first `n` cuts ends inside a character. */
  predicate ReachesAbort(html: seq<Byte>, cuts: seq<nat>, n: nat, maxLen: nat)
    requires n <= |cuts|
  {
    exists k :: 0 <= k < n && WindowAborts(html, cuts[k], maxLen)
  }

  /** The state of the splitting loop. */
  ghost predicate Cutting(html: seq<Byte>, chunks: seq<seq<Byte>>, cuts: seq<nat>, start: nat, maxLen: nat) {
    && CutUp(html, chunks, cuts, maxLen) && start == cuts[|chunks|] && IsBoundary(html, start)
    && !ReachesAbort(html, cuts, |chunks|, maxLen)
  }

  lemma CuttingStarts(html: seq<Byte>, maxLen: nat)
    requires ValidUtf8(html)
    ensures Cutting(html, [], [0], 0, maxLen)
  {
    assert html[..0] == [];
  }

  lemma CuttingGoesOn(html: seq<Byte>, chunks: seq<seq<Byte>>, cuts: seq<nat>, start: nat, end: nat, maxLen: nat)
    requires Cutting(html, chunks, cuts, start, maxLen)
    requires CutOk(html, start, end, maxLen) && !WindowAborts(html, start, maxLen)
    ensures Cutting(html, chunks + [html[start..end]], cuts + [end], end, maxLen)
  {
    PushCut(html, chunks, cuts, maxLen, end);
    var more := cuts + [end];
    assert forall k :: 0 <= k < |chunks| ==> more[k] == cuts[k];
    assert more[|chunks|] == start;
  }

  /** The pieces are the whole text, within the limit and cut outside tags where possible, and no
      window on the way ended inside a character. */
  ghost predicate SplitWell(html: seq<Byte>, chunks: seq<seq<Byte>>, cuts: seq<nat>, maxLen: nat) {
    && CutUp(html, chunks, cuts, maxLen) && cuts[|chunks|] == |html|
    && GoodChunks(html, chunks, maxLen) && !ReachesAbort(html, cuts, |cuts|, maxLen)
  }

  lemma CuttingEnds(html: seq<Byte>, chunks: seq<seq<Byte>>, cuts: seq<nat>, maxLen: nat)
    requires Cutting(html, chunks, cuts, |html|, maxLen)
    ensures SplitWell(html, chunks, cuts, maxLen)
  {
    PiecesAreGood(html, chunks, cuts, maxLen);
  }

  /** The splitting came this far, and the window at the last cut ends inside a character. */
  ghost predicate AbortedAt(html: seq<Byte>, pieces: seq<seq<Byte>>, cuts: seq<nat>, maxLen: nat) {
    CutUp(html, pieces, cuts, maxLen) && WindowAborts(html, cuts[|pieces|], maxLen)
  }

  /** The loop of the splitter, for a text beyond the limit. It slices at the end of the window
      before it looks for a cut, and a slice inside a character aborts the program: the answer is
      then None, with what had been cut so far. */
  method CutHtml(html: seq<Byte>, maxLen: nat) returns (chunks: Option<seq<seq<Byte>>>, ghost cuts: seq<nat>, ghost pieces: seq<seq<Byte>>)
    requires ValidUtf8(html) && NoStrayContinuation(html) && maxLen >= 1
    ensures chunks.Some? ==> SplitWell(html, chunks.value, cuts, maxLen)
    ensures chunks.None? ==> AbortedAt(html, pieces, cuts, maxLen)
    ensures chunks.None? <==> Aborts(html, 0, maxLen)
  {
    var result: seq<seq<Byte>> := [];
    cuts, pieces := [0], [];
    var start: nat := 0;
    CuttingStarts(html, maxLen);
    while start < |html|
      invariant start <= |html| && Cutting(html, result, cuts, start, maxLen) && pieces == result
      invariant Aborts(html, 0, maxLen) <==> Aborts(html, start, maxLen)
      decreases |html| - start
    {
      var end := NextCut(html, start, maxLen);
      if end.None? {
        return None, cuts, pieces;
      }
      CuttingGoesOn(html, result, cuts, start, end.value, maxLen);
      result := result + [html[start..end.value]];
      cuts, pieces := cuts + [end.value], result;
      start := end.value;
    }
    CuttingEnds(html, result, cuts, maxLen);
    chunks := Some(result);
  }

  /** The HTML splitter: the pieces put together are the text, each is within the limit, and every
      cut respects tags; or the program aborts, exactly when a window that starts at one of its
      cuts ends inside a character, which the text alone decides. ASCII never does. */
  method SplitHtmlSafely(html: seq<Byte>, maxLen: nat)
    returns (chunks: Option<seq<seq<Byte>>>, ghost cuts: seq<nat>, ghost pieces: seq<seq<Byte>>)
    requires ValidUtf8(html) && NoStrayContinuation(html) && maxLen >= 1
    ensures chunks.Some? && |html| > maxLen ==> SplitWell(html, chunks.value, cuts, maxLen)
    ensures chunks.Some? && |html| <= maxLen ==> chunks.value == [html]
    ensures chunks.None? ==> |html| > maxLen && AbortedAt(html, pieces, cuts, maxLen)
    ensures chunks.None? <==> Aborts(html, 0, maxLen)
    ensures IsAscii(html) ==> chunks.Some?
  {
    if |html| <= maxLen {
      return Some([html]), [0], [];
    }
    chunks, cuts, pieces := CutHtml(html, maxLen);
    AsciiNeverAborts(html, maxLen);
  }

  lemma AsciiNeverAborts(html: seq<Byte>, maxLen: nat)
    ensures IsAscii(html) ==> forall start :: !WindowAborts(html, start, maxLen)
  {
  }

  lemma PiecesAreGood(html: seq<Byte>, chunks: seq<seq<Byte>>, cuts: seq<nat>, maxLen: nat)
    requires Cutting(html, chunks, cuts, |html|, maxLen)
    ensures GoodChunks(html, chunks, maxLen)
  {
    assert html[..|html|] == html;
    forall c | c in chunks ensures 0 < |c| <= maxLen {
      var k :| 0 <= k < |chunks| && chunks[k] == c;
      assert CutOk(html, cuts[k], cuts[k + 1], maxLen);
    }
  }

  lemma SplitIsBoundary(html: seq<Byte>, cut: nat)
    requires NoStrayContinuation(html) && cut <= |html| && (AsciiBefore(html, cut) || IsBoundary(html, cut))
    ensures IsBoundary(html, cut)
  {
  }

  lemma CutAfterIsOk(html: seq<Byte>, start: nat, maxLen: nat)
    requires ValidUtf8(html) && NoStrayContinuation(html) && maxLen >= 1
    requires start < |html| && IsBoundary(html, start) && !WindowAborts(html, start, maxLen)
    ensures CutOk(html, start, CutAfter(html, start, maxLen), maxLen)
  {
    if |html| - start > maxLen {
      var splitAt := SafeSplit(html, start, start + maxLen);
      if splitAt > start {
        SplitIsBoundary(html, splitAt);
      }
    }
  }

  /** One turn of the loop: the end of the next chunk, or None when the program aborts. */
  method NextCut(html: seq<Byte>, start: nat, maxLen: nat) returns (end: Option<nat>)
    requires ValidUtf8(html) && NoStrayContinuation(html) && maxLen >= 1
    requires start < |html| && IsBoundary(html, start)
    ensures end.Some? ==> CutOk(html, start, end.value, maxLen) && end.value == CutAfter(html, start, maxLen)
    ensures end.None? <==> WindowAborts(html, start, maxLen)
    ensures IsAscii(html) ==> end.Some?
  {
    if |html| - start <= maxLen {
      CutAfterIsOk(html, start, maxLen);
      return Some(|html|);
    }
    var targetEnd := start + maxLen;
    if !IsBoundary(html, targetEnd) {
      return None;
    }
    CutAfterIsOk(html, start, maxLen);
    var splitAt := FindSafeSplit(html, start, targetEnd);
    return Some(if splitAt == start then Floor(html, targetEnd) else splitAt);
  }

  /** Text whose characters all take three bytes, as most Chinese text does. */
  ghost predicate ThreeByteText(s: seq<Byte>) {
    |s| % 3 == 0 && forall i :: 0 <= i < |s| ==> (IsContinuation(s[i]) <==> i % 3 != 0)
  }

  const TELEGRAM_LIMIT := 4096

  /** The platform limit is not a multiple of three: every such text beyond the limit aborts. */
  lemma LongThreeByteTextAborts(html: seq<Byte>)
    requires ThreeByteText(html) && |html| > TELEGRAM_LIMIT
    ensures WindowAborts(html, 0, TELEGRAM_LIMIT) && Aborts(html, 0, TELEGRAM_LIMIT)
  {
    assert IsContinuation(html[TELEGRAM_LIMIT]);
  }
}
