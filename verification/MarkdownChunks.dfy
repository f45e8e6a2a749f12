// Splitting a Markdown document into paragraphs and code blocks before it is compiled.

module MarkdownChunks {
  import opened Base
  import opened Markup

  function StripCarriageReturn(line: string): string {
    if line != "" && line[|line| - 1] == '\r' then line[..|line| - 1] else line
  }

  /** `str::lines`. */
  function Lines(text: string): seq<string>
    decreases |text|
  {
    if text == "" then []
    else
      var line := UpToNewline(text);
      if |line| == |text| then [line] else [StripCarriageReturn(line)] + Lines(text[|line| + 1..])
  }

  predicate IsFence(line: string) {
    "```" <= TrimStart(line)
  }

  /** White space only: `str::trim` leaves nothing. */
  predicate IsBlank(s: string) {
    forall i :: 0 <= i < |s| ==> IsSpace(s[i])
  }

  /** The chunk in progress, and whether it is a code block. */
  datatype Progress = Progress(current: string, inCode: bool)

  /** What a chunk in progress gives when it ends. */
  function Finished(current: string): seq<string> {
    if IsBlank(current) then [] else [TrimEnd(current)]
  }

  /** One line: the chunk that it finishes, if any, and what is in progress behind it. */
  function Step(p: Progress, line: string): (seq<string>, Progress) {
    var longer := p.current + line + "\n";
    if IsFence(line) then
      if p.inCode then ([TrimEnd(longer)], Progress("", false))
      else (Finished(p.current), Progress(if IsBlank(p.current) then longer else line + "\n", true))
    else if !p.inCode && IsBlank(line) then (Finished(longer), Progress("", false))
    else ([], Progress(longer, p.inCode))
  }

  /** The chunks of the remaining lines. */
  function Chunks(lines: seq<string>, p: Progress): seq<string>
    decreases |lines|
  {
    if lines == [] then Finished(p.current)
    else
      var (done, next) := Step(p, lines[0]);
      done + Chunks(lines[1..], next)
  }

  const START := Progress("", false)

  /** The body of the loop, with its three variables. */
  method TakeLine(chunks: seq<string>, current: string, inCode: bool, line: string)
    returns (chunks': seq<string>, current': string, inCode': bool)
    ensures var (done, next) := Step(Progress(current, inCode), line);
            chunks' == chunks + done && Progress(current', inCode') == next
  {
    chunks', current', inCode' := chunks, current, inCode;
    if IsFence(line) {
      if inCode {
        current' := current' + line;
        current' := current' + "\n";
        chunks' := chunks' + [TrimEnd(current')];
        current' := "";
        inCode' := false;
      } else {
        if !IsBlank(current') {
          chunks' := chunks' + [TrimEnd(current')];
          current' := "";
        }
        inCode' := true;
        current' := current' + line;
        current' := current' + "\n";
        assert "" + line + "\n" == line + "\n";
      }
    } else {
      current' := current' + line;
      current' := current' + "\n";
      if !inCode && IsBlank(line) {
        if !IsBlank(current') {
          chunks' := chunks' + [TrimEnd(current')];
        }
        current' := "";
      }
    }
  }

  method SplitMarkdownSemantic(text: string) returns (chunks: seq<string>)
    ensures chunks == Chunks(Lines(text), START)
  {
    chunks := [];
    var current := "";
    var inCode := false;
    var lines := Lines(text);
    assert lines[0..] == lines;
    for i := 0 to |lines|
      invariant chunks + Chunks(lines[i..], Progress(current, inCode)) == Chunks(lines, START)
    {
      ChunksStep(chunks, lines[i..], Progress(current, inCode));
      assert lines[i..][1..] == lines[i + 1..];
      chunks, current, inCode := TakeLine(chunks, current, inCode, lines[i]);
    }
    if !IsBlank(current) {
      chunks := chunks + [TrimEnd(current)];
    }
  }

  lemma ChunksStep(chunks: seq<string>, lines: seq<string>, p: Progress)
    requires lines != []
    ensures var (done, next) := Step(p, lines[0]);
            chunks + Chunks(lines, p) == chunks + done + Chunks(lines[1..], next)
  {
  }

  // ---- a closed code block is one chunk ------------------------------------------

  function Join(lines: seq<string>): string {
    if lines == [] then "" else lines[0] + "\n" + Join(lines[1..])
  }

  lemma JoinCons(current: string, line: string, rest: seq<string>)
    ensures current + Join([line] + rest) == current + line + "\n" + Join(rest)
  {
    assert ([line] + rest)[1..] == rest;
  }

  lemma ChunksCons(line: string, rest: seq<string>, p: Progress)
    ensures var (done, next) := Step(p, line); Chunks([line] + rest, p) == done + Chunks(rest, next)
  {
    assert ([line] + rest)[1..] == rest;
  }

  lemma CodeLineIsTaken(line: string, rest: seq<string>, current: string)
    requires !IsFence(line)
    ensures Chunks([line] + rest, Progress(current, true)) == Chunks(rest, Progress(current + line + "\n", true))
  {
    ChunksCons(line, rest, Progress(current, true));
  }

  lemma {:induction false} BodyIsCollected(body: seq<string>, rest: seq<string>, current: string)
    requires forall line :: line in body ==> !IsFence(line)
    ensures Chunks(body + rest, Progress(current, true)) == Chunks(rest, Progress(current + Join(body), true))
    decreases |body|
  {
    if body == [] {
      assert body + rest == rest && current + "" == current;
    } else {
      var line, more := body[0], body[1..];
      assert body == [line] + more && line in body;
      Regroup([line], more, rest);
      CodeLineIsTaken(line, more + rest, current);
      BodyIsCollected(more, rest, current + line + "\n");
      JoinCons(current, line, more);
    }
  }

  lemma OpeningStep(open: string, current: string)
    requires IsFence(open) && (IsBlank(current) <==> current == "")
    ensures Step(Progress(current, false), open) == (if current == "" then [] else [TrimEnd(current)], Progress(open + "\n", true))
  {
    assert "" + open + "\n" == open + "\n";
  }

  /** A code block, whatever it contains, becomes one chunk of its own, even when blank lines or
      paragraphs surround it or stand inside it. */
  lemma ClosedBlockIsOneChunk(open: string, body: seq<string>, close: string, rest: seq<string>, current: string)
    requires IsFence(open) && IsFence(close) && forall line :: line in body ==> !IsFence(line)
    requires IsBlank(current) <==> current == ""
    ensures Chunks([open] + (body + ([close] + rest)), Progress(current, false)) ==
            (if current == "" then [] else [TrimEnd(current)])
            + ([TrimEnd(open + "\n" + Join(body) + close + "\n")] + Chunks(rest, START))
  {
    OpeningStep(open, current);
    ChunksCons(open, body + ([close] + rest), Progress(current, false));
    BodyIsCollected(body, [close] + rest, open + "\n");
    ChunksCons(close, rest, Progress(open + "\n" + Join(body), true));
  }

  // ---- a paragraph is one chunk -----------------------------------------------------

  lemma {:induction false} TrimEndOfSpace(s: string)
    ensures TrimEnd(s) == "" <==> IsBlank(s)
  {
    if s != "" {
      var init := s[..|s| - 1];
      TrimEndOfSpace(init);
      assert IsBlank(s) <==> IsBlank(init) && IsSpace(s[|s| - 1]);
    }
  }

  lemma {:induction false} TrimStartOfSpace(s: string)
    ensures IsBlank(TrimStart(s)) <==> IsBlank(s)
  {
    if s != "" {
      TrimStartOfSpace(s[1..]);
      assert IsBlank(s) <==> IsSpace(s[0]) && IsBlank(s[1..]) by {
        assert forall i :: 0 <= i < |s[1..]| ==> s[1..][i] == s[i + 1];
        assert forall i :: 0 < i < |s| ==> s[i] == s[1..][i - 1];
      }
    }
  }

  lemma BlankIffTrimmedAway(s: string)
    ensures IsBlank(s) <==> Trim(s) == ""
  {
    TrimEndOfSpace(TrimStart(s));
    TrimStartOfSpace(s);
  }

  lemma {:induction false} TrimEndDropsSpace(a: string, b: string)
    requires IsBlank(b)
    ensures TrimEnd(a + b) == TrimEnd(a)
    decreases |b|
  {
    if b == "" {
      assert a + b == a;
    } else {
      assert (a + b)[..|a + b| - 1] == a + b[..|b| - 1];
      TrimEndDropsSpace(a, b[..|b| - 1]);
    }
  }

  lemma BlankIsNoFence(line: string)
    requires IsBlank(line)
    ensures !IsFence(line)
  {
    var t := TrimStart(line);
    TrimStartOfSpace(line);
    assert t == "";
  }

  /** A blank line outside a code block ends the paragraph in front of it. */
  lemma StepAtBlank(current: string, blank: string)
    requires IsBlank(blank)
    ensures Step(Progress(current, false), blank)
         == (if IsBlank(current) then [] else [TrimEnd(current)], START)
  {
    BlankIsNoFence(blank);
    BlankAddsNothing(current, blank, current + blank + "\n");
  }

  lemma BlankAddsNothing(current: string, blank: string, longer: string)
    requires IsBlank(blank) && longer == current + blank + "\n"
    ensures IsBlank(longer) <==> IsBlank(current)
    ensures TrimEnd(longer) == TrimEnd(current)
  {
    BlankLineIsSpace(blank);
    Regroup(current, blank, "\n");
    TrimEndDropsSpace(current, blank + "\n");
    LongerIsBlankIff(current, blank + "\n");
  }

  lemma BlankLineIsSpace(blank: string)
    requires IsBlank(blank)
    ensures IsBlank(blank + "\n")
  {
    assert IsSpace('\n');
  }

  lemma LongerIsBlankIff(text: string, more: string)
    requires IsBlank(more)
    ensures IsBlank(text + more) <==> IsBlank(text)
  {
    if !IsBlank(text) {
      var i :| 0 <= i < |text| && !IsSpace(text[i]);
      assert (text + more)[i] == text[i];
    }
  }

  /** A line of a paragraph. */
  predicate Ordinary(line: string) {
    !IsFence(line) && !IsBlank(line)
  }

  lemma StepAtText(current: string, line: string)
    requires Ordinary(line)
    ensures Step(Progress(current, false), line) == ([], Progress(current + line + "\n", false))
  {
  }

  lemma TextLineIsTaken(line: string, rest: seq<string>, current: string)
    requires Ordinary(line)
    ensures Chunks([line] + rest, Progress(current, false)) == Chunks(rest, Progress(current + line + "\n", false))
  {
    StepAtText(current, line);
    ChunksCons(line, rest, Progress(current, false));
  }

  lemma {:induction false} ParagraphIsCollected(body: seq<string>, rest: seq<string>, current: string)
    requires forall line :: line in body ==> Ordinary(line)
    ensures Chunks(body + rest, Progress(current, false)) == Chunks(rest, Progress(current + Join(body), false))
    decreases |body|
  {
    if body == [] {
      assert body + rest == rest && current + "" == current;
    } else {
      var line, more := body[0], body[1..];
      assert body == [line] + more && line in body;
      Regroup([line], more, rest);
      TextLineIsTaken(line, more + rest, current);
      ParagraphIsCollected(more, rest, current + line + "\n");
      JoinCons(current, line, more);
    }
  }

  /** A blank line that stands behind nothing leaves no chunk. */
  lemma BlankLinesAreSkipped(blank: string, rest: seq<string>)
    requires IsBlank(blank)
    ensures Chunks([blank] + rest, START) == Chunks(rest, START)
  {
    StepAtBlank("", blank);
    ChunksCons(blank, rest, START);
    assert [] + Chunks(rest, START) == Chunks(rest, START);
  }

  /** Lines up to a blank line become one chunk of their own. */
  lemma ParagraphIsOneChunk(body: seq<string>, blank: string, rest: seq<string>)
    requires body != [] && forall line :: line in body ==> Ordinary(line)
    requires IsBlank(blank)
    ensures Chunks(body + ([blank] + rest), START) == [TrimEnd(Join(body))] + Chunks(rest, START)
  {
    assert "" + Join(body) == Join(body);
    ParagraphIsCollected(body, [blank] + rest, "");
    assert body[0] in body;
    TextIsNotBlank(body);
    ParagraphEnds(Join(body), blank, rest);
  }

  /** And so do lines up to the end. */
  lemma LastParagraphIsOneChunk(body: seq<string>)
    requires body != [] && forall line :: line in body ==> Ordinary(line)
    ensures Chunks(body, START) == [TrimEnd(Join(body))]
  {
    assert "" + Join(body) == Join(body);
    ParagraphIsCollected(body, [], "");
    assert body + [] == body;
    assert body[0] in body;
    TextIsNotBlank(body);
    ParagraphEnds(Join(body), "", []);
  }

  lemma ParagraphEnds(text: string, blank: string, rest: seq<string>)
    requires !IsBlank(text) && IsBlank(blank)
    ensures Chunks([blank] + rest, Progress(text, false)) == [TrimEnd(text)] + Chunks(rest, START)
    ensures Chunks([], Progress(text, false)) == [TrimEnd(text)]
  {
    StepAtBlank(text, blank);
    ChunksCons(blank, rest, Progress(text, false));
  }

  lemma TextIsNotBlank(body: seq<string>)
    requires body != [] && !IsBlank(body[0])
    ensures !IsBlank(Join(body))
  {
    var i :| 0 <= i < |body[0]| && !IsSpace(body[0][i]);
    assert Join(body)[i] == body[0][i];
  }

  // ---- nothing but whitespace is lost ----------------------------------------------

  /** The characters that are not whitespace. */
  function Ink(s: string): string {
    if s == "" then "" else (if IsSpace(s[0]) then "" else [s[0]]) + Ink(s[1..])
  }

  function InkAll(ss: seq<string>): string {
    if ss == [] then "" else Ink(ss[0]) + InkAll(ss[1..])
  }

  lemma {:induction false} InkConcat(a: string, b: string)
    ensures Ink(a + b) == Ink(a) + Ink(b)
  {
    if a == "" {
      assert a + b == b;
    } else {
      assert (a + b)[1..] == a[1..] + b;
      InkConcat(a[1..], b);
    }
  }

  lemma InkSpace(c: char)
    requires IsSpace(c)
    ensures Ink([c]) == ""
  {
    assert [c][1..] == "";
  }

  lemma {:induction false} InkTrimEnd(s: string)
    ensures Ink(TrimEnd(s)) == Ink(s)
    decreases |s|
  {
    if s != "" && IsSpace(s[|s| - 1]) {
      var n := |s| - 1;
      InkTrimEnd(s[..n]);
      assert s == s[..n] + [s[n]];
      InkConcat(s[..n], [s[n]]);
      InkSpace(s[n]);
      assert Ink(s[..n]) + "" == Ink(s[..n]);
    }
  }

  lemma {:induction false} InkTrimStart(s: string)
    ensures Ink(TrimStart(s)) == Ink(s)
  {
    if s != "" && IsSpace(s[0]) {
      InkTrimStart(s[1..]);
    }
  }

  lemma BlankHasNoInk(s: string)
    requires IsBlank(s)
    ensures Ink(s) == ""
  {
    BlankIffTrimmedAway(s);
    InkTrimStart(s);
    InkTrimEnd(TrimStart(s));
  }

  lemma InkOfLine(line: string)
    ensures Ink(line + "\n") == Ink(line)
    ensures Ink(StripCarriageReturn(line)) == Ink(line)
  {
    InkConcat(line, "\n");
    InkSpace('\n');
    assert "\n" == ['\n'];
    assert Ink(line) + "" == Ink(line);
    if line != "" && line[|line| - 1] == '\r' {
      var n := |line| - 1;
      assert line == line[..n] + ['\r'];
      InkConcat(line[..n], ['\r']);
      InkSpace('\r');
      assert Ink(line[..n]) + "" == Ink(line[..n]);
    }
  }

  lemma {:induction false} InkOfLines(text: string)
    ensures InkAll(Lines(text)) == Ink(text)
    decreases |text|
  {
    if text != "" {
      var line := UpToNewline(text);
      if |line| == |text| {
        assert line == text;
        assert Lines(text)[1..] == [];
        assert Ink(text) + "" == Ink(text);
      } else {
        var rest := text[|line| + 1..];
        InkOfLines(rest);
        assert text == (line + "\n") + rest;
        InkConcat(line + "\n", rest);
        InkOfLine(line);
        assert Lines(text)[1..] == Lines(rest);
      }
    }
  }

  lemma InkOfLonger(current: string, line: string)
    ensures Ink(current + line + "\n") == Ink(current) + Ink(line)
    ensures Ink(line + "\n") == Ink(line)
  {
    InkOfLine(current + line);
    InkConcat(current, line);
    InkOfLine(line);
  }

  lemma InkAllCons(s: string, rest: seq<string>)
    ensures InkAll([s] + rest) == Ink(s) + InkAll(rest)
  {
    assert ([s] + rest)[1..] == rest;
  }

  lemma {:induction false} InkAllConcat(a: seq<string>, b: seq<string>)
    ensures InkAll(a + b) == InkAll(a) + InkAll(b)
  {
    if a == [] {
      assert a + b == b;
    } else {
      InkAllCons(a[0], a[1..] + b);
      InkAllCons(a[0], a[1..]);
      assert [a[0]] + (a[1..] + b) == a + b && [a[0]] + a[1..] == a;
      InkAllConcat(a[1..], b);
      Regroup(Ink(a[0]), InkAll(a[1..]), InkAll(b));
    }
  }

  lemma InkAllOne(s: string)
    ensures InkAll([s]) == Ink(s)
  {
    assert [s][1..] == [];
    assert Ink(s) + "" == Ink(s);
  }

  lemma InkOfFinished(current: string)
    ensures InkAll(Finished(current)) == Ink(current) == InkAll([TrimEnd(current)])
    ensures IsBlank(current) ==> Ink(current) == ""
  {
    InkTrimEnd(current);
    InkAllOne(TrimEnd(current));
    if IsBlank(current) {
      BlankHasNoInk(current);
    }
  }

  /** The ink of the finished chunks and of the chunk in progress is that of what was in progress and
      of the line. */
  ghost predicate KeepsInk(current: string, line: string, done: seq<string>, next: string) {
    InkAll(done) + Ink(next) == Ink(current) + Ink(line)
  }

  lemma ClosingKeepsInk(current: string, line: string, longer: string)
    requires longer == current + line + "\n"
    ensures KeepsInk(current, line, [TrimEnd(longer)], "") && KeepsInk(current, line, Finished(longer), "")
    ensures KeepsInk(current, line, [], longer)
  {
    InkOfLonger(current, line);
    InkOfFinished(longer);
    assert Ink("") == "" && InkAll([]) == "";
    assert Ink(longer) + "" == Ink(longer) && "" + Ink(longer) == Ink(longer);
  }

  lemma OpeningKeepsInk(current: string, line: string, block: string)
    requires block == line + "\n"
    ensures KeepsInk(current, line, Finished(current), block)
  {
    InkOfLonger(current, line);
    InkOfFinished(current);
  }

  lemma BlankKeepsInk(current: string, line: string, longer: string)
    requires longer == current + line + "\n" && IsBlank(current)
    ensures KeepsInk(current, line, Finished(current), longer)
  {
    ClosingKeepsInk(current, line, longer);
  }

  /** A line moves its ink into the finished chunk or into the chunk in progress. */
  lemma InkOfStep(p: Progress, line: string)
    ensures var (done, next) := Step(p, line); KeepsInk(p.current, line, done, next.current)
  {
    ClosingKeepsInk(p.current, line, p.current + line + "\n");
    OpeningKeepsInk(p.current, line, line + "\n");
    if IsBlank(p.current) {
      BlankKeepsInk(p.current, line, p.current + line + "\n");
    }
  }

  lemma {:induction false} InkOfChunks(lines: seq<string>, p: Progress)
    ensures InkAll(Chunks(lines, p)) == Ink(p.current) + InkAll(lines)
    decreases |lines|
  {
    if lines == [] {
      InkOfFinished(p.current);
    } else {
      var (done, next) := Step(p, lines[0]);
      InkOfStep(p, lines[0]);
      InkOfChunks(lines[1..], next);
      InkAllConcat(done, Chunks(lines[1..], next));
      Regroup(InkAll(done), Ink(next.current), InkAll(lines[1..]));
      Regroup(Ink(p.current), Ink(lines[0]), InkAll(lines[1..]));
    }
  }

  /** Whatever the document, its chunks hold all its characters except whitespace, in order. */
  lemma NoInkIsLost(text: string)
    ensures InkAll(Chunks(Lines(text), START)) == Ink(text)
  {
    InkOfChunks(Lines(text), START);
    InkOfLines(text);
    assert Ink("") + Ink(text) == Ink(text);
  }
}
