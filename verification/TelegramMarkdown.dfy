// The compiler from Markdown to Telegram HTML: its grammar, the tree it reads, what it
// writes, and the plain-text fallback that undoes the writing.

module TelegramMarkdown {
  import opened Base
  import opened Utf8
  import opened Markup

  // ---- the grammar ---------------------------------------------------------------

  /** One construct at the cursor. Bold, italic and strike-through are compiled recursively. */
  datatype Piece =
    | Plain(c: char)
    | Fenced(lang: string, body: string)
    | Inline(body: string)
    | Emphasis(style: Style, inner: string)
    | Link(text: string, url: string)
    | Heading(title: string)

  datatype Style = Bold | Italic | Strike

  /** A construct and the cursor behind it. */
  datatype Read = Read(piece: Piece, next: nat)

  predicate At(c: string, i: nat, mark: string) {
    i <= |c| && mark <= c[i..]
  }

  /** `find_closing_pair`: the first position at or after `start` with `a` twice in a row. */
  function ClosingPair(c: string, start: nat, a: char): (end: Option<nat>)
    ensures end.Some? ==> start <= end.value && end.value + 1 < |c| && c[end.value] == c[end.value + 1] == a
    decreases |c| - start
  {
    if start + 1 >= |c| then None
    else if c[start] == a && c[start + 1] == a then Some(start)
    else ClosingPair(c, start + 1, a)
  }

  /** `str::find("```")` in `rest` from position `from`. */
  function FindFence(rest: string, from: nat): (end: Option<nat>)
    requires from <= |rest|
    ensures end.Some? ==> from <= end.value && end.value + 3 <= |rest|
    decreases |rest| - from
  {
    if At(rest, from, "```") then Some(from)
    else if from == |rest| then None
    else FindFence(rest, from + 1)
  }

  /** The code fence at `i`. The cursor moves by the byte length of what was skipped, although it
      counts characters. */
  function FenceAt(c: string, i: nat): (r: Option<Read>)
    requires i < |c|
    ensures r.Some? ==> r.value.next > i && r.value.piece.Fenced?
  {
    if !At(c, i, "```") then None
    else
      var rest := c[i + 3..];
      var nl := IndexFrom(rest, 0, '\n');
      var bodyStart := if nl < |rest| then nl + 1 else 0;
      var lang := if nl < |rest| then Trim(rest[..nl]) else "";
      var end := FindFence(rest, bodyStart);
      if end.None? then None
      else Some(Read(Fenced(lang, TrimEnd(rest[bodyStart..end.value])), i + 3 + ByteLen(rest[..end.value]) + 3))
  }

  function InlineAt(c: string, i: nat): (r: Option<Read>)
    requires i < |c|
    ensures r.Some? ==> r.value.next > i && r.value.piece.Inline?
  {
    if c[i] != '`' then None
    else
      var j := IndexFrom(c, i + 1, '`');
      if j == |c| then None else Some(Read(Inline(c[i + 1..j]), j + 1))
  }

  function PairAt(c: string, i: nat, mark: char, style: Style): (r: Option<Read>)
    requires i < |c|
    ensures r.Some? ==> r.value.next > i && r.value.piece.Emphasis? && |r.value.piece.inner| < |c|
  {
    if !At(c, i, [mark, mark]) then None
    else
      var end := ClosingPair(c, i + 2, mark);
      if end.None? then None else Some(Read(Emphasis(style, c[i + 2..end.value]), end.value + 2))
  }

  function ItalicAt(c: string, i: nat): (r: Option<Read>)
    requires i < |c|
    ensures r.Some? ==> r.value.next > i && r.value.piece.Emphasis? && |r.value.piece.inner| < |c|
  {
    if c[i] != '*' && c[i] != '_' then None
    else
      var end := IndexFrom(c, i + 1, c[i]);
      if end == |c| then None else Some(Read(Emphasis(Italic, c[i + 1..end]), end + 1))
  }

  function LinkAt(c: string, i: nat): (r: Option<Read>)
    requires i < |c|
    ensures r.Some? ==> r.value.next > i && r.value.piece.Link?
  {
    if c[i] != '[' then None
    else
      var bracket := IndexFrom(c, i + 1, ']');
      if bracket + 1 >= |c| || c[bracket + 1] != '(' then None
      else
        var paren := IndexFrom(c, bracket + 2, ')');
        if paren == |c| then None
        else Some(Read(Link(c[i + 1..bracket], c[bracket + 2..paren]), paren + 1))
  }

  function SkipHashes(c: string, i: nat): (j: nat)
    requires i <= |c|
    ensures i <= j <= |c|
    decreases |c| - i
  {
    if i < |c| && c[i] == '#' then SkipHashes(c, i + 1) else i
  }

  function HeadingAt(c: string, i: nat): (r: Option<Read>)
    requires i < |c|
    ensures r.Some? ==> r.value.next > i && r.value.piece.Heading?
  {
    if i > 0 && c[i - 1] != '\n' then None
    else
      var j := SkipHashes(c, i);
      if j == i || j == |c| || c[j] != ' ' then None
      else
        var k := IndexFrom(c, j + 1, '\n');
        Some(Read(Heading(c[j + 1..k]), k + 1))
  }

  function Or(a: Option<Read>, b: Option<Read>): Option<Read> {
    if a.Some? then a else b
  }

  /** What stands at the cursor, in the order in which the compiler tries. */
  function Next(c: string, i: nat): (r: Read)
    requires i < |c|
    ensures r.next > i
    ensures r.piece.Emphasis? ==> |r.piece.inner| < |c|
  {
    var found :=
      Or(FenceAt(c, i), Or(InlineAt(c, i), Or(PairAt(c, i, '*', Bold), Or(PairAt(c, i, '_', Bold),
      Or(ItalicAt(c, i), Or(PairAt(c, i, '~', Strike), Or(LinkAt(c, i), HeadingAt(c, i))))))));
    if found.Some? then found.value else Read(Plain(c[i]), i + 1)
  }

  // ---- the tree ------------------------------------------------------------------

  datatype Node =
    | Char(c: char)
    | Pre(lang: string, body: string)
    | Code(body: string)
    | Styled(style: Style, children: seq<Node>)
    | Anchor(text: string, url: string)
    | Title(title: string)

  function Rest(c: string, i: nat): nat {
    if i < |c| then |c| - i else 0
  }

  function Parse(c: string, i: nat): seq<Node>
    decreases |c|, 1 + Rest(c, i)
  {
    if i >= |c| then []
    else
      var r := Next(c, i);
      [NodeOf(r.piece, |c|)] + Parse(c, r.next)
  }

  function NodeOf(p: Piece, bound: nat): Node
    requires p.Emphasis? ==> |p.inner| < bound
    decreases bound, 0
  {
    match p
    case Plain(ch) => Char(ch)
    case Fenced(lang, body) => Pre(lang, body)
    case Inline(body) => Code(body)
    case Emphasis(style, inner) => Styled(style, Parse(inner, 0))
    case Link(text, url) => Anchor(text, url)
    case Heading(title) => Title(title)
  }

  // ---- rendering -----------------------------------------------------------------

  function OpenTag(style: Style): string {
    match style
    case Bold => "<b>"
    case Italic => "<i>"
    case Strike => "<s>"
  }

  function CloseTag(style: Style): string {
    match style
    case Bold => "</b>"
    case Italic => "</i>"
    case Strike => "</s>"
  }

  function LangAttribute(lang: string): string {
    if lang == "" then "" else " class=\"language-" + Escape(lang) + "\""
  }

  function Render(n: Node): string
    decreases n, 0
  {
    match n
    case Char(c) => EscapeChar(c)
    case Pre(lang, body) => "<pre><code" + LangAttribute(lang) + ">" + Escape(body) + "</code></pre>"
    case Code(body) => "<code>" + Escape(body) + "</code>"
    case Styled(style, children) => OpenTag(style) + RenderAll(children) + CloseTag(style)
    case Anchor(text, url) => "<a href=\"" + Escape(url) + "\">" + Escape(text) + "</a>"
    case Title(title) => "<b>" + Escape(title) + "</b>\n"
  }

  function RenderAll(ns: seq<Node>): string
    decreases ns, 0
  {
    if ns == [] then "" else Render(ns[0]) + RenderAll(ns[1..])
  }

  lemma RenderCons(node: Node, rest: seq<Node>)
    ensures RenderAll([node] + rest) == Render(node) + RenderAll(rest)
  {
    assert ([node] + rest)[1..] == rest;
  }

  /** One turn of the loop: appending the rendering of the construct at the cursor keeps the
      output on course. */
  lemma Emitted(c: string, i: nat, out: string)
    requires i < |c|
    ensures var r := Next(c, i);
            out + RenderAll(Parse(c, i)) == out + Render(NodeOf(r.piece, |c|)) + RenderAll(Parse(c, r.next))
  {
    var r := Next(c, i);
    RenderCons(NodeOf(r.piece, |c|), Parse(c, r.next));
    Regroup(out, Render(NodeOf(r.piece, |c|)), RenderAll(Parse(c, r.next)));
  }

  method SkipWhileNot(c: string, from: nat, ch: char) returns (j: nat)
    requires from <= |c|
    ensures j == IndexFrom(c, from, ch)
  {
    j := from;
    while j < |c| && c[j] != ch
      invariant from <= j <= |c| && IndexFrom(c, from, ch) == IndexFrom(c, j, ch)
    {
      j := j + 1;
    }
  }

  method CountHashes(c: string, from: nat) returns (j: nat)
    requires from <= |c|
    ensures j == SkipHashes(c, from)
  {
    j := from;
    while j < |c| && c[j] == '#'
      invariant from <= j <= |c| && SkipHashes(c, from) == SkipHashes(c, j)
    {
      j := j + 1;
    }
  }

  method TryFence(c: string, i: nat) returns (r: Option<Read>)
    requires i < |c|
    ensures r == FenceAt(c, i)
  {
    if !At(c, i, "```") {
      return None;
    }
    var rest := c[i + 3..];
    var nl := SkipWhileNot(rest, 0, '\n');
    var lang, bodyStart := "", 0;
    if nl < |rest| {
      lang, bodyStart := Trim(rest[..nl]), nl + 1;
    }
    var end := FindFence(rest, bodyStart);
    if end.None? {
      return None;
    }
    return Some(Read(Fenced(lang, TrimEnd(rest[bodyStart..end.value])), i + 3 + ByteLen(rest[..end.value]) + 3));
  }

  method TryInline(c: string, i: nat) returns (r: Option<Read>)
    requires i < |c|
    ensures r == InlineAt(c, i)
  {
    if c[i] == '`' {
      var j := SkipWhileNot(c, i + 1, '`');
      if j < |c| {
        return Some(Read(Inline(c[i + 1..j]), j + 1));
      }
    }
    return None;
  }

  method TryHeading(c: string, i: nat) returns (r: Option<Read>)
    requires i < |c|
    ensures r == HeadingAt(c, i)
  {
    if i == 0 || c[i - 1] == '\n' {
      var j := CountHashes(c, i);
      if j > i && j < |c| && c[j] == ' ' {
        var k := SkipWhileNot(c, j + 1, '\n');
        return Some(Read(Heading(c[j + 1..k]), k + 1));
      }
    }
    return None;
  }

  /** The compiler: one left-to-right pass that tries the constructs in a fixed order at every
      position, recursive on emphasis. */
  method MarkdownToTelegramHtml(text: string) returns (out: string)
    ensures out == RenderAll(Parse(text, 0))
    decreases |text|, 1
  {
    out := "";
    var c := text;
    var i: nat := 0;
    while i < |c|
      invariant out + RenderAll(Parse(c, i)) == RenderAll(Parse(c, 0))
      decreases Rest(c, i)
    {
      Emitted(c, i, out);
      var found := TryFence(c, i);
      if found.None? {
        found := TryInline(c, i);
      }
      if found.None? {
        found := Or(PairAt(c, i, '*', Bold), PairAt(c, i, '_', Bold));
      }
      if found.None? {
        found := ItalicAt(c, i);
      }
      if found.None? {
        found := PairAt(c, i, '~', Strike);
      }
      if found.None? {
        found := LinkAt(c, i);
      }
      if found.None? {
        found := TryHeading(c, i);
      }
      var r := if found.Some? then found.value else Read(Plain(c[i]), i + 1);
      assert r == Next(c, i);
      var html := Emit(r.piece, |c|);
      out := out + html;
      i := r.next;
    }
    assert out + "" == out;
  }

  /** What the compiler pushes for one construct. */
  method Emit(p: Piece, bound: nat) returns (html: string)
    requires p.Emphasis? ==> |p.inner| < bound
    ensures html == Render(NodeOf(p, bound))
    decreases bound, 0
  {
    match p
    case Plain(ch) => html := EscapeChar(ch);
    case Fenced(lang, body) =>
      html := "<pre><code";
      html := html + LangAttribute(lang);
      html := html + ">";
      html := html + Escape(body);
      html := html + "</code></pre>";
    case Inline(body) =>
      html := "<code>";
      html := html + Escape(body);
      html := html + "</code>";
    case Emphasis(style, inner) =>
      var children := MarkdownToTelegramHtml(inner);
      html := OpenTag(style) + children + CloseTag(style);
    case Link(title, url) =>
      html := "<a href=\"" + Escape(url) + "\">" + Escape(title) + "</a>";
    case Heading(title) =>
      html := "<b>";
      html := html + Escape(title);
      html := html + "</b>\n";
  }
}
