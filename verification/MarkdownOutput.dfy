// What the Markdown compiler writes for each construct: a document is printed as Markdown and, on
// its own, as HTML, and compiling the one gives the other.

module MarkdownOutput {
  import opened Base
  import opened Utf8
  import opened Markup
  import opened TelegramMarkdown

  /** A document as its author means it. */
  datatype Doc =
    | Letter(c: char)
    | Block(lang: string, body: string)
    | Snippet(code: string)
    | Strong(mark: char, inner: seq<Doc>)
    | Emph(mark: char, inner: seq<Doc>)
    | Struck(inner: seq<Doc>)
    | Ref(shown: string, address: string)
    | Head(level: nat, title: string)

  function Hashes(n: nat): string {
    seq(n, _ => '#')
  }

  /** Its Markdown. */
  function Show(d: Doc): string
    decreases d, 0
  {
    match d
    case Letter(c) => [c]
    case Block(lang, body) => "```" + (lang + ("\n" + (body + "\n```")))
    case Snippet(code) => "`" + (code + "`")
    case Strong(mark, inner) => [mark, mark] + (ShowAll(inner) + [mark, mark])
    case Emph(mark, inner) => [mark] + (ShowAll(inner) + [mark])
    case Struck(inner) => "~~" + (ShowAll(inner) + "~~")
    case Ref(shown, address) => "[" + (shown + ("](" + (address + ")")))
    case Head(level, title) => Hashes(level) + (" " + (title + "\n"))
  }

  function ShowAll(ds: seq<Doc>): string
    decreases ds, 0
  {
    if ds == [] then "" else Show(ds[0]) + ShowAll(ds[1..])
  }

  /** Its HTML. */
  function Html(d: Doc): string
    decreases d, 0
  {
    match d
    case Letter(c) => EscapeChar(c)
    case Block(lang, body) =>
      "<pre><code" + (if lang == "" then "" else " class=\"language-" + Escape(lang) + "\"") + ">" + Escape(body) + "</code></pre>"
    case Snippet(code) => "<code>" + Escape(code) + "</code>"
    case Strong(_, inner) => "<b>" + HtmlAll(inner) + "</b>"
    case Emph(_, inner) => "<i>" + HtmlAll(inner) + "</i>"
    case Struck(inner) => "<s>" + HtmlAll(inner) + "</s>"
    case Ref(shown, address) => "<a href=\"" + Escape(address) + "\">" + Escape(shown) + "</a>"
    case Head(_, title) => "<b>" + Escape(title) + "</b>\n"
  }

  function HtmlAll(ds: seq<Doc>): string
    decreases ds, 0
  {
    if ds == [] then "" else Html(ds[0]) + HtmlAll(ds[1..])
  }

  // ---- what can be written in Markdown ---------------------------------------------------

  predicate IsMarker(c: char) {
    c == '`' || c == '*' || c == '_' || c == '~' || c == '['
  }

  ghost predicate NoFence(body: string) {
    forall x :: 0 <= x && x + 2 < |body| ==> !(body[x] == body[x + 1] == body[x + 2] == '`')
  }

  predicate EndsLine(d: Doc) {
    d == Letter('\n') || d.Head?
  }

  /** A construct that Markdown can say at this place. */
  ghost predicate Fits(d: Doc, lineStart: bool)
    decreases d, 0
  {
    match d
    case Letter(c) => !IsMarker(c) && (c == '#' ==> !lineStart)
    case Block(lang, body) =>
      IsAscii(lang) && IsAscii(body) && Trim(lang) == lang && '\n' !in lang && TrimEnd(body) == body && NoFence(body)
    case Snippet(code) => code != "" && '`' !in code
    case Strong(mark, inner) => (mark == '*' || mark == '_') && mark !in ShowAll(inner) && AllFit(inner, true)
    case Emph(mark, inner) => (mark == '*' || mark == '_') && mark !in ShowAll(inner) && inner != [] && AllFit(inner, true)
    case Struck(inner) => '~' !in ShowAll(inner) && AllFit(inner, true)
    case Ref(shown, address) => ']' !in shown && ')' !in address
    case Head(level, title) => lineStart && level > 0 && '\n' !in title
  }

  ghost predicate AllFit(ds: seq<Doc>, lineStart: bool)
    decreases ds, 0
  {
    ds != [] ==> Fits(ds[0], lineStart) && AllFit(ds[1..], EndsLine(ds[0]))
  }

  /** What the compiler is to read. */
  function PieceOf(d: Doc): Piece {
    match d
    case Letter(c) => Plain(c)
    case Block(lang, body) => Fenced(lang, body)
    case Snippet(code) => Inline(code)
    case Strong(_, inner) => Emphasis(Bold, ShowAll(inner))
    case Emph(_, inner) => Emphasis(Italic, ShowAll(inner))
    case Struck(inner) => Emphasis(Strike, ShowAll(inner))
    case Ref(shown, address) => Link(shown, address)
    case Head(_, title) => Heading(title)
  }

  // ---- reading one construct ---------------------------------------------------------------

  predicate LineStart(c: string, i: nat)
    requires i <= |c|
  {
    i == 0 || c[i - 1] == '\n'
  }

  /** `s` stands at position `i`. */
  predicate Stands(c: string, i: nat, s: string) {
    i + |s| <= |c| && forall k :: 0 <= k < |s| ==> c[i + k] == s[k]
  }

  lemma StandsSlice(c: string, i: nat, s: string)
    ensures Stands(c, i, s) <==> i + |s| <= |c| && c[i..i + |s|] == s
  {
    if i + |s| <= |c| {
      var t := c[i..i + |s|];
      assert forall k :: 0 <= k < |s| ==> t[k] == c[i + k];
    }
  }

  lemma StandsParts(c: string, i: nat, a: string, b: string)
    ensures Stands(c, i, a + b) <==> Stands(c, i, a) && Stands(c, i + |a|, b)
  {
    StandsSlice(c, i, a + b);
    StandsSlice(c, i, a);
    StandsSlice(c, i + |a|, b);
    if i + |a| + |b| <= |c| {
      assert c[i..i + |a| + |b|] == c[i..i + |a|] + c[i + |a|..i + |a| + |b|];
      assert (a + b)[..|a|] == a && (a + b)[|a|..] == b;
    }
  }

  lemma StandsAt(c: string, i: nat, s: string, k: nat)
    requires Stands(c, i, s) && k < |s|
    ensures i + k < |c| && c[i + k] == s[k]
  {
  }

  /** The first `ch` behind a text that has none. */
  lemma IndexBehindText(c: string, i: nat, s: string, ch: char)
    requires Stands(c, i, s) && ch !in s && i + |s| < |c| && c[i + |s|] == ch
    ensures IndexFrom(c, i, ch) == i + |s|
  {
    var k := IndexFrom(c, i, ch);
    forall x | i <= x < i + |s| ensures c[x] != ch {
      StandsAt(c, i, s, x - i);
      assert s[x - i] in s;
    }
  }

  lemma {:induction false} PairBehindText(c: string, i: nat, s: string, ch: char)
    requires Stands(c, i, s) && ch !in s && i + |s| + 1 < |c| && c[i + |s|] == c[i + |s| + 1] == ch
    ensures ClosingPair(c, i, ch) == Some(i + |s|)
    decreases |s|
  {
    if s != "" {
      StandsAt(c, i, s, 0);
      assert s[0] in s;
      StandsParts(c, i, [s[0]], s[1..]);
      assert s == [s[0]] + s[1..];
      PairBehindText(c, i + 1, s[1..], ch);
    }
  }

  lemma AtFence(c: string, i: nat)
    requires i < |c|
    ensures At(c, i, "```") <==> i + 2 < |c| && c[i] == c[i + 1] == c[i + 2] == '`'
  {
    var t := c[i..];
    assert forall k :: 0 <= k < |t| ==> t[k] == c[i + k];
    if i + 2 < |c| && c[i] == c[i + 1] == c[i + 2] == '`' {
      assert t[..3] == "```";
    }
    if At(c, i, "```") {
      assert t[..3] == "```";
    }
  }

  lemma AtPair(c: string, i: nat, m: char)
    requires i < |c|
    ensures At(c, i, [m, m]) <==> i + 1 < |c| && c[i] == c[i + 1] == m
  {
    var t := c[i..];
    assert forall k :: 0 <= k < |t| ==> t[k] == c[i + k];
    if i + 1 < |c| && c[i] == c[i + 1] == m {
      assert t[..2] == [m, m];
    }
    if At(c, i, [m, m]) {
      assert t[..2] == [m, m] && t[0] == m && t[1] == m;
    }
  }

  /** Which attempts can succeed at all, by the character at the cursor. */
  lemma FirstChar(c: string, i: nat)
    requires i < |c|
    ensures c[i] != '`' ==> FenceAt(c, i).None? && InlineAt(c, i).None?
    ensures c[i] != '*' ==> PairAt(c, i, '*', Bold).None?
    ensures c[i] != '_' ==> PairAt(c, i, '_', Bold).None?
    ensures c[i] != '*' && c[i] != '_' ==> ItalicAt(c, i).None?
    ensures c[i] != '~' ==> PairAt(c, i, '~', Strike).None?
    ensures c[i] != '[' ==> LinkAt(c, i).None?
    ensures c[i] != '#' || !LineStart(c, i) ==> HeadingAt(c, i).None?
  {
    AtFence(c, i);
    AtPair(c, i, '*');
    AtPair(c, i, '_');
    AtPair(c, i, '~');
  }

  lemma LetterIsRead(c: string, i: nat)
    requires i < |c| && !IsMarker(c[i]) && (c[i] == '#' ==> !LineStart(c, i))
    ensures Next(c, i) == Read(Plain(c[i]), i + 1)
  {
    FirstChar(c, i);
  }

  lemma PairParts(c: string, i: nat, mark: char, inner: string)
    requires Stands(c, i, [mark, mark] + (inner + [mark, mark]))
    ensures i + |inner| + 4 <= |c| && Stands(c, i + 2, inner)
    ensures c[i] == c[i + 1] == c[i + 2 + |inner|] == c[i + 3 + |inner|] == mark
  {
    StandsParts(c, i, [mark, mark], inner + [mark, mark]);
    StandsParts(c, i + 2, inner, [mark, mark]);
    StandsAt(c, i, [mark, mark], 0);
    StandsAt(c, i, [mark, mark], 1);
    StandsAt(c, i + 2 + |inner|, [mark, mark], 0);
    StandsAt(c, i + 2 + |inner|, [mark, mark], 1);
  }

  lemma PairStands(c: string, i: nat, mark: char, inner: string)
    requires mark !in inner && Stands(c, i, [mark, mark] + (inner + [mark, mark]))
    ensures i + |inner| + 4 <= |c| && c[i] == mark && At(c, i, [mark, mark])
    ensures ClosingPair(c, i + 2, mark) == Some(i + 2 + |inner|) && c[i + 2..i + 2 + |inner|] == inner
  {
    PairParts(c, i, mark, inner);
    PairAround(c, i, mark, inner);
  }

  lemma PairAround(c: string, i: nat, mark: char, inner: string)
    requires mark !in inner && i + |inner| + 4 <= |c| && Stands(c, i + 2, inner)
    requires c[i] == c[i + 1] == c[i + 2 + |inner|] == c[i + 3 + |inner|] == mark
    ensures At(c, i, [mark, mark])
    ensures ClosingPair(c, i + 2, mark) == Some(i + 2 + |inner|) && c[i + 2..i + 2 + |inner|] == inner
  {
    AtPair(c, i, mark);
    PairBehindText(c, i + 2, inner, mark);
    StandsSlice(c, i + 2, inner);
  }

  lemma NextByPair(c: string, i: nat, mark: char, style: Style, r: Read)
    requires i < |c| && c[i] == mark && PairAt(c, i, mark, style) == Some(r)
    requires (style == Bold && (mark == '*' || mark == '_')) || (style == Strike && mark == '~')
    ensures Next(c, i) == r
  {
    FirstChar(c, i);
  }

  lemma StrongIsRead(c: string, i: nat, mark: char, inner: string)
    requires (mark == '*' || mark == '_') && mark !in inner && Stands(c, i, [mark, mark] + (inner + [mark, mark]))
    ensures i < |c| && Next(c, i) == Read(Emphasis(Bold, inner), i + |inner| + 4)
  {
    PairStands(c, i, mark, inner);
    NextByPair(c, i, mark, Bold, Read(Emphasis(Bold, inner), i + |inner| + 4));
  }

  lemma SingleStands(c: string, i: nat, mark: char, inner: string)
    requires mark !in inner && inner != "" && Stands(c, i, [mark] + (inner + [mark]))
    ensures i + |inner| + 2 <= |c| && c[i] == mark && c[i + 1] != mark
    ensures IndexFrom(c, i + 1, mark) == i + 1 + |inner| && c[i + 1..i + 1 + |inner|] == inner
  {
    StandsParts(c, i, [mark], inner + [mark]);
    StandsParts(c, i + 1, inner, [mark]);
    StandsAt(c, i, [mark], 0);
    StandsAt(c, i + 1, inner, 0);
    StandsAt(c, i + 1 + |inner|, [mark], 0);
    assert inner[0] in inner;
    IndexBehindText(c, i + 1, inner, mark);
    StandsSlice(c, i + 1, inner);
  }

  lemma NextByItalic(c: string, i: nat, r: Read)
    requires i + 1 < |c| && (c[i] == '*' || c[i] == '_') && c[i + 1] != c[i] && ItalicAt(c, i) == Some(r)
    ensures Next(c, i) == r
  {
    FirstChar(c, i);
    AtPair(c, i, '*');
    AtPair(c, i, '_');
  }

  lemma EmphIsRead(c: string, i: nat, mark: char, inner: string)
    requires (mark == '*' || mark == '_') && mark !in inner && inner != "" && Stands(c, i, [mark] + (inner + [mark]))
    ensures i < |c| && Next(c, i) == Read(Emphasis(Italic, inner), i + |inner| + 2)
  {
    SingleStands(c, i, mark, inner);
    NextByItalic(c, i, Read(Emphasis(Italic, inner), i + |inner| + 2));
  }

  lemma NextByInline(c: string, i: nat, r: Read)
    requires i + 1 < |c| && c[i] == '`' && c[i + 1] != '`' && InlineAt(c, i) == Some(r)
    ensures Next(c, i) == r
  {
    AtFence(c, i);
  }

  lemma SnippetIsRead(c: string, i: nat, code: string)
    requires code != "" && '`' !in code && Stands(c, i, "`" + (code + "`"))
    ensures i < |c| && Next(c, i) == Read(Inline(code), i + |code| + 2)
  {
    assert "`" == ['`'];
    SingleStands(c, i, '`', code);
    NextByInline(c, i, Read(Inline(code), i + |code| + 2));
  }

  lemma StruckIsRead(c: string, i: nat, inner: string)
    requires '~' !in inner && Stands(c, i, "~~" + (inner + "~~"))
    ensures i < |c| && Next(c, i) == Read(Emphasis(Strike, inner), i + |inner| + 4)
  {
    assert "~~" == ['~', '~'];
    PairStands(c, i, '~', inner);
    NextByPair(c, i, '~', Strike, Read(Emphasis(Strike, inner), i + |inner| + 4));
  }

  /** The attempt that belongs to the character at the cursor decides. */
  lemma NextByLink(c: string, i: nat, r: Read)
    requires i < |c| && c[i] == '[' && LinkAt(c, i) == Some(r)
    ensures Next(c, i) == r
  {
    FirstChar(c, i);
  }

  lemma NextByHeading(c: string, i: nat, r: Read)
    requires i < |c| && c[i] == '#' && HeadingAt(c, i) == Some(r)
    ensures Next(c, i) == r
  {
    FirstChar(c, i);
  }

  lemma LinkIs(c: string, i: nat, bracket: nat, paren: nat, shown: string, address: string)
    requires i < |c| && c[i] == '[' && bracket == IndexFrom(c, i + 1, ']') && bracket + 1 < |c| && c[bracket + 1] == '('
    requires paren == IndexFrom(c, bracket + 2, ')') && paren < |c|
    requires c[i + 1..bracket] == shown && c[bracket + 2..paren] == address
    ensures LinkAt(c, i) == Some(Read(Link(shown, address), paren + 1))
  {
  }

  lemma RefStands(c: string, i: nat, shown: string, address: string)
    requires ']' !in shown && ')' !in address && Stands(c, i, "[" + (shown + ("](" + (address + ")"))))
    ensures var bracket := i + 1 + |shown|;
            var paren := bracket + 2 + |address|;
            && paren < |c| && c[i] == '[' && c[bracket + 1] == '('
            && bracket == IndexFrom(c, i + 1, ']') && paren == IndexFrom(c, bracket + 2, ')')
            && c[i + 1..bracket] == shown && c[bracket + 2..paren] == address
  {
    StandsParts(c, i, "[", shown + ("](" + (address + ")")));
    StandsParts(c, i + 1, shown, "](" + (address + ")"));
    StandsParts(c, i + 1 + |shown|, "](", address + ")");
    StandsParts(c, i + 3 + |shown|, address, ")");
    StandsAt(c, i, "[", 0);
    StandsAt(c, i + 1 + |shown|, "](", 0);
    StandsAt(c, i + 1 + |shown|, "](", 1);
    StandsAt(c, i + 3 + |shown| + |address|, ")", 0);
    IndexBehindText(c, i + 1, shown, ']');
    IndexBehindText(c, i + 3 + |shown|, address, ')');
  }

  lemma RefIsRead(c: string, i: nat, shown: string, address: string)
    requires ']' !in shown && ')' !in address && Stands(c, i, "[" + (shown + ("](" + (address + ")"))))
    ensures i < |c| && Next(c, i) == Read(Link(shown, address), i + |shown| + |address| + 4)
  {
    RefStands(c, i, shown, address);
    LinkIs(c, i, i + 1 + |shown|, i + 3 + |shown| + |address|, shown, address);
    NextByLink(c, i, Read(Link(shown, address), i + |shown| + |address| + 4));
  }

  lemma {:induction false} HashesAreSkipped(c: string, i: nat, n: nat)
    requires Stands(c, i, Hashes(n)) && (i + n < |c| ==> c[i + n] != '#')
    ensures SkipHashes(c, i) == i + n
    decreases n
  {
    if n > 0 {
      StandsAt(c, i, Hashes(n), 0);
      assert Hashes(n) == "#" + Hashes(n - 1);
      StandsParts(c, i, "#", Hashes(n - 1));
      HashesAreSkipped(c, i + 1, n - 1);
    }
  }

  lemma HeadingIs(c: string, i: nat, behind: nat, end: nat, title: string)
    requires i < |c| && LineStart(c, i)
    requires behind == SkipHashes(c, i) && i < behind < |c| && c[behind] == ' '
    requires end == IndexFrom(c, behind + 1, '\n') && c[behind + 1..end] == title
    ensures HeadingAt(c, i) == Some(Read(Heading(title), end + 1))
  {
  }

  lemma HeadStands(c: string, i: nat, level: nat, title: string)
    requires level > 0 && '\n' !in title && Stands(c, i, Hashes(level) + (" " + (title + "\n")))
    ensures var behind := i + level;
            var end := behind + 1 + |title|;
            && end < |c| && c[i] == '#' && c[behind] == ' '
            && behind == SkipHashes(c, i) && end == IndexFrom(c, behind + 1, '\n') && c[behind + 1..end] == title
  {
    StandsParts(c, i, Hashes(level), " " + (title + "\n"));
    StandsParts(c, i + level, " ", title + "\n");
    StandsParts(c, i + level + 1, title, "\n");
    StandsAt(c, i, Hashes(level), 0);
    StandsAt(c, i + level, " ", 0);
    StandsAt(c, i + level + 1 + |title|, "\n", 0);
    HashesAreSkipped(c, i, level);
    IndexBehindText(c, i + level + 1, title, '\n');
  }

  lemma HeadIsRead(c: string, i: nat, level: nat, title: string)
    requires level > 0 && '\n' !in title && Stands(c, i, Hashes(level) + (" " + (title + "\n"))) && LineStart(c, i)
    ensures i < |c| && Next(c, i) == Read(Heading(title), i + level + |title| + 2)
  {
    HeadStands(c, i, level, title);
    HeadingIs(c, i, i + level, i + level + 1 + |title|, title);
    NextByHeading(c, i, Read(Heading(title), i + level + |title| + 2));
  }

  // ---- reading a code block -------------------------------------------------------------------

  lemma {:induction false} FenceBehindBody(s: string, from: nat, k: nat)
    requires from <= k <= |s| && At(s, k, "```") && forall x :: from <= x < k ==> !At(s, x, "```")
    ensures FindFence(s, from) == Some(k)
    decreases k - from
  {
    if from < k {
      FenceBehindBody(s, from + 1, k);
    }
  }

  /** The closing fence is the first one behind a body that has none. */
  lemma BodyHasNoFence(rest: string, start: nat, body: string)
    requires NoFence(body) && Stands(rest, start, body + "\n```")
    ensures FindFence(rest, start) == Some(start + |body| + 1)
  {
    var k := start + |body| + 1;
    StandsParts(rest, start, body, "\n```");
    StandsAt(rest, start + |body|, "\n```", 0);
    StandsAt(rest, start + |body|, "\n```", 1);
    StandsAt(rest, start + |body|, "\n```", 2);
    StandsAt(rest, start + |body|, "\n```", 3);
    AtFence(rest, k);
    forall x | start <= x < k ensures !At(rest, x, "```") {
      AtFence(rest, x);
      if x + 2 < start + |body| {
        StandsAt(rest, start, body, x - start);
        StandsAt(rest, start, body, x + 1 - start);
        StandsAt(rest, start, body, x + 2 - start);
      } else {
        assert rest[start + |body|] == '\n';
      }
    }
    FenceBehindBody(rest, start, k);
  }

  lemma FenceIs(c: string, i: nat, rest: string, lang: string, body: string, end: nat)
    requires i + 3 <= |c| && At(c, i, "```") && rest == c[i + 3..]
    requires IndexFrom(rest, 0, '\n') == |lang| < |rest| && rest[..|lang|] == lang && Trim(lang) == lang
    requires FindFence(rest, |lang| + 1) == Some(end) && TrimEnd(rest[|lang| + 1..end]) == body && ByteLen(rest[..end]) == end
    ensures FenceAt(c, i) == Some(Read(Fenced(lang, body), i + 6 + end))
  {
  }

  lemma NextByFence(c: string, i: nat, r: Read)
    requires i < |c| && FenceAt(c, i) == Some(r)
    ensures Next(c, i) == r
  {
  }

  lemma TrimmedBody(body: string)
    requires TrimEnd(body) == body
    ensures TrimEnd(body + "\n") == body
  {
    assert (body + "\n")[..|body|] == body;
  }

  lemma AsciiLength(s: string)
    requires IsAscii(s)
    ensures ByteLen(s) == |s|
  {
    ByteLenBounds(s);
  }

  lemma AsciiConcat(a: string, b: string)
    requires IsAscii(a) && IsAscii(b)
    ensures IsAscii(a + b)
  {
  }

  lemma AsciiBlock(lang: string, body: string)
    requires IsAscii(lang) && IsAscii(body)
    ensures IsAscii(lang + ("\n" + (body + "\n")))
  {
    AsciiConcat(body, "\n");
    AsciiConcat("\n", body + "\n");
    AsciiConcat(lang, "\n" + (body + "\n"));
  }

  /** What stands behind the opening fence. */
  ghost predicate BlockBehind(rest: string, lang: string, body: string) {
    Stands(rest, 0, lang + ("\n" + (body + "\n```")))
  }

  lemma BlockStands(c: string, i: nat, lang: string, body: string)
    requires Stands(c, i, "```" + (lang + ("\n" + (body + "\n```"))))
    ensures i + 3 <= |c| && At(c, i, "```") && BlockBehind(c[i + 3..], lang, body)
  {
    var tail := lang + ("\n" + (body + "\n```"));
    StandsParts(c, i, "```", tail);
    StandsAt(c, i, "```", 0);
    StandsAt(c, i, "```", 1);
    StandsAt(c, i, "```", 2);
    AtFence(c, i);
    assert c[i + 3..][0..|tail|] == c[i + 3..i + 3 + |tail|];
  }

  lemma BlockParts(rest: string, lang: string, body: string)
    requires '\n' !in lang && NoFence(body) && BlockBehind(rest, lang, body)
    ensures |lang| < |rest| && IndexFrom(rest, 0, '\n') == |lang| && rest[..|lang|] == lang
    ensures FindFence(rest, |lang| + 1) == Some(|lang| + |body| + 2) && |lang| + |body| + 2 <= |rest|
    ensures rest[|lang| + 1..|lang| + |body| + 2] == body + "\n"
    ensures rest[..|lang| + |body| + 2] == lang + ("\n" + (body + "\n"))
  {
    var tail := "\n" + (body + "\n```");
    StandsParts(rest, 0, lang, tail);
    StandsAt(rest, |lang|, tail, 0);
    StandsParts(rest, |lang|, "\n", body + "\n```");
    IndexBehindText(rest, 0, lang, '\n');
    BodyHasNoFence(rest, |lang| + 1, body);
    assert body + "\n```" == (body + "\n") + "```";
    StandsParts(rest, |lang| + 1, body + "\n", "```");
    StandsParts(rest, |lang|, "\n", body + "\n");
    StandsParts(rest, 0, lang, "\n" + (body + "\n"));
  }

  lemma FenceOfBlock(c: string, i: nat, rest: string, lang: string, body: string)
    requires i + 3 <= |c| && At(c, i, "```") && rest == c[i + 3..]
    requires Fits(Block(lang, body), true) && BlockBehind(rest, lang, body)
    ensures FenceAt(c, i) == Some(Read(Fenced(lang, body), i + |lang| + |body| + 8))
  {
    BlockParts(rest, lang, body);
    AsciiBlock(lang, body);
    TrimmedBody(body);
    AsciiLength(rest[..|lang| + |body| + 2]);
    FenceIs(c, i, rest, lang, body, |lang| + |body| + 2);
  }

  lemma FenceOfAnyBlock(c: string, i: nat, rest: string, lang: string, body: string)
    requires i + 3 <= |c| && At(c, i, "```") && rest == c[i + 3..]
    ensures Fits(Block(lang, body), true) && BlockBehind(rest, lang, body) ==>
              FenceAt(c, i) == Some(Read(Fenced(lang, body), i + |lang| + |body| + 8))
  {
    if Fits(Block(lang, body), true) && BlockBehind(rest, lang, body) {
      FenceOfBlock(c, i, rest, lang, body);
    }
  }

  lemma BlockIsRead(c: string, i: nat, lang: string, body: string)
    requires Fits(Block(lang, body), true) && Stands(c, i, "```" + (lang + ("\n" + (body + "\n```"))))
    ensures i < |c| && Next(c, i) == Read(Fenced(lang, body), i + |lang| + |body| + 8)
  {
    BlockStands(c, i, lang, body);
    FenceOfAnyBlock(c, i, c[i + 3..], lang, body);
    NextByFence(c, i, Read(Fenced(lang, body), i + |lang| + |body| + 8));
  }

  // ---- every construct --------------------------------------------------------------------------

  lemma ShowEnds(d: Doc, lineStart: bool)
    requires Fits(d, lineStart)
    ensures Show(d) != "" && (Show(d)[|Show(d)| - 1] == '\n' <==> EndsLine(d))
  {
  }

  /** Where a construct stands that fits, the compiler reads it, and nothing more. */
  lemma DocIsRead(c: string, i: nat, d: Doc)
    requires i < |c| && Fits(d, LineStart(c, i)) && Stands(c, i, Show(d))
    ensures Next(c, i) == Read(PieceOf(d), i + |Show(d)|)
  {
    match d
    case Letter(ch) =>
      StandsAt(c, i, [ch], 0);
      LetterIsRead(c, i);
    case Block(lang, body) => BlockIsRead(c, i, lang, body);
    case Snippet(code) => SnippetIsRead(c, i, code);
    case Strong(mark, inner) => StrongIsRead(c, i, mark, ShowAll(inner));
    case Emph(mark, inner) =>
      ShowEnds(inner[0], true);
      EmphIsRead(c, i, mark, ShowAll(inner));
    case Struck(inner) => StruckIsRead(c, i, ShowAll(inner));
    case Ref(shown, address) => RefIsRead(c, i, shown, address);
    case Head(level, title) => HeadIsRead(c, i, level, title);
  }

  lemma StyledIsRendered(style: Style, inner: string, html: string, bound: nat)
    requires |inner| < bound && RenderAll(Parse(inner, 0)) == html
    ensures Render(NodeOf(Emphasis(style, inner), bound)) == OpenTag(style) + html + CloseTag(style)
  {
    assert NodeOf(Emphasis(style, inner), bound) == Styled(style, Parse(inner, 0));
  }

  lemma FlatIsRendered(d: Doc, bound: nat)
    requires !d.Strong? && !d.Emph? && !d.Struck?
    ensures Render(NodeOf(PieceOf(d), bound)) == Html(d)
  {
    match d
    case Letter(_) =>
    case Block(_, _) =>
    case Snippet(_) =>
    case Ref(_, _) =>
    case Head(_, _) =>
  }

  predicate HasContent(d: Doc) {
    d.Strong? || d.Emph? || d.Struck?
  }

  /** What the compiler writes from position `i` on. */
  function OutputFrom(c: string, i: nat): string {
    RenderAll(Parse(c, i))
  }

  /** A construct that fits stands here. */
  ghost predicate Here(c: string, i: nat, d: Doc) {
    i < |c| && Fits(d, LineStart(c, i)) && Stands(c, i, Show(d))
  }

  lemma LineStartBehind(c: string, i: nat, d: Doc, lineStart: bool)
    requires Fits(d, lineStart) && Stands(c, i, Show(d))
    ensures i + |Show(d)| <= |c| && i < |c| && (LineStart(c, i + |Show(d)|) <==> EndsLine(d))
  {
    ShowEnds(d, lineStart);
    StandsAt(c, i, Show(d), |Show(d)| - 1);
  }

  lemma HereMeansInside(c: string, i: nat, d: Doc)
    requires i <= |c|
    ensures Fits(d, LineStart(c, i)) && Stands(c, i, Show(d)) ==>
              Here(c, i, d) && i + |Show(d)| <= |c| && (LineStart(c, i + |Show(d)|) <==> EndsLine(d))
  {
    if Fits(d, LineStart(c, i)) && Stands(c, i, Show(d)) {
      LineStartBehind(c, i, d, LineStart(c, i));
    }
  }

  // ---- any output that takes one construct after the other ------------------------------------------

  /** The output from `i` on is this text and then the output from `j` on. */
  ghost predicate Writes(out: (string, nat) -> string, c: string, i: nat, html: string, j: nat) {
    out(c, i) == html + out(c, j)
  }

  /** What a construct contains is written. */
  ghost predicate ContentIsWritten(out: (string, nat) -> string, d: Doc) {
    HasContent(d) ==> out(ShowAll(d.inner), 0) == HtmlAll(d.inner)
  }

  ghost function Content(out: (string, nat) -> string): Doc -> bool {
    d => ContentIsWritten(out, d)
  }

  /** A construct in its place is read as its piece. */
  ghost predicate ReadsAll(next: (string, nat) -> Read, piece: Doc -> Piece, show: Doc -> string, here: (string, nat, Doc) -> bool) {
    forall c: string, i: nat, d :: here(c, i, d) ==> i < |c| && next(c, i) == Read(piece(d), i + |show(d)|)
  }

  /** The piece is rendered as the construct's HTML. */
  ghost predicate RendersAll(render: Piece -> string, piece: Doc -> Piece, html: Doc -> string, content: Doc -> bool) {
    forall d :: content(d) ==> render(piece(d)) == html(d)
  }

  /** The output goes on behind each piece. */
  ghost predicate StepsOn(out: (string, nat) -> string, next: (string, nat) -> Read, render: Piece -> string) {
    forall c: string, i: nat :: i < |c| ==> out(c, i) == render(next(c, i).piece) + out(c, next(c, i).next)
  }

  /** A construct in its place is written, if what it contains is. */
  ghost predicate Compiles(out: (string, nat) -> string, show: Doc -> string, html: Doc -> string,
                           here: (string, nat, Doc) -> bool, content: Doc -> bool) {
    forall c: string, i: nat, d ::
      here(c, i, d) && content(d) ==> Writes(out, c, i, html(d), i + |show(d)|)
  }

  lemma CompilesByParts(out: (string, nat) -> string, next: (string, nat) -> Read, render: Piece -> string, piece: Doc -> Piece,
                        show: Doc -> string, html: Doc -> string, here: (string, nat, Doc) -> bool, content: Doc -> bool)
    ensures ReadsAll(next, piece, show, here) && RendersAll(render, piece, html, content) && StepsOn(out, next, render)
            ==> Compiles(out, show, html, here, content)
  {
  }

  ghost predicate EndsEmpty(out: (string, nat) -> string) {
    forall c: string :: out(c, |c|) == ""
  }

  // ---- one behind the other, for any way of printing -----------------------------------------------

  function Joined(ds: seq<Doc>, write: Doc -> string): string {
    if ds == [] then "" else write(ds[0]) + Joined(ds[1..], write)
  }

  /** Each construct is in its place. */
  ghost predicate EachOf(c: string, i: nat, ds: seq<Doc>, show: Doc -> string, here: (string, nat, Doc) -> bool)
    decreases |ds|
  {
    ds != [] ==> here(c, i, ds[0]) && EachOf(c, i + |show(ds[0])|, ds[1..], show, here)
  }

  /** Where the construct is in its place, it is written. */
  ghost predicate Known(out: (string, nat) -> string, d: Doc, show: Doc -> string, html: Doc -> string,
                        here: (string, nat, Doc) -> bool) {
    forall c: string, i: nat :: here(c, i, d) ==> Writes(out, c, i, html(d), i + |show(d)|)
  }

  ghost predicate AllKnown(out: (string, nat) -> string, ds: seq<Doc>, show: Doc -> string, html: Doc -> string,
                           here: (string, nat, Doc) -> bool) {
    forall d :: d in ds ==> Known(out, d, show, html, here)
  }

  lemma {:induction false} AllAreWritten(out: (string, nat) -> string, c: string, i: nat, ds: seq<Doc>,
                                         show: Doc -> string, html: Doc -> string, here: (string, nat, Doc) -> bool)
    requires AllKnown(out, ds, show, html, here) && EachOf(c, i, ds, show, here)
    ensures Writes(out, c, i, Joined(ds, html), i + |Joined(ds, show)|)
    decreases |ds|
  {
    if ds == [] {
      assert "" + out(c, i) == out(c, i);
    } else {
      var j, k := i + |show(ds[0])|, i + |Joined(ds, show)|;
      assert Known(out, ds[0], show, html, here);
      AllAreWritten(out, c, j, ds[1..], show, html, here);
      Regroup(html(ds[0]), Joined(ds[1..], html), out(c, k));
    }
  }

  /** The same for two texts that are printed that way. */
  lemma TextsAreWritten(out: (string, nat) -> string, c: string, i: nat, ds: seq<Doc>, show: Doc -> string, html: Doc -> string,
                        here: (string, nat, Doc) -> bool, from: string, into: string)
    ensures AllKnown(out, ds, show, html, here) && EachOf(c, i, ds, show, here) && from == Joined(ds, show) && into == Joined(ds, html)
            ==> Writes(out, c, i, into, i + |from|)
  {
    if AllKnown(out, ds, show, html, here) && EachOf(c, i, ds, show, here) {
      AllAreWritten(out, c, i, ds, show, html, here);
    }
  }

  lemma {:induction false} ShowIsJoined(ds: seq<Doc>)
    ensures ShowAll(ds) == Joined(ds, Show)
  {
    if ds != [] {
      ShowIsJoined(ds[1..]);
    }
  }

  lemma {:induction false} HtmlIsJoined(ds: seq<Doc>)
    ensures HtmlAll(ds) == Joined(ds, Html)
  {
    if ds != [] {
      HtmlIsJoined(ds[1..]);
    }
  }

  // ---- every document --------------------------------------------------------------------------------

  /** The document fits and stands at `i`. */
  ghost predicate AllHere(c: string, i: nat, ds: seq<Doc>) {
    i <= |c| && Stands(c, i, ShowAll(ds)) && AllFit(ds, LineStart(c, i))
  }

  lemma FirstIsHere(c: string, i: nat, ds: seq<Doc>)
    requires AllHere(c, i, ds) && ds != []
    ensures Here(c, i, ds[0]) && AllHere(c, i + |Show(ds[0])|, ds[1..])
  {
    StandsParts(c, i, Show(ds[0]), ShowAll(ds[1..]));
    HereMeansInside(c, i, ds[0]);
  }

  lemma {:induction false} HereMeansEach(c: string, i: nat, ds: seq<Doc>)
    requires AllHere(c, i, ds)
    ensures EachOf(c, i, ds, Show, Here)
    decreases |ds|
  {
    if ds != [] {
      FirstIsHere(c, i, ds);
      HereMeansEach(c, i + |Show(ds[0])|, ds[1..]);
    }
  }

  lemma HereMeansEachOf(c: string, i: nat, ds: seq<Doc>)
    ensures AllHere(c, i, ds) ==> EachOf(c, i, ds, Show, Here)
  {
    if AllHere(c, i, ds) {
      HereMeansEach(c, i, ds);
    }
  }

  ghost predicate DocumentWritten(out: (string, nat) -> string, c: string, i: nat, ds: seq<Doc>) {
    AllHere(c, i, ds) ==> Writes(out, c, i, HtmlAll(ds), i + |ShowAll(ds)|)
  }

  ghost predicate WholeWritten(out: (string, nat) -> string, ds: seq<Doc>) {
    AllFit(ds, true) ==> out(ShowAll(ds), 0) == HtmlAll(ds)
  }

  lemma KnownByContent(out: (string, nat) -> string, d: Doc, show: Doc -> string, html: Doc -> string,
                       here: (string, nat, Doc) -> bool, content: Doc -> bool)
    ensures Compiles(out, show, html, here, content) && content(d) ==> Known(out, d, show, html, here)
  {
  }

  lemma NotHereIsKnown(out: (string, nat) -> string, d: Doc, show: Doc -> string, html: Doc -> string,
                       here: (string, nat, Doc) -> bool)
    ensures (forall c: string, i: nat :: !here(c, i, d)) ==> Known(out, d, show, html, here)
  {
  }

  lemma NeverHere(d: Doc)
    requires HasContent(d) && !AllFit(d.inner, true)
    ensures forall c: string, i: nat :: !Here(c, i, d)
  {
  }

  lemma WholeMeansContent(out: (string, nat) -> string, d: Doc)
    ensures HasContent(d) && AllFit(d.inner, true) && WholeWritten(out, d.inner) ==> Content(out)(d)
  {
  }

  lemma FlatMeansContent(out: (string, nat) -> string, d: Doc)
    ensures !HasContent(d) ==> Content(out)(d)
  {
  }

  lemma KnownMeansWritten(out: (string, nat) -> string, c: string, i: nat, ds: seq<Doc>)
    ensures AllKnown(out, ds, Show, Html, Here) ==> DocumentWritten(out, c, i, ds)
  {
    HereMeansEachOf(c, i, ds);
    ShowIsJoined(ds);
    HtmlIsJoined(ds);
    TextsAreWritten(out, c, i, ds, Show, Html, Here, ShowAll(ds), HtmlAll(ds));
  }

  lemma DocumentMeansWhole(out: (string, nat) -> string, ds: seq<Doc>, c: string, html: string)
    requires c == ShowAll(ds) && html == HtmlAll(ds) && out(c, |c|) == "" && DocumentWritten(out, c, 0, ds)
    ensures WholeWritten(out, ds)
  {
    assert html + "" == html;
  }

  ghost predicate IsCompiler(out: (string, nat) -> string) {
    Compiles(out, Show, Html, Here, Content(out)) && EndsEmpty(out)
  }

  lemma {:induction false} DocIsKnown(out: (string, nat) -> string, d: Doc)
    ensures IsCompiler(out) ==> Known(out, d, Show, Html, Here)
    decreases d, 1
  {
    KnownByContent(out, d, Show, Html, Here, Content(out));
    FlatMeansContent(out, d);
    if HasContent(d) {
      if AllFit(d.inner, true) {
        WholeByAny(out, d.inner);
        WholeMeansContent(out, d);
      } else {
        NeverHere(d);
        NotHereIsKnown(out, d, Show, Html, Here);
      }
    }
  }

  lemma {:induction false} AllAreKnown(out: (string, nat) -> string, ds: seq<Doc>)
    ensures IsCompiler(out) ==> AllKnown(out, ds, Show, Html, Here)
    decreases ds, 0
  {
    if IsCompiler(out) {
      forall d | d in ds ensures Known(out, d, Show, Html, Here) {
        DocIsKnown(out, d);
      }
    }
  }

  lemma {:induction false} WholeByAny(out: (string, nat) -> string, ds: seq<Doc>)
    ensures IsCompiler(out) ==> WholeWritten(out, ds)
    decreases ds, 2
  {
    if IsCompiler(out) {
      AllAreKnown(out, ds);
      KnownMeansWritten(out, ShowAll(ds), 0, ds);
      DocumentMeansWhole(out, ds, ShowAll(ds), HtmlAll(ds));
    }
  }

  // ---- the compiler of this system is one ---------------------------------------------------------------

  function RenderPiece(p: Piece): string {
    Render(NodeOf(p, if p.Emphasis? then |p.inner| + 1 else 0))
  }

  function NextAt(c: string, i: nat): Read {
    if i < |c| then Next(c, i) else Read(Plain(' '), i + 1)
  }

  lemma SameNode(p: Piece, a: nat, b: nat)
    requires p.Emphasis? ==> |p.inner| < a && |p.inner| < b
    ensures NodeOf(p, a) == NodeOf(p, b)
  {
  }

  lemma StepIsTaken(c: string, i: nat)
    requires i < |c|
    ensures OutputFrom(c, i) == RenderPiece(NextAt(c, i).piece) + OutputFrom(c, NextAt(c, i).next)
  {
    var r := Next(c, i);
    RenderCons(NodeOf(r.piece, |c|), Parse(c, r.next));
    SameNode(r.piece, |c|, if r.piece.Emphasis? then |r.piece.inner| + 1 else 0);
  }

  lemma HereIsRead(c: string, i: nat, d: Doc)
    requires Here(c, i, d)
    ensures NextAt(c, i) == Read(PieceOf(d), i + |Show(d)|)
  {
    DocIsRead(c, i, d);
  }

  lemma FlatPiece(d: Doc)
    requires !HasContent(d)
    ensures RenderPiece(PieceOf(d)) == Html(d)
  {
    FlatIsRendered(d, 0);
  }

  lemma StyledPiece(style: Style, inner: string)
    ensures RenderPiece(Emphasis(style, inner)) == OpenTag(style) + OutputFrom(inner, 0) + CloseTag(style)
  {
    StyledIsRendered(style, inner, OutputFrom(inner, 0), |inner| + 1);
  }

  lemma NothingAtTheEnd(c: string)
    ensures OutputFrom(c, |c|) == ""
  {
  }

  lemma PieceIsRendered(d: Doc)
    requires ContentIsWritten(OutputFrom, d)
    ensures RenderPiece(PieceOf(d)) == Html(d)
  {
    if HasContent(d) {
      StyledPiece(PieceOf(d).style, ShowAll(d.inner));
    } else {
      FlatPiece(d);
    }
  }

  lemma TelegramReads()
    ensures ReadsAll(NextAt, PieceOf, Show, Here)
  {
    forall c: string, i: nat, d | Here(c, i, d) ensures i < |c| && NextAt(c, i) == Read(PieceOf(d), i + |Show(d)|) {
      HereIsRead(c, i, d);
    }
  }

  lemma TelegramRenders()
    ensures RendersAll(RenderPiece, PieceOf, Html, Content(OutputFrom))
  {
    forall d | Content(OutputFrom)(d) ensures RenderPiece(PieceOf(d)) == Html(d) {
      PieceIsRendered(d);
    }
  }

  lemma TelegramStepsOn()
    ensures StepsOn(OutputFrom, NextAt, RenderPiece)
  {
    forall c: string, i: nat | i < |c| ensures OutputFrom(c, i) == RenderPiece(NextAt(c, i).piece) + OutputFrom(c, NextAt(c, i).next) {
      StepIsTaken(c, i);
    }
  }

  lemma TelegramEndsEmpty()
    ensures EndsEmpty(OutputFrom)
  {
    forall c: string ensures OutputFrom(c, |c|) == "" {
      NothingAtTheEnd(c);
    }
  }

  lemma TelegramIsCompiler()
    ensures IsCompiler(OutputFrom)
  {
    TelegramReads();
    TelegramRenders();
    TelegramStepsOn();
    TelegramEndsEmpty();
    CompilesByParts(OutputFrom, NextAt, RenderPiece, PieceOf, Show, Html, Here, Content(OutputFrom));
  }

  lemma DocumentByTelegram(c: string, i: nat, ds: seq<Doc>)
    ensures DocumentWritten(OutputFrom, c, i, ds)
  {
    TelegramIsCompiler();
    AllAreKnown(OutputFrom, ds);
    KnownMeansWritten(OutputFrom, c, i, ds);
  }

  lemma DocumentMeansWrites(out: (string, nat) -> string, c: string, i: nat, ds: seq<Doc>, html: string, j: nat)
    ensures DocumentWritten(out, c, i, ds) && AllHere(c, i, ds) && html == HtmlAll(ds) && j == i + |ShowAll(ds)|
            ==> Writes(out, c, i, html, j)
  {
  }

  lemma WritesMeansOutput(c: string, i: nat, html: string, j: nat)
    ensures Writes(OutputFrom, c, i, html, j) ==> OutputFrom(c, i) == html + OutputFrom(c, j)
  {
  }

  lemma DocumentMeansOutput(c: string, i: nat, ds: seq<Doc>, html: string, j: nat)
    ensures DocumentWritten(OutputFrom, c, i, ds) && AllHere(c, i, ds) && html == HtmlAll(ds) && j == i + |ShowAll(ds)|
            ==> OutputFrom(c, i) == html + OutputFrom(c, j)
  {
    DocumentMeansWrites(OutputFrom, c, i, ds, html, j);
    WritesMeansOutput(c, i, html, j);
  }

  /** A document whose Markdown stands from `i` to `j` is compiled to its HTML, whatever stands in
      front of it and behind it. */
  lemma DocumentIsWritten(c: string, i: nat, ds: seq<Doc>, html: string, j: nat)
    ensures AllHere(c, i, ds) && html == HtmlAll(ds) && j == i + |ShowAll(ds)| ==> OutputFrom(c, i) == html + OutputFrom(c, j)
  {
    DocumentByTelegram(c, i, ds);
    DocumentMeansOutput(c, i, ds, html, j);
  }

  /** Compiling the Markdown of a document gives its HTML. */
  lemma WholeIsWritten(ds: seq<Doc>)
    requires AllFit(ds, true)
    ensures OutputFrom(ShowAll(ds), 0) == HtmlAll(ds)
  {
    TelegramIsCompiler();
    WholeByAny(OutputFrom, ds);
  }

  lemma FrontIsHere(ds: seq<Doc>, markdown: string, rest: string)
    ensures AllFit(ds, true) && markdown == ShowAll(ds) ==> AllHere(markdown + rest, 0, ds)
  {
    assert markdown <= markdown + rest;
  }

  /** A document in front of any text: its HTML, and then what is written for the text behind it. */
  lemma DocumentInFront(ds: seq<Doc>, markdown: string, html: string, rest: string)
    ensures AllFit(ds, true) && markdown == ShowAll(ds) && html == HtmlAll(ds) ==>
              OutputFrom(markdown + rest, 0) == html + OutputFrom(markdown + rest, |markdown|)
  {
    FrontIsHere(ds, markdown, rest);
    DocumentIsWritten(markdown + rest, 0, ds, html, |markdown|);
  }

  /** One construct in front of any text. */
  lemma OneInFront(d: Doc, rest: string)
    requires Fits(d, true)
    ensures OutputFrom(Show(d) + rest, 0) == Html(d) + OutputFrom(Show(d) + rest, |Show(d)|)
  {
    OneIsAll(d);
    DocumentInFront([d], Show(d), Html(d), rest);
  }

  lemma OneIsAll(d: Doc)
    requires Fits(d, true)
    ensures ShowAll([d]) == Show(d) && HtmlAll([d]) == Html(d) && AllFit([d], true)
  {
    assert [d][1..] == [];
    assert Show(d) + "" == Show(d) && Html(d) + "" == Html(d);
  }

  /** A link in front of any text, spelled out: the address goes into the attribute, the text between
      the tags. */
  lemma LinkInFront(shown: string, address: string, rest: string)
    requires ']' !in shown && ')' !in address
    ensures var markdown := "[" + (shown + ("](" + (address + ")")));
            OutputFrom(markdown + rest, 0)
            == "<a href=\"" + Escape(address) + "\">" + Escape(shown) + "</a>" + OutputFrom(markdown + rest, |markdown|)
  {
    OneInFront(Ref(shown, address), rest);
  }
}
