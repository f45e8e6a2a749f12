// The converter from the HTML of approval messages to QQ Markdown, and the escaping that it
// undoes.

module QqMarkdown {
  import opened Base
  import opened Markup

  // ---- what the front end writes ---------------------------------------------------

  function HtmlEscapeChar(c: char): string {
    match c
    case '&' => "&amp;"
    case '<' => "&lt;"
    case '>' => "&gt;"
    case '"' => "&quot;"
    case '\'' => "&#39;"
    case _ => [c]
  }

  function HtmlEscape(s: string): string {
    if s == "" then "" else HtmlEscapeChar(s[0]) + HtmlEscape(s[1..])
  }

  method EscapeHtml(input: string) returns (out: string)
    ensures out == HtmlEscape(input)
  {
    out := "";
    assert input[0..] == input;
    for i := 0 to |input|
      invariant out + HtmlEscape(input[i..]) == HtmlEscape(input)
    {
      assert input[i..][1..] == input[i + 1..];
      out := out + HtmlEscapeChar(input[i]);
    }
    assert out + "" == out;
  }

  // ---- the converter ---------------------------------------------------------------

  function LowerChar(c: char): char {
    if 'A' <= c <= 'Z' then (c as int + 32) as char else c
  }

  function Lower(s: string): string {
    seq(|s|, i requires 0 <= i < |s| => LowerChar(s[i]))
  }

  function TrimSlashes(s: string): (r: string)
    ensures r <= s
  {
    if s != "" && s[|s| - 1] == '/' then TrimSlashes(s[..|s| - 1]) else s
  }

  function Word(s: string): (r: string)
    ensures r <= s
  {
    if s == "" || IsSpace(s[0]) then "" else [s[0]] + Word(s[1..])
  }

  /** `split_whitespace().next()`; the empty word stands for none. */
  function FirstWord(s: string): string {
    Word(TrimStart(s))
  }

  /** The first position at or after `from` where `pattern` stands. */
  function Find(s: string, from: nat, pattern: string): (k: Option<nat>)
    requires from <= |s|
    ensures k.Some? ==> from <= k.value && k.value + |pattern| <= |s| && pattern <= s[k.value..]
    decreases |s| - from
  {
    if pattern <= s[from..] then Some(from)
    else if from == |s| then None
    else Find(s, from + 1, pattern)
  }

  datatype Mark = Mark(prefix: string, suffix: string, block: bool)

  function MarkOf(name: string): Option<Mark> {
    if name == "pre" then Some(Mark("```\n", "```", true))
    else if name == "b" || name == "strong" then Some(Mark("**", "**", false))
    else if name == "i" || name == "em" then Some(Mark("*", "*", false))
    else if name == "code" then Some(Mark("`", "`", false))
    else None
  }

  /** What stands at the head of a text: something written as it is, or an element whose content
      is converted on its own. */
  datatype Piece = Literal(text: string) | Element(mark: Mark, inner: string)

  datatype Read = Read(piece: Piece, length: nat)

  function ClosingTag(s: string, from: nat, name: string): (k: Option<nat>)
    requires from <= |s|
    ensures k.Some? ==> from <= k.value && k.value + |name| + 3 <= |s|
  {
    var exact := Find(s, from, "</" + name + ">");
    if exact.Some? then exact else Find(s, from, "</" + name + " ")
  }

  function ReadTag(s: string): (r: Read)
    requires s != "" && s[0] == '<'
    ensures 0 < r.length <= |s|
    ensures r.piece.Element? ==> |r.piece.inner| < |s|
  {
    var close := IndexFrom(s, 1, '>');
    if close == |s| then Read(Literal("<"), 1)
    else
      var trimmed := TrimSlashes(Lower(s[1..close]));
      var name := FirstWord(trimmed);
      if trimmed == "br" then Read(Literal("\n"), close + 1)
      else if name == "" then Read(Literal("<"), 1)
      else
        var mark := MarkOf(name);
        var end := if mark.Some? then ClosingTag(s, close + 1, name) else None;
        if end.None? then Read(Literal(""), close + 1)
        else Read(Element(mark.value, s[close + 1..end.value]), end.value + |name| + 3)
  }

  function ReadHead(s: string): (r: Read)
    requires s != ""
    ensures 0 < r.length <= |s|
    ensures r.piece.Element? ==> |r.piece.inner| < |s|
  {
    if s[0] == '<' then ReadTag(s)
    else if "&lt;" <= s then Read(Literal("<"), 4)
    else if "&gt;" <= s then Read(Literal(">"), 4)
    else if "&amp;" <= s then Read(Literal("&"), 5)
    else if "&quot;" <= s then Read(Literal("\""), 6)
    else if "&#39;" <= s then Read(Literal("'"), 5)
    else Read(Literal([s[0]]), 1)
  }

  function Wrap(mark: Mark, inner: string, converted: string): string {
    mark.prefix + converted + (if mark.block && !EndsLine(inner) then "\n" else "") + mark.suffix
  }

  predicate EndsLine(s: string) {
    s != "" && s[|s| - 1] == '\n'
  }

  function Convert(s: string): string
    decreases |s|
  {
    if s == "" then ""
    else
      var r := ReadHead(s);
      (match r.piece
       case Literal(text) => text
       case Element(mark, inner) => Wrap(mark, inner, Convert(inner)))
      + Convert(s[r.length..])
  }

  /** The cursor loop, recursive on the content of elements; it ends on every input. */
  method HtmlToMarkdown(text: string) returns (out: string)
    ensures out == Convert(text)
    decreases |text|
  {
    out := "";
    var i := 0;
    assert text[0..] == text;
    while i < |text|
      invariant 0 <= i <= |text| && out + Convert(text[i..]) == Convert(text)
      decreases |text| - i
    {
      var rest := text[i..];
      var r := ReadHead(rest);
      var piece: string;
      match r.piece {
        case Literal(literal) =>
          piece := literal;
        case Element(mark, inner) =>
          var converted := HtmlToMarkdown(inner);
          piece := mark.prefix + converted;
          if mark.block && !EndsLine(inner) {
            piece := piece + "\n";
          }
          piece := piece + mark.suffix;
          assert mark.prefix + converted + "" == mark.prefix + converted;
          assert piece == Wrap(mark, inner, converted);
      }
      ConvertStep(out, rest, piece);
      assert rest[r.length..] == text[i + r.length..];
      out := out + piece;
      i := i + r.length;
    }
    assert out + "" == out;
  }

  function PieceOf(s: string): string
    requires s != ""
  {
    match ReadHead(s).piece
    case Literal(text) => text
    case Element(mark, inner) => Wrap(mark, inner, Convert(inner))
  }

  lemma ConvertStep(out: string, s: string, piece: string)
    requires s != "" && piece == PieceOf(s)
    ensures out + Convert(s) == out + piece + Convert(s[ReadHead(s).length..])
  {
  }

  // ---- escaping is undone ----------------------------------------------------------

  lemma HeadOfEscaped(c: char, rest: string)
    ensures var s := HtmlEscapeChar(c) + rest;
            ReadHead(s) == Read(Literal([c]), |HtmlEscapeChar(c)|) && s[|HtmlEscapeChar(c)|..] == rest
  {
    var e := HtmlEscapeChar(c);
    var s := e + rest;
    assert e <= s;
    if c == '&' || c == '<' || c == '>' || c == '"' || c == '\'' {
      assert s[0] == '&' && s[1] == e[1] && s[2] == e[2];
    }
  }

  lemma EscapedCharConverts(c: char, rest: string)
    ensures Convert(HtmlEscapeChar(c) + rest) == [c] + Convert(rest)
  {
    HeadOfEscaped(c, rest);
    var s := HtmlEscapeChar(c) + rest;
    ConvertStep("", s, [c]);
    assert "" + Convert(s) == Convert(s) && "" + [c] == [c];
  }

  /** Text in front: the converter gives back what was escaped, then goes on. */
  lemma {:induction false} EscapedTextConverts(s: string, rest: string)
    ensures Convert(HtmlEscape(s) + rest) == s + Convert(rest)
  {
    if s == "" {
      assert "" + rest == rest;
      assert "" + Convert(rest) == Convert(rest);
    } else {
      EscapedTextConverts(s[1..], rest);
      EscapedCharConverts(s[0], HtmlEscape(s[1..]) + rest);
      Regroup(HtmlEscapeChar(s[0]), HtmlEscape(s[1..]), rest);
      Regroup([s[0]], s[1..], Convert(rest));
      assert s == [s[0]] + s[1..];
    }
  }

  /** Converting what was escaped is the identity on every string. */
  lemma ConvertUndoesEscape(s: string)
    ensures Convert(HtmlEscape(s)) == s
  {
    EscapedTextConverts(s, "");
    assert HtmlEscape(s) + "" == HtmlEscape(s);
    assert s + Convert("") == s;
  }

  lemma {:induction false} EscapedHasNoBracket(s: string)
    ensures '<' !in HtmlEscape(s)
    ensures EndsLine(HtmlEscape(s)) <==> EndsLine(s)
  {
    if s != "" {
      EscapedHasNoBracket(s[1..]);
      var e := HtmlEscapeChar(s[0]);
      assert '<' !in e;
      assert EndsLine(e) <==> s[0] == '\n';
      if s[1..] == "" {
        assert HtmlEscape(s) == e + "";
      } else {
        assert HtmlEscape(s[1..]) != "" by {
          assert HtmlEscapeChar(s[1..][0]) != "";
        }
      }
    }
  }

  lemma {:induction false} FindsBehindText(text: string, pattern: string, rest: string, from: nat)
    requires from <= |text| && '<' !in text && pattern != "" && pattern[0] == '<'
    ensures Find(text + (pattern + rest), from, pattern) == Some(|text|)
    decreases |text| - from
  {
    var s := text + (pattern + rest);
    if from < |text| {
      assert s[from..][0] == text[from] && text[from] in text;
      FindsBehindText(text, pattern, rest, from + 1);
    } else {
      assert s[from..] == pattern + rest;
    }
  }

  lemma {:induction false} FindShift(s: string, k: nat, from: nat, pattern: string)
    requires k + from <= |s|
    ensures Find(s, k + from, pattern) ==
            (var f := Find(s[k..], from, pattern); if f.Some? then Some(k + f.value) else None)
    decreases |s| - from
  {
    assert s[k..][from..] == s[k + from..];
    if !(pattern <= s[k + from..]) && k + from < |s| {
      FindShift(s, k, from + 1, pattern);
    }
  }

  const PRE_OPEN := "<pre>"
  const PRE_CLOSE := "</pre>"

  lemma PreNames()
    ensures Lower("pre") == "pre" && TrimSlashes("pre") == "pre" && FirstWord("pre") == "pre"
    ensures "</" + "pre" + ">" == PRE_CLOSE
  {
    assert Word("") == "";
    assert "pre"[1..] == "re" && "re"[1..] == "e" && "e"[1..] == "";
    assert Word("e") == "e" && Word("re") == "re" && Word("pre") == "pre";
    assert TrimStart("pre") == "pre";
  }

  lemma OpeningOfPre(s: string, tail: string)
    requires s == PRE_OPEN + tail
    ensures s[0] == '<' && IndexFrom(s, 1, '>') == 4 && s[1..4] == "pre" && s[5..] == tail
  {
    assert s[0] == '<' && s[1] == 'p' && s[2] == 'r' && s[3] == 'e' && s[4] == '>';
  }

  lemma ClosingOfPre(s: string, inner: string, rest: string)
    requires '<' !in inner && |s| >= 5 && s[5..] == inner + (PRE_CLOSE + rest)
    ensures ClosingTag(s, 5, "pre") == Some(5 + |inner|)
    ensures s[5..5 + |inner|] == inner && s[5 + |inner| + 6..] == rest
  {
    var tail := inner + (PRE_CLOSE + rest);
    PreNames();
    FindsBehindText(inner, PRE_CLOSE, rest, 0);
    FindShift(s, 5, 0, PRE_CLOSE);
    assert tail[..|inner|] == inner && tail[|inner| + 6..] == rest;
  }

  lemma TagOfPre(s: string, end: nat)
    requires |s| >= 5 && s[0] == '<' && IndexFrom(s, 1, '>') == 4 && s[1..4] == "pre"
    requires ClosingTag(s, 5, "pre") == Some(end)
    ensures ReadHead(s) == Read(Element(Mark("```\n", "```", true), s[5..end]), end + 6)
  {
    PreNames();
  }

  lemma HeadOfPre(inner: string, rest: string)
    requires '<' !in inner
    ensures var s := PRE_OPEN + (inner + (PRE_CLOSE + rest));
            ReadHead(s) == Read(Element(Mark("```\n", "```", true), inner), 5 + |inner| + 6)
            && s[5 + |inner| + 6..] == rest
  {
    var tail := inner + (PRE_CLOSE + rest);
    var s := PRE_OPEN + tail;
    OpeningOfPre(s, tail);
    ClosingOfPre(s, inner, rest);
    TagOfPre(s, 5 + |inner|);
  }

  /** The code fence that a preformatted block turns into. */
  function Fence(s: string): string {
    "```\n" + s + (if EndsLine(s) then "" else "\n") + "```"
  }

  /** A preformatted block around escaped text, with escaped text on both sides, becomes a fenced
      block that holds exactly the original text; nothing else of the message changes. */
  lemma PreBlockConverts(before: string, s: string, after: string)
    ensures Convert(HtmlEscape(before) + (PRE_OPEN + (HtmlEscape(s) + (PRE_CLOSE + HtmlEscape(after)))))
            == before + (Fence(s) + after)
  {
    var inner := HtmlEscape(s);
    var rest := HtmlEscape(after);
    var block := PRE_OPEN + (inner + (PRE_CLOSE + rest));
    EscapedTextConverts(before, block);
    EscapedHasNoBracket(s);
    HeadOfPre(inner, rest);
    ConvertUndoesEscape(s);
    ConvertUndoesEscape(after);
    ConvertStep("", block, PieceOf(block));
    assert PieceOf(block) == Fence(s);
  }

  // ---- inline elements ---------------------------------------------------------------

  /** A tag name as the converter reads it back from between the brackets. */
  ghost predicate ReadsAsName(name: string) {
    && name != "" && '>' !in name
    && Lower(name) == name && TrimSlashes(name) == name && FirstWord(name) == name && name != "br"
  }

  function OpenTag(name: string): string {
    "<" + name + ">"
  }

  function CloseTag(name: string): string {
    "</" + name + ">"
  }

  lemma {:induction false} IndexBehind(a: string, b: string, from: nat, ch: char)
    requires from <= |a| && ch !in a[from..] && b != "" && b[0] == ch
    ensures IndexFrom(a + b, from, ch) == |a|
    decreases |a| - from
  {
    if from < |a| {
      assert a[from] in a[from..];
      assert a[from + 1..] == a[from..][1..];
      IndexBehind(a, b, from + 1, ch);
    }
  }

  lemma OpeningReads(name: string, tail: string)
    requires '>' !in name
    ensures var s := OpenTag(name) + tail;
            && s[0] == '<' && IndexFrom(s, 1, '>') == |name| + 1
            && s[1..|name| + 1] == name && s[|name| + 2..] == tail
  {
    var s := OpenTag(name) + tail;
    assert s == ("<" + name) + (">" + tail);
    assert ("<" + name)[1..] == name;
    IndexBehind("<" + name, ">" + tail, 1, '>');
  }

  lemma FoundBehind(s: string, from: nat, inner: string, close: string, rest: string)
    requires '<' !in inner && close != "" && close[0] == '<' && from <= |s| && s[from..] == inner + (close + rest)
    ensures Find(s, from, close) == Some(from + |inner|)
    ensures from + |inner| + |close| <= |s| && s[from..from + |inner|] == inner && s[from + |inner| + |close|..] == rest
  {
    var tail := inner + (close + rest);
    FindsBehindText(inner, close, rest, 0);
    FindShift(s, from, 0, close);
    assert tail[..|inner|] == inner && tail[|inner| + |close|..] == rest;
  }

  lemma ElementRead(s: string, name: string, mark: Mark, end: nat, inner: string, length: nat)
    requires ReadsAsName(name) && MarkOf(name) == Some(mark)
    requires |s| >= |name| + 2 && s[0] == '<' && IndexFrom(s, 1, '>') == |name| + 1 && s[1..|name| + 1] == name
    requires ClosingTag(s, |name| + 2, name) == Some(end) && s[|name| + 2..end] == inner && length == end + |name| + 3
    ensures ReadHead(s) == Read(Element(mark, inner), length)
  {
  }

  /** A text that starts with an element of this name; `inner` is what stands in front of `end`. */
  ghost predicate Framed(s: string, name: string, end: nat, inner: string) {
    && |name| + 2 <= end && end + |name| + 3 <= |s| && s[0] == '<'
    && IndexFrom(s, 1, '>') == |name| + 1 && s[1..|name| + 1] == name
    && ClosingTag(s, |name| + 2, name) == Some(end)
    && s[|name| + 2..end] == inner
  }

  lemma ElementIsFramed(s: string, name: string, inner: string, rest: string)
    requires '>' !in name && '<' !in inner && s == OpenTag(name) + (inner + (CloseTag(name) + rest))
    ensures Framed(s, name, |name| + 2 + |inner|, inner)
    ensures s[|name| + 2 + |inner| + |name| + 3..] == rest
  {
    OpeningReads(name, inner + (CloseTag(name) + rest));
    FoundBehind(s, |name| + 2, inner, CloseTag(name), rest);
  }

  lemma ConvertFirst(s: string)
    requires s != ""
    ensures Convert(s) == PieceOf(s) + Convert(s[ReadHead(s).length..])
  {
  }

  lemma HeadGivesPiece(s: string, mark: Mark, inner: string, length: nat)
    requires s != "" && ReadHead(s) == Read(Element(mark, inner), length)
    ensures PieceOf(s) == Wrap(mark, inner, Convert(inner)) && length <= |s|
  {
  }

  lemma WrapInline(mark: Mark, inner: string, converted: string)
    requires !mark.block
    ensures Wrap(mark, inner, converted) == mark.prefix + converted + mark.suffix
  {
    assert mark.prefix + converted + "" == mark.prefix + converted;
  }

  /** The head of a text: an element with this mark around `inner`, and `rest` behind it. */
  ghost predicate Heads(text: string, mark: Mark, inner: string, rest: string) {
    exists length :: Ahead(text, mark, inner, rest, length)
  }

  ghost predicate Ahead(text: string, mark: Mark, inner: string, rest: string, length: nat) {
    text != "" && length <= |text| && ReadHead(text) == Read(Element(mark, inner), length) && text[length..] == rest
  }

  lemma FramedHeads(text: string, name: string, mark: Mark, inner: string, rest: string, end: nat, length: nat)
    requires ReadsAsName(name) && MarkOf(name) == Some(mark)
    requires length == end + |name| + 3 && Framed(text, name, end, inner) && text[length..] == rest
    ensures Heads(text, mark, inner, rest)
  {
    ElementRead(text, name, mark, end, inner, length);
    assert Ahead(text, mark, inner, rest, length);
  }

  lemma ElementConverts(text: string, mark: Mark, s: string, rest: string)
    requires Heads(text, mark, HtmlEscape(s), rest) && !mark.block
    ensures Convert(text) == mark.prefix + s + mark.suffix + Convert(rest)
  {
    var length :| Ahead(text, mark, HtmlEscape(s), rest, length);
    HeadConverts(text, mark, s, HtmlEscape(s), length);
  }

  lemma HeadConverts(text: string, mark: Mark, s: string, inner: string, length: nat)
    requires text != "" && !mark.block && inner == HtmlEscape(s) && ReadHead(text) == Read(Element(mark, inner), length)
    ensures length <= |text| && Convert(text) == mark.prefix + s + mark.suffix + Convert(text[length..])
  {
    HeadGivesPiece(text, mark, inner, length);
    ConvertUndoesEscape(s);
    WrapInline(mark, inner, s);
    ConvertFirst(text);
  }

  lemma {:induction false} LettersAreOneWord(s: string)
    requires forall i :: 0 <= i < |s| ==> 'a' <= s[i] <= 'z'
    ensures Word(s) == s && TrimStart(s) == s
  {
    if s != "" {
      assert !IsSpace(s[0]);
      assert forall i :: 0 <= i < |s[1..]| ==> s[1..][i] == s[i + 1];
      LettersAreOneWord(s[1..]);
    }
  }

  lemma LettersRead(name: string)
    requires name != "" && name != "br" && forall i :: 0 <= i < |name| ==> 'a' <= name[i] <= 'z'
    ensures ReadsAsName(name)
  {
    LettersAreOneWord(name);
    assert Lower(name) == name;
  }

  lemma BoldHeads(text: string, inner: string, rest: string, end: nat, length: nat)
    requires Framed(text, "b", end, inner) && length == end + 4 && text[length..] == rest
    ensures Heads(text, Mark("**", "**", false), inner, rest)
  {
    LettersRead("b");
    FramedHeads(text, "b", Mark("**", "**", false), inner, rest, end, length);
  }

  lemma BoldConverts(text: string, s: string, inner: string, rest: string)
    requires text == "<b>" + (inner + ("</b>" + rest)) && inner == HtmlEscape(s)
    ensures Convert(text) == "**" + s + "**" + Convert(rest)
  {
    EscapedHasNoBracket(s);
    assert OpenTag("b") == "<b>" && CloseTag("b") == "</b>";
    ElementIsFramed(text, "b", inner, rest);
    BoldHeads(text, inner, rest, 3 + |inner|, 7 + |inner|);
    ElementConverts(text, Mark("**", "**", false), s, rest);
  }

  lemma StrongHeads(text: string, inner: string, rest: string, end: nat, length: nat)
    requires Framed(text, "strong", end, inner) && length == end + 9 && text[length..] == rest
    ensures Heads(text, Mark("**", "**", false), inner, rest)
  {
    LettersRead("strong");
    FramedHeads(text, "strong", Mark("**", "**", false), inner, rest, end, length);
  }

  lemma StrongConverts(text: string, s: string, inner: string, rest: string)
    requires text == "<strong>" + (inner + ("</strong>" + rest)) && inner == HtmlEscape(s)
    ensures Convert(text) == "**" + s + "**" + Convert(rest)
  {
    EscapedHasNoBracket(s);
    assert OpenTag("strong") == "<strong>" && CloseTag("strong") == "</strong>";
    ElementIsFramed(text, "strong", inner, rest);
    StrongHeads(text, inner, rest, 8 + |inner|, 17 + |inner|);
    ElementConverts(text, Mark("**", "**", false), s, rest);
  }

  lemma ItalicHeads(text: string, inner: string, rest: string, end: nat, length: nat)
    requires Framed(text, "i", end, inner) && length == end + 4 && text[length..] == rest
    ensures Heads(text, Mark("*", "*", false), inner, rest)
  {
    LettersRead("i");
    FramedHeads(text, "i", Mark("*", "*", false), inner, rest, end, length);
  }

  lemma ItalicConverts(text: string, s: string, inner: string, rest: string)
    requires text == "<i>" + (inner + ("</i>" + rest)) && inner == HtmlEscape(s)
    ensures Convert(text) == "*" + s + "*" + Convert(rest)
  {
    EscapedHasNoBracket(s);
    assert OpenTag("i") == "<i>" && CloseTag("i") == "</i>";
    ElementIsFramed(text, "i", inner, rest);
    ItalicHeads(text, inner, rest, 3 + |inner|, 7 + |inner|);
    ElementConverts(text, Mark("*", "*", false), s, rest);
  }

  lemma EmHeads(text: string, inner: string, rest: string, end: nat, length: nat)
    requires Framed(text, "em", end, inner) && length == end + 5 && text[length..] == rest
    ensures Heads(text, Mark("*", "*", false), inner, rest)
  {
    LettersRead("em");
    FramedHeads(text, "em", Mark("*", "*", false), inner, rest, end, length);
  }

  lemma EmConverts(text: string, s: string, inner: string, rest: string)
    requires text == "<em>" + (inner + ("</em>" + rest)) && inner == HtmlEscape(s)
    ensures Convert(text) == "*" + s + "*" + Convert(rest)
  {
    EscapedHasNoBracket(s);
    assert OpenTag("em") == "<em>" && CloseTag("em") == "</em>";
    ElementIsFramed(text, "em", inner, rest);
    EmHeads(text, inner, rest, 4 + |inner|, 9 + |inner|);
    ElementConverts(text, Mark("*", "*", false), s, rest);
  }

  lemma CodeHeads(text: string, inner: string, rest: string, end: nat, length: nat)
    requires Framed(text, "code", end, inner) && length == end + 7 && text[length..] == rest
    ensures Heads(text, Mark("`", "`", false), inner, rest)
  {
    LettersRead("code");
    FramedHeads(text, "code", Mark("`", "`", false), inner, rest, end, length);
  }

  lemma CodeConverts(text: string, s: string, inner: string, rest: string)
    requires text == "<code>" + (inner + ("</code>" + rest)) && inner == HtmlEscape(s)
    ensures Convert(text) == "`" + s + "`" + Convert(rest)
  {
    EscapedHasNoBracket(s);
    assert OpenTag("code") == "<code>" && CloseTag("code") == "</code>";
    ElementIsFramed(text, "code", inner, rest);
    CodeHeads(text, inner, rest, 6 + |inner|, 13 + |inner|);
    ElementConverts(text, Mark("`", "`", false), s, rest);
  }

  /** Bold, italic and code elements around escaped text become the text between two asterisks, one
      asterisk and one backquote on each side, in front of anything. */
  lemma InlineElementsConvert(s: string, rest: string)
    ensures Convert("<b>" + (HtmlEscape(s) + ("</b>" + rest))) == "**" + s + "**" + Convert(rest)
    ensures Convert("<strong>" + (HtmlEscape(s) + ("</strong>" + rest))) == "**" + s + "**" + Convert(rest)
    ensures Convert("<i>" + (HtmlEscape(s) + ("</i>" + rest))) == "*" + s + "*" + Convert(rest)
    ensures Convert("<em>" + (HtmlEscape(s) + ("</em>" + rest))) == "*" + s + "*" + Convert(rest)
    ensures Convert("<code>" + (HtmlEscape(s) + ("</code>" + rest))) == "`" + s + "`" + Convert(rest)
  {
    var inner := HtmlEscape(s);
    BoldConverts("<b>" + (inner + ("</b>" + rest)), s, inner, rest);
    StrongConverts("<strong>" + (inner + ("</strong>" + rest)), s, inner, rest);
    ItalicConverts("<i>" + (inner + ("</i>" + rest)), s, inner, rest);
    EmConverts("<em>" + (inner + ("</em>" + rest)), s, inner, rest);
    CodeConverts("<code>" + (inner + ("</code>" + rest)), s, inner, rest);
  }
}
