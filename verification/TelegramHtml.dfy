// What the Markdown compiler guarantees about its output: well-nested tags, escaped text, and
// a plain-text fallback that gives back exactly the text of the document.

module TelegramHtml {
  import opened Base
  import opened Markup
  import opened TelegramMarkdown

  predicate NoBrackets(s: string) {
    '<' !in s && '>' !in s
  }

  // ---- an independent checker for the output --------------------------------------

  predicate Allowed(name: string) {
    name == "b" || name == "i" || name == "s" || name == "code" || name == "pre" || name == "a"
  }

  function TagName(tag: string): string {
    tag[..IndexFrom(tag, 0, ' ')]
  }

  /** Reads a string from the left with the stack of open tags. Every `<` must start an allowed
      tag or close the innermost open one, and there is no other bracket. */
  ghost predicate WellNested(s: string, open: seq<string>)
    decreases |s|
  {
    if s == "" then open == []
    else if s[0] == '>' then false
    else if s[0] != '<' then WellNested(s[1..], open)
    else
      var close := IndexFrom(s, 1, '>');
      var tag := s[1..close];
      close < |s| && '<' !in tag
      && if tag != "" && tag[0] == '/'
         then open != [] && tag[1..] == open[0] && WellNested(s[close + 1..], open[1..])
         else Allowed(TagName(tag)) && WellNested(s[close + 1..], [TagName(tag)] + open)
  }

  // ---- the output as a list of tokens ----------------------------------------------

  datatype Token = Text(s: string) | Open(name: string, attributes: string) | Close(name: string)

  function WriteToken(t: Token): string {
    match t
    case Text(s) => s
    case Open(name, attributes) => "<" + (name + attributes) + ">"
    case Close(name) => "<" + ("/" + name) + ">"
  }

  function Write(ts: seq<Token>): string {
    if ts == [] then "" else WriteToken(ts[0]) + Write(ts[1..])
  }

  ghost predicate TokenOk(t: Token) {
    match t
    case Text(s) => NoBrackets(s)
    case Open(name, attributes) =>
      Allowed(name) && ' ' !in name && name != "" && name[0] != '/' && NoBrackets(name) && NoBrackets(attributes)
      && (attributes != "" ==> attributes[0] == ' ')
    case Close(name) => NoBrackets(name)
  }

  ghost predicate TokensOk(ts: seq<Token>) {
    forall t :: t in ts ==> TokenOk(t)
  }

  ghost predicate Balanced(ts: seq<Token>, open: seq<string>) {
    if ts == [] then open == []
    else match ts[0]
      case Text(_) => Balanced(ts[1..], open)
      case Open(name, _) => Balanced(ts[1..], [name] + open)
      case Close(name) => open != [] && open[0] == name && Balanced(ts[1..], open[1..])
  }

  lemma {:induction false} TextPasses(t: string, rest: string, open: seq<string>)
    requires NoBrackets(t)
    ensures WellNested(t + rest, open) == WellNested(rest, open)
  {
    if t == "" {
      assert t + rest == rest;
    } else {
      assert t[0] in t && (t + rest)[1..] == t[1..] + rest;
      TextPasses(t[1..], rest, open);
    }
  }

  lemma {:induction false} IndexPast(a: string, b: string, from: nat, ch: char)
    requires from <= |a| && ch !in a[from..] && b != "" && b[0] == ch
    ensures IndexFrom(a + b, from, ch) == |a|
    decreases |a| - from
  {
    if from < |a| {
      assert a[from] in a[from..];
      assert a[from + 1..] == a[from..][1..];
      IndexPast(a, b, from + 1, ch);
    }
  }

  lemma NameOfTag(name: string, attributes: string)
    requires ' ' !in name && (attributes != "" ==> attributes[0] == ' ')
    ensures TagName(name + attributes) == name
  {
    var tag := name + attributes;
    var k := IndexFrom(tag, 0, ' ');
    forall i | 0 <= i < |name| ensures tag[i] != ' ' {
      assert tag[i] == name[i] && name[i] in name;
    }
    if attributes != "" {
      assert tag[|name|] == ' ';
    }
    assert k == |name|;
  }

  /** How the checker reads one bracketed tag. */
  lemma TagReads(tag: string, rest: string, open: seq<string>)
    requires NoBrackets(tag)
    ensures WellNested("<" + tag + ">" + rest, open) ==
            if tag != "" && tag[0] == '/'
            then open != [] && tag[1..] == open[0] && WellNested(rest, open[1..])
            else Allowed(TagName(tag)) && WellNested(rest, [TagName(tag)] + open)
  {
    var s := "<" + tag + ">" + rest;
    assert s == ("<" + tag) + (">" + rest);
    assert ("<" + tag)[1..] == tag;
    IndexPast("<" + tag, ">" + rest, 1, '>');
    assert s[1..|tag| + 1] == tag && s[|tag| + 2..] == rest;
  }

  lemma {:induction false} WrittenIsBalanced(ts: seq<Token>, open: seq<string>)
    requires TokensOk(ts)
    ensures WellNested(Write(ts), open) == Balanced(ts, open)
    decreases |ts|
  {
    if ts != [] {
      var rest := Write(ts[1..]);
      assert TokenOk(ts[0]);
      match ts[0]
      case Text(s) =>
        TextPasses(s, rest, open);
        WrittenIsBalanced(ts[1..], open);
      case Open(name, attributes) =>
        TagReads(name + attributes, rest, open);
        NameOfTag(name, attributes);
        WrittenIsBalanced(ts[1..], [name] + open);
      case Close(name) =>
        TagReads("/" + name, rest, open);
        assert ("/" + name)[1..] == name;
        if open != [] {
          WrittenIsBalanced(ts[1..], open[1..]);
        }
    }
  }

  lemma {:induction false} WriteConcat(a: seq<Token>, b: seq<Token>)
    ensures Write(a + b) == Write(a) + Write(b)
  {
    if a == [] {
      assert a + b == b;
    } else {
      assert (a + b)[1..] == a[1..] + b;
      WriteConcat(a[1..], b);
      assert WriteToken(a[0]) + (Write(a[1..]) + Write(b)) == WriteToken(a[0]) + Write(a[1..]) + Write(b);
    }
  }

  /** A balanced part can stand in front of anything. */
  lemma {:induction false} BalancedConcat(a: seq<Token>, b: seq<Token>, inner: seq<string>, open: seq<string>)
    requires Balanced(a, inner)
    ensures Balanced(a + b, inner + open) == Balanced(b, open)
    decreases |a|
  {
    if a == [] {
      assert a + b == b && inner + open == open;
    } else {
      assert (a + b)[1..] == a[1..] + b && (a + b)[0] == a[0];
      match a[0]
      case Text(_) => BalancedConcat(a[1..], b, inner, open);
      case Open(name, _) =>
        BalancedConcat(a[1..], b, [name] + inner, open);
        assert ([name] + inner) + open == [name] + (inner + open);
      case Close(name) =>
        BalancedConcat(a[1..], b, inner[1..], open);
        assert (inner + open)[1..] == inner[1..] + open;
    }
  }

  // ---- the tokens of a tree ------------------------------------------------------

  function StyleName(style: Style): string {
    match style
    case Bold => "b"
    case Italic => "i"
    case Strike => "s"
  }

  function Element(name: string, attributes: string, inner: seq<Token>): seq<Token> {
    [Open(name, attributes)] + inner + [Close(name)]
  }

  function HrefAttribute(url: string): string {
    " href=\"" + Escape(url) + "\""
  }

  function Tokens(n: Node): seq<Token>
    decreases n, 0
  {
    match n
    case Char(c) => [Text(EscapeChar(c))]
    case Pre(lang, body) => Element("pre", "", Element("code", LangAttribute(lang), [Text(Escape(body))]))
    case Code(body) => Element("code", "", [Text(Escape(body))])
    case Styled(style, children) => Element(StyleName(style), "", TokensAll(children))
    case Anchor(text, url) => Element("a", HrefAttribute(url), [Text(Escape(text))])
    case Title(title) => Element("b", "", [Text(Escape(title))]) + [Text("\n")]
  }

  function TokensAll(ns: seq<Node>): seq<Token>
    decreases ns, 0
  {
    if ns == [] then [] else Tokens(ns[0]) + TokensAll(ns[1..])
  }

  lemma WriteElement(name: string, attributes: string, inner: seq<Token>)
    ensures Write(Element(name, attributes, inner)) ==
            "<" + (name + attributes) + ">" + Write(inner) + ("<" + ("/" + name) + ">")
  {
    WriteConcat([Open(name, attributes)], inner);
    WriteConcat([Open(name, attributes)] + inner, [Close(name)]);
    WriteOne(Open(name, attributes));
    WriteOne(Close(name));
  }

  lemma WriteOne(t: Token)
    ensures Write([t]) == WriteToken(t)
  {
    assert [t][1..] == [];
    assert WriteToken(t) + "" == WriteToken(t);
  }

  lemma ElementBalanced(name: string, attributes: string, inner: seq<Token>)
    requires Balanced(inner, [])
    ensures Balanced(Element(name, attributes, inner), [])
  {
    var e := Element(name, attributes, inner);
    assert e[1..] == inner + [Close(name)];
    BalancedConcat(inner, [Close(name)], [], [name]);
    assert [] + [name] == [name] && [name] + [] == [name];
    assert [Close(name)][1..] == [] && [name][1..] == [];
  }

  lemma ElementOk(name: string, attributes: string, inner: seq<Token>)
    requires TokenOk(Open(name, attributes)) && TokensOk(inner)
    ensures TokensOk(Element(name, attributes, inner))
  {
  }

  lemma BalancedText(s: string)
    ensures Balanced([Text(s)], [])
  {
    assert [Text(s)][1..] == [];
  }

  lemma AttributesOk(lang: string, url: string)
    ensures NoBrackets(LangAttribute(lang)) && (LangAttribute(lang) != "" ==> LangAttribute(lang)[0] == ' ')
    ensures NoBrackets(HrefAttribute(url)) && HrefAttribute(url)[0] == ' '
  {
    EscapeHasNoBrackets(lang);
    EscapeHasNoBrackets(url);
  }

  lemma EscapedTokenOk(s: string)
    ensures TokensOk([Text(Escape(s))])
  {
    EscapeHasNoBrackets(s);
  }

  lemma {:induction false} TokensAreOk(n: Node)
    ensures TokensOk(Tokens(n)) && Balanced(Tokens(n), [])
    decreases n, 0
  {
    match n
    case Char(c) => BalancedText(EscapeChar(c));
    case Pre(lang, body) =>
      EscapedTokenOk(body);
      AttributesOk(lang, "");
      BalancedText(Escape(body));
      ElementOk("code", LangAttribute(lang), [Text(Escape(body))]);
      ElementBalanced("code", LangAttribute(lang), [Text(Escape(body))]);
      ElementOk("pre", "", Element("code", LangAttribute(lang), [Text(Escape(body))]));
      ElementBalanced("pre", "", Element("code", LangAttribute(lang), [Text(Escape(body))]));
    case Code(body) =>
      EscapedTokenOk(body);
      BalancedText(Escape(body));
      ElementOk("code", "", [Text(Escape(body))]);
      ElementBalanced("code", "", [Text(Escape(body))]);
    case Styled(style, children) =>
      AllTokensAreOk(children);
      ElementOk(StyleName(style), "", TokensAll(children));
      ElementBalanced(StyleName(style), "", TokensAll(children));
    case Anchor(text, url) =>
      EscapedTokenOk(text);
      AttributesOk("", url);
      BalancedText(Escape(text));
      ElementOk("a", HrefAttribute(url), [Text(Escape(text))]);
      ElementBalanced("a", HrefAttribute(url), [Text(Escape(text))]);
    case Title(title) =>
      EscapedTokenOk(title);
      BalancedText(Escape(title));
      ElementOk("b", "", [Text(Escape(title))]);
      ElementBalanced("b", "", [Text(Escape(title))]);
      BalancedText("\n");
      BalancedConcat(Element("b", "", [Text(Escape(title))]), [Text("\n")], [], []);
      var none: seq<string> := [];
      assert none + none == none;
  }

  lemma {:induction false} AllTokensAreOk(ns: seq<Node>)
    ensures TokensOk(TokensAll(ns)) && Balanced(TokensAll(ns), [])
    decreases ns, 0
  {
    if ns != [] {
      TokensAreOk(ns[0]);
      AllTokensAreOk(ns[1..]);
      BalancedConcat(Tokens(ns[0]), TokensAll(ns[1..]), [], []);
      var none: seq<string> := [];
      assert none + none == none;
    }
  }

  // ---- rendering writes the tokens -------------------------------------------------

  lemma {:induction false} RenderWrites(n: Node)
    ensures Render(n) == Write(Tokens(n))
    decreases n, 0
  {
    match n
    case Char(c) => WriteOne(Text(EscapeChar(c)));
    case Pre(lang, body) => PreWrites(lang, body);
    case Code(body) => CodeWrites(body);
    case Styled(style, children) =>
      AllRenderWrites(children);
      WriteElement(StyleName(style), "", TokensAll(children));
      StyleTags(style);
    case Anchor(text, url) => AnchorWrites(text, url);
    case Title(title) => TitleWrites(title);
  }

  lemma CodeWrites(body: string)
    ensures Render(Code(body)) == Write(Tokens(Code(body)))
  {
    WriteElement("code", "", [Text(Escape(body))]);
    WriteOne(Text(Escape(body)));
    assert "<" + ("code" + "") + ">" == "<code>" && "<" + ("/" + "code") + ">" == "</code>";
  }

  lemma StyleTags(style: Style)
    ensures "<" + (StyleName(style) + "") + ">" == OpenTag(style)
    ensures "<" + ("/" + StyleName(style)) + ">" == CloseTag(style)
  {
  }

  lemma PreWrites(lang: string, body: string)
    ensures Render(Pre(lang, body)) == Write(Tokens(Pre(lang, body)))
  {
    var inner := Element("code", LangAttribute(lang), [Text(Escape(body))]);
    WriteElement("pre", "", inner);
    WriteElement("code", LangAttribute(lang), [Text(Escape(body))]);
    WriteOne(Text(Escape(body)));
    JoinPre(LangAttribute(lang), Escape(body));
  }

  lemma JoinPre(attribute: string, body: string)
    ensures "<" + ("pre" + "") + ">" + ("<" + ("code" + attribute) + ">" + body + ("<" + ("/" + "code") + ">"))
              + ("<" + ("/" + "pre") + ">")
            == "<pre><code" + attribute + ">" + body + "</code></pre>"
  {
    var p, q := "<" + ("pre" + "") + ">", "<" + ("/" + "pre") + ">";
    var r := "<" + ("/" + "code") + ">";
    assert p == "<pre>" && q == "</pre>" && r == "</code>";
    assert p + "<code" == "<pre><code" && r + q == "</code></pre>";
    assert "<" + ("code" + attribute) == "<code" + attribute;
    assert p + ("<code" + attribute + ">" + body + r) + q == (p + "<code") + attribute + ">" + body + (r + q);
  }

  lemma AnchorWrites(text: string, url: string)
    ensures Render(Anchor(text, url)) == Write(Tokens(Anchor(text, url)))
  {
    WriteElement("a", HrefAttribute(url), [Text(Escape(text))]);
    WriteOne(Text(Escape(text)));
    JoinAnchor(Escape(url), Escape(text));
  }

  lemma JoinAnchor(url: string, text: string)
    ensures "<" + ("a" + (" href=\"" + url + "\"")) + ">" + text + ("<" + ("/" + "a") + ">")
            == "<a href=\"" + url + "\">" + text + "</a>"
  {
    assert "<" + ("/" + "a") + ">" == "</a>";
    assert "<" + ("a" + " href=\"") == "<a href=\"";
    assert "\"" + ">" == "\">";
    assert "<" + ("a" + (" href=\"" + url + "\"")) + ">" == "<" + ("a" + " href=\"") + url + ("\"" + ">");
  }

  lemma TitleWrites(title: string)
    ensures Render(Title(title)) == Write(Tokens(Title(title)))
  {
    var e := Element("b", "", [Text(Escape(title))]);
    WriteConcat(e, [Text("\n")]);
    WriteElement("b", "", [Text(Escape(title))]);
    WriteOne(Text(Escape(title)));
    WriteOne(Text("\n"));
    TitleTags(Escape(title), "<" + ("/" + "b") + ">");
    assert "<" + ("b" + "") + ">" == "<b>";
  }

  lemma TitleTags(title: string, close: string)
    requires close == "</b>"
    ensures "<b>" + title + close + "\n" == "<b>" + title + "</b>\n"
  {
    Regroup("<b>" + title, close, "\n");
  }

  lemma {:induction false} AllRenderWrites(ns: seq<Node>)
    ensures RenderAll(ns) == Write(TokensAll(ns))
    decreases ns, 0
  {
    if ns != [] {
      RenderWrites(ns[0]);
      AllRenderWrites(ns[1..]);
      WriteConcat(Tokens(ns[0]), TokensAll(ns[1..]));
    }
  }

  /** For every Markdown text the compiler's output is well nested, uses only the allowed tags,
      and has no other angle bracket. */
  lemma OutputIsWellNested(text: string)
    ensures WellNested(RenderAll(Parse(text, 0)), [])
  {
    var ns := Parse(text, 0);
    AllRenderWrites(ns);
    AllTokensAreOk(ns);
    WrittenIsBalanced(TokensAll(ns), []);
  }

  // ---- the plain-text fallback -----------------------------------------------------

  function Strip(s: string, inTag: bool): string {
    if s == "" then ""
    else if s[0] == '<' then Strip(s[1..], true)
    else if s[0] == '>' then Strip(s[1..], false)
    else (if inTag then "" else [s[0]]) + Strip(s[1..], inTag)
  }

  method StripTags(html: string) returns (out: string)
    ensures out == Strip(html, false)
  {
    out := "";
    var inTag := false;
    assert html[0..] == html;
    for i := 0 to |html|
      invariant out + Strip(html[i..], inTag) == Strip(html, false)
    {
      var c := html[i];
      assert html[i..][1..] == html[i + 1..];
      if c == '<' {
        inTag := true;
      } else if c == '>' {
        inTag := false;
      } else if !inTag {
        out := out + [c];
      }
    }
    assert out + "" == out;
  }

  /** Comparison of a name with a short literal, letter by letter. */
  predicate Spells(name: string, a: char, b: char, rest: string) {
    |name| == 2 + |rest| && name[0] == a && name[1] == b && rest <= name[2..]
  }

  function Entity(name: string): string {
    if Spells(name, 'l', 't', "") then "<"
    else if Spells(name, 'g', 't', "") then ">"
    else if Spells(name, 'a', 'm', "p") then "&"
    else if Spells(name, 'q', 'u', "ot") then "\""
    else if Spells(name, '#', '3', "9") then "'"
    else "&" + name + ";"
  }

  function Decode(s: string): string
    decreases |s|
  {
    if s == "" then ""
    else if s[0] != '&' then [s[0]] + Decode(s[1..])
    else
      var end := IndexFrom(s, 1, ';');
      if end == |s| then s else Entity(s[1..end]) + Decode(s[end + 1..])
  }

  /** The inner loop: what follows an ampersand, up to a semicolon or to the end. */
  method ReadEntity(text: string, from: nat) returns (entity: string, terminated: bool, next: nat)
    requires from <= |text|
    ensures var end := IndexFrom(text, from, ';');
            entity == text[from..end] && terminated == (end < |text|) && next == if terminated then end + 1 else end
  {
    entity, terminated, next := "", false, from;
    while next < |text|
      invariant from <= next <= |text| && entity == text[from..next]
      invariant IndexFrom(text, from, ';') == IndexFrom(text, next, ';')
    {
      if text[next] == ';' {
        return entity, true, next + 1;
      }
      entity := entity + [text[next]];
      next := next + 1;
    }
  }

  lemma {:induction false} IndexShift(s: string, k: nat, from: nat, ch: char)
    requires k <= from <= |s|
    ensures IndexFrom(s[k..], from - k, ch) == IndexFrom(s, from, ch) - k
    decreases |s| - from
  {
    if from < |s| && s[from] != ch {
      IndexShift(s, k, from + 1, ch);
    }
  }

  /** The first piece of a text, by the definition of `Decode`. */
  lemma DecodeFirst(s: string, piece: string, rest: string)
    requires s != "" && s[0] != '&' ==> piece == [s[0]] && rest == s[1..]
    requires s != "" && s[0] == '&' ==>
               var end := IndexFrom(s, 1, ';');
               if end == |s| then piece == s && rest == "" else piece == Entity(s[1..end]) && rest == s[end + 1..]
    requires s != ""
    ensures Decode(s) == piece + Decode(rest)
  {
  }

  lemma SliceOfSuffix(text: string, i: nat, end: nat)
    requires i < end <= |text|
    ensures text[i..][1..end - i] == text[i + 1..end]
    ensures end < |text| ==> text[i..][end - i + 1..] == text[end + 1..]
    ensures text[i] == '&' ==> text[i..] == "&" + text[i + 1..]
  {
  }

  method DecodeHtmlEntities(text: string) returns (out: string)
    ensures out == Decode(text)
  {
    out := "";
    var i: nat := 0;
    assert text[0..] == text;
    while i < |text|
      invariant i <= |text| && out + Decode(text[i..]) == Decode(text)
    {
      var piece: string, next: nat := [text[i]], i + 1;
      if text[i] == '&' {
        var entity, terminated;
        entity, terminated, next := ReadEntity(text, i + 1);
        piece := if terminated then Entity(entity) else "&" + entity;
      }
      PieceIsDecoded(text, i, piece, next);
      DecodeGrows(out, piece, text, i, next);
      out := out + piece;
      i := next;
    }
    assert out + "" == out;
  }

  /** What one turn of the outer loop reads. */
  ghost predicate IsPiece(text: string, i: nat, piece: string, next: nat)
    requires i < |text|
  {
    if text[i] != '&' then piece == [text[i]] && next == i + 1
    else
      var end := IndexFrom(text, i + 1, ';');
      if end == |text| then piece == "&" + text[i + 1..] && next == |text| else piece == Entity(text[i + 1..end]) && next == end + 1
  }

  lemma PieceIsDecoded(text: string, i: nat, piece: string, next: nat)
    requires i < |text| && IsPiece(text, i, piece, next)
    ensures next <= |text| && Decode(text[i..]) == piece + Decode(text[next..])
  {
    var s := text[i..];
    if text[i] == '&' {
      IndexShift(text, i, i + 1, ';');
      SliceOfSuffix(text, i, IndexFrom(text, i + 1, ';'));
    } else {
      assert s[1..] == text[i + 1..];
    }
    DecodeFirst(s, piece, text[next..]);
  }

  lemma DecodeGrows(out: string, piece: string, text: string, i: nat, next: nat)
    requires i < |text| && next <= |text| && Decode(text[i..]) == piece + Decode(text[next..])
    ensures out + Decode(text[i..]) == out + piece + Decode(text[next..])
  {
  }

  lemma DecodeEscapedChar(c: char, rest: string)
    ensures Decode(EscapeChar(c) + rest) == [c] + Decode(rest)
  {
    var e := EscapeChar(c);
    var s := e + rest;
    if c == '&' || c == '<' || c == '>' {
      var body := e[..|e| - 1];
      assert s == body + (";" + rest);
      assert ';' !in body[1..];
      IndexPast(body, ";" + rest, 1, ';');
      assert s[1..|body|] == body[1..] && s[|body| + 1..] == rest;
      assert body[1..] == if c == '&' then "amp" else if c == '<' then "lt" else "gt";
    } else {
      assert s[1..] == rest;
    }
  }

  /** Decoding undoes escaping on every string. */
  lemma {:induction false} DecodeUndoesEscape(s: string)
    ensures Decode(Escape(s)) == s
  {
    if s != "" {
      DecodeEscapedChar(s[0], Escape(s[1..]));
      DecodeUndoesEscape(s[1..]);
      assert s == [s[0]] + s[1..];
    }
  }

  /** The text of a document: what a reader sees when every construct shows its content. */
  function PlainText(n: Node): string
    decreases n, 0
  {
    match n
    case Char(c) => [c]
    case Pre(_, body) => body
    case Code(body) => body
    case Styled(_, children) => PlainTextAll(children)
    case Anchor(text, _) => text
    case Title(title) => title + "\n"
  }

  function PlainTextAll(ns: seq<Node>): string
    decreases ns, 0
  {
    if ns == [] then "" else PlainText(ns[0]) + PlainTextAll(ns[1..])
  }

  /** The text tokens alone. */
  function TextOf(ts: seq<Token>): string {
    if ts == [] then "" else (if ts[0].Text? then ts[0].s else "") + TextOf(ts[1..])
  }

  lemma {:induction false} TextOfConcat(a: seq<Token>, b: seq<Token>)
    ensures TextOf(a + b) == TextOf(a) + TextOf(b)
  {
    if a == [] {
      assert a + b == b;
    } else {
      assert (a + b)[1..] == a[1..] + b;
      TextOfConcat(a[1..], b);
    }
  }

  lemma TextOfElement(name: string, attributes: string, inner: seq<Token>)
    ensures TextOf(Element(name, attributes, inner)) == TextOf(inner)
  {
    TextOfConcat([Open(name, attributes)], inner);
    TextOfConcat([Open(name, attributes)] + inner, [Close(name)]);
    assert [Open(name, attributes)][1..] == [] && [Close(name)][1..] == [];
  }

  lemma TextOfText(s: string)
    ensures TextOf([Text(s)]) == s
  {
    assert [Text(s)][1..] == [];
    assert s + "" == s;
  }

  lemma {:induction false} StripText(t: string, rest: string)
    requires NoBrackets(t)
    ensures Strip(t + rest, false) == t + Strip(rest, false)
  {
    if t == "" {
      assert t + rest == rest;
    } else {
      assert t[0] in t && (t + rest)[1..] == t[1..] + rest;
      StripText(t[1..], rest);
    }
  }

  lemma {:induction false} StripInside(t: string, rest: string)
    requires NoBrackets(t)
    ensures Strip(t + ">" + rest, true) == Strip(rest, false)
  {
    if t == "" {
      assert t + ">" + rest == ">" + rest && (">" + rest)[1..] == rest;
    } else {
      assert t[0] in t && (t + ">" + rest)[1..] == t[1..] + ">" + rest;
      StripInside(t[1..], rest);
    }
  }

  lemma {:induction false} StripWritten(ts: seq<Token>)
    requires TokensOk(ts)
    ensures Strip(Write(ts), false) == TextOf(ts)
  {
    if ts != [] {
      var rest := Write(ts[1..]);
      assert TokenOk(ts[0]);
      StripToken(ts[0], rest);
      StripWritten(ts[1..]);
    }
  }

  lemma StripToken(t: Token, rest: string)
    requires TokenOk(t)
    ensures Strip(WriteToken(t) + rest, false) == (if t.Text? then t.s else "") + Strip(rest, false)
  {
    match t
    case Text(s) => StripText(s, rest);
    case Open(name, attributes) => StripTag(name + attributes, rest);
    case Close(name) => StripTag("/" + name, rest);
  }

  lemma StripTag(tag: string, rest: string)
    requires NoBrackets(tag)
    ensures Strip("<" + tag + ">" + rest, false) == Strip(rest, false)
  {
    assert ("<" + tag + ">" + rest)[1..] == tag + ">" + rest;
    StripInside(tag, rest);
  }

  lemma {:induction false} TokensCarryText(n: Node)
    ensures TextOf(Tokens(n)) == Escape(PlainText(n))
    decreases n, 0
  {
    match n
    case Char(c) =>
      TextOfText(EscapeChar(c));
      assert [c][1..] == "";
    case Pre(lang, body) =>
      TextOfText(Escape(body));
      TextOfElement("code", LangAttribute(lang), [Text(Escape(body))]);
      TextOfElement("pre", "", Element("code", LangAttribute(lang), [Text(Escape(body))]));
    case Code(body) =>
      TextOfText(Escape(body));
      TextOfElement("code", "", [Text(Escape(body))]);
    case Styled(style, children) =>
      AllTokensCarryText(children);
      TextOfElement(StyleName(style), "", TokensAll(children));
    case Anchor(text, url) =>
      TextOfText(Escape(text));
      TextOfElement("a", HrefAttribute(url), [Text(Escape(text))]);
    case Title(title) =>
      TextOfText(Escape(title));
      TextOfText("\n");
      TextOfElement("b", "", [Text(Escape(title))]);
      TextOfConcat(Element("b", "", [Text(Escape(title))]), [Text("\n")]);
      EscapeConcat(title, "\n");
      assert Escape("\n") == "\n" by {
        assert "\n"[1..] == "";
      }
  }

  lemma {:induction false} AllTokensCarryText(ns: seq<Node>)
    ensures TextOf(TokensAll(ns)) == Escape(PlainTextAll(ns))
    decreases ns, 0
  {
    if ns != [] {
      TokensCarryText(ns[0]);
      AllTokensCarryText(ns[1..]);
      TextOfConcat(Tokens(ns[0]), TokensAll(ns[1..]));
      EscapeConcat(PlainText(ns[0]), PlainTextAll(ns[1..]));
    }
  }

  /** Compiling a document, stripping the tags and decoding the entities gives exactly the plain
      text of the document. */
  lemma FallbackIsThePlainText(text: string)
    ensures Decode(Strip(RenderAll(Parse(text, 0)), false)) == PlainTextAll(Parse(text, 0))
  {
    var ns := Parse(text, 0);
    AllRenderWrites(ns);
    AllTokensAreOk(ns);
    StripWritten(TokensAll(ns));
    AllTokensCarryText(ns);
    DecodeUndoesEscape(PlainTextAll(ns));
  }
}
