// Prompt templates with {{variable}} places: what the check accepts, and what filling in means.

module PromptTemplate {
  import opened Base
  import opened Markup

  /** The parsed form: literal text and variable places in turn, ending with literal text. */
  datatype Template = Last(text: string) | Place(text: string, raw: string, rest: Template)

  datatype Error = StrayClose | Unclosed | InvalidVariable(name: string)

  function Pair(c: char): string {
    [c, c]
  }

  /** The first position where `c` stands twice in a row, or the length. */
  function FirstPair(s: string, c: char): (k: nat)
    ensures k <= |s|
    ensures k < |s| ==> k + 1 < |s|
  {
    if |s| < 2 then |s| else if s[0] == c && s[1] == c then 0 else FirstPair(s[1..], c) + 1
  }

  predicate HasPair(s: string, c: char) {
    FirstPair(s, c) < |s|
  }

  predicate IsLetter(c: char) {
    'a' <= c <= 'z' || 'A' <= c <= 'Z'
  }

  predicate IsFieldName(s: string) {
    && s != ""
    && (IsLetter(s[0]) || s[0] == '_')
    && forall i :: 0 <= i < |s| ==> IsLetter(s[i]) || '0' <= s[i] <= '9' || s[i] == '_'
  }

  const FIELD_PREFIX := "body_json."

  predicate IsVariable(name: string) {
    name == "kind" || name == "body" || (FIELD_PREFIX <= name && IsFieldName(name[|FIELD_PREFIX|..]))
  }

  /** The check, as a function of the rest of the template that is still to be read and of what
      counts as a variable (`IsVariable` here). */
  function Check(s: string, valid: string -> bool): Option<Error>
    decreases |s|
  {
    var start := FirstPair(s, '{');
    if start == |s| then (if HasPair(s, '}') then Some(StrayClose) else None)
    else if HasPair(s[..start], '}') then Some(StrayClose)
    else
      var after := s[start + 2..];
      var end := FirstPair(after, '}');
      if end == |after| then Some(Unclosed)
      else if !valid(Trim(after[..end])) then Some(InvalidVariable(Trim(after[..end])))
      else Check(after[end + 2..], valid)
  }

  method ValidateTemplate(template: string) returns (error: Option<Error>)
    ensures error == Check(template, IsVariable)
  {
    var rest := template;
    while true
      invariant Check(rest, IsVariable) == Check(template, IsVariable)
      decreases |rest|
    {
      var start := FirstPair(rest, '{');
      if start == |rest| {
        break;
      }
      if HasPair(rest[..start], '}') {
        return Some(StrayClose);
      }
      var after := rest[start + 2..];
      var end := FirstPair(after, '}');
      if end == |after| {
        return Some(Unclosed);
      }
      var name := Trim(after[..end]);
      if !IsVariable(name) {
        return Some(InvalidVariable(name));
      }
      rest := after[end + 2..];
    }
    if HasPair(rest, '}') {
      return Some(StrayClose);
    }
    error := None;
  }

  /** Filling in. */
  function Fill(s: string, resolve: string -> string): string
    decreases |s|
  {
    var start := FirstPair(s, '{');
    if start == |s| then s
    else
      var after := s[start + 2..];
      var end := FirstPair(after, '}');
      if end == |after| then s[..start] + (Pair('{') + after)
      else (s[..start] + resolve(Trim(after[..end]))) + Fill(after[end + 2..], resolve)
  }

  /** Whether filling in takes the branch for an unclosed place. */
  predicate ReachesUnclosed(s: string)
    decreases |s|
  {
    var start := FirstPair(s, '{');
    start < |s| &&
      var after := s[start + 2..];
      var end := FirstPair(after, '}');
      end == |after| || ReachesUnclosed(after[end + 2..])
  }

  method RenderTemplate(template: string, resolve: string -> string) returns (result: string, unclosed: bool)
    ensures result == Fill(template, resolve) && unclosed == ReachesUnclosed(template)
  {
    result, unclosed := "", false;
    var rest := template;
    while true
      invariant result + Fill(rest, resolve) == Fill(template, resolve)
      invariant ReachesUnclosed(rest) == ReachesUnclosed(template)
      decreases |rest|
    {
      ghost var before := rest;
      var start := FirstPair(rest, '{');
      if start == |rest| {
        result := result + rest;
        return result, false;
      }
      var after := rest[start + 2..];
      var end := FirstPair(after, '}');
      if end == |after| {
        result := result + (rest[..start] + (Pair('{') + after));
        return result, true;
      }
      var piece := rest[..start] + resolve(Trim(after[..end]));
      Regroup(result, piece, Fill(after[end + 2..], resolve));
      result := result + piece;
      rest := after[end + 2..];
    }
  }

  // ---- the grammar ---------------------------------------------------------------------

  function PrintPlace(text: string, raw: string, rest: string): string {
    text + (Pair('{') + (raw + (Pair('}') + rest)))
  }

  function Print(t: Template): string {
    match t
    case Last(text) => text
    case Place(text, raw, rest) => PrintPlace(text, raw, Print(rest))
  }

  /** Literal text has no double brace. */
  predicate IsLiteral(text: string) {
    !HasPair(text, '{') && !HasPair(text, '}')
  }

  predicate EndsWith(text: string, c: char) {
    text != "" && text[|text| - 1] == c
  }

  /** Literal text does not run into an opening brace; what stands in a place is a variable with
      optional space around it. */
  ghost predicate WellFormed(t: Template, valid: string -> bool) {
    match t
    case Last(text) => IsLiteral(text)
    case Place(text, raw, rest) => IsLiteral(text) && !EndsWith(text, '{') && valid(Trim(raw)) && WellFormed(rest, valid)
  }

  /** What a template is meant to expand to: its places replaced, everything else copied. */
  function Expansion(t: Template, resolve: string -> string): string {
    match t
    case Last(text) => text
    case Place(text, raw, rest) => text + resolve(Trim(raw)) + Expansion(rest, resolve)
  }

  /** Variable names have no closing brace. */
  ghost predicate Braceless(valid: string -> bool) {
    forall name :: valid(name) ==> '}' !in name
  }

  lemma VariablesAreBraceless()
    ensures Braceless(IsVariable)
  {
    forall name | IsVariable(name) ensures '}' !in name {
      if name != "kind" && name != "body" {
        FieldIsBraceless(name, FIELD_PREFIX);
      }
    }
  }

  lemma FieldIsBraceless(name: string, prefix: string)
    requires prefix <= name && IsFieldName(name[|prefix|..]) && '}' !in prefix
    ensures '}' !in name
  {
    assert name == prefix + name[|prefix|..];
  }

  lemma {:induction false} StartDrops(s: string)
    requires '}' !in TrimStart(s)
    ensures '}' !in s
  {
    if s != [] && IsSpace(s[0]) {
      StartDrops(s[1..]);
      assert s == [s[0]] + s[1..];
    }
  }

  lemma {:induction false} EndDrops(s: string)
    requires '}' !in TrimEnd(s)
    ensures '}' !in s
  {
    if s != [] && IsSpace(s[|s| - 1]) {
      EndDrops(s[..|s| - 1]);
      assert s == s[..|s| - 1] + [s[|s| - 1]];
    }
  }

  lemma RawIsBraceless(raw: string, valid: string -> bool)
    requires Braceless(valid) && valid(Trim(raw))
    ensures '}' !in raw
  {
    EndDrops(TrimStart(raw));
    StartDrops(raw);
  }

  /** The first pair behind a front that has none and does not run into it. */
  lemma {:induction false} FirstPairBehind(front: string, rest: string, c: char)
    requires !HasPair(front, c) && !EndsWith(front, c)
    ensures FirstPair(front + (Pair(c) + rest), c) == |front|
  {
    var all := front + (Pair(c) + rest);
    if front == "" {
      assert all == Pair(c) + rest;
    } else {
      assert all[1..] == front[1..] + (Pair(c) + rest);
      assert |front| == 1 ==> all[1] == c;
      assert |front| >= 2 ==> all[1] == front[1];
      assert |front| >= 2 ==> front[1..][|front| - 2] == front[|front| - 1];
      FirstPairBehind(front[1..], rest, c);
    }
  }

  lemma {:induction false} NoneMeansNoPair(s: string, c: char)
    requires c !in s
    ensures !HasPair(s, c) && !EndsWith(s, c)
  {
    if |s| >= 2 {
      NoneMeansNoPair(s[1..], c);
    }
  }

  lemma Behind(a: string, c: char, rest: string)
    ensures var s := a + (Pair(c) + rest);
            |a| + 2 <= |s| && s[..|a|] == a && s[|a| + 2..] == rest
  {
  }

  /** `s` reads as text, a place that holds `raw`, and a rest. */
  ghost predicate Reads(s: string, text: string, raw: string, rest: string) {
    && FirstPair(s, '{') == |text| < |s| && s[..|text|] == text
    && var after := s[|text| + 2..];
       FirstPair(after, '}') == |raw| < |after| && after[..|raw|] == raw && after[|raw| + 2..] == rest
  }

  lemma CheckGoesOn(s: string, text: string, raw: string, rest: string, valid: string -> bool)
    requires Reads(s, text, raw, rest) && !HasPair(text, '}') && valid(Trim(raw))
    ensures Check(s, valid) == Check(rest, valid)
  {
  }

  lemma FillGoesOn(s: string, text: string, raw: string, rest: string, resolve: string -> string)
    requires Reads(s, text, raw, rest)
    ensures Fill(s, resolve) == (text + resolve(Trim(raw))) + Fill(rest, resolve)
    ensures ReachesUnclosed(s) == ReachesUnclosed(rest)
  {
  }

  /** Reading a printed place takes it apart again. */
  lemma PlaceIsRead(text: string, raw: string, rest: string)
    requires !HasPair(text, '{') && !EndsWith(text, '{') && '}' !in raw
    ensures Reads(PrintPlace(text, raw, rest), text, raw, rest)
  {
    var after := raw + (Pair('}') + rest);
    FirstPairBehind(text, after, '{');
    Behind(text, '{', after);
    NoneMeansNoPair(raw, '}');
    FirstPairBehind(raw, rest, '}');
    Behind(raw, '}', rest);
  }

  lemma {:induction false} PrintPasses(t: Template, valid: string -> bool)
    requires Braceless(valid) && WellFormed(t, valid)
    ensures Check(Print(t), valid) == None
    decreases t
  {
    match t
    case Last(_) =>
    case Place(text, raw, rest) => {
      RawIsBraceless(raw, valid);
      PlaceIsRead(text, raw, Print(rest));
      CheckGoesOn(Print(t), text, raw, Print(rest), valid);
      PrintPasses(rest, valid);
    }
  }

  /** What the check has let pass up to the next place. */
  lemma PassedPlace(s: string, valid: string -> bool) returns (text: string, raw: string, rest: string)
    requires Check(s, valid) == None && HasPair(s, '{')
    ensures |rest| < |s| && Check(rest, valid) == None && PrintPlace(text, raw, rest) == s
    ensures IsLiteral(text) && !EndsWith(text, '{') && valid(Trim(raw))
  {
    var start := FirstPair(s, '{');
    var after := s[start + 2..];
    var end := FirstPair(after, '}');
    text, raw, rest := s[..start], after[..end], after[end + 2..];
    LiteralIsClean(s, '{');
    CutAtPair(s, '{');
    CutAtPair(after, '}');
  }

  lemma {:induction false} PassingIsPrinted(s: string, valid: string -> bool) returns (t: Template)
    requires Check(s, valid) == None
    ensures WellFormed(t, valid) && Print(t) == s
    decreases |s|
  {
    if HasPair(s, '{') {
      var text, raw, rest := PassedPlace(s, valid);
      var more := PassingIsPrinted(rest, valid);
      t := Place(text, raw, more);
    } else {
      t := Last(s);
    }
  }

  lemma {:induction false} LiteralIsClean(s: string, c: char)
    requires HasPair(s, c)
    ensures !HasPair(s[..FirstPair(s, c)], c) && !EndsWith(s[..FirstPair(s, c)], c)
  {
    var k := FirstPair(s, c);
    if k > 0 {
      LiteralIsClean(s[1..], c);
      assert s[..k] == [s[0]] + s[1..][..k - 1];
      assert s[..k][1..] == s[1..][..k - 1];
    }
  }

  lemma {:induction false} PairIsThere(s: string, c: char)
    requires HasPair(s, c)
    ensures FirstPair(s, c) + 1 < |s| && s[FirstPair(s, c)] == c && s[FirstPair(s, c) + 1] == c
  {
    if FirstPair(s, c) > 0 {
      PairIsThere(s[1..], c);
    }
  }

  lemma CutAtPair(s: string, c: char)
    requires HasPair(s, c)
    ensures s == s[..FirstPair(s, c)] + (Pair(c) + s[FirstPair(s, c) + 2..])
  {
    PairIsThere(s, c);
    CutAt(s, FirstPair(s, c), c);
  }

  lemma CutAt(s: string, k: nat, c: char)
    requires k + 1 < |s| && s[k] == c && s[k + 1] == c
    ensures s == s[..k] + (Pair(c) + s[k + 2..])
  {
  }

  /** The check accepts exactly the printed forms of well-formed templates. */
  lemma CheckAcceptsExactlyTheGrammar(s: string)
    ensures Check(s, IsVariable) == None <==> exists t :: WellFormed(t, IsVariable) && Print(t) == s
  {
    VariablesAreBraceless();
    if Check(s, IsVariable) == None {
      var t := PassingIsPrinted(s, IsVariable);
    }
    if t :| WellFormed(t, IsVariable) && Print(t) == s {
      PrintPasses(t, IsVariable);
    }
  }

  /** Filling in a well-formed template is its expansion: each value stands as it is, whatever
      braces it contains, and the branch for an unclosed place is not reached. */
  lemma {:induction false} FillIsExpansion(t: Template, valid: string -> bool, resolve: string -> string)
    requires Braceless(valid) && WellFormed(t, valid)
    ensures Fill(Print(t), resolve) == Expansion(t, resolve) && !ReachesUnclosed(Print(t))
    decreases t
  {
    match t
    case Last(_) =>
    case Place(text, raw, rest) => {
      RawIsBraceless(raw, valid);
      PlaceIsRead(text, raw, Print(rest));
      FillGoesOn(Print(t), text, raw, Print(rest), resolve);
      FillIsExpansion(rest, valid, resolve);
    }
  }

  /** Every accepted template is filled in place by place; the unclosed branch is never reached. */
  lemma AcceptedIsExpanded(s: string, resolve: string -> string) returns (t: Template)
    requires Check(s, IsVariable) == None
    ensures WellFormed(t, IsVariable) && Print(t) == s
    ensures Fill(s, resolve) == Expansion(t, resolve) && !ReachesUnclosed(s)
  {
    VariablesAreBraceless();
    t := PassingIsPrinted(s, IsVariable);
    FillIsExpansion(t, IsVariable, resolve);
  }
}
