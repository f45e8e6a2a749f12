// Characters, whitespace, searching and HTML escaping, as the text transformers use them.

module Markup {

  /** Unicode White_Space, the set that `str::trim` removes. */
  predicate IsSpace(c: char) {
    var n := c as int;
    || 0x09 <= n <= 0x0D || n == 0x20 || n == 0x85 || n == 0xA0 || n == 0x1680
    || 0x2000 <= n <= 0x200A || n == 0x2028 || n == 0x2029 || n == 0x202F || n == 0x205F || n == 0x3000
  }

  function TrimStart(s: string): (r: string)
    ensures |r| <= |s| && r == s[|s| - |r|..]
    ensures r != [] ==> !IsSpace(r[0])
  {
    if s != [] && IsSpace(s[0]) then TrimStart(s[1..]) else s
  }

  function TrimEnd(s: string): (r: string)
    ensures r <= s
    ensures r != [] ==> !IsSpace(r[|r| - 1])
  {
    if s != [] && IsSpace(s[|s| - 1]) then TrimEnd(s[..|s| - 1]) else s
  }

  function Trim(s: string): string {
    TrimEnd(TrimStart(s))
  }

  /** The first position at or after `from` that holds `ch`, or the length. */
  function IndexFrom(s: string, from: nat, ch: char): (k: nat)
    requires from <= |s|
    ensures from <= k <= |s|
    ensures k < |s| ==> s[k] == ch
    ensures forall i :: from <= i < k ==> s[i] != ch
    decreases |s| - from
  {
    if from == |s| || s[from] == ch then from else IndexFrom(s, from + 1, ch)
  }

  /** The first line of a text, without its line end. */
  function UpToNewline(s: string): (r: string)
    ensures r <= s && '\n' !in r
    ensures |r| < |s| ==> s[|r|] == '\n'
  {
    if s == [] || s[0] == '\n' then [] else [s[0]] + UpToNewline(s[1..])
  }

  // ---- escaping ------------------------------------------------------------------

  /** `str::replace` of one character. */
  function ReplaceChar(s: string, ch: char, with: string): string {
    if s == [] then [] else (if s[0] == ch then with else [s[0]]) + ReplaceChar(s[1..], ch, with)
  }

  function EscapeChar(c: char): string {
    if c == '&' then "&amp;" else if c == '<' then "&lt;" else if c == '>' then "&gt;" else [c]
  }

  function Escape(s: string): string {
    if s == [] then [] else EscapeChar(s[0]) + Escape(s[1..])
  }

  lemma {:induction false} ReplaceConcat(a: string, b: string, ch: char, with: string)
    ensures ReplaceChar(a + b, ch, with) == ReplaceChar(a, ch, with) + ReplaceChar(b, ch, with)
  {
    if a == [] {
      assert a + b == b;
    } else {
      assert (a + b)[1..] == a[1..] + b;
      ReplaceConcat(a[1..], b, ch, with);
    }
  }

  lemma {:induction false} ReplaceAbsent(s: string, ch: char, with: string)
    requires ch !in s
    ensures ReplaceChar(s, ch, with) == s
  {
    if s != [] {
      ReplaceAbsent(s[1..], ch, with);
    }
  }

  lemma {:induction false} EscapeConcat(a: string, b: string)
    ensures Escape(a + b) == Escape(a) + Escape(b)
  {
    if a == [] {
      assert a + b == b;
    } else {
      assert (a + b)[1..] == a[1..] + b;
      EscapeConcat(a[1..], b);
    }
  }

  /** The three replacements in a row, ampersand first, escape each character once. */
  lemma {:induction false} ReplacementsEscape(s: string)
    ensures ReplaceChar(ReplaceChar(ReplaceChar(s, '&', "&amp;"), '<', "&lt;"), '>', "&gt;") == Escape(s)
  {
    if s != [] {
      var head := if s[0] == '&' then "&amp;" else [s[0]];
      var tail := ReplaceChar(s[1..], '&', "&amp;");
      ReplacementsEscape(s[1..]);
      ReplaceConcat(head, tail, '<', "&lt;");
      var head2 := ReplaceChar(head, '<', "&lt;");
      assert head2 == if s[0] == '<' then "&lt;" else head by {
        if s[0] == '<' {
          assert head[1..] == "";
        } else {
          ReplaceAbsent(head, '<', "&lt;");
        }
      }
      ReplaceConcat(head2, ReplaceChar(tail, '<', "&lt;"), '>', "&gt;");
      assert ReplaceChar(head2, '>', "&gt;") == EscapeChar(s[0]) by {
        if s[0] == '>' {
          assert head2[1..] == "";
        } else {
          ReplaceAbsent(head2, '>', "&gt;");
        }
      }
    }
  }

  lemma {:induction false} EscapeHasNoBrackets(s: string)
    ensures '<' !in Escape(s) && '>' !in Escape(s)
  {
    if s != [] {
      EscapeHasNoBrackets(s[1..]);
    }
  }
}
