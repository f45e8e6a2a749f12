// Tool names on their way to the model API and back: the colon of a namespace is written as two
// underscores.

module ToolNames {

  function Sanitize(name: string): string {
    if name == "" then ""
    else (if name[0] == ':' then "__" else [name[0]]) + Sanitize(name[1..])
  }

  /** Pairs of underscores from left to right, without overlap. */
  function Unsanitize(name: string): string {
    if name == "" then ""
    else if |name| >= 2 && name[0] == '_' && name[1] == '_' then ":" + Unsanitize(name[2..])
    else [name[0]] + Unsanitize(name[1..])
  }

  /** An underscore in front of another underscore or of a colon. */
  predicate HasRun(name: string) {
    exists i :: 0 <= i < |name| - 1 && name[i] == '_' && (name[i + 1] == '_' || name[i + 1] == ':')
  }

  lemma RunInTail(name: string)
    requires name != ""
    ensures HasRun(name) <==> HasRun(name[1..]) || (|name| >= 2 && name[0] == '_' && (name[1] == '_' || name[1] == ':'))
  {
    var tail := name[1..];
    if i :| 0 <= i < |name| - 1 && name[i] == '_' && (name[i + 1] == '_' || name[i + 1] == ':') {
      if i > 0 {
        assert tail[i - 1] == '_' && tail[i] == name[i + 1];
        assert tail[i - 1 + 1] == name[i + 1];
      }
    }
    if i :| 0 <= i < |tail| - 1 && tail[i] == '_' && (tail[i + 1] == '_' || tail[i + 1] == ':') {
      assert name[i + 1] == '_' && name[i + 1 + 1] == tail[i + 1];
    }
  }

  /** What the first characters of a sanitized name turn into. */
  lemma UnsanitizePair(rest: string)
    ensures Unsanitize("__" + rest) == ":" + Unsanitize(rest)
  {
    assert ("__" + rest)[2..] == rest;
  }

  lemma UnsanitizeSingle(c: char, rest: string)
    requires c != '_' || rest == "" || rest[0] != '_'
    ensures Unsanitize([c] + rest) == [c] + Unsanitize(rest)
  {
    assert ([c] + rest)[1..] == rest;
  }

  /** A name comes back unchanged exactly when it has no such run. */
  lemma {:induction false} RoundTripIffNoRun(name: string)
    ensures Unsanitize(Sanitize(name)) == name <==> !HasRun(name)
    decreases |name|
  {
    if name != "" {
      var c, tail := name[0], name[1..];
      var rest := Sanitize(tail);
      assert name == [c] + tail;
      RoundTripIffNoRun(tail);
      RunInTail(name);
      if c == ':' {
        UnsanitizePair(rest);
      } else if c == '_' && tail != "" && (tail[0] == '_' || tail[0] == ':') {
        assert Sanitize(name) == "__" + (rest[1..]);
        UnsanitizePair(rest[1..]);
      } else {
        UnsanitizeSingle(c, rest);
      }
    }
  }

  /** Two names without runs never collide. */
  lemma NamesWithoutRunsStayApart(a: string, b: string)
    requires !HasRun(a) && !HasRun(b) && Sanitize(a) == Sanitize(b)
    ensures a == b
  {
    RoundTripIffNoRun(a);
    RoundTripIffNoRun(b);
  }

  /** In the other direction, an API name survives exactly when it has no colon. */
  lemma {:induction false} ApiNameRoundTripIffNoColon(name: string)
    ensures Sanitize(Unsanitize(name)) == name <==> ':' !in name
    decreases |name|
  {
    if name != "" {
      var pair := |name| >= 2 && name[0] == '_' && name[1] == '_';
      var n := if pair then 2 else 1;
      var first := if pair then ":" else [name[0]];
      ApiNameRoundTripIffNoColon(name[n..]);
      var back := Unsanitize(name[n..]);
      assert (first + back)[1..] == back;
      assert name == name[..n] + name[n..];
      assert ':' in name <==> ':' in name[..n] || ':' in name[n..];
    }
  }

  lemma RunsCollide()
    ensures Sanitize("a:b") == Sanitize("a__b") && Unsanitize(Sanitize("a__b")) == "a:b"
  {
    assert "a:b" == ['a', ':', 'b'] && "a__b" == ['a', '_', '_', 'b'];
    assert Sanitize("b") == "b";
    assert Sanitize(":b") == "__b" && Sanitize("_b") == "_b";
    assert Sanitize("__b") == "__b";
    UnsanitizePair("b");
    UnsanitizeSingle('a', "__b");
  }
}
