// The cursor of the Markdown compiler behind a code fence. The code moves a character cursor by
// a byte count; here is exactly when that is right, and what it costs when it is not.

module FenceCursor {
  import opened Base
  import opened Utf8
  import opened Markup
  import opened TelegramMarkdown

  /** Where the closing fence of the block at `i` starts, in the text behind the opening one. */
  function FenceEnd(c: string, i: nat): Option<nat>
    requires i < |c|
  {
    if !At(c, i, "```") then None
    else
      var rest := c[i + 3..];
      var nl := IndexFrom(rest, 0, '\n');
      FindFence(rest, if nl < |rest| then nl + 1 else 0)
  }

  /** The grammar with the cursor placed right behind the closing fence. */
  function IntendedNext(c: string, i: nat): (r: Read)
    requires i < |c|
    ensures i < r.next && r.next <= |c| + 1
    ensures r.piece.Emphasis? ==> |r.piece.inner| < |c|
  {
    var r := Next(c, i);
    NextStaysInside(c, i);
    if FenceEnd(c, i).Some? then r.(next := i + 3 + FenceEnd(c, i).value + 3) else r
  }

  lemma NextStaysInside(c: string, i: nat)
    requires i < |c|
    ensures FenceEnd(c, i).Some? <==> FenceAt(c, i).Some?
    ensures FenceEnd(c, i).Some? ==> Next(c, i).piece.Fenced? && i + 3 + FenceEnd(c, i).value + 3 <= |c|
    ensures FenceEnd(c, i).None? ==> Next(c, i).next <= |c| + 1
  {
  }

  function IntendedParse(c: string, i: nat): seq<Node>
    decreases |c|, 1 + Rest(c, i)
  {
    if i >= |c| then []
    else
      var r := IntendedNext(c, i);
      [IntendedNode(r.piece, |c|)] + IntendedParse(c, r.next)
  }

  function IntendedNode(p: Piece, bound: nat): Node
    requires p.Emphasis? ==> |p.inner| < bound
    decreases bound, 0
  {
    if p.Emphasis? then Styled(p.style, IntendedParse(p.inner, 0)) else NodeOf(p, bound)
  }

  /** At one fence the cursor is right exactly when the block is ASCII. */
  lemma FenceCursorIsRightIffAscii(c: string, i: nat)
    requires i < |c| && FenceEnd(c, i).Some?
    ensures Next(c, i).next == IntendedNext(c, i).next <==> IsAscii(c[i + 3..][..FenceEnd(c, i).value])
    ensures Next(c, i).next >= IntendedNext(c, i).next
  {
    NextStaysInside(c, i);
    ByteLenBounds(c[i + 3..][..FenceEnd(c, i).value]);
  }

  lemma InnerIsPart(c: string, i: nat)
    requires i < |c| && Next(c, i).piece.Emphasis?
    ensures forall x :: x in Next(c, i).piece.inner ==> x in c
  {
  }

  lemma AsciiMembers(s: string)
    ensures IsAscii(s) <==> forall x :: x in s ==> x as int < 0x80
  {
    if IsAscii(s) {
      forall x | x in s ensures x as int < 0x80 {
        var k :| 0 <= k < |s| && s[k] == x;
      }
    } else {
      var k :| 0 <= k < |s| && !(s[k] as int < 0x80);
      assert s[k] in s;
    }
  }

  lemma AsciiNext(c: string, i: nat)
    requires IsAscii(c) && i < |c|
    ensures Next(c, i) == IntendedNext(c, i)
    ensures Next(c, i).piece.Emphasis? ==> IsAscii(Next(c, i).piece.inner)
  {
    NextStaysInside(c, i);
    if FenceEnd(c, i).Some? {
      FenceCursorIsRightIffAscii(c, i);
    }
    if Next(c, i).piece.Emphasis? {
      InnerIsPart(c, i);
      AsciiMembers(c);
      AsciiMembers(Next(c, i).piece.inner);
    }
  }

  lemma SameStep(c: string, i: nat, r: Read)
    requires i < |c| && r == Next(c, i) && r == IntendedNext(c, i)
    requires Parse(c, r.next) == IntendedParse(c, r.next)
    requires r.piece.Emphasis? ==> Parse(r.piece.inner, 0) == IntendedParse(r.piece.inner, 0)
    ensures Parse(c, i) == IntendedParse(c, i)
  {
    ParseStep(c, i);
    IntendedStep(c, i);
    assert NodeOf(r.piece, |c|) == IntendedNode(r.piece, |c|);
  }

  lemma ParseStep(c: string, i: nat)
    requires i < |c|
    ensures Parse(c, i) == [NodeOf(Next(c, i).piece, |c|)] + Parse(c, Next(c, i).next)
  {
  }

  lemma IntendedStep(c: string, i: nat)
    requires i < |c|
    ensures IntendedParse(c, i) == [IntendedNode(IntendedNext(c, i).piece, |c|)] + IntendedParse(c, IntendedNext(c, i).next)
  {
  }

  /** On ASCII text the compiler reads the document as intended, at every depth. */
  lemma {:induction false} AsciiParsesAsIntended(c: string, i: nat)
    requires IsAscii(c)
    ensures Parse(c, i) == IntendedParse(c, i)
    decreases |c|, Rest(c, i)
  {
    if i < |c| {
      AsciiNext(c, i);
      var r := Next(c, i);
      AsciiParsesAsIntended(c, r.next);
      if r.piece.Emphasis? {
        AsciiParsesAsIntended(r.piece.inner, 0);
      }
      SameStep(c, i, r);
    }
  }

  // ---- the price outside ASCII ---------------------------------------------------

  function Document(body: string, tail: string): string {
    "```\n" + body + "```" + tail
  }

  lemma {:induction false} FindsTheFence(a: string, tail: string, from: nat)
    requires from <= |a| && '`' !in a
    ensures FindFence(a + "```" + tail, from) == Some(|a|)
    decreases |a| - from
  {
    var s := a + "```" + tail;
    if from < |a| {
      assert s[from..][0] == a[from] && a[from] in a;
      FindsTheFence(a, tail, from + 1);
    } else {
      assert s[from..] == "```" + tail;
    }
  }

  lemma ByteLenOfBlock(body: string)
    ensures ByteLen("\n" + body) == 1 + ByteLen(body)
  {
    assert ("\n" + body)[1..] == body;
  }

  /** What stands behind the opening fence of a document with one block. */
  ghost predicate BehindFence(rest: string, body: string, tail: string) {
    rest == ("\n" + body) + "```" + tail
  }

  lemma BlockIsFound(rest: string, body: string, tail: string)
    requires '`' !in body && BehindFence(rest, body, tail)
    ensures rest != "" && IndexFrom(rest, 0, '\n') == 0
    ensures FindFence(rest, 1) == Some(1 + |body|)
    ensures rest[1..1 + |body|] == body && ByteLen(rest[..1 + |body|]) == 1 + ByteLen(body)
  {
    var block := "\n" + body;
    assert rest[0] == block[0] == '\n';
    FindsTheFence(block, tail, 1);
    assert block[1..] == body;
    assert rest[..1 + |body|] == block;
    ByteLenOfBlock(body);
  }

  lemma FenceOfBlock(c: string, rest: string, body: string)
    requires c != "" && At(c, 0, "```") && |c| >= 3 && c[3..] == rest
    requires rest != "" && IndexFrom(rest, 0, '\n') == 0 && FindFence(rest, 1) == Some(1 + |body|)
    requires |rest| >= 1 + |body| && rest[1..1 + |body|] == body && ByteLen(rest[..1 + |body|]) == 1 + ByteLen(body)
    ensures FenceEnd(c, 0) == Some(1 + |body|)
    ensures FenceAt(c, 0) == Some(Read(Fenced("", TrimEnd(body)), 7 + ByteLen(body)))
  {
    assert rest[..0] == "";
    assert Trim("") == "";
  }

  lemma DocumentParts(body: string, tail: string)
    ensures var c := Document(body, tail);
            At(c, 0, "```") && |c| == 7 + |body| + |tail| && BehindFence(c[3..], body, tail)
  {
    var c := Document(body, tail);
    var front := "```\n";
    assert front[3..] == "\n" && front[..3] == "```";
    assert c == front + (body + "```" + tail);
    assert c[3..] == front[3..] + (body + "```" + tail);
    assert c[..3] == "```";
    assert c[0..] == c;
  }

  /** A block at the start is the first node of both readings. */
  lemma ReadAtFence(c: string)
    requires c != ""
    ensures FenceEnd(c, 0).Some? && FenceAt(c, 0).Some? && FenceAt(c, 0).value.piece.Fenced? ==>
              var r := FenceAt(c, 0).value;
              && Parse(c, 0) == [NodeOf(r.piece, |c|)] + Parse(c, r.next)
              && IntendedParse(c, 0) == [NodeOf(r.piece, |c|)] + IntendedParse(c, 6 + FenceEnd(c, 0).value)
  {
    NextAtFence(c);
    ParseStep(c, 0);
    IntendedStep(c, 0);
  }

  lemma SameNode(p: Piece, bound: nat)
    requires p.Fenced?
    ensures IntendedNode(p, bound) == NodeOf(p, bound)
  {
  }

  lemma NextAtFence(c: string)
    requires c != ""
    ensures FenceEnd(c, 0).Some? && FenceAt(c, 0).Some? && FenceAt(c, 0).value.piece.Fenced? ==>
              var r := FenceAt(c, 0).value;
              && Next(c, 0) == r && IntendedNext(c, 0) == r.(next := 6 + FenceEnd(c, 0).value)
              && IntendedNode(r.piece, |c|) == NodeOf(r.piece, |c|)
  {
    if FenceAt(c, 0).Some? && FenceAt(c, 0).value.piece.Fenced? {
      SameNode(FenceAt(c, 0).value.piece, |c|);
    }
  }

  lemma SkippedBehindBlock(c: string, body: string, tail: string)
    requires '`' !in body && |c| >= 3 && At(c, 0, "```") && BehindFence(c[3..], body, tail)
    ensures Parse(c, 0) == [Pre("", TrimEnd(body))] + Parse(c, 7 + ByteLen(body))
    ensures IntendedParse(c, 0) == [Pre("", TrimEnd(body))] + IntendedParse(c, 7 + |body|)
  {
    BlockIsFound(c[3..], body, tail);
    FenceOfBlock(c, c[3..], body);
    ReadAtFence(c);
  }

  /** For every block without a backquote: behind it the compiler skips one character of the
      following text for every byte that the block has beyond its characters, and so drops
      nothing exactly when the block is ASCII. */
  lemma TextBehindFenceIsSkipped(body: string, tail: string)
    requires '`' !in body
    ensures var c := Document(body, tail);
            var surplus := ByteLen(body) - |body|;
            && surplus >= 0
            && Parse(c, 0) == [Pre("", TrimEnd(body))] + Parse(c, 7 + |body| + surplus)
            && IntendedParse(c, 0) == [Pre("", TrimEnd(body))] + IntendedParse(c, 7 + |body|)
            && (surplus == 0 <==> IsAscii(body))
  {
    DocumentParts(body, tail);
    SkippedBehindBlock(Document(body, tail), body, tail);
    ByteLenBounds(body);
  }

  /** With enough non-ASCII characters in the block, a short text behind it disappears altogether:
      nothing is read from where the cursor goes. */
  lemma ShortTailIsLost(c: string, body: string, tail: string)
    requires '`' !in body && c == Document(body, tail) && |tail| <= ByteLen(body) - |body|
    ensures Parse(c, 7 + ByteLen(body)) == []
  {
    DocumentLength(body, tail);
    ParseBeyond(c, 7 + ByteLen(body));
  }

  lemma DocumentLength(body: string, tail: string)
    ensures |Document(body, tail)| == 7 + |body| + |tail|
  {
  }

  lemma ParseBeyond(c: string, i: nat)
    requires i >= |c|
    ensures Parse(c, i) == []
  {
  }
}
