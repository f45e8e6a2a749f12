// The messages that leave the late binding: text cut behind markers, image parts put in, and one
// extra user message behind each block of tool messages that yields images.

module BoundMessages {
  import opened Base
  import opened ImageBinding

  // ---- one message -----------------------------------------------------------------

  function InlinePart(env: Env, part: Part, here: seq<Candidate>): seq<Part>
    requires part.Text? ==> InOrder(|part.text|, 0, here)
  {
    if !part.Text? || here == [] then [part] else InlineText(env, part.text, 0, here)
  }

  function InlineParts(env: Env, parts: seq<Part>, cs: seq<Candidate>, p: nat): seq<Part>
    requires p <= |parts| && Placed(parts, cs)
    decreases |parts| - p
  {
    if p == |parts| then [] else InlinePart(env, parts[p], At(cs, p)) + InlineParts(env, parts, cs, p + 1)
  }

  /** Cuts one text behind the markers in `here` and puts the images in. */
  method CutText(env: Env, text: string, here: seq<Candidate>) returns (parts: seq<Part>)
    requires InOrder(|text|, 0, here)
    ensures parts == InlineText(env, text, 0, here)
  {
    parts := [];
    var cursor := 0;
    assert here[0..] == here;
    for k := 0 to |here|
      invariant 0 <= cursor <= |text| && InOrder(|text|, cursor, here[k..])
      invariant parts + InlineText(env, text, cursor, here[k..]) == InlineText(env, text, 0, here)
    {
      ghost var before, from := parts, cursor;
      assert here[k..][1..] == here[k + 1..];
      parts := parts + [Text(text[cursor..here[k].end])];
      cursor := here[k].end;
      parts := parts + [ImagePart(env, here[k].target)];
      Regroup(before, [Text(text[from..cursor]), ImagePart(env, here[k].target)], InlineText(env, text, cursor, here[k + 1..]));
      assert parts == before + [Text(text[from..cursor]), ImagePart(env, here[k].target)];
    }
    if cursor < |text| {
      parts := parts + [Text(text[cursor..])];
    }
  }

  /** One part: as it is, or its text cut up. */
  method InlineOne(env: Env, part: Part, here: seq<Candidate>) returns (pieces: seq<Part>)
    requires part.Text? ==> InOrder(|part.text|, 0, here)
    ensures pieces == InlinePart(env, part, here)
  {
    pieces := [part];
    if part.Text? && here != [] {
      pieces := CutText(env, part.text, here);
    }
  }

  lemma InlineStep(env: Env, parts: seq<Part>, cs: seq<Candidate>, p: nat, out: seq<Part>)
    requires p < |parts| && Placed(parts, cs)
    ensures out + InlineParts(env, parts, cs, p) == (out + InlinePart(env, parts[p], At(cs, p))) + InlineParts(env, parts, cs, p + 1)
  {
    Regroup(out, InlinePart(env, parts[p], At(cs, p)), InlineParts(env, parts, cs, p + 1));
  }

  method InlineImages(env: Env, content: seq<Part>, cs: seq<Candidate>) returns (parts: seq<Part>)
    requires Placed(content, cs)
    ensures parts == InlineParts(env, content, cs, 0)
  {
    parts := [];
    for p := 0 to |content|
      invariant parts + InlineParts(env, content, cs, p) == InlineParts(env, content, cs, 0)
    {
      InlineStep(env, content, cs, p, parts);
      var pieces := InlineOne(env, content[p], At(cs, p));
      parts := parts + pieces;
    }
  }

  /** `out` is `parts` with text parts cut in places and exactly `images`, in order, put in. */
  ghost predicate Interleaves(out: seq<Part>, parts: seq<Part>, images: seq<Part>)
    decreases |out|
  {
    if out == [] then parts == [] && images == []
    else
      || (images != [] && out[0] == images[0] && Interleaves(out[1..], parts, images[1..]))
      || (parts != [] && out[0] == parts[0] && Interleaves(out[1..], parts[1..], images))
      || (parts != [] && out[0].Text? && parts[0].Text? && |out[0].text| < |parts[0].text|
          && parts[0].text[..|out[0].text|] == out[0].text
          && Interleaves(out[1..], [Text(parts[0].text[|out[0].text|..])] + parts[1..], images))
  }

  function Images(env: Env, cs: seq<Candidate>): seq<Part> {
    if cs == [] then [] else [ImagePart(env, cs[0].target)] + Images(env, cs[1..])
  }

  lemma PutImage(out: seq<Part>, parts: seq<Part>, images: seq<Part>, image: Part)
    requires Interleaves(out, parts, images)
    ensures Interleaves([image] + out, parts, [image] + images)
  {
    assert ([image] + out)[1..] == out && ([image] + images)[1..] == images;
  }

  lemma PutPart(out: seq<Part>, parts: seq<Part>, images: seq<Part>, part: Part)
    requires Interleaves(out, parts, images)
    ensures Interleaves([part] + out, [part] + parts, images)
  {
    assert ([part] + out)[1..] == out && ([part] + parts)[1..] == parts;
  }

  lemma PutSlice(out: seq<Part>, text: string, n: nat, parts: seq<Part>, images: seq<Part>)
    requires n < |text| && Interleaves(out, [Text(text[n..])] + parts, images)
    ensures Interleaves([Text(text[..n])] + out, [Text(text)] + parts, images)
  {
    var all := [Text(text[..n])] + out;
    assert all[1..] == out && ([Text(text)] + parts)[1..] == parts;
  }

  /** A slice, its image, and what follows; the text goes on behind the slice. */
  lemma PutMiddle(whole: string, n: nat, image: Part, out: seq<Part>, parts: seq<Part>, images: seq<Part>)
    requires n < |whole| && Interleaves(out, [Text(whole[n..])] + parts, images)
    ensures Interleaves([Text(whole[..n])] + ([image] + out), [Text(whole)] + parts, [image] + images)
  {
    PutImage(out, [Text(whole[n..])] + parts, images, image);
    PutSlice([image] + out, whole, n, parts, [image] + images);
  }

  /** The same when the text ends with the slice. */
  lemma PutEnd(whole: string, image: Part, out: seq<Part>, parts: seq<Part>, images: seq<Part>)
    requires Interleaves(out, parts, images)
    ensures Interleaves([Text(whole)] + ([image] + out), [Text(whole)] + parts, [image] + images)
  {
    PutImage(out, parts, images, image);
    PutPart([image] + out, parts, [image] + images, Text(whole));
  }

  lemma UnfoldText(env: Env, text: string, cursor: nat, cs: seq<Candidate>, out: seq<Part>, images: seq<Part>)
    requires InOrder(|text|, cursor, cs) && cs != []
    ensures cursor <= cs[0].end <= |text| && InOrder(|text|, cs[0].end, cs[1..])
    ensures InlineText(env, text, cursor, cs) + out
         == [Text(text[cursor..cs[0].end])] + ([ImagePart(env, cs[0].target)] + (InlineText(env, text, cs[0].end, cs[1..]) + out))
    ensures Images(env, cs) + images == [ImagePart(env, cs[0].target)] + (Images(env, cs[1..]) + images)
  {
  }

  lemma LastImageInterleaves(env: Env, text: string, cursor: nat, cs: seq<Candidate>, out: seq<Part>, parts: seq<Part>, images: seq<Part>)
    requires InOrder(|text|, cursor, cs) && Interleaves(out, parts, images) && |cs| == 1 && cs[0].end == |text|
    ensures cursor <= |text|
    ensures Interleaves(InlineText(env, text, cursor, cs) + out, [Text(text[cursor..])] + parts, Images(env, cs) + images)
  {
    UnfoldText(env, text, cursor, cs, out, images);
    assert InlineText(env, text, |text|, []) + out == out && Images(env, []) + images == images;
    assert text[cursor..|text|] == text[cursor..];
    PutEnd(text[cursor..], ImagePart(env, cs[0].target), out, parts, images);
  }

  lemma NextImageInterleaves(env: Env, text: string, cursor: nat, cs: seq<Candidate>, out: seq<Part>, parts: seq<Part>, images: seq<Part>)
    requires InOrder(|text|, cursor, cs) && cs != [] && (cs[1..] != [] || cs[0].end < |text|)
    requires InOrder(|text|, cs[0].end, cs[1..]) && cs[0].end <= |text|
    requires Interleaves(InlineText(env, text, cs[0].end, cs[1..]) + out, [Text(text[cs[0].end..])] + parts, Images(env, cs[1..]) + images)
    ensures cursor <= |text|
    ensures Interleaves(InlineText(env, text, cursor, cs) + out, [Text(text[cursor..])] + parts, Images(env, cs) + images)
  {
    var end, image, rest := cs[0].end, ImagePart(env, cs[0].target), cs[1..];
    UnfoldText(env, text, cursor, cs, out, images);
    StillMore(|text|, end, rest);
    var whole := text[cursor..];
    assert whole[..end - cursor] == text[cursor..end];
    assert whole[end - cursor..] == text[end..];
    PutMiddle(whole, end - cursor, image, InlineText(env, text, end, rest) + out, parts, Images(env, rest) + images);
  }

  lemma {:induction false} TextInterleaves(env: Env, text: string, cursor: nat, cs: seq<Candidate>,
      out: seq<Part>, parts: seq<Part>, images: seq<Part>)
    requires InOrder(|text|, cursor, cs) && Interleaves(out, parts, images)
    requires cs != [] || cursor < |text|
    ensures cursor <= |text|
    ensures Interleaves(InlineText(env, text, cursor, cs) + out, [Text(text[cursor..])] + parts, Images(env, cs) + images)
    decreases |cs|
  {
    if cs == [] {
      PutPart(out, parts, images, Text(text[cursor..]));
      assert Images(env, cs) + images == images;
    } else {
      var end, rest := cs[0].end, cs[1..];
      UnfoldText(env, text, cursor, cs, out, images);
      if rest == [] && end == |text| {
        LastImageInterleaves(env, text, cursor, cs, out, parts, images);
      } else {
        TextInterleaves(env, text, end, rest, out, parts, images);
        NextImageInterleaves(env, text, cursor, cs, out, parts, images);
      }
    }
  }

  lemma StillMore(length: nat, cursor: nat, cs: seq<Candidate>)
    requires InOrder(length, cursor, cs)
    ensures cs != [] || cursor < length ==> cursor < length
    ensures cursor <= length
  {
  }

  /** The images of a message, in the order of its parts. */
  function ImagesFrom(env: Env, parts: seq<Part>, cs: seq<Candidate>, p: nat): seq<Part>
    requires p <= |parts|
    decreases |parts| - p
  {
    if p == |parts| then []
    else (if parts[p].Text? then Images(env, At(cs, p)) else []) + ImagesFrom(env, parts, cs, p + 1)
  }

  /** Original text slices still concatenate to the text, other parts stay, and nothing but the
      images of the selected markers is added. */
  lemma {:induction false} InliningInterleaves(env: Env, parts: seq<Part>, cs: seq<Candidate>, p: nat)
    requires p <= |parts| && Placed(parts, cs)
    ensures Interleaves(InlineParts(env, parts, cs, p), parts[p..], ImagesFrom(env, parts, cs, p))
    decreases |parts| - p
  {
    if p < |parts| {
      var here := At(cs, p);
      var out, images := InlineParts(env, parts, cs, p + 1), ImagesFrom(env, parts, cs, p + 1);
      InliningInterleaves(env, parts, cs, p + 1);
      assert parts[p..] == [parts[p]] + parts[p + 1..];
      if !parts[p].Text? || here == [] {
        PutPart(out, parts[p + 1..], images, parts[p]);
        assert ImagesFrom(env, parts, cs, p) == images;
      } else {
        var text := parts[p].text;
        assert text[0..] == text;
        TextInterleaves(env, text, 0, here, out, parts[p + 1..], images);
      }
    }
  }

  /** Each image stands directly behind the slice that ends with its own marker. */
  lemma {:induction false} ImageFollowsItsMarker(env: Env, text: string, cursor: nat, cs: seq<Candidate>, k: nat)
    requires InOrder(|text|, cursor, cs) && k < |cs|
    ensures cs[k].start < cs[k].end <= |text|
    ensures 2 * k + 1 < |InlineText(env, text, cursor, cs)|
    ensures InlineText(env, text, cursor, cs)[2 * k + 1] == ImagePart(env, cs[k].target)
    ensures EndsWith(InlineText(env, text, cursor, cs)[2 * k], text[cs[k].start..cs[k].end])
    decreases |cs|
  {
    var rest := InlineText(env, text, cs[0].end, cs[1..]);
    var slice := text[cursor..cs[0].end];
    var out := [Text(slice), ImagePart(env, cs[0].target)] + rest;
    assert InlineText(env, text, cursor, cs) == out;
    if k == 0 {
      InOrderFirst(|text|, cursor, cs);
      SliceEnd(text, cursor, cs[0].start, cs[0].end);
    } else {
      ImageFollowsItsMarker(env, text, cs[0].end, cs[1..], k - 1);
      assert out[2 * k] == rest[2 * (k - 1)] && out[2 * k + 1] == rest[2 * (k - 1) + 1];
    }
  }

  lemma InOrderFirst(length: nat, cursor: nat, cs: seq<Candidate>)
    requires InOrder(length, cursor, cs) && cs != []
    ensures cursor <= cs[0].start < cs[0].end <= length
  {
    StillMore(length, cs[0].end, cs[1..]);
  }

  lemma SliceEnd(text: string, cursor: nat, start: nat, end: nat)
    requires cursor <= start < end <= |text|
    ensures EndsWith(Text(text[cursor..end]), text[start..end])
  {
    assert text[cursor..end][start - cursor..] == text[start..end];
  }

  predicate EndsWith(part: Part, s: string) {
    part.Text? && |s| <= |part.text| && part.text[|part.text| - |s|..] == s
  }

  // ---- the whole request -------------------------------------------------------------

  function ImageHeader(target: string): string {
    "[Tool result image] " + target
  }

  function Header(targets: seq<string>): string {
    if targets == [] then ""
    else if |targets| == 1 then ImageHeader(targets[0])
    else ImageHeader(targets[0]) + "\n" + Header(targets[1..])
  }

  function ImageParts(env: Env, targets: seq<string>): seq<Part> {
    if targets == [] then [] else [ImagePart(env, targets[0])] + ImageParts(env, targets[1..])
  }

  /** The user message that carries the images of a block of tool messages. */
  function ToolImages(env: Env, targets: seq<string>): OutMessage {
    Inserted(Message(UserRole, [Text(Header(targets))] + ImageParts(env, targets), []))
  }

  function Flush(env: Env, pending: seq<string>): seq<OutMessage> {
    if pending == [] then [] else [ToolImages(env, pending)]
  }

  function Targets(cs: seq<Candidate>): seq<string> {
    seq(|cs|, i requires 0 <= i < |cs| => cs[i].target)
  }

  ghost predicate Ready(ms: seq<Message>, chosen: seq<Candidate>) {
    forall i :: 0 <= i < |ms| && ms[i].role != ToolRole ==> Placed(ms[i].parts, Selected(chosen, i))
  }

  function Inlined(env: Env, m: Message, cs: seq<Candidate>): Message
    requires Placed(m.parts, cs)
  {
    if cs == [] then m else m.(parts := InlineParts(env, m.parts, cs, 0))
  }

  /** What message `i` adds to the output. */
  function Emitted(env: Env, ms: seq<Message>, chosen: seq<Candidate>, i: nat, pending: seq<string>): seq<OutMessage>
    requires i < |ms| && Ready(ms, chosen)
  {
    if ms[i].role == ToolRole then [Kept(i, ms[i])]
    else Flush(env, pending) + [Kept(i, Inlined(env, ms[i], Selected(chosen, i)))]
  }

  /** The targets that the current tool block still owes behind message `i`. */
  function Owed(ms: seq<Message>, chosen: seq<Candidate>, i: nat, pending: seq<string>): seq<string>
    requires i < |ms|
  {
    if ms[i].role == ToolRole then pending + Targets(Selected(chosen, i)) else []
  }

  /** The messages from position `i` on. */
  function Bind(env: Env, ms: seq<Message>, chosen: seq<Candidate>, i: nat, pending: seq<string>): seq<OutMessage>
    requires i <= |ms| && Ready(ms, chosen)
    decreases |ms| - i
  {
    if i == |ms| then Flush(env, pending)
    else Emitted(env, ms, chosen, i, pending) + Bind(env, ms, chosen, i + 1, Owed(ms, chosen, i, pending))
  }

  lemma AllReady(env: Env, ms: seq<Message>, max: nat)
    ensures Ready(ms, Chosen(env, ms, max))
  {
    forall i | 0 <= i < |ms| && ms[i].role != ToolRole ensures Placed(ms[i].parts, Selected(Chosen(env, ms, max), i)) {
      SelectedIsPlaced(env, ms, max, i);
    }
  }

  /** The messages as they are. */
  function Unchanged(ms: seq<Message>, i: nat): seq<OutMessage>
    requires i <= |ms|
    decreases |ms| - i
  {
    if i == |ms| then [] else [Kept(i, ms[i])] + Unchanged(ms, i + 1)
  }

  lemma {:induction false} NothingChosen(env: Env, ms: seq<Message>, i: nat)
    requires i <= |ms| && Ready(ms, [])
    ensures Bind(env, ms, [], i, []) == Unchanged(ms, i)
    decreases |ms| - i
  {
    if i < |ms| {
      NothingChosen(env, ms, i + 1);
      assert Selected([], i) == [];
      assert [] + Targets(Selected([], i)) == [];
      if ms[i].role != ToolRole {
        assert Inlined(env, ms[i], []) == ms[i];
        assert Flush(env, []) + [Kept(i, ms[i])] == [Kept(i, ms[i])];
      }
    }
  }

  /** The rewriting loop: `taken` are the chosen candidates. */
  method WriteMessages(env: Env, ms: seq<Message>, taken: seq<Candidate>) returns (out: seq<OutMessage>)
    requires Ready(ms, taken)
    ensures out == Bind(env, ms, taken, 0, [])
  {
    out := [];
    var pending: seq<string> := [];
    for i := 0 to |ms|
      invariant out + Bind(env, ms, taken, i, pending) == Bind(env, ms, taken, 0, [])
    {
      BindAppend(env, ms, taken, i, pending, out);
      var added;
      added, pending := WriteMessage(env, ms, taken, i, pending);
      out := out + added;
    }
    if pending != [] {
      out := out + [ToolImages(env, pending)];
    }
  }

  lemma BindAppend(env: Env, ms: seq<Message>, taken: seq<Candidate>, i: nat, pending: seq<string>, out: seq<OutMessage>)
    requires i < |ms| && Ready(ms, taken)
    ensures out + Bind(env, ms, taken, i, pending)
         == (out + Emitted(env, ms, taken, i, pending)) + Bind(env, ms, taken, i + 1, Owed(ms, taken, i, pending))
  {
    Regroup(out, Emitted(env, ms, taken, i, pending), Bind(env, ms, taken, i + 1, Owed(ms, taken, i, pending)));
  }

  /** One round of the loop. */
  method WriteMessage(env: Env, ms: seq<Message>, taken: seq<Candidate>, i: nat, pending: seq<string>)
    returns (out: seq<OutMessage>, owed: seq<string>)
    requires i < |ms| && Ready(ms, taken)
    ensures out == Emitted(env, ms, taken, i, pending) && owed == Owed(ms, taken, i, pending)
  {
    out, owed := [], pending;
    var cs := Selected(taken, i);
    if ms[i].role == ToolRole {
      owed := owed + Targets(cs);
      return [Kept(i, ms[i])], owed;
    }
    if pending != [] {
      out := [ToolImages(env, pending)];
      owed := [];
    }
    var m := ms[i];
    if cs != [] {
      var parts := InlineImages(env, m.parts, cs);
      m := m.(parts := parts);
    }
    out := out + [Kept(i, m)];
  }

  /** Candidates, deduplication, limit, and the rewriting. */
  method AttachImages(env: Env, ms: seq<Message>, max: nat) returns (out: seq<OutMessage>)
    ensures Ready(ms, Chosen(env, ms, max))
    ensures out == Bind(env, ms, Chosen(env, ms, max), 0, [])
  {
    var unique := Deduplicate(AllCandidates(env, ms, 0));
    AllReady(env, ms, max);
    if unique == [] {
      assert Chosen(env, ms, max) == [];
      NothingChosen(env, ms, 0);
      return Unchanged(ms, 0);
    }
    var trusted, untrusted := Trusted(env, unique), Untrusted(env, unique);
    out := WriteMessages(env, ms, Latest(trusted, max) + untrusted);
  }

  // ---- order of messages -------------------------------------------------------------

  function KeptIndexes(out: seq<OutMessage>): seq<nat> {
    if out == [] then [] else (if out[0].Kept? then [out[0].index] else []) + KeptIndexes(out[1..])
  }

  lemma {:induction false} KeptConcat(a: seq<OutMessage>, b: seq<OutMessage>)
    ensures KeptIndexes(a + b) == KeptIndexes(a) + KeptIndexes(b)
  {
    if a == [] {
      assert a + b == b;
    } else {
      assert (a + b)[1..] == a[1..] + b;
      KeptConcat(a[1..], b);
      Regroup(if a[0].Kept? then [a[0].index] else [], KeptIndexes(a[1..]), KeptIndexes(b));
    }
  }

  function Positions(first: nat, n: nat): seq<nat> {
    seq(n, k requires 0 <= k < n => first + k)
  }

  /** All original messages are there, in their order. */
  lemma {:induction false} MessagesKeepTheirOrder(env: Env, ms: seq<Message>, chosen: seq<Candidate>, i: nat, pending: seq<string>)
    requires i <= |ms| && Ready(ms, chosen)
    ensures KeptIndexes(Bind(env, ms, chosen, i, pending)) == Positions(i, |ms| - i)
    decreases |ms| - i
  {
    if i < |ms| {
      var added := Emitted(env, ms, chosen, i, pending);
      var owed := Owed(ms, chosen, i, pending);
      MessagesKeepTheirOrder(env, ms, chosen, i + 1, owed);
      EmittedKeepsOne(env, ms, chosen, i, pending);
      KeptStep(added, Bind(env, ms, chosen, i + 1, owed), i, |ms| - i - 1);
    } else {
      FlushKeepsNone(env, pending);
    }
  }

  lemma KeptStep(added: seq<OutMessage>, rest: seq<OutMessage>, i: nat, n: nat)
    requires KeptIndexes(added) == [i] && KeptIndexes(rest) == Positions(i + 1, n)
    ensures KeptIndexes(added + rest) == Positions(i, n + 1)
  {
    KeptConcat(added, rest);
    assert [i] + Positions(i + 1, n) == Positions(i, n + 1);
  }

  lemma FlushKeepsNone(env: Env, pending: seq<string>)
    ensures KeptIndexes(Flush(env, pending)) == []
  {
  }

  lemma EmittedKeepsOne(env: Env, ms: seq<Message>, chosen: seq<Candidate>, i: nat, pending: seq<string>)
    requires i < |ms| && Ready(ms, chosen)
    ensures KeptIndexes(Emitted(env, ms, chosen, i, pending)) == [i]
  {
    FlushKeepsNone(env, pending);
    if ms[i].role != ToolRole {
      KeptConcat(Flush(env, pending), [Kept(i, Inlined(env, ms[i], Selected(chosen, i)))]);
    }
  }

  predicate IsKeptTool(m: OutMessage) {
    m.Kept? && m.message.role == ToolRole
  }

  /** Inserted messages stand right behind a tool message and never in front of one. */
  ghost predicate WellPlaced(out: seq<OutMessage>, behindTool: bool)
    decreases |out|
  {
    out != [] ==>
      && (out[0].Inserted? ==> behindTool && out[0].message.role == UserRole && (|out| > 1 ==> out[1].Kept? && !IsKeptTool(out[1])))
      && WellPlaced(out[1..], IsKeptTool(out[0]))
  }

  lemma {:induction false} InsertionsAreWellPlaced(env: Env, ms: seq<Message>, chosen: seq<Candidate>, i: nat, pending: seq<string>, behindTool: bool)
    requires i <= |ms| && Ready(ms, chosen)
    requires pending != [] ==> behindTool
    ensures WellPlaced(Bind(env, ms, chosen, i, pending), behindTool)
    decreases |ms| - i
  {
    var out := Bind(env, ms, chosen, i, pending);
    if i < |ms| {
      if ms[i].role == ToolRole {
        var more := pending + Targets(Selected(chosen, i));
        InsertionsAreWellPlaced(env, ms, chosen, i + 1, more, true);
        assert out[1..] == Bind(env, ms, chosen, i + 1, more);
      } else {
        var me := Kept(i, Inlined(env, ms[i], Selected(chosen, i)));
        var rest := Bind(env, ms, chosen, i + 1, []);
        InsertionsAreWellPlaced(env, ms, chosen, i + 1, [], false);
        assert ([me] + rest)[1..] == rest;
        assert WellPlaced([me] + rest, behindTool) && WellPlaced([me] + rest, false);
        if pending == [] {
          assert out == [me] + rest;
        } else {
          assert out[1..] == [me] + rest;
          assert out[0] == ToolImages(env, pending);
        }
      }
    }
  }

  /** The images that are put into message `i`. */
  function ImagesOf(env: Env, ms: seq<Message>, chosen: seq<Candidate>, i: nat): seq<Part>
    requires i < |ms|
  {
    if ms[i].role == ToolRole then [] else ImagesFrom(env, ms[i].parts, Selected(chosen, i), 0)
  }

  /** What an original message has turned into: its own parts, interleaved with the images of its
      own selected markers and nothing else. */
  ghost predicate Faithful(env: Env, ms: seq<Message>, chosen: seq<Candidate>, m: OutMessage) {
    m.Kept? ==>
      && m.index < |ms|
      && m.message.role == ms[m.index].role && m.message.responses == ms[m.index].responses
      && (m.message.role != UserRole ==> m.message == ms[m.index])
      && Interleaves(m.message.parts, ms[m.index].parts, ImagesOf(env, ms, chosen, m.index))
  }

  lemma {:induction false} SameInterleaves(parts: seq<Part>)
    ensures Interleaves(parts, parts, [])
  {
    if parts != [] {
      SameInterleaves(parts[1..]);
    }
  }

  ghost predicate AllFaithful(env: Env, ms: seq<Message>, chosen: seq<Candidate>, out: seq<OutMessage>) {
    forall m :: m in out ==> Faithful(env, ms, chosen, m)
  }

  lemma FaithfulConcat(env: Env, ms: seq<Message>, chosen: seq<Candidate>, a: seq<OutMessage>, b: seq<OutMessage>)
    requires AllFaithful(env, ms, chosen, a) && AllFaithful(env, ms, chosen, b)
    ensures AllFaithful(env, ms, chosen, a + b)
  {
  }

  lemma FlushIsFaithful(env: Env, ms: seq<Message>, chosen: seq<Candidate>, pending: seq<string>)
    ensures AllFaithful(env, ms, chosen, Flush(env, pending))
  {
  }

  /** System and assistant messages have nothing selected. */
  ghost predicate OnlyWhereAllowed(ms: seq<Message>, chosen: seq<Candidate>) {
    forall i :: 0 <= i < |ms| && (ms[i].role == SystemRole || ms[i].role == AssistantRole) ==> Selected(chosen, i) == []
  }

  lemma {:induction false} NoImages(env: Env, parts: seq<Part>, p: nat)
    requires p <= |parts|
    ensures ImagesFrom(env, parts, [], p) == []
    decreases |parts| - p
  {
    if p < |parts| {
      NoImages(env, parts, p + 1);
      assert At([], p) == [];
    }
  }

  lemma InlinedIsFaithful(env: Env, ms: seq<Message>, chosen: seq<Candidate>, i: nat)
    requires i < |ms| && Ready(ms, chosen) && OnlyWhereAllowed(ms, chosen) && ms[i].role != ToolRole
    ensures Faithful(env, ms, chosen, Kept(i, Inlined(env, ms[i], Selected(chosen, i))))
  {
    var cs := Selected(chosen, i);
    if cs == [] {
      SameInterleaves(ms[i].parts);
      NoImages(env, ms[i].parts, 0);
    } else {
      InliningInterleaves(env, ms[i].parts, cs, 0);
      assert ms[i].parts[0..] == ms[i].parts;
    }
  }

  lemma EmittedIsFaithful(env: Env, ms: seq<Message>, chosen: seq<Candidate>, i: nat, pending: seq<string>)
    requires i < |ms| && Ready(ms, chosen) && OnlyWhereAllowed(ms, chosen)
    ensures AllFaithful(env, ms, chosen, Emitted(env, ms, chosen, i, pending))
  {
    if ms[i].role == ToolRole {
      SameInterleaves(ms[i].parts);
    } else {
      InlinedIsFaithful(env, ms, chosen, i);
      FlushIsFaithful(env, ms, chosen, pending);
      FaithfulConcat(env, ms, chosen, Flush(env, pending), [Kept(i, Inlined(env, ms[i], Selected(chosen, i)))]);
    }
  }

  ghost predicate Bindable(ms: seq<Message>, chosen: seq<Candidate>) {
    Ready(ms, chosen) && OnlyWhereAllowed(ms, chosen)
  }

  ghost predicate BindFaithful(env: Env, ms: seq<Message>, chosen: seq<Candidate>, i: nat, pending: seq<string>) {
    i <= |ms| && Bindable(ms, chosen) && AllFaithful(env, ms, chosen, Bind(env, ms, chosen, i, pending))
  }

  lemma FaithfulEnd(env: Env, ms: seq<Message>, chosen: seq<Candidate>, pending: seq<string>)
    requires Bindable(ms, chosen)
    ensures BindFaithful(env, ms, chosen, |ms|, pending)
  {
    FlushIsFaithful(env, ms, chosen, pending);
  }

  lemma FaithfulStep(env: Env, ms: seq<Message>, chosen: seq<Candidate>, i: nat, pending: seq<string>, owed: seq<string>)
    requires i < |ms| && owed == Owed(ms, chosen, i, pending) && BindFaithful(env, ms, chosen, i + 1, owed)
    ensures BindFaithful(env, ms, chosen, i, pending)
  {
    EmittedIsFaithful(env, ms, chosen, i, pending);
    FaithfulConcat(env, ms, chosen, Emitted(env, ms, chosen, i, pending), Bind(env, ms, chosen, i + 1, owed));
  }

  lemma {:induction false} AllStayFaithful(env: Env, ms: seq<Message>, chosen: seq<Candidate>, i: nat, pending: seq<string>)
    requires i <= |ms| && Bindable(ms, chosen)
    ensures BindFaithful(env, ms, chosen, i, pending)
    decreases |ms| - i
  {
    if i == |ms| {
      FaithfulEnd(env, ms, chosen, pending);
      return;
    }
    var owed := Owed(ms, chosen, i, pending);
    AllStayFaithful(env, ms, chosen, i + 1, owed);
    FaithfulStep(env, ms, chosen, i, pending, owed);
  }

  /** In the output every original message keeps its role and its tool responses; only user
      messages change, and they only get cuts, and the images of their own selected markers. */
  lemma MessagesStayFaithful(env: Env, ms: seq<Message>, max: nat)
    ensures Ready(ms, Chosen(env, ms, max))
    ensures AllFaithful(env, ms, Chosen(env, ms, max), Bind(env, ms, Chosen(env, ms, max), 0, []))
  {
    AllReady(env, ms, max);
    AllAllowed(env, ms, max);
    AllStayFaithful(env, ms, Chosen(env, ms, max), 0, []);
  }

  lemma AllAllowed(env: Env, ms: seq<Message>, max: nat)
    ensures OnlyWhereAllowed(ms, Chosen(env, ms, max))
  {
    forall i | 0 <= i < |ms| && (ms[i].role == SystemRole || ms[i].role == AssistantRole)
      ensures Selected(Chosen(env, ms, max), i) == []
    {
      SelectedIsPlaced(env, ms, max, i);
    }
  }

  // ---- how many images -----------------------------------------------------------------

  function BoundIn(parts: seq<Part>): multiset<string> {
    if parts == [] then multiset{}
    else (if parts[0].Bound? then multiset{parts[0].target} else multiset{}) + BoundIn(parts[1..])
  }

  function AllBound(out: seq<OutMessage>): multiset<string> {
    if out == [] then multiset{} else BoundIn(out[0].message.parts) + AllBound(out[1..])
  }

  lemma {:induction false} BoundInConcat(a: seq<Part>, b: seq<Part>)
    ensures BoundIn(a + b) == BoundIn(a) + BoundIn(b)
  {
    if a == [] {
      assert a + b == b;
    } else {
      assert (a + b)[1..] == a[1..] + b;
      BoundInConcat(a[1..], b);
    }
  }

  lemma {:induction false} AllBoundConcat(a: seq<OutMessage>, b: seq<OutMessage>)
    ensures AllBound(a + b) == AllBound(a) + AllBound(b)
  {
    if a == [] {
      assert a + b == b;
    } else {
      assert (a + b)[1..] == a[1..] + b;
      AllBoundConcat(a[1..], b);
    }
  }

  lemma {:induction false} InlineTextBinds(env: Env, text: string, cursor: nat, cs: seq<Candidate>)
    requires InOrder(|text|, cursor, cs)
    ensures BoundIn(InlineText(env, text, cursor, cs)) == BoundTargets(env, cs)
    decreases |cs|
  {
    if cs != [] {
      var rest := InlineText(env, text, cs[0].end, cs[1..]);
      var front := [Text(text[cursor..cs[0].end]), ImagePart(env, cs[0].target)];
      InlineTextBinds(env, text, cs[0].end, cs[1..]);
      BoundInConcat(front, rest);
      assert front[1..] == [ImagePart(env, cs[0].target)] && front[1..][1..] == [];
    }
  }

  /** Splitting a range of keys splits the targets. */
  lemma {:induction false} RangeSplits(env: Env, cs: seq<Candidate>, key: Candidate -> nat, lo: nat, mid: nat, hi: nat)
    requires lo <= mid <= hi
    ensures BoundTargets(env, Between(cs, key, lo, hi))
         == BoundTargets(env, Between(cs, key, lo, mid)) + BoundTargets(env, Between(cs, key, mid, hi))
  {
    if cs != [] {
      RangeSplits(env, cs[1..], key, lo, mid, hi);
      var c := cs[0];
      FrontTarget(env, c, Between(cs[1..], key, lo, hi));
      FrontTarget(env, c, Between(cs[1..], key, lo, mid));
      FrontTarget(env, c, Between(cs[1..], key, mid, hi));
    }
  }

  lemma FrontTarget(env: Env, c: Candidate, cs: seq<Candidate>)
    ensures BoundTargets(env, [c] + cs) == (if Loads(env, c.target) then multiset{c.target} else multiset{}) + BoundTargets(env, cs)
    ensures [] + cs == cs
  {
    assert ([c] + cs)[1..] == cs;
  }

  lemma {:induction false} RangeIsAll(cs: seq<Candidate>, key: Candidate -> nat, hi: nat)
    requires forall c :: c in cs ==> key(c) < hi
    ensures Between(cs, key, 0, hi) == cs
  {
    if cs != [] {
      RangeIsAll(cs[1..], key, hi);
    }
  }

  lemma {:induction false} InsertBinds(env: Env, c: Candidate, cs: seq<Candidate>)
    ensures BoundTargets(env, Insert(c, cs)) == BoundTargets(env, [c] + cs)
  {
    FrontTarget(env, c, cs);
    if cs != [] && !Before(c, cs[0]) {
      InsertBinds(env, c, cs[1..]);
      FrontTarget(env, cs[0], Insert(c, cs[1..]));
      FrontTarget(env, c, cs[1..]);
    }
  }

  lemma {:induction false} SortBinds(env: Env, cs: seq<Candidate>)
    ensures BoundTargets(env, SortByPosition(cs)) == BoundTargets(env, cs)
  {
    if cs != [] {
      SortBinds(env, cs[1..]);
      InsertBinds(env, cs[0], SortByPosition(cs[1..]));
      FrontTarget(env, cs[0], SortByPosition(cs[1..]));
    }
  }

  /** The input holds no bound image yet. */
  ghost predicate Plain(parts: seq<Part>) {
    forall p :: 0 <= p < |parts| ==> !parts[p].Bound?
  }

  /** The targets of the keys from `lo` to `hi`, key by key. */
  function ByKey(env: Env, cs: seq<Candidate>, key: Candidate -> nat, lo: nat, hi: nat): multiset<string>
    requires lo <= hi
    decreases hi - lo
  {
    if lo == hi then multiset{} else BoundTargets(env, Between(cs, key, lo, lo + 1)) + ByKey(env, cs, key, lo + 1, hi)
  }

  lemma {:induction false} ByKeyIsRange(env: Env, cs: seq<Candidate>, key: Candidate -> nat, lo: nat, hi: nat)
    requires lo <= hi
    ensures ByKey(env, cs, key, lo, hi) == BoundTargets(env, Between(cs, key, lo, hi))
    decreases hi - lo
  {
    if lo == hi {
      NothingBetween(cs, key, lo);
    } else {
      ByKeyIsRange(env, cs, key, lo + 1, hi);
      RangeSplits(env, cs, key, lo, lo + 1, hi);
    }
  }

  /** The candidates of a message that has no bound image yet, each in one of its texts. */
  ghost predicate Fitting(parts: seq<Part>, cs: seq<Candidate>) {
    && Placed(parts, cs) && Plain(parts)
    && forall c :: c in cs ==> c.part < |parts| && parts[c.part].Text?
  }

  ghost predicate BindsFrom(env: Env, parts: seq<Part>, cs: seq<Candidate>, p: nat)
    requires p <= |parts| && Fitting(parts, cs)
  {
    BoundIn(InlineParts(env, parts, cs, p)) == ByKey(env, cs, PartOf, p, |parts|)
  }

  lemma InlinePartsBind(env: Env, parts: seq<Part>, cs: seq<Candidate>)
    requires Fitting(parts, cs)
    ensures BindsFrom(env, parts, cs, 0)
  {
    NothingLeft(env, parts, cs);
    var p := |parts|;
    while p > 0
      invariant 0 <= p <= |parts| && BindsFrom(env, parts, cs, p)
    {
      p := p - 1;
      BoundStep(env, parts, cs, p);
    }
  }

  lemma NothingLeft(env: Env, parts: seq<Part>, cs: seq<Candidate>)
    requires Fitting(parts, cs)
    ensures BindsFrom(env, parts, cs, |parts|)
  {
  }

  lemma BoundStep(env: Env, parts: seq<Part>, cs: seq<Candidate>, p: nat)
    requires p < |parts| && Fitting(parts, cs) && BindsFrom(env, parts, cs, p + 1)
    ensures BindsFrom(env, parts, cs, p)
  {
    OnePartBinds(env, parts, cs, p);
    BoundInConcat(InlinePart(env, parts[p], At(cs, p)), InlineParts(env, parts, cs, p + 1));
  }

  lemma OnePartBinds(env: Env, parts: seq<Part>, cs: seq<Candidate>, p: nat)
    requires p < |parts| && Fitting(parts, cs)
    ensures BoundIn(InlinePart(env, parts[p], At(cs, p))) == BoundTargets(env, At(cs, p))
  {
    BetweenMembers(cs, PartOf, p, p + 1);
    if At(cs, p) != [] {
      assert At(cs, p)[0] in At(cs, p);
    }
    InlinePartBinds(env, parts[p], At(cs, p));
  }

  lemma InlinePartBinds(env: Env, part: Part, here: seq<Candidate>)
    requires !part.Bound? && if part.Text? then InOrder(|part.text|, 0, here) else here == []
    ensures BoundIn(InlinePart(env, part, here)) == BoundTargets(env, here)
  {
    if !part.Text? || here == [] {
      assert [part][1..] == [];
    } else {
      InlineTextBinds(env, part.text, 0, here);
    }
  }

  lemma {:induction false} NothingBetween(cs: seq<Candidate>, key: Candidate -> nat, lo: nat)
    ensures Between(cs, key, lo, lo) == []
  {
    if cs != [] {
      NothingBetween(cs[1..], key, lo);
    }
  }

  function Loadable(env: Env, targets: seq<string>): multiset<string> {
    if targets == [] then multiset{}
    else (if Loads(env, targets[0]) then multiset{targets[0]} else multiset{}) + Loadable(env, targets[1..])
  }

  lemma {:induction false} LoadableConcat(env: Env, a: seq<string>, b: seq<string>)
    ensures Loadable(env, a + b) == Loadable(env, a) + Loadable(env, b)
  {
    if a == [] {
      assert a + b == b;
    } else {
      assert (a + b)[1..] == a[1..] + b;
      LoadableConcat(env, a[1..], b);
    }
  }

  lemma {:induction false} TargetsLoad(env: Env, cs: seq<Candidate>)
    ensures Loadable(env, Targets(cs)) == BoundTargets(env, cs)
  {
    if cs != [] {
      TargetsLoad(env, cs[1..]);
      assert Targets(cs)[1..] == Targets(cs[1..]);
    }
  }

  lemma {:induction false} ImagePartsBind(env: Env, targets: seq<string>)
    ensures BoundIn(ImageParts(env, targets)) == Loadable(env, targets)
  {
    if targets != [] {
      ImagePartsBind(env, targets[1..]);
      assert ImageParts(env, targets)[1..] == ImageParts(env, targets[1..]);
    }
  }

  lemma FlushBinds(env: Env, pending: seq<string>)
    ensures AllBound(Flush(env, pending)) == Loadable(env, pending)
  {
    if pending != [] {
      var parts := [Text(Header(pending))] + ImageParts(env, pending);
      ImagePartsBind(env, pending);
      assert parts[1..] == ImageParts(env, pending);
      assert Flush(env, pending)[1..] == [];
    }
  }

  lemma {:induction false} PlainBindsNothing(parts: seq<Part>)
    requires Plain(parts)
    ensures BoundIn(parts) == multiset{}
  {
    if parts != [] {
      PlainBindsNothing(parts[1..]);
    }
  }

  lemma SelectedBinds(env: Env, ms: seq<Message>, chosen: seq<Candidate>, i: nat)
    requires i < |ms| && Plain(ms[i].parts) && ms[i].role != ToolRole
    requires Ready(ms, chosen) && Own(env, ms, chosen)
    ensures BoundIn(Inlined(env, ms[i], Selected(chosen, i)).parts) == BoundTargets(env, Between(chosen, MsgOf, i, i + 1))
  {
    SelectedOwn(env, ms, chosen, i);
    InlinedBinds(env, ms[i], i, Selected(chosen, i));
    SortBinds(env, Between(chosen, MsgOf, i, i + 1));
  }

  lemma SelectedOwn(env: Env, ms: seq<Message>, chosen: seq<Candidate>, i: nat)
    requires i < |ms| && Own(env, ms, chosen)
    ensures forall c :: c in Selected(chosen, i) ==> c in CandidatesOf(env, ms[i], i)
  {
    BetweenMembers(chosen, MsgOf, i, i + 1);
    SortKeeps(Between(chosen, MsgOf, i, i + 1));
  }

  lemma InlinedBinds(env: Env, m: Message, msg: nat, cs: seq<Candidate>)
    requires Plain(m.parts) && Placed(m.parts, cs) && m.role != ToolRole
    requires forall c :: c in cs ==> c in CandidatesOf(env, m, msg)
    ensures BoundIn(Inlined(env, m, cs).parts) == BoundTargets(env, cs)
  {
    if cs == [] {
      PlainBindsNothing(m.parts);
    } else {
      PartsBind(env, m, msg, cs);
    }
  }

  lemma PartsBind(env: Env, m: Message, msg: nat, cs: seq<Candidate>)
    requires Plain(m.parts) && Placed(m.parts, cs) && m.role != ToolRole
    requires forall c :: c in cs ==> c in CandidatesOf(env, m, msg)
    ensures BoundIn(InlineParts(env, m.parts, cs, 0)) == BoundTargets(env, cs)
  {
    forall c | c in cs ensures c.part < |m.parts| && m.parts[c.part].Text? {
      CandidateNamesItsMessage(env, m, msg, c);
      PartCandidateIsInItsText(env, m.parts, msg, 0, c);
    }
    InlinePartsBind(env, m.parts, cs);
    ByKeyIsRange(env, cs, PartOf, 0, |m.parts|);
    RangeIsAll(cs, PartOf, |m.parts|);
  }

  lemma EmittedBinds(env: Env, ms: seq<Message>, chosen: seq<Candidate>, i: nat, pending: seq<string>)
    requires i < |ms| && Plain(ms[i].parts) && Ready(ms, chosen) && Own(env, ms, chosen)
    ensures AllBound(Emitted(env, ms, chosen, i, pending)) + Loadable(env, Owed(ms, chosen, i, pending))
         == Loadable(env, pending) + BoundTargets(env, Between(chosen, MsgOf, i, i + 1))
  {
    var cs := Selected(chosen, i);
    if ms[i].role == ToolRole {
      PlainBindsNothing(ms[i].parts);
      assert [Kept(i, ms[i])][1..] == [];
      SortBinds(env, Between(chosen, MsgOf, i, i + 1));
      TargetsLoad(env, cs);
      LoadableConcat(env, pending, Targets(cs));
    } else {
      var me := Kept(i, Inlined(env, ms[i], cs));
      SelectedBinds(env, ms, chosen, i);
      FlushBinds(env, pending);
      AllBoundConcat(Flush(env, pending), [me]);
      assert [me][1..] == [];
    }
  }

  lemma {:induction false} BindBinds(env: Env, ms: seq<Message>, chosen: seq<Candidate>, i: nat, pending: seq<string>)
    requires i <= |ms| && Ready(ms, chosen) && Own(env, ms, chosen)
    requires forall k :: 0 <= k < |ms| ==> Plain(ms[k].parts)
    ensures AllBound(Bind(env, ms, chosen, i, pending)) == Loadable(env, pending) + ByKey(env, chosen, MsgOf, i, |ms|)
    decreases |ms| - i
  {
    if i == |ms| {
      FlushBinds(env, pending);
    } else {
      BindBinds(env, ms, chosen, i + 1, Owed(ms, chosen, i, pending));
      BindMore(env, ms, chosen, i, pending);
    }
  }

  lemma BindMore(env: Env, ms: seq<Message>, chosen: seq<Candidate>, i: nat, pending: seq<string>)
    requires i < |ms| && Ready(ms, chosen) && Own(env, ms, chosen) && Plain(ms[i].parts)
    requires AllBound(Bind(env, ms, chosen, i + 1, Owed(ms, chosen, i, pending)))
          == Loadable(env, Owed(ms, chosen, i, pending)) + ByKey(env, chosen, MsgOf, i + 1, |ms|)
    ensures AllBound(Bind(env, ms, chosen, i, pending)) == Loadable(env, pending) + ByKey(env, chosen, MsgOf, i, |ms|)
  {
    EmittedBinds(env, ms, chosen, i, pending);
    BindStep(env, ms, chosen, i, pending, ByKey(env, chosen, MsgOf, i + 1, |ms|), BoundTargets(env, Between(chosen, MsgOf, i, i + 1)));
  }

  lemma BindStep(env: Env, ms: seq<Message>, chosen: seq<Candidate>, i: nat, pending: seq<string>, later: multiset<string>, here: multiset<string>)
    requires i < |ms| && Ready(ms, chosen)
    requires AllBound(Emitted(env, ms, chosen, i, pending)) + Loadable(env, Owed(ms, chosen, i, pending)) == Loadable(env, pending) + here
    requires AllBound(Bind(env, ms, chosen, i + 1, Owed(ms, chosen, i, pending))) == Loadable(env, Owed(ms, chosen, i, pending)) + later
    ensures AllBound(Bind(env, ms, chosen, i, pending)) == Loadable(env, pending) + (here + later)
  {
    var added, owed := Emitted(env, ms, chosen, i, pending), Owed(ms, chosen, i, pending);
    var rest := Bind(env, ms, chosen, i + 1, owed);
    AllBoundConcat(added, rest);
    SumUp(AllBound(added), AllBound(rest), Loadable(env, owed), Loadable(env, pending), here, later);
  }

  lemma SumUp(a: multiset<string>, b: multiset<string>, owed: multiset<string>, pending: multiset<string>, here: multiset<string>, later: multiset<string>)
    requires a + owed == pending + here && b == owed + later
    ensures a + b == pending + (here + later)
  {
    assert a + (owed + later) == (a + owed) + later;
    assert pending + (here + later) == (pending + here) + later;
  }

  /** The images of the whole output are exactly the chosen, trusted, loadable targets. */
  lemma OutputBindsTheChosen(env: Env, ms: seq<Message>, max: nat)
    requires forall k :: 0 <= k < |ms| ==> Plain(ms[k].parts)
    ensures Ready(ms, Chosen(env, ms, max))
    ensures AllBound(Bind(env, ms, Chosen(env, ms, max), 0, [])) == BoundTargets(env, Chosen(env, ms, max))
  {
    var chosen := Chosen(env, ms, max);
    AllReady(env, ms, max);
    ChosenAreCandidates(env, ms, max);
    AllAreOwn(env, ms, 0);
    BindBinds(env, ms, chosen, 0, []);
    ByKeyIsRange(env, chosen, MsgOf, 0, |ms|);
    RangeIsAll(chosen, MsgOf, |ms|);
  }

  // ---- limit, trust, uniqueness, latest ---------------------------------------------------

  lemma {:induction false} BoundTargetsConcat(env: Env, a: seq<Candidate>, b: seq<Candidate>)
    ensures BoundTargets(env, a + b) == BoundTargets(env, a) + BoundTargets(env, b)
  {
    if a == [] {
      assert a + b == b;
    } else {
      assert (a + b)[1..] == a[1..] + b;
      BoundTargetsConcat(env, a[1..], b);
    }
  }

  lemma {:induction false} BoundTargetsCount(env: Env, cs: seq<Candidate>)
    ensures |BoundTargets(env, cs)| <= |cs|
  {
    if cs != [] {
      BoundTargetsCount(env, cs[1..]);
    }
  }

  lemma {:induction false} BoundTargetsMembers(env: Env, cs: seq<Candidate>, t: string)
    ensures t in BoundTargets(env, cs) <==> Loads(env, t) && exists c :: c in cs && c.target == t
  {
    if cs != [] {
      BoundTargetsMembers(env, cs[1..], t);
      assert cs == [cs[0]] + cs[1..];
      assert cs[0] in cs;
    }
  }

  lemma {:induction false} BoundTargetsOnce(env: Env, cs: seq<Candidate>, t: string)
    requires DistinctTargets(cs)
    ensures BoundTargets(env, cs)[t] <= 1
  {
    if cs != [] {
      BoundTargetsOnce(env, cs[1..], t);
      BoundTargetsMembers(env, cs[1..], t);
      assert forall c :: c in cs[1..] ==> c.target != cs[0].target;
    }
  }

  lemma UntrustedBindsNothing(env: Env, unique: seq<Candidate>)
    ensures BoundTargets(env, Untrusted(env, unique)) == multiset{}
  {
    var no := (c: Candidate) => c.target !in env.trusted;
    FilterMembers(unique, no);
    assert Untrusted(env, unique) == Filter(unique, no);
    forall t ensures t !in BoundTargets(env, Untrusted(env, unique)) {
      BoundTargetsMembers(env, Untrusted(env, unique), t);
    }
  }

  /** `t` is the target of one of the last `max` candidates. */
  ghost predicate AmongLast(cs: seq<Candidate>, max: nat, t: string) {
    exists k :: 0 <= k < |cs| && |cs| - max <= k && cs[k].target == t
  }

  /** At most `max` images, each target at most once, only trusted and loadable ones, and of the
      first occurrences exactly the latest `max`. */
  lemma AtMostTheLatestTrusted(env: Env, ms: seq<Message>, max: nat, t: string)
    requires forall k :: 0 <= k < |ms| ==> Plain(ms[k].parts)
    ensures Ready(ms, Chosen(env, ms, max))
    ensures var images := AllBound(Bind(env, ms, Chosen(env, ms, max), 0, []));
            var firsts := Trusted(env, FirstOccurrences(AllCandidates(env, ms, 0), {}));
            && |images| <= max
            && images[t] <= 1
            && (t in images <==> Loads(env, t) && AmongLast(firsts, max, t))
  {
    OutputBindsTheChosen(env, ms, max);
    ChosenAreCandidates(env, ms, max);
    ChoiceIsLimited(env, FirstOccurrences(AllCandidates(env, ms, 0), {}), max, t);
  }

  lemma ChoiceIsLimited(env: Env, unique: seq<Candidate>, max: nat, t: string)
    requires DistinctTargets(Latest(Trusted(env, unique), max) + Untrusted(env, unique))
    ensures var images := BoundTargets(env, Latest(Trusted(env, unique), max) + Untrusted(env, unique));
            var firsts := Trusted(env, unique);
            && |images| <= max
            && images[t] <= 1
            && (t in images <==> Loads(env, t) && AmongLast(firsts, max, t))
  {
    var firsts := Trusted(env, unique);
    var latest := Latest(firsts, max);
    var all := latest + Untrusted(env, unique);
    BoundTargetsConcat(env, latest, Untrusted(env, unique));
    UntrustedBindsNothing(env, unique);
    BoundTargetsCount(env, latest);
    BoundTargetsMembers(env, latest, t);
    BoundTargetsOnce(env, all, t);
    LatestMembers(firsts, max, t);
    assert BoundTargets(env, all) == BoundTargets(env, latest);
    assert t in BoundTargets(env, latest) <==> Loads(env, t) && exists c :: c in latest && c.target == t;
    assert t in BoundTargets(env, all) <==> t in BoundTargets(env, latest);
  }

  lemma LatestMembers(cs: seq<Candidate>, max: nat, t: string)
    ensures |Latest(cs, max)| <= max
    ensures (exists c :: c in Latest(cs, max) && c.target == t)
       <==> AmongLast(cs, max, t)
  {
    var latest := Latest(cs, max);
    var drop := if |cs| > max then |cs| - max else 0;
    if c :| c in latest && c.target == t {
      var k :| 0 <= k < |latest| && latest[k] == c;
      assert cs[k + drop] == c;
    }
    if AmongLast(cs, max, t) {
      var k :| 0 <= k < |cs| && |cs| - max <= k && cs[k].target == t;
      assert latest[k - drop] == cs[k];
    }
  }
}
