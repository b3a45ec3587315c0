// What makes two messages of a translation file one: their context, their source text and their comment, read off the
// lines of each, and the location lines that stand apart.
module TranslationKeys {
  import opened Wrappers
  import opened Sequences
  import Text

  type Line = string

  predicate Starts(line: Line, prefix: string) { prefix <= Text.TrimStart(line) }

  predicate IsLocation(line: Line) { Starts(line, "<location") }

  /** A line starts with a prefix when the prefix stands behind white space alone. */
  lemma StartsBehindSpace(line: Line, prefix: string)
    requires prefix != "" && !Text.IsSpace(prefix[0])
    ensures Starts(line, prefix) <==> exists space, rest :: line == space + prefix + rest && Text.AllSpace(space)
  {
    var space := Text.TrimStartLeft(line);
    var text := Text.TrimStart(line);
    if prefix <= text {
      assert text == prefix + text[|prefix|..];
      assert line == space + prefix + text[|prefix|..];
    }
    if space, rest :| line == space + prefix + rest && Text.AllSpace(space) {
      assert line == space + (prefix + rest);
      Text.TrimStartDrops(space, prefix + rest);
    }
  }

  // ---------------------------------------------------------------- what is between two tags

  /** Where a pattern is first found, from position `i` on. */
  function FindFrom(text: string, pattern: string, i: nat): (found: Option<nat>)
    ensures found.Some? ==> found.value + |pattern| <= |text|
    decreases |text| - i
  {
    if i + |pattern| > |text| then None
    else if text[i..i + |pattern|] == pattern then Some(i)
    else FindFrom(text, pattern, i + 1)
  }

  /** What is between the first opening tag and the first closing one after it. */
  function Between(text: string, opening: string, closing: string): Option<string> {
    var from := FindFrom(text, opening, 0);
    if from.None? then None
    else
      var inside := text[from.value + |opening|..];
      var end := FindFrom(inside, closing, 0);
      if end.None? then None else Some(inside[..end.value])
  }

  /** What is between the tags in the lines, as written. */
  function TagText(lines: seq<Line>, tag: string): Option<string> {
    Between(Text.Join(lines, '\n'), "<" + tag + ">", "</" + tag + ">")
  }

  predicate StandsAt(text: string, pattern: string, i: nat) {
    i + |pattern| <= |text| && text[i..i + |pattern|] == pattern
  }

  /** The pattern stands there, and nowhere before. */
  predicate FirstAt(text: string, pattern: string, i: nat) {
    StandsAt(text, pattern, i) && forall j | 0 <= j < i :: !StandsAt(text, pattern, j)
  }

  lemma {:induction false} FindFromIs(text: string, pattern: string, i: nat)
    requires forall j | 0 <= j < i :: !StandsAt(text, pattern, j)
    ensures var found := FindFrom(text, pattern, i);
            && (found.Some? ==> FirstAt(text, pattern, found.value))
            && (found.None? ==> forall j: nat :: !StandsAt(text, pattern, j))
    decreases |text| - i
  {
    if i + |pattern| <= |text| && !StandsAt(text, pattern, i) {
      FindFromIs(text, pattern, i + 1);
    }
  }

  /** A pattern is found exactly at its first place. */
  lemma FindIs(text: string, pattern: string, i: nat)
    ensures FindFrom(text, pattern, 0) == Some(i) <==> FirstAt(text, pattern, i)
  {
    hide FindFrom;
    FindFromIs(text, pattern, 0);
  }

  /** `inner` stands between the first opening tag of the text and the first closing tag after it. */
  ghost predicate ReadsBetween(text: string, opening: string, closing: string, inner: string) {
    exists before, after ::
      && text == before + opening + inner + closing + after
      && FirstAt(text, opening, |before|) && FirstAt(inner + closing + after, closing, |inner|)
  }

  lemma BetweenIs(text: string, opening: string, closing: string, inner: string)
    ensures Between(text, opening, closing) == Some(inner) <==> ReadsBetween(text, opening, closing, inner)
  {
    hide FirstAt, FindFrom;
    if Between(text, opening, closing) == Some(inner) {
      BetweenReads(text, opening, closing, inner);
    }
    if before, after :|
      && text == before + opening + inner + closing + after
      && FirstAt(text, opening, |before|) && FirstAt(inner + closing + after, closing, |inner|)
    {
      var inside := inner + closing + after;
      FindIs(text, opening, |before|);
      FindIs(inside, closing, |inner|);
      Regroup(before, opening, inner, closing, after);
    }
  }

  lemma Regroup(before: string, opening: string, inner: string, closing: string, after: string)
    ensures var text, inside := before + opening + inner + closing + after, inner + closing + after;
            text == before + opening + inside && text[|before| + |opening|..] == inside && inside[..|inner|] == inner
  {
  }

  lemma BetweenReads(text: string, opening: string, closing: string, inner: string)
    requires Between(text, opening, closing) == Some(inner)
    ensures ReadsBetween(text, opening, closing, inner)
  {
    hide FirstAt, FindFrom;
    var from := FindFrom(text, opening, 0).value;
    FindIs(text, opening, from);
    var inside := text[from + |opening|..];
    FindIs(inside, closing, |inner|);
    var before, after := text[..from], inside[|inner| + |closing|..];
    Stands(text, opening, from);
    Stands(inside, closing, |inner|);
    assert text == before + opening + inner + closing + after by {
      Regroup(before, opening, inner, closing, after);
    }
  }

  lemma Stands(text: string, pattern: string, i: nat)
    requires FirstAt(text, pattern, i)
    ensures i + |pattern| <= |text| && text == text[..i] + pattern + text[i + |pattern|..]
  {
    assert text[i..] == text[i..i + |pattern|] + text[i + |pattern|..];
  }

  /** The text of a tag in the lines. */
  ghost predicate TagReads(lines: seq<Line>, tag: string, inner: string) {
    ReadsBetween(Text.Join(lines, '\n'), "<" + tag + ">", "</" + tag + ">", inner)
  }

  /** **What a tag's text is**: what stands between the first opening tag and the first closing tag after it, and
      nothing when one of them is missing. */
  lemma TagTextIs(lines: seq<Line>, tag: string, inner: string)
    ensures TagText(lines, tag) == Some(inner) <==> TagReads(lines, tag, inner)
  {
    BetweenIs(Text.Join(lines, '\n'), "<" + tag + ">", "</" + tag + ">", inner);
  }

  // ---------------------------------------------------------------- the locations, apart from the other lines

  function Locations(lines: seq<Line>): seq<Line> {
    if lines == [] then []
    else Locations(lines[..|lines| - 1]) + if IsLocation(lines[|lines| - 1]) then [lines[|lines| - 1]] else []
  }

  function Others(lines: seq<Line>): seq<Line> {
    if lines == [] then []
    else Others(lines[..|lines| - 1]) + if IsLocation(lines[|lines| - 1]) then [] else [lines[|lines| - 1]]
  }

  /** The location lines and the others are the lines parted, each in their order. */
  lemma {:induction false} PartedByPlace(lines: seq<Line>) returns (locationsAt: seq<nat>, othersAt: seq<nat>)
    ensures Picks(lines, Locations(lines), locationsAt) && Picks(lines, Others(lines), othersAt)
    ensures forall i | 0 <= i < |lines| ::
              (i in locationsAt <==> Starts(lines[i], "<location")) && (i in othersAt <==> i !in locationsAt)
  {
    hide Starts, Picks;
    if lines == [] {
      locationsAt, othersAt := [], [];
      PicksAll(lines);
      assert Places(0) == [];
    } else {
      var front, last := lines[..|lines| - 1], lines[|lines| - 1];
      locationsAt, othersAt := PartedByPlace(front);
      PicksMore(front, Locations(front), locationsAt, last);
      PicksMore(front, Others(front), othersAt, last);
      assert lines == front + [last];
      assert Locations(front) + [] == Locations(front) && Others(front) + [] == Others(front);
      if IsLocation(last) {
        locationsAt := locationsAt + [|front|];
      } else {
        othersAt := othersAt + [|front|];
      }
    }
  }

  // ---------------------------------------------------------------- which messages are one

  /** A message's identity: its context, its source text and its comment. */
  datatype Key = Key(context: string, source: string, comment: Option<string>)

  function KeyOf(context: string, lines: seq<Line>): Key
    requires lines != []
  {
    var rest := Others(lines[1..]);
    var source := TagText(rest, "source");
    Key(context, if source.Some? then source.value else "", TagText(rest, "comment"))
  }

  /** A message's source text: none is an empty one. */
  ghost predicate SourceIs(lines: seq<Line>, source: string)
    requires lines != []
  {
    var rest := Others(lines[1..]);
    TagReads(rest, "source", source) || (source == "" && forall text :: !TagReads(rest, "source", text))
  }

  /** Both messages have a comment and the same one, or neither has. */
  ghost predicate SameComment(a: seq<Line>, b: seq<Line>)
    requires a != [] && b != []
  {
    forall text :: TagReads(Others(a[1..]), "comment", text) <==> TagReads(Others(b[1..]), "comment", text)
  }

  /** Two messages are one: their contexts, their source texts and their comments agree. */
  ghost predicate SameMessage(context: string, lines: seq<Line>, other: string, others: seq<Line>)
    requires lines != [] && others != []
  {
    && context == other && SameComment(lines, others)
    && exists source :: SourceIs(lines, source) && SourceIs(others, source)
  }

  lemma SourceOfKey(context: string, lines: seq<Line>, source: string)
    requires lines != []
    ensures KeyOf(context, lines).source == source <==> SourceIs(lines, source)
  {
    hide TagText, TagReads;
    var rest := Others(lines[1..]);
    forall text: string ensures TagText(rest, "source") == Some(text) <==> TagReads(rest, "source", text) {
      TagTextIs(rest, "source", text);
    }
    if TagText(rest, "source").Some? {
      assert TagReads(rest, "source", TagText(rest, "source").value);
    }
  }

  lemma CommentsOfKeys(a: seq<Line>, b: seq<Line>)
    requires a != [] && b != []
    ensures TagText(Others(a[1..]), "comment") == TagText(Others(b[1..]), "comment") <==> SameComment(a, b)
  {
    hide TagText, TagReads;
    var mine, yours := Others(a[1..]), Others(b[1..]);
    forall text: string
      ensures TagText(mine, "comment") == Some(text) <==> TagReads(mine, "comment", text)
      ensures TagText(yours, "comment") == Some(text) <==> TagReads(yours, "comment", text)
    {
      TagTextIs(mine, "comment", text);
      TagTextIs(yours, "comment", text);
    }
    if SameComment(a, b) {
      if TagText(mine, "comment").Some? {
        assert TagReads(yours, "comment", TagText(mine, "comment").value);
      } else if TagText(yours, "comment").Some? {
        assert TagReads(mine, "comment", TagText(yours, "comment").value);
      }
    }
  }

  /** **Two messages share a key exactly when their context, their source text and their comment agree**, a missing
      comment and an empty one being two things. */
  lemma KeysAreIdentities(context: string, lines: seq<Line>, other: string, others: seq<Line>)
    requires lines != [] && others != []
    ensures KeyOf(context, lines) == KeyOf(other, others) <==> SameMessage(context, lines, other, others)
  {
    hide TagText, TagReads, SourceIs, SameComment;
    CommentsOfKeys(lines, others);
    SourceOfKey(context, lines, KeyOf(context, lines).source);
    SourceOfKey(other, others, KeyOf(other, others).source);
    SourceOfKey(other, others, KeyOf(context, lines).source);
    if source :| SourceIs(lines, source) && SourceIs(others, source) {
      SourceOfKey(context, lines, source);
      SourceOfKey(other, others, source);
    }
  }
}
