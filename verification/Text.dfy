// The text helpers the engine's rules are written with: joining and splitting on a separator, trimming,
// and reading the lines of a text the way the metadata panel's list fields are read.
module Text {

  // ---------------------------------------------------------------- joining and splitting

  /** `parts` with `sep` between them (`[T]::join` of a one-character separator). */
  function Join(parts: seq<string>, sep: char): string {
    if parts == [] then ""
    else if |parts| == 1 then parts[0]
    else Join(parts[..|parts| - 1], sep) + [sep] + parts[|parts| - 1]
  }

  /** The pieces of `text` between the occurrences of `sep` (`str::split`): never empty. */
  function Split(text: string, sep: char): (parts: seq<string>)
    ensures |parts| > 0
  {
    if text == "" then [""]
    else
      var before := Split(text[..|text| - 1], sep);
      var last := text[|text| - 1];
      if last == sep then before + [""]
      else before[..|before| - 1] + [before[|before| - 1] + [last]]
  }

  function Count(text: string, c: char): nat {
    if text == "" then 0
    else Count(text[..|text| - 1], c) + if text[|text| - 1] == c then 1 else 0
  }

  predicate Without(parts: seq<string>, sep: char) {
    forall i | 0 <= i < |parts| :: sep !in parts[i]
  }

  lemma {:induction false} SplitPlain(text: string, sep: char)
    requires sep !in text
    ensures Split(text, sep) == [text]
  {
    if text != "" {
      var front := text[..|text| - 1];
      SplitPlain(front, sep);
      assert front + [text[|text| - 1]] == text;
    }
  }

  /** Splitting after one more separator and a plain piece gives one more piece. */
  lemma {:induction false} SplitAppend(text: string, last: string, sep: char)
    requires sep !in last
    ensures Split(text + [sep] + last, sep) == Split(text, sep) + [last]
  {
    if last == "" {
      assert (text + [sep] + last)[..|text|] == text;
    } else {
      var front := last[..|last| - 1];
      var whole := text + [sep] + last;
      assert whole[..|whole| - 1] == text + [sep] + front;
      SplitAppend(text, front, sep);
      assert front + [last[|last| - 1]] == last;
    }
  }

  lemma SplitLast(text: string, last: char, sep: char)
    ensures Split(text + [last], sep) ==
            var before := Split(text, sep);
            if last == sep then before + [""]
            else before[..|before| - 1] + [before[|before| - 1] + [last]]
  {
    assert (text + [last])[..|text|] == text;
  }

  lemma SplitNothing(sep: char)
    ensures Split("", sep) == [""]
  {
  }

  /** Splitting at a separator splits both sides. */
  lemma {:induction false} SplitConcat(left: string, right: string, sep: char)
    ensures Split(left + [sep] + right, sep) == Split(left, sep) + Split(right, sep)
  {
    hide Split;
    if right == "" {
      assert left + [sep] + right == left + [sep];
      SplitLast(left, sep, sep);
      SplitNothing(sep);
    } else {
      var front, last := right[..|right| - 1], right[|right| - 1];
      SplitConcat(left, front, sep);
      SplitLast(front, last, sep);
      assert front + [last] == right;
      SplitLast(left + [sep] + front, last, sep);
      assert left + [sep] + front + [last] == left + [sep] + right;
    }
  }

  /** Splitting undoes joining when no piece holds the separator. */
  lemma {:induction false} SplitJoin(parts: seq<string>, sep: char)
    requires parts != [] && Without(parts, sep)
    ensures Split(Join(parts, sep), sep) == parts
  {
    if |parts| == 1 {
      SplitPlain(parts[0], sep);
    } else {
      var front := parts[..|parts| - 1];
      SplitJoin(front, sep);
      SplitAppend(Join(front, sep), parts[|parts| - 1], sep);
      assert front + [parts[|parts| - 1]] == parts;
    }
  }

  lemma {:induction false} SplitWithout(text: string, sep: char)
    ensures Without(Split(text, sep), sep)
  {
    if text != "" {
      SplitWithout(text[..|text| - 1], sep);
    }
  }

  lemma {:induction false} CountAppend(a: string, b: string, c: char)
    ensures Count(a + b, c) == Count(a, c) + Count(b, c)
  {
    if b == "" {
      assert a + b == a;
    } else {
      assert (a + b)[..|a + b| - 1] == a + b[..|b| - 1];
      CountAppend(a, b[..|b| - 1], c);
    }
  }

  lemma {:induction false} CountAbsent(a: string, c: char)
    requires c !in a
    ensures Count(a, c) == 0
  {
    if a != "" {
      CountAbsent(a[..|a| - 1], c);
    }
  }

  /** A joined text holds one separator less than it has pieces. */
  lemma {:induction false} CountJoin(parts: seq<string>, sep: char)
    requires parts != [] && Without(parts, sep)
    ensures Count(Join(parts, sep), sep) == |parts| - 1
  {
    var last := parts[|parts| - 1];
    CountAbsent(last, sep);
    if |parts| > 1 {
      var front := parts[..|parts| - 1];
      CountJoin(front, sep);
      CountAppend(Join(front, sep) + [sep], last, sep);
      CountAppend(Join(front, sep), [sep], sep);
      assert Count([sep], sep) == Count([sep][..0], sep) + 1;
    }
  }

  /** Joining two lists one after the other puts one separator between them. */
  lemma {:induction false} JoinSplits(first: seq<string>, rest: seq<string>, sep: char)
    requires first != [] && rest != []
    ensures Join(first + rest, sep) == Join(first, sep) + [sep] + Join(rest, sep)
  {
    var all := first + rest;
    assert all[..|all| - 1] == first + rest[..|rest| - 1];
    if |rest| == 1 {
      assert all[..|all| - 1] == first;
    } else {
      JoinSplits(first, rest[..|rest| - 1], sep);
    }
  }

  // ---------------------------------------------------------------- trimming and lines

  /** Unicode's `White_Space`, as `str::trim` uses it. */
  predicate IsSpace(c: char) {
    || '\U{0009}' <= c <= '\U{000D}' || c == ' ' || c == '\U{0085}' || c == '\U{00A0}' || c == '\U{1680}'
    || '\U{2000}' <= c <= '\U{200A}' || c == '\U{2028}' || c == '\U{2029}' || c == '\U{202F}'
    || c == '\U{205F}' || c == '\U{3000}'
  }

  function TrimStart(text: string): string {
    if text != "" && IsSpace(text[0]) then TrimStart(text[1..]) else text
  }

  function TrimEnd(text: string): string {
    if text != "" && IsSpace(text[|text| - 1]) then TrimEnd(text[..|text| - 1]) else text
  }

  function Trim(text: string): string { TrimEnd(TrimStart(text)) }

  /** No white space at either end. */
  predicate Trimmed(text: string) {
    text != "" ==> !IsSpace(text[0]) && !IsSpace(text[|text| - 1])
  }

  lemma {:induction false} TrimStartFacts(text: string)
    ensures var t := TrimStart(text);
            && (t != "" ==> !IsSpace(t[0]))
            && forall c | c in t :: c in text
  {
    if text != "" && IsSpace(text[0]) {
      TrimStartFacts(text[1..]);
    }
  }

  lemma {:induction false} TrimEndFacts(text: string)
    requires text != "" ==> !IsSpace(text[0])
    ensures var t := TrimEnd(text);
            && Trimmed(t)
            && forall c | c in t :: c in text
  {
    if text != "" && IsSpace(text[|text| - 1]) {
      TrimEndFacts(text[..|text| - 1]);
    }
  }

  /** Trimming leaves a trimmed text, made of characters of the text. */
  lemma TrimFacts(text: string)
    ensures Trimmed(Trim(text))
    ensures forall c | c in Trim(text) :: c in text
  {
    TrimStartFacts(text);
    TrimEndFacts(TrimStart(text));
  }

  predicate AllSpace(text: string) { forall i | 0 <= i < |text| :: IsSpace(text[i]) }

  /** `core` with white space alone on either side, and none at its own ends. */
  predicate Surrounds(text: string, left: string, core: string, right: string) {
    text == left + core + right && AllSpace(left) && AllSpace(right) && Trimmed(core)
  }

  lemma {:induction false} TrimStartDrops(left: string, core: string)
    requires AllSpace(left) && (core != "" ==> !IsSpace(core[0]))
    ensures TrimStart(left + core) == core
  {
    if left == "" {
      assert left + core == core;
    } else {
      assert (left + core)[1..] == left[1..] + core;
      TrimStartDrops(left[1..], core);
    }
  }

  lemma {:induction false} TrimEndDrops(core: string, right: string)
    requires AllSpace(right) && (core != "" ==> !IsSpace(core[|core| - 1]))
    ensures TrimEnd(core + right) == core
  {
    if right == "" {
      assert core + right == core;
    } else {
      assert (core + right)[..|core + right| - 1] == core + right[..|right| - 1];
      TrimEndDrops(core, right[..|right| - 1]);
    }
  }

  lemma {:induction false} TrimStartLeft(text: string) returns (left: string)
    ensures text == left + TrimStart(text) && AllSpace(left)
  {
    if text != "" && IsSpace(text[0]) {
      left := TrimStartLeft(text[1..]);
      assert text == [text[0]] + text[1..];
      left := [text[0]] + left;
    } else {
      left := "";
    }
  }

  lemma {:induction false} TrimEndRight(text: string) returns (right: string)
    ensures text == TrimEnd(text) + right && AllSpace(right)
  {
    if text != "" && IsSpace(text[|text| - 1]) {
      right := TrimEndRight(text[..|text| - 1]);
      assert text == text[..|text| - 1] + [text[|text| - 1]];
      right := right + [text[|text| - 1]];
    } else {
      right := "";
    }
  }

  /** Trimming is the one text without white space at its ends that leaves white space alone on either side. */
  lemma TrimIsCore(text: string, core: string)
    ensures core == Trim(text) <==> exists left, right :: Surrounds(text, left, core, right)
  {
    if core == Trim(text) {
      var left := TrimStartLeft(text);
      var right := TrimEndRight(TrimStart(text));
      TrimFacts(text);
      assert Surrounds(text, left, core, right);
    }
    if left, right :| Surrounds(text, left, core, right) {
      if core == "" {
        TrimStartDrops(text, "");
        assert text + "" == text;
      } else {
        assert text == left + (core + right);
        TrimStartDrops(left, core + right);
        TrimEndDrops(core, right);
      }
    }
  }

  /** `str::lines`: the pieces between line feeds, without the carriage return that ends one, and without
      the empty piece after a last line feed. */
  function Lines(text: string): seq<string> {
    var parts := Split(text, '\n');
    var lines := if parts[|parts| - 1] == "" then parts[..|parts| - 1] else parts;
    seq(|lines|, i requires 0 <= i < |lines| =>
      if i < |parts| - 1 && lines[i] != "" && lines[i][|lines[i]| - 1] == '\r'
      then lines[i][..|lines[i]| - 1] else lines[i])
  }

  /** The trimmed pieces that are not empty, in their order. */
  function Kept(parts: seq<string>): seq<string> {
    if parts == [] then []
    else
      var last := Trim(parts[|parts| - 1]);
      Kept(parts[..|parts| - 1]) + if last == "" then [] else [last]
  }

  /** A list of names as the sidecar holds it: each trimmed, not empty and on one line. */
  predicate NormalNames(names: seq<string>) {
    forall i | 0 <= i < |names| :: names[i] != "" && Trimmed(names[i]) && '\n' !in names[i]
  }

  lemma {:induction false} KeptTrimmed(names: seq<string>)
    requires forall i | 0 <= i < |names| :: names[i] != "" && Trimmed(names[i])
    ensures Kept(names) == names
  {
    if names != [] {
      var front := names[..|names| - 1];
      KeptTrimmed(front);
      assert Trim(names[|names| - 1]) == names[|names| - 1];
      assert front + [names[|names| - 1]] == names;
    }
  }

  lemma {:induction false} KeptIsNormal(parts: seq<string>)
    requires Without(parts, '\n')
    ensures NormalNames(Kept(parts))
  {
    if parts != [] {
      KeptIsNormal(parts[..|parts| - 1]);
      TrimFacts(parts[|parts| - 1]);
    }
  }

  /** What a list field takes from a text: its lines, trimmed, without the empty ones. */
  function Names(text: string): seq<string> { Kept(Lines(text)) }

  lemma NamesAreNormal(text: string)
    ensures NormalNames(Names(text))
  {
    SplitWithout(text, '\n');
    assert Without(Lines(text), '\n');
    KeptIsNormal(Lines(text));
  }

  /** A line as it stands before its line feed: a carriage return at its end belongs to the feed. */
  predicate IsLineOf(line: string, piece: string) {
    piece == line + "\r" || (piece == line && (piece == "" || piece[|piece| - 1] != '\r'))
  }

  /** The lines of a text are the pieces its line feeds part, the last one only when it is not empty. */
  lemma LinesAre(parts: seq<string>)
    requires parts != [] && Without(parts, '\n')
    ensures var lines, last := Lines(Join(parts, '\n')), parts[|parts| - 1];
            && |lines| == (if last == "" then |parts| - 1 else |parts|)
            && (last != "" ==> lines[|parts| - 1] == last)
            && forall i | 0 <= i < |parts| - 1 :: IsLineOf(lines[i], parts[i])
  {
    hide Split, Join, Without;
    SplitJoin(parts, '\n');
    var lines := Lines(Join(parts, '\n'));
    forall i | 0 <= i < |parts| - 1 ensures IsLineOf(lines[i], parts[i]) {
      if parts[i] != "" && parts[i][|parts[i]| - 1] == '\r' {
        assert parts[i] == lines[i] + "\r";
      }
    }
  }

  /** Of each piece what is left without the white space around it is kept, when anything is, in the order of the
      pieces. */
  lemma {:induction false} KeptConcat(a: seq<string>, b: seq<string>)
    ensures Kept(a + b) == Kept(a) + Kept(b)
  {
    if b == [] {
      assert a + b == a;
    } else {
      assert (a + b)[..|a + b| - 1] == a + b[..|b| - 1];
      KeptConcat(a, b[..|b| - 1]);
    }
  }

  lemma KeptOne(left: string, core: string, right: string)
    requires Surrounds(left + core + right, left, core, right)
    ensures Kept([left + core + right]) == if core == "" then [] else [core]
  {
    TrimIsCore(left + core + right, core);
    assert [left + core + right][..0] == [];
  }

  /** A normal list reads back from its own text: the text view loses nothing of it. */
  lemma NamesOfJoin(names: seq<string>)
    requires NormalNames(names)
    ensures Names(Join(names, '\n')) == names
  {
    if names == [] {
      assert Lines("") == [];
    } else {
      SplitJoin(names, '\n');
      assert Lines(Join(names, '\n')) == names;
      KeptTrimmed(names);
    }
  }
}
