// The interface's translation files, line by line: a scanner that gathers each message, the printer that undoes it, and
// the rewriting that gives the messages a file already had the locations it gave them.
module TranslationLines {
  import opened Wrappers
  import Text
  import opened Sequences
  import opened TranslationKeys

  /** A file as a sequence of lines, with each closed message gathered from its opening line to its closing one. */
  datatype Piece = Plain(line: Line) | Message(context: string, lines: seq<Line>)

  /** The pieces of a file, and the lines of a message that never ends. */
  datatype Parsed = Parsed(pieces: seq<Piece>, tail: seq<Line>)

  predicate Opens(line: Line) { Starts(line, "<message") }
  predicate Closes(line: Line) { Starts(line, "</message>") }

  /** What a line names a context. */
  function NameOn(line: Line): Option<string> {
    var text := Text.TrimStart(line);
    var from, to := |"<name>"|, |text| - |"</name>"|;
    if "<name>" <= text && from <= to && text[to..] == "</name>" then Some(text[from..to]) else None
  }

  /** A line names a context when the name stands between its tags, with white space alone before them. */
  lemma NameOnIs(line: Line, name: string)
    ensures NameOn(line) == Some(name) <==>
            exists space :: line == space + "<name>" + name + "</name>" && Text.AllSpace(space)
  {
    hide NameOn, Text.TrimStart;
    var text, whole := Text.TrimStart(line), "<name>" + name + "</name>";
    NameOnWhole(line, name);
    if text == whole {
      var space := Text.TrimStartLeft(line);
      assert line == space + "<name>" + name + "</name>";
    }
    if space :| line == space + "<name>" + name + "</name>" && Text.AllSpace(space) {
      assert line == space + whole;
      Text.TrimStartDrops(space, whole);
    }
  }

  lemma NameOnWhole(line: Line, name: string)
    ensures NameOn(line) == Some(name) <==> Text.TrimStart(line) == "<name>" + name + "</name>"
  {
    hide Text.TrimStart;
    NameBetween(Text.TrimStart(line), name);
  }

  lemma NameBetween(text: string, name: string)
    ensures text == "<name>" + name + "</name>" <==>
            && "<name>" <= text && |text| == |"<name>"| + |name| + |"</name>"|
            && text[|text| - |"</name>"|..] == "</name>" && text[|"<name>"|..|text| - |"</name>"|] == name
  {
  }

  function Naming(context: string, line: Line): string { if NameOn(line).Some? then NameOn(line).value else context }

  // ---------------------------------------------------------------- the scanner and the printer

  function Scan(lines: seq<Line>, context: string, open: Option<seq<Line>>): Parsed
    decreases |lines|
  {
    if lines == [] then Parsed([], if open.Some? then open.value else [])
    else
      var line, rest := lines[0], lines[1..];
      if open.Some? then
        if Closes(line) then Before(Message(context, open.value + [line]), Scan(rest, context, None))
        else Scan(rest, context, Some(open.value + [line]))
      else if Opens(line) then Scan(rest, context, Some([line]))
      else Before(Plain(line), Scan(rest, Naming(context, line), None))
  }

  function Before(piece: Piece, parsed: Parsed): Parsed { parsed.(pieces := [piece] + parsed.pieces) }

  function LinesOf(piece: Piece): seq<Line> {
    match piece
    case Plain(line) => [line]
    case Message(_, lines) => lines
  }

  function Print(pieces: seq<Piece>): seq<Line> {
    if pieces == [] then [] else LinesOf(pieces[0]) + Print(pieces[1..])
  }

  /** The scan, one line at a time. */
  method Pieces(lines: seq<Line>) returns (parsed: Parsed)
    ensures parsed == Scan(lines, "", None)
  {
    var out: seq<Piece>, context: string, open: Option<seq<Line>> := [], "", None;
    for n := 0 to |lines|
      invariant var ahead := Scan(lines[n..], context, open);
                Parsed(out + ahead.pieces, ahead.tail) == Scan(lines, "", None)
    {
      var line := lines[n];
      assert lines[n..][0] == line && lines[n..][1..] == lines[n + 1..];
      if open.Some? {
        open := Some(open.value + [line]);
        if Closes(line) {
          AppendBefore(out, Message(context, open.value), Scan(lines[n + 1..], context, None));
          out := out + [Message(context, open.value)];
          open := None;
        }
      } else if Opens(line) {
        open := Some([line]);
      } else {
        var name := NameOn(line);
        if name.Some? {
          context := name.value;
        }
        AppendBefore(out, Plain(line), Scan(lines[n + 1..], context, None));
        out := out + [Plain(line)];
      }
    }
    assert out + [] == out;
    parsed := Parsed(out, if open.Some? then open.value else []);
  }

  lemma AppendBefore(out: seq<Piece>, piece: Piece, parsed: Parsed)
    ensures out + Before(piece, parsed).pieces == (out + [piece]) + parsed.pieces
  {
  }

  /** The lines of a message: an opening one, and a closing one only at the end. */
  predicate Closed(lines: seq<Line>) {
    && |lines| >= 2 && Opens(lines[0]) && Closes(lines[|lines| - 1])
    && forall i | 0 < i < |lines| - 1 :: !Closes(lines[i])
  }

  /** The lines of a message that does not end. */
  predicate Unclosed(lines: seq<Line>) {
    lines != [] && Opens(lines[0]) && forall i | 0 < i < |lines| :: !Closes(lines[i])
  }

  /** Pieces as a scan cuts them. */
  predicate Cut(pieces: seq<Piece>, context: string) {
    pieces == [] ||
    match pieces[0]
    case Plain(line) => !Opens(line) && Cut(pieces[1..], Naming(context, line))
    case Message(at, lines) => at == context && Closed(lines) && Cut(pieces[1..], context)
  }

  /** The context of the message at `i`: what the last line before it that names one names, or `start`. */
  predicate ContextAt(pieces: seq<Piece>, i: nat, start: string, context: string)
    requires i <= |pieces|
  {
    || (context == start && forall j | 0 <= j < i && pieces[j].Plain? :: NameOn(pieces[j].line).None?)
    || exists j ::
         && 0 <= j < i && pieces[j].Plain? && NameOn(pieces[j].line) == Some(context)
         && forall k | j < k < i && pieces[k].Plain? :: NameOn(pieces[k].line).None?
  }

  /** **A message is of the context named last before it.** */
  lemma {:induction false} CutNamesContexts(pieces: seq<Piece>, start: string, i: nat)
    requires Cut(pieces, start) && i < |pieces| && pieces[i].Message?
    ensures ContextAt(pieces, i, start, pieces[i].context)
    decreases |pieces|
  {
    hide NameOn, Opens, Closed;
    if i > 0 {
      var first, rest := pieces[0], pieces[1..];
      var next := if first.Plain? then Naming(start, first.line) else start;
      CutNamesContexts(rest, next, i - 1);
      ContextBefore(first, rest, i - 1, start, next, pieces[i].context);
      assert [first] + rest == pieces;
    }
  }

  lemma ContextBefore(first: Piece, rest: seq<Piece>, i: nat, start: string, next: string, context: string)
    requires i < |rest| && ContextAt(rest, i, next, context)
    requires next == if first.Plain? then Naming(start, first.line) else start
    ensures ContextAt([first] + rest, i + 1, start, context)
  {
    hide NameOn;
    var all := [first] + rest;
    assert forall k | 0 <= k < |rest| :: all[k + 1] == rest[k];
    if j :| 0 <= j < i && rest[j].Plain? && NameOn(rest[j].line) == Some(context)
            && forall k | j < k < i && rest[k].Plain? :: NameOn(rest[k].line).None? {
      assert all[j + 1] == rest[j];
      forall k | j + 1 < k < i + 1 && all[k].Plain? ensures NameOn(all[k].line).None? {
        assert all[k] == rest[k - 1];
      }
    } else {
      forall k | 0 < k < i + 1 && all[k].Plain? ensures NameOn(all[k].line).None? {
        assert all[k] == rest[k - 1];
      }
      if first.Plain? && NameOn(first.line).Some? {
        assert all[0] == first && NameOn(all[0].line) == Some(context);
      }
    }
  }

  lemma {:induction false} ScanCuts(lines: seq<Line>, context: string, open: Option<seq<Line>>)
    requires open.Some? ==> Unclosed(open.value)
    ensures var parsed := Scan(lines, context, open);
            && Cut(parsed.pieces, context) && (parsed.tail == [] || Unclosed(parsed.tail))
            && Print(parsed.pieces) + parsed.tail == (if open.Some? then open.value else []) + lines
    decreases |lines|
  {
    hide Opens, Closes, NameOn;
    if lines != [] {
      var line, rest := lines[0], lines[1..];
      assert lines == [line] + rest;
      if open.Some? {
        if Closes(line) {
          ScanCuts(rest, context, None);
          PrintBefore(Message(context, open.value + [line]), Scan(rest, context, None), open.value, line, rest);
        } else {
          ScanCuts(rest, context, Some(open.value + [line]));
          assert open.value + [line] + rest == open.value + lines;
        }
      } else if Opens(line) {
        ScanCuts(rest, context, Some([line]));
      } else {
        ScanCuts(rest, Naming(context, line), None);
        PrintBefore(Plain(line), Scan(rest, Naming(context, line), None), [], line, rest);
      }
    }
  }

  lemma PrintBefore(piece: Piece, parsed: Parsed, had: seq<Line>, line: Line, rest: seq<Line>)
    requires LinesOf(piece) == had + [line] && Print(parsed.pieces) + parsed.tail == rest
    ensures Print(Before(piece, parsed).pieces) + parsed.tail == had + ([line] + rest)
    ensures Before(piece, parsed).pieces[0] == piece && Before(piece, parsed).pieces[1..] == parsed.pieces
  {
    assert had + [line] + Print(parsed.pieces) + parsed.tail == had + ([line] + (Print(parsed.pieces) + parsed.tail));
  }

  /** The lines of a message, from the one at `i` on, complete it. */
  lemma {:induction false} ScanMessage(lines: seq<Line>, i: nat, rest: seq<Line>, context: string)
    requires Closed(lines) && 0 < i < |lines|
    ensures Scan(lines[i..] + rest, context, Some(lines[..i])) ==
              Before(Message(context, lines), Scan(rest, context, None))
    decreases |lines| - i
  {
    hide Opens, Closes, NameOn;
    var all := lines[i..] + rest;
    assert all[0] == lines[i] && all[1..] == lines[i + 1..] + rest;
    assert lines[..i] + [lines[i]] == lines[..i + 1];
    if i == |lines| - 1 {
      assert lines[..i + 1] == lines && lines[i + 1..] + rest == rest;
    } else {
      ScanMessage(lines, i + 1, rest, context);
    }
  }

  lemma {:induction false} ScanTail(tail: seq<Line>, i: nat, context: string)
    requires Unclosed(tail) && 0 < i <= |tail|
    ensures Scan(tail[i..], context, Some(tail[..i])) == Parsed([], tail)
    decreases |tail| - i
  {
    hide Opens, Closes, NameOn;
    if i == |tail| {
      assert tail[..i] == tail && tail[i..] == [];
    } else {
      assert tail[i..][0] == tail[i] && tail[i..][1..] == tail[i + 1..] && tail[..i] + [tail[i]] == tail[..i + 1];
      ScanTail(tail, i + 1, context);
    }
  }

  /** **Scanning undoes printing** for pieces as a scan cuts them, as printing undoes scanning for any lines. */
  lemma {:induction false} ScanningUndoesPrinting(pieces: seq<Piece>, tail: seq<Line>, context: string)
    requires Cut(pieces, context) && (tail == [] || Unclosed(tail))
    ensures Scan(Print(pieces) + tail, context, None) == Parsed(pieces, tail)
    decreases |pieces|
  {
    hide Opens, Closes, NameOn;
    if pieces == [] {
      assert Print(pieces) + tail == tail;
      if tail != [] {
        assert tail[..1] == [tail[0]];
        ScanTail(tail, 1, context);
      }
    } else {
      var rest := Print(pieces[1..]) + tail;
      assert Print(pieces) + tail == LinesOf(pieces[0]) + rest;
      assert [pieces[0]] + pieces[1..] == pieces;
      match pieces[0]
      case Plain(line) =>
        assert ([line] + rest)[1..] == rest;
        ScanningUndoesPrinting(pieces[1..], tail, Naming(context, line));
      case Message(at, lines) =>
        assert (lines + rest)[0] == lines[0] && (lines + rest)[1..] == lines[1..] + rest && lines[..1] == [lines[0]];
        ScanMessage(lines, 1, rest, context);
        ScanningUndoesPrinting(pieces[1..], tail, context);
    }
  }

  lemma PrintingUndoesScanning(lines: seq<Line>)
    ensures var parsed := Scan(lines, "", None); Print(parsed.pieces) + parsed.tail == lines
  {
    ScanCuts(lines, "", None);
    assert [] + lines == lines;
  }

  // ---------------------------------------------------------------- the locations of a file's messages

  predicate Gathered(piece: Piece) { piece.Message? ==> Closed(piece.lines) }

  predicate AllGathered(pieces: seq<Piece>) { forall i | 0 <= i < |pieces| :: Gathered(pieces[i]) }

  /** The locations of the messages of a file; a later message of the same key hides an earlier one. */
  function Known(pieces: seq<Piece>): map<Key, seq<Line>>
    requires AllGathered(pieces)
  {
    if pieces == [] then map[]
    else
      var known := Known(pieces[..|pieces| - 1]);
      match pieces[|pieces| - 1]
      case Plain(_) => known
      case Message(context, lines) => known[KeyOf(context, lines) := Locations(lines[1..])]
  }

  /** A message with the locations it is known by, or its own. */
  function Restored(piece: Piece, known: map<Key, seq<Line>>): Piece
    requires Gathered(piece)
  {
    match piece
    case Plain(_) => piece
    case Message(context, lines) =>
      var key := KeyOf(context, lines);
      var locations := if key in known then known[key] else Locations(lines[1..]);
      Message(context, [lines[0]] + locations + Others(lines[1..]))
  }

  function RestoredAll(pieces: seq<Piece>, known: map<Key, seq<Line>>): seq<Piece>
    requires AllGathered(pieces)
  {
    if pieces == [] then [] else [Restored(pieces[0], known)] + RestoredAll(pieces[1..], known)
  }

  lemma {:induction false} CutIsGathered(pieces: seq<Piece>, context: string)
    requires Cut(pieces, context)
    ensures AllGathered(pieces)
    decreases |pieces|
  {
    hide Closed, NameOn;
    if pieces != [] {
      match pieces[0] {
        case Plain(line) => CutIsGathered(pieces[1..], Naming(context, line));
        case Message(_, _) => CutIsGathered(pieces[1..], context);
      }
      forall i | 0 <= i < |pieces| ensures Gathered(pieces[i]) {
        if i > 0 {
          assert pieces[i] == pieces[1..][i - 1];
        }
      }
    }
  }

  function PiecesOf(lines: seq<Line>): (pieces: seq<Piece>)
    ensures Cut(pieces, "") && AllGathered(pieces)
  {
    ScanCuts(lines, "", None);
    CutIsGathered(Scan(lines, "", None).pieces, "");
    Scan(lines, "", None).pieces
  }

  function TailOf(lines: seq<Line>): (tail: seq<Line>)
    ensures tail == [] || Unclosed(tail)
  {
    ScanCuts(lines, "", None);
    Scan(lines, "", None).tail
  }

  /** The new file with the locations of the messages the old one had. */
  function RestoredLines(before: seq<Line>, after: seq<Line>): seq<Line> {
    Print(RestoredAll(PiecesOf(after), Known(PiecesOf(before)))) + TailOf(after)
  }

  function KeysOf(pieces: seq<Piece>): set<Key>
    requires AllGathered(pieces)
  {
    set i | 0 <= i < |pieces| && pieces[i].Message? :: KeyOf(pieces[i].context, pieces[i].lines)
  }

  function MessagesIn(pieces: seq<Piece>): nat {
    if pieces == [] then 0 else MessagesIn(pieces[..|pieces| - 1]) + if pieces[|pieces| - 1].Message? then 1 else 0
  }

  /** How many messages have a key among these. */
  function KeyedBy(pieces: seq<Piece>, keys: set<Key>): nat
    requires AllGathered(pieces)
  {
    if pieces == [] then 0
    else
      var last := pieces[|pieces| - 1];
      KeyedBy(pieces[..|pieces| - 1], keys)
      + if last.Message? && KeyOf(last.context, last.lines) in keys then 1 else 0
  }

  // ---------------------------------------------------------------- what the rewriting keeps

  lemma NotBoth(line: Line)
    ensures !(IsLocation(line) && Closes(line))
  {
    var text := Text.TrimStart(line);
    assert "<location" <= text ==> text[1] == 'l';
    assert "</message>" <= text ==> text[1] == '/';
  }

  predicate AllLocations(lines: seq<Line>) { forall i | 0 <= i < |lines| :: IsLocation(lines[i]) }

  predicate NoLocations(lines: seq<Line>) { forall i | 0 <= i < |lines| :: !IsLocation(lines[i]) }

  lemma {:induction false} SplitHolds(lines: seq<Line>)
    ensures AllLocations(Locations(lines)) && NoLocations(Others(lines))
    ensures forall l | l in Others(lines) :: l in lines
  {
    hide IsLocation;
    if lines != [] {
      SplitHolds(lines[..|lines| - 1]);
    }
  }

  lemma {:induction false} OnlyLocations(lines: seq<Line>)
    requires AllLocations(lines)
    ensures Locations(lines) == lines && Others(lines) == []
  {
    hide IsLocation;
    if lines != [] {
      OnlyLocations(lines[..|lines| - 1]);
      assert lines == lines[..|lines| - 1] + [lines[|lines| - 1]];
    }
  }

  lemma {:induction false} SplitAgain(locations: seq<Line>, others: seq<Line>)
    requires AllLocations(locations) && NoLocations(others)
    ensures Locations(locations + others) == locations && Others(locations + others) == others
  {
    hide IsLocation;
    if others == [] {
      OnlyLocations(locations);
      assert locations + others == locations;
    } else {
      var front, last := others[..|others| - 1], others[|others| - 1];
      var all := locations + others;
      assert all[..|all| - 1] == locations + front && all[|all| - 1] == last && others == front + [last];
      SplitAgain(locations, front);
    }
  }

  /** The lines of a message after its first: what is not a location ends with the closing line, and only there. */
  lemma {:induction false} OthersClose(lines: seq<Line>)
    requires lines != [] && Closes(lines[|lines| - 1]) && forall i | 0 <= i < |lines| - 1 :: !Closes(lines[i])
    ensures var others := Others(lines);
            && others != [] && Closes(others[|others| - 1])
            && forall i | 0 <= i < |others| - 1 :: !Closes(others[i])
  {
    hide Closes, IsLocation;
    var front, last := lines[..|lines| - 1], lines[|lines| - 1];
    NotBoth(last);
    SplitHolds(front);
    assert Others(lines) == Others(front) + [last];
    forall i | 0 <= i < |Others(front)| ensures !Closes(Others(front)[i]) {
      assert Others(front)[i] in front;
    }
  }

  /** A restored message is still one, with the same key and the same other lines. */
  lemma RestoredIsClosed(context: string, lines: seq<Line>, locations: seq<Line>)
    requires Closed(lines) && AllLocations(locations)
    ensures var restored := [lines[0]] + locations + Others(lines[1..]);
            && Closed(restored) && KeyOf(context, restored) == KeyOf(context, lines)
            && Locations(restored[1..]) == locations && Others(restored[1..]) == Others(lines[1..])
  {
    var others := Others(lines[1..]);
    var restored := [lines[0]] + locations + others;
    SplitHolds(lines[1..]);
    OthersClose(lines[1..]);
    assert restored[1..] == locations + others;
    SplitAgain(locations, others);
    forall i | 0 < i < |restored| - 1 ensures !Closes(restored[i]) {
      if i <= |locations| {
        assert restored[i] == locations[i - 1];
        NotBoth(restored[i]);
      } else {
        assert restored[i] == others[i - 1 - |locations|];
      }
    }
  }

  predicate KnownLocations(known: map<Key, seq<Line>>) { forall k | k in known :: AllLocations(known[k]) }

  lemma {:induction false} KnownAreLocations(pieces: seq<Piece>)
    requires AllGathered(pieces)
    ensures KnownLocations(Known(pieces))
  {
    hide AllLocations;
    if pieces != [] {
      KnownAreLocations(pieces[..|pieces| - 1]);
      var last := pieces[|pieces| - 1];
      if last.Message? {
        SplitHolds(last.lines[1..]);
      }
    }
  }

  lemma RestoredPieceHolds(piece: Piece, known: map<Key, seq<Line>>)
    requires Gathered(piece) && KnownLocations(known)
    ensures Gathered(Restored(piece, known)) && Restored(Restored(piece, known), known) == Restored(piece, known)
    ensures WithoutLocations(Restored(piece, known)) == WithoutLocations(piece)
    ensures piece.Message? ==> Restored(piece, known).Message? && Restored(piece, known).context == piece.context
    ensures piece.Plain? ==> Restored(piece, known) == piece
  {
    hide AllLocations, KeyOf, Locations, Others, Opens, Closes;
    match piece
    case Plain(_) =>
    case Message(context, lines) =>
      SplitIsLocations(lines[1..]);
      var key := KeyOf(context, lines);
      var locations := if key in known then known[key] else Locations(lines[1..]);
      RestoredIsClosed(context, lines, locations);
  }

  lemma SplitIsLocations(lines: seq<Line>)
    ensures AllLocations(Locations(lines))
  {
    SplitHolds(lines);
  }

  /** A piece without the location lines of its message. */
  function WithoutLocations(piece: Piece): seq<Line>
    requires Gathered(piece)
  {
    match piece
    case Plain(line) => [line]
    case Message(_, lines) => [lines[0]] + Others(lines[1..])
  }

  function Stripped(pieces: seq<Piece>): seq<Line>
    requires AllGathered(pieces)
  {
    if pieces == [] then [] else WithoutLocations(pieces[0]) + Stripped(pieces[1..])
  }

  lemma {:induction false} RestoredAllHold(pieces: seq<Piece>, known: map<Key, seq<Line>>, context: string)
    requires AllGathered(pieces) && Cut(pieces, context) && KnownLocations(known)
    ensures var restored := RestoredAll(pieces, known);
            && Cut(restored, context) && AllGathered(restored) && RestoredAll(restored, known) == restored
            && Stripped(restored) == Stripped(pieces)
    decreases |pieces|
  {
    hide Gathered, Restored, KnownLocations, WithoutLocations, NameOn, Opens, Closed;
    if pieces != [] {
      RestoredPieceHolds(pieces[0], known);
      RestoredAllHold(pieces[1..], known,
                      match pieces[0] case Plain(line) => Naming(context, line) case Message(_, _) => context);
      var restored := RestoredAll(pieces, known);
      assert restored[1..] == RestoredAll(pieces[1..], known);
      GatheredIsClosed(restored[0]);
      forall i | 0 <= i < |restored| ensures Gathered(restored[i]) {
        if i > 0 {
          assert restored[i] == restored[1..][i - 1];
        }
      }
    }
  }

  lemma GatheredIsClosed(piece: Piece)
    requires Gathered(piece)
    ensures piece.Message? ==> Closed(piece.lines)
  {
  }

  /** What a scan finds in the rewritten file is the rewritten pieces. */
  lemma RestoredScans(before: seq<Line>, after: seq<Line>)
    ensures PiecesOf(RestoredLines(before, after)) == RestoredAll(PiecesOf(after), Known(PiecesOf(before)))
    ensures TailOf(RestoredLines(before, after)) == TailOf(after)
  {
    var known := Known(PiecesOf(before));
    KnownAreLocations(PiecesOf(before));
    RestoredAllHold(PiecesOf(after), known, "");
    ScanningUndoesPrinting(RestoredAll(PiecesOf(after), known), TailOf(after), "");
  }

  /** **Rewriting again changes nothing.** */
  lemma RestoringAgainChangesNothing(before: seq<Line>, after: seq<Line>)
    ensures RestoredLines(before, RestoredLines(before, after)) == RestoredLines(before, after)
  {
    RestoredScans(before, after);
    KnownAreLocations(PiecesOf(before));
    RestoredAllHold(PiecesOf(after), Known(PiecesOf(before)), "");
  }

  /** **Nothing but locations changes**: without the location lines of their closed messages the new file and the
      rewritten one are the same, line by line. */
  lemma OnlyLocationsChange(before: seq<Line>, after: seq<Line>)
    ensures Stripped(PiecesOf(RestoredLines(before, after))) == Stripped(PiecesOf(after))
    ensures TailOf(RestoredLines(before, after)) == TailOf(after)
  {
    RestoredScans(before, after);
    KnownAreLocations(PiecesOf(before));
    RestoredAllHold(PiecesOf(after), Known(PiecesOf(before)), "");
  }

  lemma {:induction false} RestoredAt(pieces: seq<Piece>, known: map<Key, seq<Line>>, i: nat)
    requires AllGathered(pieces) && i < |pieces|
    ensures |RestoredAll(pieces, known)| == |pieces| && RestoredAll(pieces, known)[i] == Restored(pieces[i], known)
  {
    hide Restored, Gathered;
    if i > 0 {
      RestoredAt(pieces[1..], known, i - 1);
    } else if |pieces| > 1 {
      RestoredAt(pieces[1..], known, 0);
    }
  }
}
