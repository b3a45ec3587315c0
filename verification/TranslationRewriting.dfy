// What the rewriting of a translation file does to its messages: the locations each has afterwards, how many kept
// theirs and which are gone, by context, source text and comment.
module TranslationRewriting {
  import opened Wrappers
  import Text
  import opened TranslationKeys
  import opened TranslationLines

  lemma LocationsByKey(before: seq<Line>, after: seq<Line>, i: nat)
    requires i < |PiecesOf(after)| && PiecesOf(after)[i].Message?
    ensures var m := PiecesOf(after)[i]; var known := Known(PiecesOf(before)); var key := KeyOf(m.context, m.lines);
            var pieces := PiecesOf(RestoredLines(before, after));
            && |pieces| == |PiecesOf(after)| && pieces[i].Message? && pieces[i].context == m.context
            && pieces[i].lines != [] && pieces[i].lines[0] == m.lines[0] && KeyOf(m.context, pieces[i].lines) == key
            && Locations(pieces[i].lines[1..]) == (if key in known then known[key] else Locations(m.lines[1..]))
            && Others(pieces[i].lines[1..]) == Others(m.lines[1..])
  {
    var m, known := PiecesOf(after)[i], Known(PiecesOf(before));
    RestoredScans(before, after);
    RestoredAt(PiecesOf(after), known, i);
    KnownAreLocations(PiecesOf(before));
    SplitHolds(m.lines[1..]);
    hide Closed, Known, KeyOf, Locations, Others, AllLocations, PiecesOf, RestoredLines, RestoredAll;
    var key := KeyOf(m.context, m.lines);
    RestoredIsClosed(m.context, m.lines, if key in known then known[key] else Locations(m.lines[1..]));
  }

  // ---------------------------------------------------------------- said of the messages of the two files

  /** The two pieces are messages, and one and the same by context, source text and comment. */
  ghost predicate Same(a: Piece, b: Piece)
    requires Gathered(a) && Gathered(b)
  {
    a.Message? && b.Message? && SameMessage(a.context, a.lines, b.context, b.lines)
  }

  ghost predicate IsIn(piece: Piece, pieces: seq<Piece>)
    requires Gathered(piece) && AllGathered(pieces)
  {
    exists j :: 0 <= j < |pieces| && Same(piece, pieces[j])
  }

  /** The last of the pieces that is the same message. */
  ghost predicate LastSame(piece: Piece, pieces: seq<Piece>, j: nat)
    requires Gathered(piece) && AllGathered(pieces)
  {
    j < |pieces| && Same(piece, pieces[j]) && forall k | j < k < |pieces| :: !Same(piece, pieces[k])
  }

  lemma SameIsSameKey(a: Piece, b: Piece)
    requires Gathered(a) && Gathered(b)
    ensures Same(a, b) <==> a.Message? && b.Message? && KeyOf(a.context, a.lines) == KeyOf(b.context, b.lines)
  {
    hide KeyOf, SameMessage;
    if a.Message? && b.Message? {
      KeysAreIdentities(a.context, a.lines, b.context, b.lines);
    }
  }

  lemma {:induction false} KnownIs(pieces: seq<Piece>, piece: Piece)
    requires AllGathered(pieces) && Gathered(piece) && piece.Message?
    ensures var key := KeyOf(piece.context, piece.lines);
            && (key in Known(pieces) <==> IsIn(piece, pieces))
            && forall j: nat | LastSame(piece, pieces, j) ::
                 key in Known(pieces) && Known(pieces)[key] == Locations(pieces[j].lines[1..])
  {
    hide KeyOf, SameMessage, Locations, Opens, Closes;
    if pieces != [] {
      var front, last := pieces[..|pieces| - 1], pieces[|pieces| - 1];
      assert pieces == front + [last] && Gathered(last);
      KnownIs(front, piece);
      SameIsSameKey(piece, last);
      var key := KeyOf(piece.context, piece.lines);
      forall j: nat | LastSame(piece, pieces, j)
        ensures key in Known(pieces) && Known(pieces)[key] == Locations(pieces[j].lines[1..]) {
        if j < |front| {
          assert !Same(piece, pieces[|front|]) && LastSame(piece, front, j);
        }
      }
      if IsIn(piece, front) {
        var j :| 0 <= j < |front| && Same(piece, front[j]);
        assert pieces[j] == front[j];
      }
    }
  }

  /** A rewritten message is the new file's, with its opening line and its other lines, and the locations of the last
      message of the old file with its context, source text and comment, or its own when there is none. */
  ghost predicate KeepsLocations(before: seq<Piece>, after: Piece, restored: Piece)
    requires AllGathered(before) && Gathered(after) && Gathered(restored)
  {
    && Same(after, restored)
    && restored.lines[0] == after.lines[0] && Others(restored.lines[1..]) == Others(after.lines[1..])
    && (forall j: nat | LastSame(after, before, j) ::
          Locations(restored.lines[1..]) == Locations(before[j].lines[1..]))
    && (!IsIn(after, before) ==> Locations(restored.lines[1..]) == Locations(after.lines[1..]))
  }

  /** **A message keeps the locations the old file gave it**: read again, the rewritten file has the new file's pieces
      in their order, each of its messages with the locations the old file gave it. */
  lemma MessagesKeepTheirLocations(before: seq<Line>, after: seq<Line>, i: nat)
    requires i < |PiecesOf(after)| && PiecesOf(after)[i].Message?
    ensures |PiecesOf(RestoredLines(before, after))| == |PiecesOf(after)|
    ensures KeepsLocations(PiecesOf(before), PiecesOf(after)[i], PiecesOf(RestoredLines(before, after))[i])
  {
    hide KeyOf, SameMessage, Locations, Others, Opens, Closes, PiecesOf, Known, RestoredLines;
    LocationsByKey(before, after, i);
    var old_, new_, restored := PiecesOf(before), PiecesOf(after), PiecesOf(RestoredLines(before, after));
    KeptByKey(old_, new_[i], restored[i]);
  }

  /** Read again, the text has as many pieces as the new file, and every message of it the locations it should. */
  ghost predicate AllKeepLocations(before: seq<Line>, after: seq<Line>, text: seq<Line>) {
    && |PiecesOf(text)| == |PiecesOf(after)|
    && forall i | 0 <= i < |PiecesOf(after)| && PiecesOf(after)[i].Message? ::
         KeepsLocations(PiecesOf(before), PiecesOf(after)[i], PiecesOf(text)[i])
  }

  lemma AllKeepTheirs(before: seq<Line>, after: seq<Line>)
    ensures AllKeepLocations(before, after, RestoredLines(before, after))
  {
    hide KeepsLocations;
    RestoredScans(before, after);
    if PiecesOf(after) != [] {
      RestoredAt(PiecesOf(after), Known(PiecesOf(before)), 0);
    }
    hide PiecesOf, RestoredLines, RestoredAll, Known;
    forall i | 0 <= i < |PiecesOf(after)| && PiecesOf(after)[i].Message?
      ensures |PiecesOf(RestoredLines(before, after))| == |PiecesOf(after)|
      ensures KeepsLocations(PiecesOf(before), PiecesOf(after)[i], PiecesOf(RestoredLines(before, after))[i])
    {
      MessagesKeepTheirLocations(before, after, i);
    }
  }

  lemma KeptByKey(before: seq<Piece>, after: Piece, restored: Piece)
    requires AllGathered(before) && Gathered(after) && Gathered(restored) && after.Message? && restored.Message?
    requires KeyOf(after.context, after.lines) == KeyOf(restored.context, restored.lines)
    requires restored.lines[0] == after.lines[0] && Others(restored.lines[1..]) == Others(after.lines[1..])
    requires var key := KeyOf(after.context, after.lines);
             Locations(restored.lines[1..]) ==
             if key in Known(before) then Known(before)[key] else Locations(after.lines[1..])
    ensures KeepsLocations(before, after, restored)
  {
    hide KeyOf, SameMessage, Locations, Others, Opens, Closes, Known;
    KnownIs(before, after);
    SameIsSameKey(after, restored);
  }

  lemma ItsGathered(pieces: seq<Piece>, i: nat)
    requires AllGathered(pieces) && i < |pieces|
    ensures Gathered(pieces[i])
  {
  }

  /** The places of the messages that are in the other file too. */
  ghost function InBoth(pieces: seq<Piece>, others: seq<Piece>): set<nat>
    requires AllGathered(pieces) && AllGathered(others)
  {
    set i: nat | i < |pieces| && pieces[i].Message? && IsIn(pieces[i], others)
  }

  lemma KeyInKeys(piece: Piece, pieces: seq<Piece>)
    requires Gathered(piece) && AllGathered(pieces) && piece.Message?
    ensures KeyOf(piece.context, piece.lines) in KeysOf(pieces) <==> IsIn(piece, pieces)
  {
    hide KeyOf, SameMessage, Opens, Closes;
    forall j | 0 <= j < |pieces|
      ensures Same(piece, pieces[j]) <==>
              pieces[j].Message? && KeyOf(piece.context, piece.lines) == KeyOf(pieces[j].context, pieces[j].lines)
    {
      ItsGathered(pieces, j);
      SameIsSameKey(piece, pieces[j]);
    }
  }

  lemma {:induction false} CountedInBoth(pieces: seq<Piece>, others: seq<Piece>)
    requires AllGathered(pieces) && AllGathered(others)
    ensures KeyedBy(pieces, KeysOf(others)) == |InBoth(pieces, others)|
  {
    hide KeyOf, IsIn, KeysOf, Opens, Closes;
    if pieces != [] {
      var front, last := pieces[..|pieces| - 1], pieces[|pieces| - 1];
      assert pieces == front + [last] && Gathered(last);
      CountedInBoth(front, others);
      if last.Message? {
        KeyInKeys(last, others);
      }
      InBothMore(front, last, others);
      hide InBoth;
    }
  }

  lemma InBothMore(front: seq<Piece>, last: Piece, others: seq<Piece>)
    requires AllGathered(front) && Gathered(last) && AllGathered(front + [last]) && AllGathered(others)
    ensures InBoth(front + [last], others) ==
            InBoth(front, others) + if last.Message? && IsIn(last, others) then {|front|} else {}
    ensures |front| !in InBoth(front, others)
  {
    hide IsIn, Gathered;
    var pieces := front + [last];
    forall i: nat | i < |front| ensures pieces[i] == front[i] {
    }
    assert pieces[|front|] == last;
  }

  /** What the old file had and the new one has not: the context and the source text of each message that is in the
      one and not in the other. */
  ghost predicate Gone(before: seq<Piece>, after: seq<Piece>, context: string, source: string)
    requires AllGathered(before) && AllGathered(after)
  {
    exists j ::
      && 0 <= j < |before| && before[j].Message? && !IsIn(before[j], after)
      && before[j].context == context && SourceIs(before[j].lines, source)
  }

  lemma ContextOfKey(context: string, lines: seq<Line>)
    requires lines != []
    ensures KeyOf(context, lines).context == context
  {
  }

  lemma GoneIs(before: seq<Piece>, after: seq<Piece>, context: string, source: string)
    requires AllGathered(before) && AllGathered(after)
    ensures (exists k :: k in KeysOf(before) && k !in KeysOf(after) && k.context == context && k.source == source) <==>
            Gone(before, after, context, source)
  {
    hide IsIn, SourceIs, KeyOf, Opens, Closes;
    if k :| k in KeysOf(before) && k !in KeysOf(after) && k.context == context && k.source == source {
      var j :| 0 <= j < |before| && before[j].Message? && KeyOf(before[j].context, before[j].lines) == k;
      ItsGathered(before, j);
      KeyInKeys(before[j], after);
      SourceOfKey(before[j].context, before[j].lines, source);
      ContextOfKey(before[j].context, before[j].lines);
    }
    if j :|
      && 0 <= j < |before| && before[j].Message? && !IsIn(before[j], after)
      && before[j].context == context && SourceIs(before[j].lines, source)
    {
      ItsGathered(before, j);
      KeyInKeys(before[j], after);
      SourceOfKey(before[j].context, before[j].lines, source);
      ContextOfKey(before[j].context, before[j].lines);
      assert KeyOf(before[j].context, before[j].lines) in KeysOf(before);
    }
  }

  // ---------------------------------------------------------------- the rewriting, piece by piece

  /** What the rewriting reports: the new file, how many messages kept their locations and how many are new, and the
      context and source of the ones that are gone. */
  datatype Report = Report(text: seq<Line>, kept: nat, added: nat, gone: set<(string, string)>)

  /** The rewriting so far: the pieces written, the messages counted, the keys seen. */
  ghost predicate SoFar(pieces: seq<Piece>, known: map<Key, seq<Line>>, out: seq<Piece>, kept: nat, added: nat,
                        seen: set<Key>) {
    && AllGathered(pieces) && out == RestoredAll(pieces, known) && seen == KeysOf(pieces)
    && kept == KeyedBy(pieces, known.Keys) && kept + added == MessagesIn(pieces)
  }

  lemma OneMorePiece(pieces: seq<Piece>, known: map<Key, seq<Line>>, out: seq<Piece>, kept: nat, added: nat,
                     seen: set<Key>, piece: Piece)
    requires SoFar(pieces, known, out, kept, added, seen) && Gathered(piece)
    ensures var key := KeyIn(piece);
            SoFar(pieces + [piece], known, out + [Restored(piece, known)],
                  kept + if key.Some? && key.value in known then 1 else 0,
                  added + if key.Some? && key.value !in known then 1 else 0,
                  if key.Some? then seen + {key.value} else seen)
  {
    hide Restored, KeyOf, Gathered, RestoredAll, KeysOf, KeyedBy, MessagesIn, AllGathered;
    MoreGathered(pieces, piece);
    RestoredMore(pieces, piece, known);
    KeysMore(pieces, piece);
    CountsMore(pieces, piece, known.Keys);
  }

  lemma CountsMore(pieces: seq<Piece>, piece: Piece, keys: set<Key>)
    requires AllGathered(pieces) && Gathered(piece) && AllGathered(pieces + [piece])
    ensures MessagesIn(pieces + [piece]) == MessagesIn(pieces) + if piece.Message? then 1 else 0
    ensures KeyedBy(pieces + [piece], keys) ==
            KeyedBy(pieces, keys) + if piece.Message? && KeyOf(piece.context, piece.lines) in keys then 1 else 0
  {
    hide KeyOf, Gathered;
    assert (pieces + [piece])[..|pieces|] == pieces && (pieces + [piece])[|pieces|] == piece;
  }

  lemma NothingYet(known: map<Key, seq<Line>>)
    ensures SoFar([], known, [], 0, 0, {})
  {
  }

  lemma SoFarHolds(pieces: seq<Piece>, known: map<Key, seq<Line>>, out: seq<Piece>, kept: nat, added: nat,
                   seen: set<Key>)
    requires SoFar(pieces, known, out, kept, added, seen)
    ensures AllGathered(pieces) && out == RestoredAll(pieces, known) && seen == KeysOf(pieces)
    ensures kept == KeyedBy(pieces, known.Keys) && kept + added == MessagesIn(pieces)
  {
  }

  lemma MoreGathered(pieces: seq<Piece>, piece: Piece)
    requires AllGathered(pieces) && Gathered(piece)
    ensures AllGathered(pieces + [piece])
  {
  }

  function KeyIn(piece: Piece): Option<Key>
    requires Gathered(piece)
  {
    match piece
    case Plain(_) => None
    case Message(context, lines) => Some(KeyOf(context, lines))
  }

  method Rewrite(pieces: seq<Piece>, known: map<Key, seq<Line>>)
    returns (out: seq<Piece>, kept: nat, added: nat, seen: set<Key>)
    requires AllGathered(pieces)
    ensures SoFar(pieces, known, out, kept, added, seen)
  {
    hide *;
    out, kept, added, seen := [], 0, 0, {};
    NothingYet(known);
    assert pieces[..0] == [];
    for n := 0 to |pieces|
      invariant SoFar(pieces[..n], known, out, kept, added, seen)
    {
      var piece := pieces[n];
      TakeGathered(pieces, n);
      assert pieces[..n + 1] == pieces[..n] + [piece];
      OneMorePiece(pieces[..n], known, out, kept, added, seen, piece);
      var key := KeyIn(piece);
      if key.Some? {
        seen := seen + {key.value};
        if key.value in known {
          kept := kept + 1;
        } else {
          added := added + 1;
        }
      }
      out := out + [Restored(piece, known)];
    }
    assert pieces[..|pieces|] == pieces;
  }

  method Restore(before: seq<Line>, after: seq<Line>) returns (report: Report)
    ensures report.text == RestoredLines(before, after) && AllKeepLocations(before, after, report.text)
    ensures report.kept + report.added == MessagesIn(PiecesOf(after))
    ensures report.kept == |InBoth(PiecesOf(after), PiecesOf(before))|
    ensures forall context, source ::
              (context, source) in report.gone <==> Gone(PiecesOf(before), PiecesOf(after), context, source)
  {
    hide SoFar, KeyedBy, KeysOf, InBoth, Gone, AllGathered, Known, RestoredAll, KeyOf, Scan, AllKeepLocations;
    var had := Pieces(before);
    var has := Pieces(after);
    assert had.pieces == PiecesOf(before) && has.pieces == PiecesOf(after) && has.tail == TailOf(after);
    var known := GatherKnown(had.pieces);
    KnownKeys(had.pieces);
    var out, kept, added, seen := Rewrite(has.pieces, known);
    SoFarHolds(has.pieces, known, out, kept, added, seen);
    report := Report(Print(out) + has.tail, kept, added,
                     set k | k in known.Keys && k !in seen :: (k.context, k.source));
    AllKeepTheirs(before, after);
    CountedInBoth(has.pieces, had.pieces);
    forall context, source
      ensures (context, source) in report.gone <==> Gone(had.pieces, has.pieces, context, source)
    {
      GoneIs(had.pieces, has.pieces, context, source);
    }
  }

  /** The keys and locations of a file's messages, a later one over an earlier. */
  method GatherKnown(pieces: seq<Piece>) returns (known: map<Key, seq<Line>>)
    requires AllGathered(pieces)
    ensures known == Known(pieces)
  {
    known := map[];
    for n := 0 to |pieces|
      invariant AllGathered(pieces[..n]) && known == Known(pieces[..n])
    {
      TakeGathered(pieces, n + 1);
      assert pieces[..n + 1][..n] == pieces[..n] && Gathered(pieces[n]);
      match pieces[n] {
        case Plain(_) =>
        case Message(context, lines) => known := known[KeyOf(context, lines) := Locations(lines[1..])];
      }
    }
    assert pieces[..|pieces|] == pieces;
  }

  lemma TakeGathered(pieces: seq<Piece>, n: nat)
    requires AllGathered(pieces) && n <= |pieces|
    ensures AllGathered(pieces[..n]) && forall i | 0 <= i < |pieces| :: Gathered(pieces[i])
  {
  }

  lemma {:induction false} RestoredMore(pieces: seq<Piece>, piece: Piece, known: map<Key, seq<Line>>)
    requires AllGathered(pieces) && Gathered(piece) && AllGathered(pieces + [piece])
    ensures RestoredAll(pieces + [piece], known) == RestoredAll(pieces, known) + [Restored(piece, known)]
  {
    hide Restored, Gathered;
    if pieces == [] {
      assert [] + [piece] == [piece];
    } else {
      assert (pieces + [piece])[1..] == pieces[1..] + [piece];
      RestoredMore(pieces[1..], piece, known);
    }
  }

  lemma KeysMore(pieces: seq<Piece>, piece: Piece)
    requires AllGathered(pieces) && Gathered(piece) && AllGathered(pieces + [piece])
    ensures KeysOf(pieces + [piece]) ==
            KeysOf(pieces) + if piece.Message? then {KeyOf(piece.context, piece.lines)} else {}
  {
    hide KeyOf;
    var more := pieces + [piece];
    forall i | 0 <= i < |pieces| ensures more[i] == pieces[i] { }
    assert more[|pieces|] == piece;
    if piece.Message? {
      assert KeyOf(more[|pieces|].context, more[|pieces|].lines) in KeysOf(more);
    }
    forall k | k in KeysOf(pieces) ensures k in KeysOf(more) {
      var i :| 0 <= i < |pieces| && pieces[i].Message? && KeyOf(pieces[i].context, pieces[i].lines) == k;
      assert more[i].Message? && KeyOf(more[i].context, more[i].lines) == k;
    }
  }

  lemma {:induction false} KnownKeys(pieces: seq<Piece>)
    requires AllGathered(pieces)
    ensures Known(pieces).Keys == KeysOf(pieces)
  {
    hide KeyOf, Locations, Gathered;
    if pieces != [] {
      var front, last := pieces[..|pieces| - 1], pieces[|pieces| - 1];
      assert pieces == front + [last] && Gathered(last);
      KnownKeys(front);
      KeysMore(front, last);
    }
  }
}
