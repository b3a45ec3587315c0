// Two complete runs of the cache of other applications' files: a write that slips in and is never read, and a merge
// that writes over a change that waits.
module ExternalRuns {
  import opened Wrappers
  import opened KeywordIndex
  import opened ExternalFiles
  import opened ExternalWaits

  function Get(fields: Fields, field: string): string { if field in fields.values then fields.values[field] else "" }

  /** A field changed in the file, and to something the photo does not say. */
  predicate FieldDiffers(base: Fields, file: Fields, mine: Fields, field: string) {
    Get(file, field) != Get(base, field) && Get(file, field) != Get(mine, field)
  }

  /** What is compared, field by field, and what an export makes of a file: it owns every field there is. */
  function FieldWise(): Rules {
    Rules((base: Fields, file: Fields, mine: Fields) =>
            exists field | field in base.values.Keys + file.values.Keys :: FieldDiffers(base, file, mine, field),
          (mine: Fields, file: Fields) => mine)
  }

  const OURS := Fields(map["title" := "ours"])
  const THEIRS := Fields(map["title" := "theirs"])
  const BESIDE: Path := "a.xmp"
  const GO := Answer(true, true)

  // ---------------------------------------------------------------- the write that slips in

  /** An export makes a new file, and another application writes it again before the export looks at what it wrote. */
  function SlippedIn(): seq<Event> {
    [ExportAsks(1, 7, BESIDE, None, true), CoordinatorTakes(GO), ExportWrites(1),
     OutsideWrites(BESIDE, THEIRS), ExportLooks(1), CoordinatorTakes(GO)]
  }

  function SlippedStates(): seq<State> {
    var said: map<PhotoId, Fields>, none: map<PhotoId, Row> := map[7 := OURS], map[];
    var idle: map<ExportId, Export> := map[];
    [State(map[], 1, [], idle, [], {7}, said, none),
     State(map[], 1, [], idle, [Ask(1, 7, BESIDE, None, true)], {7}, said, none),
     State(map[], 1, [], map[1 := Granted(7, BESIDE, None, OURS)], [], {7}, said, none),
     State(map[BESIDE := File(1, OURS)], 2, [], map[1 := Unchecked(7, BESIDE, OURS)], [], {7}, said, none),
     State(map[BESIDE := File(2, THEIRS)], 3, [], map[1 := Unchecked(7, BESIDE, OURS)], [], {7}, said, none),
     State(map[BESIDE := File(2, THEIRS)], 3, [], idle, [Written(7, BESIDE, Reading(2, OURS))], {7}, said, none),
     State(map[BESIDE := File(2, THEIRS)], 3, [], idle, [], {7}, said, map[7 := Row(BESIDE, 2, OURS, None)])]
  }

  predicate Goes(s: State, e: Event, t: State, rules: Rules) {
    CanHappen(s, e) && Next(s, e, rules) == t
  }

  lemma SlippedEarly(n: nat, rules: Rules)
    requires n < 3 && rules.merged(OURS, EMPTY) == OURS
    ensures Goes(SlippedStates()[n], SlippedIn()[n], SlippedStates()[n + 1], rules)
  {
    var s, t := SlippedStates()[n], SlippedStates()[n + 1];
    if n == 0 {
      assert s.inbound + [Ask(1, 7, BESIDE, None, true)] == t.inbound;
    } else if n == 1 {
      assert s.inbound[1..] == [] && s.exports[1 := Granted(7, BESIDE, None, OURS)] == t.exports;
    } else {
      assert s.files[BESIDE := File(1, OURS)] == t.files;
      assert s.exports[1 := Unchecked(7, BESIDE, OURS)] == t.exports;
    }
  }

  lemma SlippedLate(n: nat, rules: Rules)
    requires 3 <= n < 6
    ensures Goes(SlippedStates()[n], SlippedIn()[n], SlippedStates()[n + 1], rules)
  {
    var s, t := SlippedStates()[n], SlippedStates()[n + 1];
    if n == 3 {
      assert s.files[BESIDE := File(2, THEIRS)] == t.files;
    } else if n == 4 {
      assert s.exports - {1} == t.exports;
      assert s.inbound + [Written(7, BESIDE, Reading(2, OURS))] == t.inbound;
    } else {
      assert s.inbound[1..] == [] && s.rows[7 := Row(BESIDE, 2, OURS, None)] == t.rows;
    }
  }

  /** **The one write that can be missed**: between an export's writing and its looking, another application's write is
      recorded as the export's own; the file is not read again, and what it says is in neither the base nor a change. */
  lemma AWriteThatSlipsInIsMissed(rules: Rules)
    requires rules.merged(OURS, EMPTY) == OURS
    ensures Fresh(SlippedStates()[0])
    ensures forall n | 0 <= n < 6 :: Goes(SlippedStates()[n], SlippedIn()[n], SlippedStates()[n + 1], rules)
    ensures var s := SlippedStates()[6];
            && !NeedsReading(s.rows, 7, Glance(BESIDE, s.files[BESIDE].stat))
            && s.rows[7].base != s.files[BESIDE].fields && s.rows[7].pending.None?
  {
    hide Goes;
    forall n | 0 <= n < 6 ensures Goes(SlippedStates()[n], SlippedIn()[n], SlippedStates()[n + 1], rules) {
      if n < 3 {
        SlippedEarly(n, rules);
      } else {
        SlippedLate(n, rules);
      }
    }
    assert OURS.values["title"] != THEIRS.values["title"];
  }

  // ---------------------------------------------------------------- the change that is written over

  const BOTH := Fields(map["title" := "theirs", "caption" := "ours"])
  const EDITED := Fields(map["title" := "ours", "caption" := "ours"])

  /** A merge is granted for a file whose one field the photo agrees with; the photo's field is changed, a scan's
      reading of that very file is taken and has to wait for an answer, and the export writes what the photo said at the
      grant. */
  function WrittenOverEvent(n: nat): Event
    requires n < 14
  {
    match n
    case 0 => Looks(BESIDE)
    case 1 => ScanReads(7, 0)
    case 2 => CoordinatorTakes(GO)
    case 3 => OutsideWrites(BESIDE, THEIRS)
    case 4 => Looks(BESIDE)
    case 5 => Looks(BESIDE)
    case 6 => ExportAsks(1, 7, BESIDE, Some(2), true)
    case 7 => ScanReads(7, 1)
    case 8 => CoordinatorTakes(GO)
    case 9 => PhotoSays(7, EDITED)
    case 10 => CoordinatorTakes(GO)
    case 11 => ExportWrites(1)
    case 12 => ExportLooks(1)
    case _ => CoordinatorTakes(GO)
  }

  const READ := map[BESIDE := File(1, EMPTY)]
  const THEIR_FILE := map[BESIDE := File(2, THEIRS)]
  const OUR_FILE := map[BESIDE := File(3, BOTH)]
  const ASK := Ask(1, 7, BESIDE, Some(Reading(2, THEIRS)), true)
  const SEEN := Seen(7, BESIDE, Reading(2, THEIRS))
  const GRANTED: map<ExportId, Export> := map[1 := Granted(7, BESIDE, Some(Reading(2, THEIRS)), BOTH)]
  const BASED := map[7 := Row(BESIDE, 1, EMPTY, None)]
  const WAITING := map[7 := Row(BESIDE, 1, EMPTY, Some(Pending(2, THEIRS)))]

  const ONE := [Glance(BESIDE, 1)]
  const TWO := [Glance(BESIDE, 1), Glance(BESIDE, 2)]
  const THREE := [Glance(BESIDE, 1), Glance(BESIDE, 2), Glance(BESIDE, 2)]
  const IDLE: map<ExportId, Export> := map[]
  const NOTHING: map<PhotoId, Row> := map[]

  function WrittenOverState(n: nat): State
    requires n <= 14
  {
    match n
    case 0 => State(READ, 2, [], IDLE, [], {7}, map[7 := BOTH], NOTHING)
    case 1 => State(READ, 2, ONE, IDLE, [], {7}, map[7 := BOTH], NOTHING)
    case 2 => State(READ, 2, ONE, IDLE, [Seen(7, BESIDE, Reading(1, EMPTY))], {7}, map[7 := BOTH], NOTHING)
    case 3 => State(READ, 2, ONE, IDLE, [], {7}, map[7 := BOTH], BASED)
    case 4 => State(THEIR_FILE, 3, ONE, IDLE, [], {7}, map[7 := BOTH], BASED)
    case 5 => State(THEIR_FILE, 3, TWO, IDLE, [], {7}, map[7 := BOTH], BASED)
    case 6 => State(THEIR_FILE, 3, THREE, IDLE, [], {7}, map[7 := BOTH], BASED)
    case 7 => State(THEIR_FILE, 3, THREE, IDLE, [ASK], {7}, map[7 := BOTH], BASED)
    case 8 => State(THEIR_FILE, 3, THREE, IDLE, [ASK, SEEN], {7}, map[7 := BOTH], BASED)
    case 9 => State(THEIR_FILE, 3, THREE, GRANTED, [SEEN], {7}, map[7 := BOTH], BASED)
    case 10 => State(THEIR_FILE, 3, THREE, GRANTED, [SEEN], {7}, map[7 := EDITED], BASED)
    case 11 => State(THEIR_FILE, 3, THREE, GRANTED, [], {7}, map[7 := EDITED], WAITING)
    case 12 => State(OUR_FILE, 4, THREE, map[1 := Unchecked(7, BESIDE, BOTH)], [], {7}, map[7 := EDITED], WAITING)
    case 13 => State(OUR_FILE, 4, THREE, IDLE, [Written(7, BESIDE, Reading(3, BOTH))], {7}, map[7 := EDITED], WAITING)
    case _ => State(OUR_FILE, 4, THREE, IDLE, [], {7}, map[7 := EDITED], map[7 := Row(BESIDE, 3, BOTH, None)])
  }

  predicate GoesClear(n: nat)
    requires n < 14
  {
    && InTheClear(WrittenOverState(n), WrittenOverEvent(n))
    && Goes(WrittenOverState(n), WrittenOverEvent(n), WrittenOverState(n + 1), FieldWise())
  }

  lemma FirstScanGoes()
    ensures GoesClear(0) && GoesClear(1) && GoesClear(2)
  {
    hide FieldWise;
    var s := WrittenOverState(2);
    assert s.inbound[1..] == [] && s.rows[7 := Row(BESIDE, 1, EMPTY, None)] == BASED;
  }

  lemma MoreLooksGo()
    ensures GoesClear(3) && GoesClear(4) && GoesClear(5)
  {
    hide FieldWise;
    assert READ[BESIDE := File(2, THEIRS)] == THEIR_FILE;
    assert ONE + [Glance(BESIDE, 2)] == TWO && TWO + [Glance(BESIDE, 2)] == THREE;
  }

  lemma AskingGoes()
    ensures GoesClear(6)
  {
    hide FieldWise;
    assert [] + [ASK] == [ASK];
  }

  lemma ReadingGoes()
    ensures GoesClear(7)
  {
    hide FieldWise;
    assert [ASK] + [SEEN] == [ASK, SEEN];
  }

  /** The photo agrees with the file in the one field it holds, and has something of its own to write. */
  lemma NothingToAsk()
    ensures !FieldWise().differs(EMPTY, THEIRS, BOTH) && FieldWise().merged(BOTH, THEIRS) == BOTH != THEIRS
  {
    forall field | field in EMPTY.values.Keys + THEIRS.values.Keys ensures !FieldDiffers(EMPTY, THEIRS, BOTH, field) {
      assert field == "title";
    }
    assert "caption" in BOTH.values && "caption" !in THEIRS.values;
  }

  lemma SomethingToAsk()
    ensures FieldWise().differs(EMPTY, THEIRS, EDITED)
  {
    assert THEIRS.values["title"] != EDITED.values["title"] && "title" !in EMPTY.values
      && |THEIRS.values["title"]| == 6;
    assert "title" in EMPTY.values.Keys + THEIRS.values.Keys && FieldDiffers(EMPTY, THEIRS, EDITED, "title");
  }

  lemma GrantGoes()
    ensures GoesClear(8) && Grants(WrittenOverState(8), WrittenOverEvent(8), ASK, FieldWise())
  {
    hide FieldWise;
    var s := WrittenOverState(8);
    NothingToAsk();
    assert s.inbound[1..] == [SEEN] && s.exports[1 := GRANTED[1]] == GRANTED;
  }

  lemma EditGoes()
    ensures GoesClear(9)
  {
    hide FieldWise;
    assert WrittenOverState(9).said[7 := EDITED] == map[7 := EDITED];
  }

  lemma NoticingGoes()
    ensures GoesClear(10)
  {
    var s := WrittenOverState(10);
    SomethingToAsk();
    assert s.inbound[1..] == [] && s.rows[7 := WAITING[7]] == WAITING;
    hide FieldWise;
  }

  lemma WritingGoes()
    ensures GoesClear(11)
  {
    hide FieldWise;
    var s := WrittenOverState(11);
    assert s.files[BESIDE := File(3, BOTH)] == OUR_FILE;
    assert s.exports[1 := Unchecked(7, BESIDE, BOTH)] == WrittenOverState(12).exports;
  }

  lemma LookingGoes()
    ensures GoesClear(12) && GoesClear(13)
  {
    hide FieldWise;
    var s, t := WrittenOverState(12), WrittenOverState(13);
    assert s.exports - {1} == IDLE && s.inbound + t.inbound == t.inbound;
    assert t.inbound[1..] == [] && t.rows[7 := Row(BESIDE, 3, BOTH, None)] == WrittenOverState(14).rows;
  }

  lemma WrittenOverGoes(n: nat)
    requires n < 14
    ensures GoesClear(n)
  {
    hide GoesClear;
    FirstScanGoes();
    MoreLooksGo();
    AskingGoes();
    ReadingGoes();
    GrantGoes();
    EditGoes();
    NoticingGoes();
    WritingGoes();
    LookingGoes();
    assert n == 0 || n == 1 || n == 2 || n == 3 || n == 4 || n == 5 || n == 6 || n == 7 || n == 8 || n == 9 || n >= 10;
  }

  /** A change waits when the export writes, and at the end nothing waits and the file is skipped. */
  lemma WrittenOverEnds()
    ensures var s, t, last := WrittenOverState(11), WrittenOverState(12), WrittenOverState(14);
            && Waits(s, 7, BESIDE) && s.rows[7].pending.value.file == THEIRS && s.files != t.files
            && last.files == map[BESIDE := File(3, BOTH)] && last.rows == map[7 := Row(BESIDE, 3, BOTH, None)]
            && last.said == map[7 := EDITED] && !NeedsReading(last.rows, 7, Glance(BESIDE, 3))
    ensures Touches(WrittenOverState(9), WrittenOverEvent(9), 7, BESIDE) && Fresh(WrittenOverState(0))
    ensures Get(BOTH, "title") == Get(THEIRS, "title") != Get(EDITED, "title")
  {
    assert OUR_FILE[BESIDE] != THEIR_FILE[BESIDE];
    assert |Get(THEIRS, "title")| == 6 && |Get(EDITED, "title")| == 4;
  }

  /** **A merge can write over a waiting change**: a run in which nothing slips in and nobody answers. The photo is
      edited after the grant, the export writes what it said before while a change of the file waits, and its look at
      what it wrote takes the change away unasked: the file and the base agree, so nothing of it is noticed again. */
  lemma AMergeWritesOverAWaitingChange() returns (states: seq<State>, events: seq<Event>)
    ensures |events| == 14 && Run(states, events, FieldWise()) && Fresh(states[0])
    ensures forall n | 0 <= n < 14 :: events[n] == WrittenOverEvent(n)
    ensures forall n | 0 <= n <= 14 :: states[n] == WrittenOverState(n)
    ensures Grants(states[8], events[8], ASK, FieldWise()) && Touches(states[9], events[9], 7, BESIDE)
    ensures states[12].files != states[11].files
    ensures Waits(states[11], 7, BESIDE) && states[11].rows[7].pending.value.file == THEIRS
    ensures var last := states[14];
            && last.files == map[BESIDE := File(3, BOTH)] && last.rows == map[7 := Row(BESIDE, 3, BOTH, None)]
            && last.said == map[7 := EDITED] && !NeedsReading(last.rows, 7, Glance(BESIDE, 3))
    ensures Get(BOTH, "title") == Get(THEIRS, "title") != Get(EDITED, "title")
  {
    hide Next, CanHappen, InTheClear, FieldWise, WrittenOverState, WrittenOverEvent, Fresh, Grants, Touches, Waits;
    states := seq(15, n requires 0 <= n < 15 => WrittenOverState(n));
    events := seq(14, n requires 0 <= n < 14 => WrittenOverEvent(n));
    WrittenOverEnds();
    GrantGoes();
    forall n | 0 <= n < 14
      ensures CanHappen(states[n], events[n]) && InTheClear(states[n], events[n])
      ensures states[n + 1] == Next(states[n], events[n], FieldWise())
    {
      WrittenOverGoes(n);
    }
  }
}
