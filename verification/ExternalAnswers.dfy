// What an answer about another application's change leaves behind: the change answered is the base from then on, and
// the file is neither asked about nor read again until something else is recorded of it.
module ExternalAnswers {
  import opened Wrappers
  import opened KeywordIndex
  import opened ExternalFiles
  import opened ExternalWaits

  /** The change of a photo's file that waits, as it was read. */
  function WaitingReading(s: State, photo: PhotoId): Reading
    requires photo in s.rows && s.rows[photo].pending.Some?
  {
    Reading(s.rows[photo].pending.value.stat, s.rows[photo].pending.value.file)
  }

  /** **An answer is remembered**: the change that waited becomes what the file is compared with, at the stat it was
      read at, and nothing waits; a photo for which nothing waited keeps its row, and every other photo does. */
  lemma AnswerIsRemembered(s: State, photo: PhotoId, said: Fields, rules: Rules)
    ensures var after := Next(s, AnswerChange(photo, said), rules);
            && after.rows.Keys == s.rows.Keys
            && (forall p | p in s.rows && p != photo :: after.rows[p] == s.rows[p])
            && (photo in s.rows ==>
                  && after.rows[photo].path == s.rows[photo].path && after.rows[photo].pending.None?
                  && if s.rows[photo].pending.Some?
                     then after.rows[photo].stat == s.rows[photo].pending.value.stat
                          && after.rows[photo].base == s.rows[photo].pending.value.file
                     else after.rows[photo] == s.rows[photo])
            && after.files == s.files && after.inbound == s.inbound
            && after.said == if photo in s.said then s.said[photo := said] else s.said
  {
  }

  // ---------------------------------------------------------------- when the row goes, and what is recorded in it

  /** The photo leaves or moves, or a message that records another file of it is taken. */
  predicate RowGoes(s: State, e: Event, photo: PhotoId, path: Path, rules: Rules) {
    match e
    case PhotoLeaves(p) => p == photo
    case PhotoMoves(p) => p == photo
    case CoordinatorTakes(answer) => s.inbound != [] && RecordsAnother(s, s.inbound[0], answer, photo, path, rules)
    case _ => false
  }

  predicate RecordsAnother(s: State, m: Message, answer: Answer, photo: PhotoId, path: Path, rules: Rules) {
    && m.photo == photo && m.path != path
    && match m
       case Ask(_, _, _, existing, merging) =>
         && photo in s.said && merging && existing.Some?
         && (Differing(s, photo, EMPTY, existing.value, rules)
             || (answer.same && rules.merged(s.said[photo], existing.value.fields) == existing.value.fields))
       case _ => true
  }

  lemma TakingMovesRow(s: State, m: Message, answer: Answer, photo: PhotoId, path: Path, rules: Rules)
    requires Tracked(s, photo, path) && s.rows.Keys <= s.known
    ensures Tracked(HandleMessage(s, m, answer, rules), photo, path) <==>
            !RecordsAnother(s, m, answer, photo, path, rules)
  {
    if m.photo != photo {
      OthersLeaveRow(s, m, answer, photo, rules);
      hide HandleMessage;
    }
  }

  /** **A row goes exactly so**: by one event, when the photo leaves or moves, or another file of it is recorded. */
  lemma RowGoesExactly(s: State, e: Event, photo: PhotoId, path: Path, rules: Rules)
    requires CanHappen(s, e) && Tracked(s, photo, path) && s.rows.Keys <= s.known
    ensures Tracked(Next(s, e, rules), photo, path) <==> !RowGoes(s, e, photo, path, rules)
  {
    if e.CoordinatorTakes? {
      TakingMovesRow(s.(inbound := s.inbound[1..]), s.inbound[0], e.answer, photo, path, rules);
      hide HandleMessage;
    }
  }

  /** A reading of the file is taken and recorded as its base. */
  predicate Records(s: State, e: Event, photo: PhotoId, path: Path, rules: Rules) {
    && e.CoordinatorTakes? && s.inbound != [] && s.inbound[0].photo == photo && s.inbound[0].path == path
    && match s.inbound[0]
       case Ask(_, _, _, existing, merging) =>
         && photo in s.said && merging && existing.Some? && e.answer.same
         && rules.merged(s.said[photo], existing.value.fields) == existing.value.fields
       case _ => true
  }

  // ---------------------------------------------------------------- what is on its way says what waits

  /** What is on its way says of a file with a waiting change what was read of it, as long as it is still that file. */
  predicate WaitingSays(s: State, photo: PhotoId) {
    photo in s.rows && s.rows[photo].pending.Some? ==>
      var path, reading := s.rows[photo].path, WaitingReading(s, photo);
      StillAs(s, path, reading) ==> AllSay(s.inbound, path, reading.fields, 0)
  }

  /** A change that waits was waiting, or is the reading just taken. */
  lemma WaitingCameFrom(s: State, m: Message, answer: Answer, photo: PhotoId, rules: Rules)
    requires s.rows.Keys <= s.known && s.said.Keys <= s.known
    requires var after := HandleMessage(s, m, answer, rules); photo in after.rows && after.rows[photo].pending.Some?
    ensures var after := HandleMessage(s, m, answer, rules).rows[photo];
            || (photo in s.rows && s.rows[photo].path == after.path && s.rows[photo].pending == after.pending)
            || (after.path == m.path
                && ReadingOf(m) == Some(Reading(after.pending.value.stat, after.pending.value.file)))
  {
    if m.photo != photo {
      OthersLeaveRow(s, m, answer, photo, rules);
      hide HandleMessage;
    }
  }

  lemma TakingKeepsSaying(s: State, e: Event, photo: PhotoId, rules: Rules)
    requires Coherent(s) && InOrder(s) && CanHappen(s, e) && e.CoordinatorTakes? && WaitingSays(s, photo)
    ensures WaitingSays(Next(s, e, rules), photo)
  {
    var m, rest, after := s.inbound[0], s.(inbound := s.inbound[1..]), Next(s, e, rules);
    HandlingLeavesFiles(rest, m, e.answer, rules);
    if photo in after.rows && after.rows[photo].pending.Some? {
      WaitingCameFrom(rest, m, e.answer, photo, rules);
      assert Behind(s, 0);
      hide HandleMessage, Coherent, InOrder, Says;
      assert forall j | 0 <= j < |after.inbound| :: after.inbound[j] == s.inbound[j + 1];
    }
  }

  lemma OthersKeepSaying(s: State, e: Event, photo: PhotoId, rules: Rules)
    requires Coherent(s) && CanHappen(s, e) && !e.CoordinatorTakes? && WaitingSays(s, photo)
    ensures WaitingSays(Next(s, e, rules), photo)
  {
    var after := Next(s, e, rules);
    if photo in after.rows && after.rows[photo].pending.Some? {
      WaitingStays(s, e, photo, rules);
      var path, reading := s.rows[photo].path, WaitingReading(s, photo);
      if StillAs(after, path, reading) {
        assert RowHolds(s, s.rows[photo]);
        StillBefore(s, e, path, reading, rules);
        SayingKept(s, e, path, reading.fields, rules);
      }
      hide Next, CanHappen, Coherent, AllSay;
    }
  }

  lemma WaitingStays(s: State, e: Event, photo: PhotoId, rules: Rules)
    requires CanHappen(s, e) && !e.CoordinatorTakes?
    requires var after := Next(s, e, rules); photo in after.rows && after.rows[photo].pending.Some?
    ensures photo in s.rows && Next(s, e, rules).rows[photo] == s.rows[photo]
  {
  }

  lemma {:induction false} WaitingSaysAlong(states: seq<State>, events: seq<Event>, n: nat, photo: PhotoId,
                                            rules: Rules)
    requires Run(states, events, rules) && Fresh(states[0]) && n <= |events|
    ensures WaitingSays(states[n], photo)
  {
    if n > 0 {
      WaitingSaysAlong(states, events, n - 1, photo, rules);
      RunKeeps(states, events, n - 1, rules);
      InOrderAlong(states, events, n - 1, rules);
      hide Coherent, InOrder, Next, CanHappen, InTheClear, Fresh, WaitingSays;
      if events[n - 1].CoordinatorTakes? {
        TakingKeepsSaying(states[n - 1], events[n - 1], photo, rules);
      } else {
        OthersKeepSaying(states[n - 1], events[n - 1], photo, rules);
      }
    }
  }

  // ---------------------------------------------------------------- from the answer on

  /** The file was answered for: its base is what was read, nothing waits, and what is on its way says the same. */
  predicate Settled(s: State, photo: PhotoId, path: Path, reading: Reading) {
    && Tracked(s, photo, path) && s.rows[photo].base == reading.fields && s.rows[photo].pending.None?
    && Holds(s, path, reading) && (StillAs(s, path, reading) ==> AllSay(s.inbound, path, reading.fields, 0))
  }

  lemma AnswerSettles(s: State, e: Event, photo: PhotoId, rules: Rules)
    requires Coherent(s) && CanHappen(s, e) && e.AnswerChange? && e.photo == photo && WaitingSays(s, photo)
    requires photo in s.rows && s.rows[photo].pending.Some?
    ensures Settled(Next(s, e, rules), photo, s.rows[photo].path, WaitingReading(s, photo))
    ensures Next(s, e, rules).rows[photo].stat == WaitingReading(s, photo).stat
  {
    AnswerIsRemembered(s, photo, e.said, rules);
    assert RowHolds(s, s.rows[photo]);
    HoldsAfter(s, e, s.rows[photo].path, WaitingReading(s, photo), rules);
  }

  /** The row of a settled file keeps its base and has nothing waiting; only a recorded reading changes its stat. */
  predicate RowStays(s: State, t: State, e: Event, photo: PhotoId, path: Path, rules: Rules)
    requires photo in s.rows
  {
    && Tracked(t, photo, path) && t.rows[photo].base == s.rows[photo].base && t.rows[photo].pending.None?
    && t.rows[photo].stat == if Records(s, e, photo, path, rules) && ReadingOf(s.inbound[0]).Some?
                             then ReadingOf(s.inbound[0]).value.stat else s.rows[photo].stat
  }

  lemma TakingLeavesSettled(s: State, e: Event, photo: PhotoId, path: Path, rules: Rules)
    requires CanHappen(s, e) && e.CoordinatorTakes? && s.rows.Keys <= s.known && Compares(rules)
    requires Tracked(s, photo, path) && s.rows[photo].pending.None?
    requires SaysOnly(s.inbound[0], path, s.rows[photo].base) && !RowGoes(s, e, photo, path, rules)
    ensures RowStays(s, Next(s, e, rules), e, photo, path, rules)
  {
    var m, rest := s.inbound[0], s.(inbound := s.inbound[1..]);
    if m.photo != photo {
      OthersLeaveRow(rest, m, e.answer, photo, rules);
      hide HandleMessage, Compares;
    }
  }

  lemma OthersLeaveSettled(s: State, e: Event, photo: PhotoId, path: Path, rules: Rules)
    requires CanHappen(s, e) && !e.CoordinatorTakes?
    requires Tracked(s, photo, path) && s.rows[photo].pending.None? && !RowGoes(s, e, photo, path, rules)
    ensures RowStays(s, Next(s, e, rules), e, photo, path, rules)
  {
  }

  lemma SettledStep(s: State, e: Event, photo: PhotoId, path: Path, reading: Reading, rules: Rules)
    requires Coherent(s) && CanHappen(s, e) && Compares(rules) && !RowGoes(s, e, photo, path, rules)
    requires Settled(s, photo, path, reading) && StillAs(Next(s, e, rules), path, reading)
    ensures Settled(Next(s, e, rules), photo, path, reading)
    ensures RowStays(s, Next(s, e, rules), e, photo, path, rules)
  {
    StillBefore(s, e, path, reading, rules);
    HoldsAfter(s, e, path, reading, rules);
    SayingKept(s, e, path, reading.fields, rules);
    if e.CoordinatorTakes? {
      TakingLeavesSettled(s, e, photo, path, rules);
    } else {
      OthersLeaveSettled(s, e, photo, path, rules);
    }
    hide Next, CanHappen, RowGoes, Holds, Says, Compares, Records;
  }

  /** A reading with another stat was recorded at one of these events, and none after it. */
  predicate LeftAtAnotherStat(states: seq<State>, events: seq<Event>, from: nat, end: nat, photo: PhotoId, path: Path,
                              stat: Stat, rules: Rules)
    requires end <= |events| < |states|
  {
    exists m :: from <= m < end && RecordsAt(states[m], events[m], photo, path, stat, rules)
                && forall j | m < j < end :: !Records(states[j], events[j], photo, path, rules)
  }

  /** A reading with another stat is recorded. */
  predicate RecordsAt(s: State, e: Event, photo: PhotoId, path: Path, stat: Stat, rules: Rules) {
    && Records(s, e, photo, path, rules)
    && ReadingOf(s.inbound[0]).Some? && ReadingOf(s.inbound[0]).value.stat != stat
  }

  lemma NoneLeftAt(states: seq<State>, events: seq<Event>, at: nat, photo: PhotoId, path: Path, stat: Stat,
                   rules: Rules)
    requires at <= |events| < |states|
    ensures !LeftAtAnotherStat(states, events, at, at, photo, path, stat, rules)
  {
  }

  lemma SettledHolds(s: State, photo: PhotoId, path: Path, reading: Reading)
    requires Settled(s, photo, path, reading)
    ensures Holds(s, path, reading)
  {
  }

  lemma RecordsAReading(s: State, e: Event, photo: PhotoId, path: Path, rules: Rules)
    requires Records(s, e, photo, path, rules)
    ensures s.inbound != [] && ReadingOf(s.inbound[0]).Some?
  {
  }

  lemma LeftAtMore(states: seq<State>, events: seq<Event>, from: nat, end: nat, photo: PhotoId, path: Path, stat: Stat,
                   rules: Rules)
    requires from < end <= |events| < |states|
    ensures LeftAtAnotherStat(states, events, from, end, photo, path, stat, rules) <==>
            || RecordsAt(states[end - 1], events[end - 1], photo, path, stat, rules)
            || (LeftAtAnotherStat(states, events, from, end - 1, photo, path, stat, rules)
                && !Records(states[end - 1], events[end - 1], photo, path, rules))
  {
    hide Records;
    var last := end - 1;
    if LeftAtAnotherStat(states, events, from, last, photo, path, stat, rules)
       && !Records(states[last], events[last], photo, path, rules) {
      var m :| from <= m < last && RecordsAt(states[m], events[m], photo, path, stat, rules)
               && forall j | m < j < last :: !Records(states[j], events[j], photo, path, rules);
      assert forall j | m < j < end :: !Records(states[j], events[j], photo, path, rules);
    }
  }

  lemma {:induction false} SettledSince(states: seq<State>, events: seq<Event>, from: nat, n: nat, end: nat,
                                        photo: PhotoId, path: Path, reading: Reading, rules: Rules)
    requires Run(states, events, rules) && Fresh(states[0]) && Compares(rules) && from <= n <= end <= |events|
    requires Settled(states[from], photo, path, reading) && states[from].rows[photo].stat == reading.stat
    requires StillAs(states[end], path, reading)
    requires forall i | from <= i < end :: !RowGoes(states[i], events[i], photo, path, rules)
    ensures Settled(states[n], photo, path, reading)
    ensures states[n].rows[photo].stat != reading.stat <==>
              LeftAtAnotherStat(states, events, from, n, photo, path, reading.stat, rules)
    decreases n
  {
    hide Coherent, Next, CanHappen, InTheClear, Fresh, RowGoes, Compares, StillAs, Holds, LeftAtAnotherStat, Records,
      AllSay, ReadingOf;
    if from == n {
      NoneLeftAt(states, events, from, photo, path, reading.stat, rules);
    } else {
      var i := n - 1;
      SettledSince(states, events, from, i, end, photo, path, reading, rules);
      SettledHolds(states[from], photo, path, reading);
      StillAlong(states, events, from, n, end, path, reading, rules);
      RunKeeps(states, events, i, rules);
      KnownAlong(states, events, i, rules);
      LeftAtMore(states, events, from, n, photo, path, reading.stat, rules);
      SettledStep(states[i], events[i], photo, path, reading, rules);
      if Records(states[i], events[i], photo, path, rules) {
        RecordsAReading(states[i], events[i], photo, path, rules);
      }
    }
  }

  /** **What was answered is asked no more**: along every run, from the answer on, as long as the file is the one that
      was answered for and its row does not go, its base is what was answered and nothing of it waits; and a scan that
      lists it skips it, unless the last reading of it that was recorded since came with another stat. */
  lemma AnsweredOnce(states: seq<State>, events: seq<Event>, answered: nat, end: nat, photo: PhotoId, rules: Rules)
    requires Run(states, events, rules) && Fresh(states[0]) && answered < end <= |events| && Compares(rules)
    requires events[answered].AnswerChange? && events[answered].photo == photo
    requires photo in states[answered].rows && states[answered].rows[photo].pending.Some?
    requires var path, reading := states[answered].rows[photo].path, WaitingReading(states[answered], photo);
             && StillAs(states[end], path, reading)
             && forall n | answered < n < end :: !RowGoes(states[n], events[n], photo, path, rules)
    ensures var path, reading := states[answered].rows[photo].path, WaitingReading(states[answered], photo);
            && photo in states[end].rows && states[end].rows[photo].path == path
            && states[end].rows[photo].base == reading.fields && states[end].rows[photo].pending.None?
            && (NeedsReading(states[end].rows, photo, Glance(path, reading.stat)) <==>
                  LeftAtAnotherStat(states, events, answered + 1, end, photo, path, reading.stat, rules))
  {
    RunKeeps(states, events, answered, rules);
    WaitingSaysAlong(states, events, answered, photo, rules);
    KnownAlong(states, events, answered, rules);
    AnswerSettles(states[answered], events[answered], photo, rules);
    hide Coherent, Next, CanHappen, RowGoes, Compares, AllSay, Holds, Fresh, InTheClear, LeftAtAnotherStat, Records;
    SettledSince(states, events, answered + 1, end, end, photo, states[answered].rows[photo].path,
                 WaitingReading(states[answered], photo), rules);
  }
}
