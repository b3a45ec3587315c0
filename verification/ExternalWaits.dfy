// What waits for an answer when an export writes: when a change is noticed after the export was granted, when one is
// lost, and that nothing waits when nobody touched the photo in between.
module ExternalWaits {
  import opened Wrappers
  import opened KeywordIndex
  import opened ExternalFiles

  // ---------------------------------------------------------------- what waits when an export writes

  /** A change of a photo's file waits for an answer. */
  predicate Waits(s: State, photo: PhotoId, path: Path) { Tracked(s, photo, path) && s.rows[photo].pending.Some? }

  /** The file as it was read has something to take or ask, against a base. */
  predicate Differing(s: State, photo: PhotoId, base: Fields, reading: Reading, rules: Rules) {
    photo in s.said && rules.differs(base, reading.fields, s.said[photo])
  }

  function BaseOf(s: State, photo: PhotoId, path: Path): Fields {
    if Tracked(s, photo, path) then s.rows[photo].base else EMPTY
  }

  /** A reading of the photo's file that differs is taken: a scan's of a file that is tracked, or a merging export's. */
  predicate TakesDiffering(s: State, e: Event, photo: PhotoId, path: Path, rules: Rules) {
    && e.CoordinatorTakes? && s.inbound != []
    && match s.inbound[0]
       case Seen(p, at, reading) =>
         p == photo && at == path && Tracked(s, photo, path)
           && Differing(s, photo, BaseOf(s, photo, path), reading, rules)
       case Ask(_, p, at, existing, merging) =>
         p == photo && at == path && merging && existing.Some?
         && Differing(s, photo, BaseOf(s, photo, path), existing.value, rules)
       case Written(_, _, _) => false
  }

  /** What takes a waiting change away: an answer, the photo's leaving or moving; and, unasked, an export's look at what
      it wrote, a reading that does not differ, and a record of another file of the photo. */
  predicate TakesAway(s: State, e: Event, photo: PhotoId, path: Path, rules: Rules) {
    match e
    case AnswerChange(p, _) => p == photo
    case PhotoLeaves(p) => p == photo
    case PhotoMoves(p) => p == photo
    case CoordinatorTakes(answer) => s.inbound != [] && TakenUnasked(s, s.inbound[0], answer, photo, path, rules)
    case _ => false
  }

  predicate TakenUnasked(s: State, m: Message, answer: Answer, photo: PhotoId, path: Path,
                         rules: Rules)
  {
    m.photo == photo
    && match m
       case Written(_, _, _) => true
       case Seen(_, at, reading) => at != path || !Differing(s, photo, BaseOf(s, photo, path), reading, rules)
       case Ask(_, _, at, existing, merging) =>
         at != path && photo in s.said && merging && existing.Some?
         && (Differing(s, photo, EMPTY, existing.value, rules)
             || (answer.same && rules.merged(s.said[photo], existing.value.fields) == existing.value.fields))
  }

  /** A photo's row, and what it says, are as they were. */
  predicate SameFor(s: State, t: State, photo: PhotoId) {
    && (photo in t.said <==> photo in s.said) && (photo in s.said ==> t.said[photo] == s.said[photo])
    && (photo in t.rows <==> photo in s.rows) && (photo in s.rows ==> t.rows[photo] == s.rows[photo])
  }

  lemma SettingOthers(s: State, other: PhotoId, path: Path, reading: Reading, photo: PhotoId)
    requires other != photo
    ensures SameFor(s, SetBase(s, other, path, reading), photo) && SameFor(s, SetPending(s, other, reading), photo)
  {
  }

  lemma AskingOthers(s: State, m: Message, answer: Answer, photo: PhotoId, rules: Rules)
    requires m.Ask? && m.photo != photo
    ensures SameFor(s, PrepareExport(s, m, answer, rules), photo)
  {
    hide SetBase, SetPending, Tracked;
    if m.existing.Some? {
      var based := SetBase(s, m.photo, m.path, Reading(NO_FILE, EMPTY));
      SettingOthers(s, m.photo, m.path, m.existing.value, photo);
      SettingOthers(s, m.photo, m.path, Reading(NO_FILE, EMPTY), photo);
      SettingOthers(based, m.photo, m.path, m.existing.value, photo);
    }
  }

  lemma OthersLeaveRow(s: State, m: Message, answer: Answer, photo: PhotoId, rules: Rules)
    requires m.photo != photo
    ensures SameFor(s, HandleMessage(s, m, answer, rules), photo)
  {
    hide SetBase, SetPending, PrepareExport, SameFor;
    if m.Ask? {
      AskingOthers(s, m, answer, photo, rules);
    } else {
      SettingOthers(s, m.photo, m.path, m.reading, photo);
    }
  }

  /** From one event to the next a change waits exactly when a differing reading is taken, or it waited and nothing took
      it away. */
  lemma WaitsNext(s: State, e: Event, photo: PhotoId, path: Path, rules: Rules)
    requires CanHappen(s, e) && s.rows.Keys <= s.known && s.said.Keys <= s.known
    ensures Waits(Next(s, e, rules), photo, path) <==>
            TakesDiffering(s, e, photo, path, rules) || (Waits(s, photo, path) && !TakesAway(s, e, photo, path, rules))
  {
    if e.CoordinatorTakes? {
      WaitsAfter(s, s.inbound[0], e.answer, photo, path, rules);
    }
  }

  lemma WaitsAfter(s: State, m: Message, answer: Answer, photo: PhotoId, path: Path, rules: Rules)
    requires s.inbound != [] && s.inbound[0] == m && s.rows.Keys <= s.known && s.said.Keys <= s.known
    ensures Waits(HandleMessage(s.(inbound := s.inbound[1..]), m, answer, rules), photo, path) <==>
            TakesDiffering(s, CoordinatorTakes(answer), photo, path, rules)
            || (Waits(s, photo, path) && !TakenUnasked(s, m, answer, photo, path, rules))
  {
    var rest := s.(inbound := s.inbound[1..]);
    if m.photo != photo {
      OthersLeaveRow(rest, m, answer, photo, rules);
      hide HandleMessage;
    } else if m.Ask? {
      WaitsAfterAsking(rest, m, answer, path, rules);
      hide PrepareExport, Differing, Tracked;
    } else {
      hide PrepareExport;
    }
  }

  lemma WaitsAfterAsking(s: State, m: Message, answer: Answer, path: Path, rules: Rules)
    requires m.Ask? && s.rows.Keys <= s.known && s.said.Keys <= s.known
    ensures Waits(PrepareExport(s, m, answer, rules), m.photo, path) <==>
            (m.path == path && m.merging && m.existing.Some?
             && Differing(s, m.photo, BaseOf(s, m.photo, path), m.existing.value, rules))
            || (Waits(s, m.photo, path) && !TakenUnasked(s, m, answer, m.photo, path, rules))
  {
  }

  /** A differing reading was taken at one of these events and nothing took the change away after it. */
  predicate LeftWaiting(states: seq<State>, events: seq<Event>, from: nat, end: nat, photo: PhotoId, path: Path,
                        rules: Rules)
    requires end <= |events| < |states|
  {
    exists m :: from <= m < end && TakesDiffering(states[m], events[m], photo, path, rules)
                && forall j | m < j < end :: !TakesAway(states[j], events[j], photo, path, rules)
  }

  lemma {:induction false} WaitsSince(states: seq<State>, events: seq<Event>, from: nat, end: nat, photo: PhotoId,
                                      path: Path, rules: Rules)
    requires Run(states, events, rules) && Fresh(states[0]) && from <= end <= |events|
    requires !Waits(states[from], photo, path)
    ensures Waits(states[end], photo, path) <==> LeftWaiting(states, events, from, end, photo, path, rules)
  {
    assert |states| == |events| + 1;
    hide Run, TakesDiffering, TakesAway, Waits, Coherent, Fresh, Next, CanHappen, LeftWaiting;
    if from < end {
      WaitsSince(states, events, from, end - 1, photo, path, rules);
      KnownAlong(states, events, end - 1, rules);
      WaitsNext(states[end - 1], events[end - 1], photo, path, rules);
      LeftMore(states, events, from, end, photo, path, rules);
    } else {
      NothingLeft(states, events, from, photo, path, rules);
    }
  }

  lemma NothingLeft(states: seq<State>, events: seq<Event>, at: nat, photo: PhotoId, path: Path,
                    rules: Rules)
    requires at <= |events| < |states|
    ensures !LeftWaiting(states, events, at, at, photo, path, rules)
  {
  }

  lemma LeftMore(states: seq<State>, events: seq<Event>, from: nat, end: nat, photo: PhotoId, path: Path,
                 rules: Rules)
    requires from < end <= |events| < |states|
    ensures LeftWaiting(states, events, from, end, photo, path, rules) <==>
            TakesDiffering(states[end - 1], events[end - 1], photo, path, rules)
            || (LeftWaiting(states, events, from, end - 1, photo, path, rules)
                && !TakesAway(states[end - 1], events[end - 1], photo, path, rules))
  {
    hide TakesDiffering, TakesAway;
    var last := end - 1;
    if LeftWaiting(states, events, from, last, photo, path, rules)
      && !TakesAway(states[last], events[last], photo, path, rules) {
      var m :| from <= m < last && TakesDiffering(states[m], events[m], photo, path, rules)
        && forall j | m < j < last :: !TakesAway(states[j], events[j], photo, path, rules);
      assert forall j | m < j < end :: !TakesAway(states[j], events[j], photo, path, rules);
    }
  }

  lemma KnownAlong(states: seq<State>, events: seq<Event>, n: nat, rules: Rules)
    requires Run(states, events, rules) && Fresh(states[0]) && n < |events|
    ensures CanHappen(states[n], events[n]) && states[n + 1] == Next(states[n], events[n], rules)
    ensures states[n].rows.Keys <= states[n].known && states[n].said.Keys <= states[n].known
  {
    RunKeeps(states, events, n, rules);
  }

  /** A merging export of a file that exists may write only if, at the decision, no change of it waits for an answer and
      the file, against the base, has nothing to take or ask. */
  lemma GrantedMeansNothingWaits(s: State, m: Message, answer: Answer, rules: Rules)
    requires m.Ask? && m.job !in s.exports && m.merging && m.existing.Some?
    requires m.job in PrepareExport(s, m, answer, rules).exports
    ensures m.photo in s.said && PrepareExport(s, m, answer, rules) == Grant(
              s, m, rules.merged(s.said[m.photo], m.existing.value.fields))
    ensures Tracked(s, m.photo, m.path) ==>
              s.rows[m.photo].pending.None? && !rules.differs(s.rows[m.photo].base, m.existing.value.fields,
                                                              s.said[m.photo])
    ensures !Tracked(s, m.photo, m.path) ==> !rules.differs(EMPTY, m.existing.value.fields, s.said[m.photo])
  {
  }

  /** A merging export of a file that is there is granted. */
  predicate Grants(s: State, e: Event, m: Message, rules: Rules)
    requires CanHappen(s, e)
  {
    && e.CoordinatorTakes? && s.inbound[0] == m && m.Ask? && m.merging && m.existing.Some?
    && m.job !in s.exports && m.job in Next(s, e, rules).exports
  }

  /** **What waits when a merging export writes**: nothing waited when it was granted, and along every run a change of
      the file waits at the write if and only if a differing reading of it was taken after the grant and nothing took
      the change away since. */
  lemma WaitsAtTheWriteExactly(states: seq<State>, events: seq<Event>, granted: nat, write: nat, m: Message,
                               rules: Rules)
    requires Run(states, events, rules) && Fresh(states[0]) && granted < write < |events|
    requires CanHappen(states[granted], events[granted]) && Grants(states[granted], events[granted], m, rules)
    requires events[write] == ExportWrites(m.job)
    ensures !Waits(states[granted], m.photo, m.path) && !Waits(states[granted + 1], m.photo, m.path)
    ensures Waits(states[write], m.photo, m.path)
            <==> LeftWaiting(states, events, granted + 1, write, m.photo, m.path, rules)
  {
    KnownAlong(states, events, granted, rules);
    GrantedMeansNothingWaits(states[granted].(inbound := states[granted].inbound[1..]), m, events[granted].answer,
                             rules);
    WaitsSince(states, events, granted + 1, write, m.photo, m.path, rules);
  }

  /** **When a waiting change is lost**: along every run, by one event, exactly when the photo is answered, leaves or
      moves, or a message about it is taken that records another file, what an export wrote, or a reading that does not
      differ. */
  lemma LostExactly(states: seq<State>, events: seq<Event>, n: nat, photo: PhotoId, path: Path,
                    rules: Rules)
    requires Run(states, events, rules) && Fresh(states[0]) && n < |events| && Waits(states[n], photo, path)
    ensures !Waits(states[n + 1], photo, path) <==> TakesAway(states[n], events[n], photo, path, rules)
  {
    hide Next, Waits, Differing;
    KnownAlong(states, events, n, rules);
    WaitsNext(states[n], events[n], photo, path, rules);
  }

  // ---------------------------------------------------------------- nobody touched the photo

  /** What a message says a file holds; nothing when none was there. */
  function Says(m: Message): Option<Fields> {
    match m
    case Seen(_, _, reading) => Some(reading.fields)
    case Ask(_, _, _, existing, _) => if existing.Some? then Some(existing.value.fields) else None
    case Written(_, _, reading) => Some(reading.fields)
  }

  predicate SaysOnly(m: Message, path: Path, fields: Fields) {
    m.path == path ==> Says(m).None? || Says(m).value == fields
  }

  /** Every message from here on says of the file that it holds these fields. */
  predicate AllSay(inbound: seq<Message>, path: Path, fields: Fields, from: nat) {
    forall j | from <= j < |inbound| :: SaysOnly(inbound[j], path, fields)
  }

  /** The file is still the one that was read. */
  predicate StillAs(s: State, path: Path, reading: Reading) { path in s.files && s.files[path].stat == reading.stat }

  /** What a message read of its file, if it read it. */
  function ReadingOf(m: Message): Option<Reading> { if m.Ask? then m.existing else Some(m.reading) }

  /** What comes after a reading of a file says the same of it, as long as the file is still the one that was read. */
  predicate Behind(s: State, i: nat)
    requires i < |s.inbound|
  {
    var m := s.inbound[i];
    ReadingOf(m).Some? && StillAs(s, m.path, ReadingOf(m).value)
    ==> AllSay(s.inbound, m.path, ReadingOf(m).value.fields, i + 1)
  }

  predicate InOrder(s: State) { forall i | 0 <= i < |s.inbound| :: Behind(s, i) }

  /** A message tells of the file as it is. */
  predicate UpToNow(s: State, m: Message) { m.path in s.files ==> SaysOnly(m, m.path, s.files[m.path].fields) }

  /** What an event sends. */
  function Sent(s: State, e: Event): seq<Message>
    requires CanHappen(s, e)
  {
    match e
    case ScanReads(photo, glance) =>
      var g := s.glances[glance];
      [Seen(photo, g.path, Reading(g.stat, s.files[g.path].fields))]
    case ExportAsks(id, photo, path, look, merging) =>
      [Ask(id, photo, path,
           if look.None? then None else Some(Reading(s.glances[look.value].stat, s.files[path].fields)), merging)]
    case ExportLooks(id) =>
      var x := s.exports[id];
      [Written(x.photo, x.path, Reading(StatOf(s, x.path), x.wrote))]
    case _ => []
  }

  /** An event sends at most one message, at the end, about the file as it is; only the coordinator takes one. */
  lemma InboundAfter(s: State, e: Event, rules: Rules)
    requires CanHappen(s, e) && Coherent(s)
    ensures Next(s, e, rules).inbound == if e.CoordinatorTakes? then s.inbound[1..] else s.inbound + Sent(s, e)
    ensures |Sent(s, e)| <= 1 && forall m | m in Sent(s, e) :: UpToNow(s, m)
  {
    hide HandleMessage, Coherent, UpToNow;
    if e.CoordinatorTakes? {
      HandlingLeavesFiles(s.(inbound := s.inbound[1..]), s.inbound[0], e.answer, rules);
    } else {
      SendsNow(s, e);
    }
  }

  lemma SendsNow(s: State, e: Event)
    requires CanHappen(s, e) && Coherent(s)
    ensures |Sent(s, e)| <= 1 && forall m | m in Sent(s, e) :: UpToNow(s, m)
  {
    if e.ExportLooks? {
      assert ExportHolds(s, s.exports[e.job]);
    }
    hide Coherent;
  }

  /** A stat is given once: a file that is as it was read was so before the event, and holds what was read. */
  lemma StillBefore(s: State, e: Event, path: Path, reading: Reading, rules: Rules)
    requires CanHappen(s, e) && Holds(s, path, reading) && StillAs(Next(s, e, rules), path, reading)
    ensures StillAs(s, path, reading) && s.files[path].fields == reading.fields
  {
    hide HandleMessage;
    if e.CoordinatorTakes? {
      HandlingLeavesFiles(s.(inbound := s.inbound[1..]), s.inbound[0], e.answer, rules);
    }
  }

  lemma OrderKept(s: State, e: Event, i: nat, rules: Rules)
    requires Coherent(s) && InOrder(s) && CanHappen(s, e) && i < |Next(s, e, rules).inbound|
    ensures Behind(Next(s, e, rules), i)
  {
    var after := Next(s, e, rules);
    InboundAfter(s, e, rules);
    var m := after.inbound[i];
    if ReadingOf(m).Some? && StillAs(after, m.path, ReadingOf(m).value) {
      var at := if e.CoordinatorTakes? then i + 1 else i;
      if at < |s.inbound| {
        assert s.inbound[at] == m && MessageHolds(s, s.inbound[at]) && Behind(s, at);
        StillBefore(s, e, m.path, ReadingOf(m).value, rules);
        hide Next, CanHappen, Coherent, InOrder, MessageHolds, Says;
        forall j | i < j < |after.inbound| ensures SaysOnly(after.inbound[j], m.path, ReadingOf(m).value.fields) {
          if e.CoordinatorTakes? {
            assert after.inbound[j] == s.inbound[j + 1];
          } else if j >= |s.inbound| {
            assert after.inbound[j] in Sent(s, e);
          }
        }
      }
    }
  }

  lemma {:induction false} InOrderAlong(states: seq<State>, events: seq<Event>, n: nat, rules: Rules)
    requires Run(states, events, rules) && Fresh(states[0]) && n <= |events|
    ensures InOrder(states[n])
  {
    if n > 0 {
      InOrderAlong(states, events, n - 1, rules);
      RunKeeps(states, events, n - 1, rules);
      hide Coherent, InOrder, Next, CanHappen, InTheClear, Fresh, Behind;
      forall i: nat | i < |states[n].inbound| ensures Behind(states[n], i) {
        OrderKept(states[n - 1], events[n - 1], i, rules);
      }
      AllBehind(states[n]);
    }
  }

  lemma AllBehind(s: State)
    requires forall i: nat | i < |s.inbound| :: Behind(s, i)
    ensures InOrder(s)
  {
    hide Behind;
  }

  /** Nothing of the file waits, and there would be nothing to take or to ask if it held these fields. */
  predicate Quiet(s: State, photo: PhotoId, path: Path, fields: Fields, rules: Rules) {
    photo in s.said && !Waits(s, photo, path) && !rules.differs(BaseOf(s, photo, path), fields, s.said[photo])
  }

  /** Somebody edits the photo, answers for it, moves it, makes it unreadable or takes it out, or a message about
      another file of it is taken. */
  predicate Touches(s: State, e: Event, photo: PhotoId, path: Path) {
    match e
    case PhotoSays(p, _) => p == photo
    case AnswerChange(p, _) => p == photo
    case PhotoMoves(p) => p == photo
    case PhotoUnreadable(p) => p == photo
    case PhotoLeaves(p) => p == photo
    case CoordinatorTakes(_) => s.inbound != [] && s.inbound[0].photo == photo && s.inbound[0].path != path
    case _ => false
  }

  /** A file that holds what its base says gives nothing to take or to ask. */
  ghost predicate Compares(rules: Rules) { forall base, file, mine :: rules.differs(base, file, mine) ==> base != file }

  lemma SameIsQuiet(s: State, t: State, photo: PhotoId, path: Path, fields: Fields, rules: Rules)
    requires SameFor(s, t, photo) && Quiet(s, photo, path, fields, rules)
    ensures Quiet(t, photo, path, fields, rules)
  {
  }

  lemma ReadingKeepsQuiet(s: State, photo: PhotoId, path: Path, reading: Reading, rules: Rules)
    requires Quiet(s, photo, path, reading.fields, rules) && Compares(rules)
    ensures Quiet(SetBase(s, photo, path, reading), photo, path, reading.fields, rules)
  {
  }

  lemma AskKeepsQuiet(s: State, m: Message, answer: Answer, rules: Rules)
    requires m.Ask? && m.existing.Some? && Quiet(s, m.photo, m.path, m.existing.value.fields, rules) && Compares(rules)
    ensures Quiet(PrepareExport(s, m, answer, rules), m.photo, m.path, m.existing.value.fields, rules)
  {
    hide SetBase, SetPending, Compares;
    ReadingKeepsQuiet(s, m.photo, m.path, m.existing.value, rules);
  }

  lemma QuietAfter(s: State, m: Message, answer: Answer, photo: PhotoId, path: Path, fields: Fields, rules: Rules)
    requires Quiet(s, photo, path, fields, rules) && Compares(rules)
    requires SaysOnly(m, path, fields) && (m.photo == photo ==> m.path == path)
    ensures Quiet(HandleMessage(s, m, answer, rules), photo, path, fields, rules)
  {
    if m.photo != photo {
      OthersLeaveRow(s, m, answer, photo, rules);
      SameIsQuiet(s, HandleMessage(s, m, answer, rules), photo, path, fields, rules);
      hide HandleMessage, Quiet, SameFor;
    } else {
      match m
      case Seen(_, _, reading) =>
        ReadingKeepsQuiet(s, photo, path, reading, rules);
        hide SetBase, SetPending, Compares;
      case Written(_, _, reading) => ReadingKeepsQuiet(s, photo, path, reading, rules);
      case Ask(_, _, _, existing, _) =>
        if existing.Some? {
          AskKeepsQuiet(s, m, answer, rules);
        }
        hide SetBase, SetPending, Compares;
    }
  }

  lemma QuietKept(s: State, e: Event, photo: PhotoId, path: Path, fields: Fields, rules: Rules)
    requires CanHappen(s, e) && Quiet(s, photo, path, fields, rules) && Compares(rules)
    requires AllSay(s.inbound, path, fields, 0) && !Touches(s, e, photo, path)
    ensures Quiet(Next(s, e, rules), photo, path, fields, rules)
  {
    if e.CoordinatorTakes? {
      QuietAfter(s.(inbound := s.inbound[1..]), s.inbound[0], e.answer, photo, path, fields, rules);
      hide HandleMessage;
    } else {
      OtherEventsLeaveRow(s, e, photo, path, rules);
      SameIsQuiet(s, Next(s, e, rules), photo, path, fields, rules);
      hide Next, CanHappen, Quiet, SameFor;
    }
  }

  lemma OtherEventsLeaveRow(s: State, e: Event, photo: PhotoId, path: Path, rules: Rules)
    requires CanHappen(s, e) && !e.CoordinatorTakes? && !Touches(s, e, photo, path)
    ensures SameFor(s, Next(s, e, rules), photo)
  {
  }

  lemma SayingKept(s: State, e: Event, path: Path, fields: Fields, rules: Rules)
    requires CanHappen(s, e) && Coherent(s) && AllSay(s.inbound, path, fields, 0)
    requires path in s.files && s.files[path].fields == fields
    ensures AllSay(Next(s, e, rules).inbound, path, fields, 0)
  {
    InboundAfter(s, e, rules);
    hide Next, CanHappen, Coherent, Says;
  }

  lemma {:induction false} HoldsAlong(states: seq<State>, events: seq<Event>, from: nat, end: nat, path: Path,
                                      reading: Reading, rules: Rules)
    requires Run(states, events, rules) && from <= end <= |events| && Holds(states[from], path, reading)
    ensures Holds(states[end], path, reading)
  {
    hide Holds, Next, CanHappen, InTheClear;
    if from < end {
      HoldsAlong(states, events, from, end - 1, path, reading, rules);
      HoldsAfter(states[end - 1], events[end - 1], path, reading, rules);
    }
  }

  lemma HoldsAfter(s: State, e: Event, path: Path, reading: Reading, rules: Rules)
    requires CanHappen(s, e) && Holds(s, path, reading)
    ensures Holds(Next(s, e, rules), path, reading)
  {
    if e.CoordinatorTakes? {
      HandlingLeavesFiles(s.(inbound := s.inbound[1..]), s.inbound[0], e.answer, rules);
      hide HandleMessage;
    }
  }

  /** Nothing of the file waits, and what is on its way says of it what was read. */
  predicate Steady(s: State, photo: PhotoId, path: Path, reading: Reading, rules: Rules) {
    && Quiet(s, photo, path, reading.fields, rules) && Holds(s, path, reading)
    && (StillAs(s, path, reading) ==> AllSay(s.inbound, path, reading.fields, 0))
  }

  lemma SteadyStep(s: State, e: Event, photo: PhotoId, path: Path, reading: Reading, rules: Rules)
    requires Coherent(s) && CanHappen(s, e) && Compares(rules) && !Touches(s, e, photo, path)
    requires Steady(s, photo, path, reading, rules) && StillAs(Next(s, e, rules), path, reading)
    ensures Steady(Next(s, e, rules), photo, path, reading, rules)
  {
    hide Coherent, Next, CanHappen, Quiet, Touches, AllSay, Compares, Holds;
    StillBefore(s, e, path, reading, rules);
    HoldsAfter(s, e, path, reading, rules);
    SayingKept(s, e, path, reading.fields, rules);
    QuietKept(s, e, photo, path, reading.fields, rules);
  }

  /** A file that is still the one that was read has been so all along. */
  lemma {:induction false} StillAlong(states: seq<State>, events: seq<Event>, from: nat, n: nat, end: nat, path: Path,
                                      reading: Reading, rules: Rules)
    requires Run(states, events, rules) && from <= n <= end <= |events|
    requires Holds(states[from], path, reading) && StillAs(states[end], path, reading)
    ensures Holds(states[n], path, reading) && StillAs(states[n], path, reading)
    decreases end - n
  {
    hide Next, CanHappen, InTheClear, Holds, StillAs;
    HoldsAlong(states, events, from, n, path, reading, rules);
    if n < end {
      StillAlong(states, events, from, n + 1, end, path, reading, rules);
      StillBefore(states[n], events[n], path, reading, rules);
    }
  }

  /** From the grant on, as long as the file is the one the export read, nothing of it waits. */
  lemma {:induction false} SteadySince(states: seq<State>, events: seq<Event>, from: nat, n: nat, end: nat,
                                       photo: PhotoId, path: Path, reading: Reading, rules: Rules)
    requires Run(states, events, rules) && Fresh(states[0]) && Compares(rules) && from <= n <= end <= |events|
    requires Steady(states[from], photo, path, reading, rules) && StillAs(states[end], path, reading)
    requires forall i | from <= i < end :: !Touches(states[i], events[i], photo, path)
    ensures Steady(states[n], photo, path, reading, rules)
    decreases n
  {
    if from < n {
      var i := n - 1;
      SteadySince(states, events, from, i, end, photo, path, reading, rules);
      StillAlong(states, events, from, n, end, path, reading, rules);
      RunKeeps(states, events, i, rules);
      KnownAlong(states, events, i, rules);
      hide Coherent, Next, CanHappen, Run, Fresh, Steady, Touches, Compares, StillAs, Holds;
      SteadyStep(states[i], events[i], photo, path, reading, rules);
    }
  }

  /** At the grant nothing of the file waits, and what is on its way says of it what the export read. */
  lemma QuietAtTheGrant(s: State, e: Event, m: Message, rules: Rules)
    requires Coherent(s) && InOrder(s) && CanHappen(s, e) && Grants(s, e, m, rules)
    ensures Steady(Next(s, e, rules), m.photo, m.path, m.existing.value, rules)
  {
    GrantedMeansNothingWaits(s.(inbound := s.inbound[1..]), m, e.answer, rules);
    InboundAfter(s, e, rules);
    assert MessageHolds(s, s.inbound[0]) && Behind(s, 0);
    HoldsAfter(s, e, m.path, m.existing.value, rules);
    QuietGrant(s.(inbound := s.inbound[1..]), m, e.answer, rules);
    HandlingLeavesFiles(s.(inbound := s.inbound[1..]), m, e.answer, rules);
    hide HandleMessage, Coherent, InOrder, Says, Quiet, MessageHolds;
  }

  lemma QuietGrant(s: State, m: Message, answer: Answer, rules: Rules)
    requires m.Ask? && m.job !in s.exports && m.merging && m.existing.Some?
    requires m.job in PrepareExport(s, m, answer, rules).exports
    ensures Quiet(PrepareExport(s, m, answer, rules), m.photo, m.path, m.existing.value.fields, rules)
  {
    hide PrepareExport;
    GrantedMeansNothingWaits(s, m, answer, rules);
  }

  /** **Nothing waits unless the photo was touched**: along every run, when a merging export comes to write and the file
      is still the one it read, no change of the file waits, unless after the grant the photo was edited, answered for,
      moved, made unreadable or taken out, or a message about another file of it was taken. */
  lemma NothingWaitsUnlessTouched(states: seq<State>, events: seq<Event>, granted: nat, write: nat, m: Message,
                                  rules: Rules)
    requires Run(states, events, rules) && Fresh(states[0]) && granted < write <= |events| && Compares(rules)
    requires CanHappen(states[granted], events[granted]) && Grants(states[granted], events[granted], m, rules)
    requires StillAs(states[write], m.path, m.existing.value)
    requires forall n | granted < n < write :: !Touches(states[n], events[n], m.photo, m.path)
    ensures !Waits(states[write], m.photo, m.path)
  {
    RunKeeps(states, events, granted, rules);
    InOrderAlong(states, events, granted, rules);
    assert states[granted + 1] == Next(states[granted], events[granted], rules);
    QuietAtTheGrant(states[granted], events[granted], m, rules);
    hide Coherent, InOrder, Next, CanHappen, Grants, Touches, Compares, AllSay, Holds, Fresh, InTheClear;
    SteadySince(states, events, granted + 1, write, write, m.photo, m.path, m.existing.value, rules);
  }
}
